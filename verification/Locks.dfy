// Who holds what, exactly, in every reachable state: row locks, index keys, Redis keys.
module Locks {
  import opened Schema
  import opened History
  import opened Protocol
  import opened Refinement
  import opened Steps

  // ---------- nobody holds more than its program counter says ----------

  predicate HeldWithin<K(==)>(m: map<K, Pid>, procs: map<Pid, Proc>, held: Proc -> Option<K>) {
    forall k :: k in m ==> m[k] in procs && held(procs[m[k]]) == Some(k)
  }

  predicate Within(mode: Mode, s: State) {
    && HeldWithin(s.eventLocks, s.procs, (pc: Proc) => EventHeld(mode, pc))
    && HeldWithin(s.bookingLocks, s.procs, BookingHeld)
    && HeldWithin(s.inDoubt, s.procs, KeyInDoubt)
  }

  lemma ReleaseWithin<K>(m: map<K, Pid>, procs: map<Pid, Proc>, held: Proc -> Option<K>, p: Pid, pc: Proc)
    requires HeldWithin(m, procs, held)
    ensures HeldWithin(Without(m, p), procs[p := pc], held)
  {
  }

  lemma GainWithin<K>(m: map<K, Pid>, m': map<K, Pid>, procs: map<Pid, Proc>, held: Proc -> Option<K>,
                          p: Pid, pc: Proc)
    requires HeldWithin(m, procs, held) && Gains(m, m', p, held(pc))
    requires p in procs ==> StillHeld(held(procs[p]), held(pc))
    ensures HeldWithin(m', procs[p := pc], held)
  {
  }

  lemma DisciplineKeepsWithin(mode: Mode, s: State, s': State, p: Pid)
    requires Within(mode, s) && Disciplined(mode, s, s', p)
    ensures Within(mode, s')
  {
    var pc := s'.procs[p];
    hide HeldWithin, Gains;
    if Released(s, s', p) {
      ReleaseWithin(s.eventLocks, s.procs, (pc: Proc) => EventHeld(mode, pc), p, pc);
      ReleaseWithin(s.bookingLocks, s.procs, BookingHeld, p, pc);
      ReleaseWithin(s.inDoubt, s.procs, KeyInDoubt, p, pc);
    } else {
      GainWithin(s.eventLocks, s'.eventLocks, s.procs, (pc: Proc) => EventHeld(mode, pc), p, pc);
      GainWithin(s.bookingLocks, s'.bookingLocks, s.procs, BookingHeld, p, pc);
      GainWithin(s.inDoubt, s'.inDoubt, s.procs, KeyInDoubt, p, pc);
    }
  }

  lemma ArrivalWithin(mode: Mode, s: State, p: Pid, pc: Proc)
    requires Within(mode, s) && p !in s.procs
    ensures Within(mode, At(s, p, pc))
  {
  }

  lemma StepWithin(mode: Mode, s: State, l: Label)
    requires Within(mode, s)
    ensures Within(mode, Step(mode, s, l))
  {
    hide HeldWithin;
    if l.CreateEvent? || l.RedisChange? {
    } else if l.Arrive? {
      hide Within;
      if l.p !in s.procs { ArrivalWithin(mode, s, l.p, Begin(l.request)); }
    } else if l.p in s.procs {
      hide Within, Disciplined, Moves, StepProc;
      StepIsProper(mode, s, l, s.procs[l.p]);
      if Step(mode, s, l) != s { DisciplineKeepsWithin(mode, s, Step(mode, s, l), l.p); }
    }
  }

  lemma {:induction false} RunWithin(mode: Mode, run: seq<Label>)
    ensures Within(mode, Exec(mode, run))
  {
    if run != [] {
      hide Within, Step;
      RunWithin(mode, run[..|run| - 1]);
      StepWithin(mode, Exec(mode, run[..|run| - 1]), run[|run| - 1]);
    } else {
      assert START.procs == map[];
    }
  }

  // ---------- and nobody less ----------

  function HeldBy<K>(m: map<K, Pid>, p: Pid): set<K> {
    set k | k in m && m[k] == p
  }

  predicate HoldsJust(s: State, p: Pid, events: set<EventId>, bookings: set<BookingId>, keys: set<(UserId, EventId)>) {
    HeldBy(s.eventLocks, p) == events && HeldBy(s.bookingLocks, p) == bookings && HeldBy(s.inDoubt, p) == keys
  }

  function AsSet<K>(o: Option<K>): set<K> {
    if o.Some? then {o.value} else {}
  }

  lemma HoldsWhatItSays(mode: Mode, s: State, p: Pid)
    requires Inv(mode, s) && Within(mode, s) && p in s.procs
    ensures var pc := s.procs[p];
            HoldsJust(s, p, AsSet(EventHeld(mode, pc)), AsSet(BookingHeld(pc)), AsSet(KeyInDoubt(pc)))
  {
    ProcIs(mode, s, p);
    HoldsAtLeast(mode, s, p, s.procs[p]);
    hide Inv, ProcOk;
  }

  lemma HoldsAtLeast(mode: Mode, s: State, p: Pid, pc: Proc)
    requires ProcOk(mode, s, p, pc)
    ensures EventHeld(mode, pc).Some? ==> Holds(s.eventLocks, EventHeld(mode, pc).value, p)
    ensures BookingHeld(pc).Some? ==> Holds(s.bookingLocks, BookingHeld(pc).value, p)
    ensures KeyInDoubt(pc).Some? ==> Holds(s.inDoubt, KeyInDoubt(pc).value, p)
  {
    hide HasActive, Replay, Enabled;
  }

  // In every run, at every point: a request inside its transaction holds exactly these row
  // locks and index keys, any other request holds nothing, and nothing is held by nobody.
  lemma HoldsExactly(mode: Mode, run: seq<Label>, p: Pid)
    ensures var s := Exec(mode, run);
            if p !in s.procs then HoldsJust(s, p, {}, {}, {})
            else
              match s.procs[p]
              case BookRead(v) => HoldsJust(s, p, if mode == Locking then {v.e} else {}, {}, {})
              case BookInserted(v, b, now, row) =>
                HoldsJust(s, p, if mode == Locking then {v.e} else {}, {b}, {(v.u, v.e)})
              case BookDecremented(v, b, now, row, event) => HoldsJust(s, p, {v.e}, {b}, {(v.u, v.e)})
              case BookLogged(v, b, now, row, event, poisoned) => HoldsJust(s, p, {v.e}, {b}, {(v.u, v.e)})
              case CancelLocked(b, u, before, row) => HoldsJust(s, p, {}, {b}, {})
              case CancelMarked(b, before, row, now) => HoldsJust(s, p, {}, {b}, {(row.user, row.event)})
              case CancelRestored(b, before, row, now, event) =>
                HoldsJust(s, p, {row.event}, {b}, {(row.user, row.event)})
              case _ => HoldsJust(s, p, {}, {}, {})
  {
    var s := Exec(mode, run);
    RunOk(mode, run);
    RunWithin(mode, run);
    hide Exec;
    if p in s.procs {
      HoldsWhatItSays(mode, s, p);
      hide Within, Inv;
    } else {
      hide Inv;
    }
  }

  // ---------- the Redis keys ----------

  // Redis loses no key, and no booking dies between its end and its release.
  predicate Undisturbed(mode: Mode, run: seq<Label>) {
    forall i :: 0 <= i < |run| ==> !run[i].RedisChange? && !LosesRelease(Exec(mode, run[..i]), run[i])
  }

  predicate LosesRelease(s: State, l: Label) {
    l.Abort? && l.p in s.procs && s.procs[l.p].BookEnded?
  }

  // Every stored key belongs to exactly one booking between its acquire and its release,
  // which holds it under its own token.
  predicate KeysLive(s: State) {
    && (forall p :: p in s.procs && LockOf(s.procs[p]).Some? ==>
          var (e, tok) := LockOf(s.procs[p]).value; e in s.redis && s.redis[e] == tok)
    && (forall p, q :: p in s.procs && q in s.procs && SameEvent(LockOf(s.procs[p]), LockOf(s.procs[q])) ==> p == q)
    && (forall e :: e in s.redis ==> exists p :: p in s.procs && LockOf(s.procs[p]) == Some((e, s.redis[e])))
  }

  predicate SameEvent(a: Option<(EventId, Token)>, b: Option<(EventId, Token)>) {
    a.Some? && b.Some? && a.value.0 == b.value.0
  }

  // The three things one step of `p` can do to the Redis keys.
  predicate LeavesKeys(s: State, s': State, p: Pid) {
    && p in s.procs && p in s'.procs && s'.procs == s.procs[p := s'.procs[p]]
    && LockOf(s'.procs[p]) == LockOf(s.procs[p]) && s'.redis == s.redis
  }

  predicate TakesKey(s: State, s': State, p: Pid) {
    && p in s.procs && p in s'.procs && s'.procs == s.procs[p := s'.procs[p]]
    && LockOf(s.procs[p]) == None && LockOf(s'.procs[p]).Some?
    && var (e, tok) := LockOf(s'.procs[p]).value;
       e !in s.redis && s'.redis == s.redis[e := tok]
  }

  predicate ReturnsKey(s: State, s': State, p: Pid) {
    && p in s.procs && p in s'.procs && s'.procs == s.procs[p := s'.procs[p]]
    && LockOf(s.procs[p]).Some? && LockOf(s'.procs[p]) == None
    && var (e, tok) := LockOf(s.procs[p]).value;
       s'.redis == if e in s.redis && s.redis[e] == tok then s.redis - {e} else s.redis
  }

  predicate KeyStep(s: State, s': State, p: Pid) {
    LeavesKeys(s, s', p) || TakesKey(s, s', p) || ReturnsKey(s, s', p)
  }

  lemma SomebodyHas(s: State, e: EventId) returns (q: Pid)
    requires KeysLive(s) && e in s.redis
    ensures q in s.procs && LockOf(s.procs[q]) == Some((e, s.redis[e]))
  {
    q :| q in s.procs && LockOf(s.procs[q]) == Some((e, s.redis[e]));
  }

  lemma KeysLeft(s: State, s': State, p: Pid)
    requires KeysLive(s) && LeavesKeys(s, s', p)
    ensures KeysLive(s')
  {
    hide LockOf;
    forall e | e in s'.redis
      ensures exists q :: q in s'.procs && LockOf(s'.procs[q]) == Some((e, s'.redis[e]))
    {
      var q := SomebodyHas(s, e);
      assert q in s'.procs && LockOf(s'.procs[q]) == LockOf(s.procs[q]);
    }
  }

  lemma KeyTaken(s: State, s': State, p: Pid)
    requires KeysLive(s) && TakesKey(s, s', p)
    ensures KeysLive(s')
  {
    forall e | e in s'.redis
      ensures exists q :: q in s'.procs && LockOf(s'.procs[q]) == Some((e, s'.redis[e]))
    {
      if e in s.redis {
        var q := SomebodyHas(s, e);
        assert q != p && q in s'.procs && LockOf(s'.procs[q]) == LockOf(s.procs[q]);
      } else {
        assert p in s'.procs && LockOf(s'.procs[p]) == Some((e, s'.redis[e]));
      }
    }
  }

  lemma KeyReturned(s: State, s': State, p: Pid)
    requires KeysLive(s) && ReturnsKey(s, s', p)
    ensures KeysLive(s')
  {
    hide LockOf;
    assert p in s.procs;
    forall e | e in s'.redis
      ensures exists q :: q in s'.procs && LockOf(s'.procs[q]) == Some((e, s'.redis[e]))
    {
      var q := SomebodyHas(s, e);
      assert q in s'.procs && q != p;
    }
  }

  lemma KeyStepKeepsLive(s: State, s': State, p: Pid)
    requires KeysLive(s) && KeyStep(s, s', p)
    ensures KeysLive(s')
  {
    hide KeysLive, LeavesKeys, TakesKey, ReturnsKey;
    if LeavesKeys(s, s', p) {
      KeysLeft(s, s', p);
    } else if TakesKey(s, s', p) {
      KeyTaken(s, s', p);
    } else {
      KeyReturned(s, s', p);
    }
  }

  lemma ProcKeyStep(mode: Mode, s: State, l: Label, pc: Proc)
    requires !l.CreateEvent? && !l.Arrive? && !l.RedisChange? && !LosesRelease(s, l)
    requires l.p in s.procs && s.procs[l.p] == pc
    ensures KeyStep(s, StepProc(mode, s, l, pc), l.p)
  {
    if l.AcquireLock? {
      AcquireKeyStep(s, l.p, pc, l.tok);
      hide KeyStep;
    } else if l.ReleaseLock? {
      ReleaseKeyStep(s, l.p, pc);
      hide KeyStep;
    } else {
      var s' := StepProc(mode, s, l, pc);
      if pc.BookStart? { OnlyAcquireLocks(mode, s, l, pc); }
      if pc.BookEnded? { OnlyReleaseEnds(mode, s, l, pc); }
      StepIsProper(mode, s, l, pc);
      assert s'.redis == s.redis;
      hide StepProc, Proper, KeyStep, LeavesKeys;
      ProperLeavesKeys(mode, s, s', l.p);
      assert KeyStep(s, s', l.p) by { LeavesIsKeyStep(s, s', l.p); }
    }
  }

  lemma LeavesIsKeyStep(s: State, s': State, p: Pid)
    requires LeavesKeys(s, s', p)
    ensures KeyStep(s, s', p)
  {
    hide LeavesKeys;
  }

  lemma ProperLeavesKeys(mode: Mode, s: State, s': State, p: Pid)
    requires Proper(mode, s, s', p) && s'.redis == s.redis
    requires !(s.procs[p].BookStart? && s'.procs[p].BookLocked?)
    requires s.procs[p].BookEnded? ==> s'.procs[p] == s.procs[p]
    ensures LeavesKeys(s, s', p)
  {
    if s == s' {
      assert s.procs == s.procs[p := s.procs[p]];
    }
    hide GainsOnly, Released, LosesNothing;
  }

  lemma AcquireKeyStep(s: State, p: Pid, pc: Proc, tok: Token)
    requires p in s.procs && s.procs[p] == pc
    ensures pc.BookStart? ==> KeyStep(s, DoAcquireLock(s, p, pc, tok), p)
    ensures KeyStep(s, s, p)
  {
    assert s.procs == s.procs[p := pc];
  }

  lemma ReleaseKeyStep(s: State, p: Pid, pc: Proc)
    requires p in s.procs && s.procs[p] == pc
    ensures pc.BookEnded? ==> KeyStep(s, DoReleaseLock(s, p, pc), p)
    ensures KeyStep(s, s, p)
  {
    assert s.procs == s.procs[p := pc];
  }

  lemma OnlyAcquireLocks(mode: Mode, s: State, l: Label, pc: Proc)
    requires !l.CreateEvent? && !l.Arrive? && !l.RedisChange? && !l.AcquireLock?
    requires l.p in s.procs && s.procs[l.p] == pc && pc.BookStart?
    ensures l.p in StepProc(mode, s, l, pc).procs && !StepProc(mode, s, l, pc).procs[l.p].BookLocked?
  {
  }

  lemma OnlyReleaseEnds(mode: Mode, s: State, l: Label, pc: Proc)
    requires !l.CreateEvent? && !l.Arrive? && !l.RedisChange? && !l.ReleaseLock? && !l.Abort?
    requires l.p in s.procs && s.procs[l.p] == pc && pc.BookEnded?
    ensures StepProc(mode, s, l, pc) == s
  {
  }

  lemma StepKeysLive(mode: Mode, s: State, l: Label)
    requires KeysLive(s) && !l.RedisChange? && !LosesRelease(s, l)
    ensures KeysLive(Step(mode, s, l))
  {
    if l.CreateEvent? {
      hide LockOf;
    } else if l.Arrive? {
      if l.p !in s.procs { ArrivalKeysLive(s, l.p, Begin(l.request)); }
      hide KeysLive;
    } else if l.p in s.procs {
      hide KeysLive, StepProc, LosesRelease;
      ProcKeyStep(mode, s, l, s.procs[l.p]);
      KeyStepKeepsLive(s, Step(mode, s, l), l.p);
    }
  }

  lemma ArrivalKeysLive(s: State, p: Pid, pc: Proc)
    requires KeysLive(s) && p !in s.procs && LockOf(pc) == None
    ensures KeysLive(At(s, p, pc))
  {
    forall e | e in s.redis
      ensures exists q :: q in At(s, p, pc).procs && LockOf(At(s, p, pc).procs[q]) == Some((e, s.redis[e]))
    {
      var q :| q in s.procs && LockOf(s.procs[q]) == Some((e, s.redis[e]));
      assert q in At(s, p, pc).procs && q != p;
    }
  }

  // While Redis loses no key and no booking dies before its release, every stored key is
  // the key of exactly one booking between its acquire and its release, so at most one
  // request at a time is inside the booking of an event, and a booking that is done, refused
  // or not, has left no key behind.
  lemma {:induction false} KeysExactly(mode: Mode, run: seq<Label>)
    requires Undisturbed(mode, run)
    ensures KeysLive(Exec(mode, run))
  {
    if run != [] {
      var prefix, l := run[..|run| - 1], run[|run| - 1];
      assert Undisturbed(mode, prefix) by {
        forall i | 0 <= i < |prefix|
          ensures !prefix[i].RedisChange? && !LosesRelease(Exec(mode, prefix[..i]), prefix[i])
        {
          assert prefix[..i] == run[..i] && prefix[i] == run[i];
        }
      }
      KeysExactly(mode, prefix);
      hide KeysLive, Step;
      StepKeysLive(mode, Exec(mode, prefix), l);
    }
  }

  // In such runs a key in Redis means a booking of that event on its way, under that token,
  // and two bookings of an event are never both on their way.
  lemma OneBookingAtATime(mode: Mode, run: seq<Label>, e: EventId)
    requires Undisturbed(mode, run)
    ensures var s := Exec(mode, run);
            && (forall p, q :: p in s.procs && q in s.procs && OnItsWay(s.procs[p], e) && OnItsWay(s.procs[q], e) ==>
                  p == q)
            && (e in s.redis <==> exists p :: p in s.procs && OnItsWay(s.procs[p], e))
  {
    var s := Exec(mode, run);
    KeysExactly(mode, run);
    hide Exec;
    forall p | p in s.procs
      ensures OnItsWay(s.procs[p], e) <==> LockOf(s.procs[p]).Some? && LockOf(s.procs[p]).value.0 == e
    {
    }
    hide LockOf, OnItsWay;
    if e in s.redis {
      var q := SomebodyHas(s, e);
      assert OnItsWay(s.procs[q], e);
    }
  }

  // Between the acquire and the release of a booking of `e`.
  predicate OnItsWay(pc: Proc, e: EventId) {
    || (pc.BookLocked? && pc.e == e)
    || (pc.BookRead? && pc.seen.e == e)
    || (pc.BookInserted? && pc.seen.e == e)
    || (pc.BookDecremented? && pc.seen.e == e)
    || (pc.BookLogged? && pc.seen.e == e)
    || (pc.BookEnded? && pc.e == e)
  }
}
