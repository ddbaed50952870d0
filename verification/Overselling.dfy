// The resale condition lifted to runs of the machine: from every reachable state.
module Overselling {
  import opened Schema
  import opened History
  import opened Ledger
  import opened Protocol
  import opened Refinement
  import opened Steps
  import opened Locks
  import opened Guarantees
  import opened Alone
  import opened Resale

  // ---------- aborting all open transactions ----------

  // The request is inside a transaction that may hold locks.
  predicate Transacting(pc: Proc) {
    || pc.BookRead? || pc.BookInserted? || pc.BookDecremented? || pc.BookLogged?
    || pc.CancelLocked? || pc.CancelMarked? || pc.CancelRestored?
  }

  function Open(s: State): set<Pid> {
    set q | q in s.procs && Transacting(s.procs[q])
  }

  // The same tables and history, no open transaction, free lock keys, and every request
  // that was not inside a transaction where it was.
  predicate Cleared(s: State, s': State) {
    && Quiet(s, s') && Idle(s') && s'.redis == map[]
    && forall q :: q in s.procs && !Transacting(s.procs[q]) ==> q in s'.procs && s'.procs[q] == s.procs[q]
  }

  lemma AbortOne(mode: Mode, s: State, q: Pid)
    requires q in Open(s)
    ensures var s' := Step(mode, s, Abort(q));
            && Quiet(s, s') && Open(s') == Open(s) - {q}
            && forall r :: r in s.procs && r != q ==> r in s'.procs && s'.procs[r] == s.procs[r]
  {
    assert Step(mode, s, Abort(q)) == EndTx(s, q, AfterAbort(s.procs[q]));
  }

  // Redis loses its keys.
  lemma DropKeys(mode: Mode, run: seq<Label>)
    requires Idle(Exec(mode, run))
    ensures Cleared(Exec(mode, run), Exec(mode, run + [RedisChange(map[])]))
  {
    RunMore(mode, run, RedisChange(map[]));
    hide Exec;
  }

  lemma ClearedAfterAbort(mode: Mode, s: State, q: Pid, s': State)
    requires q in Open(s) && Cleared(Step(mode, s, Abort(q)), s')
    ensures Cleared(s, s')
  {
    AbortOne(mode, s, q);
    hide Step;
  }

  lemma {:induction false} AbortAll(mode: Mode, run: seq<Label>) returns (more: seq<Label>)
    ensures Cleared(Exec(mode, run), Exec(mode, run + more))
    decreases |Open(Exec(mode, run))|
  {
    hide Exec, Step, Cleared;
    var s := Exec(mode, run);
    if Open(s) == {} {
      more := [RedisChange(map[])];
      RunWithin(mode, run);
      NothingHeld(mode, s);
      DropKeys(mode, run);
    } else {
      var q :| q in Open(s);
      RunMore(mode, run, Abort(q));
      AbortOne(mode, s, q);
      var rest := AbortAll(mode, run + [Abort(q)]);
      more := [Abort(q)] + rest;
      assert run + more == run + [Abort(q)] + rest;
      ClearedAfterAbort(mode, s, q, Exec(mode, run + more));
    }
  }

  lemma NothingHeld(mode: Mode, s: State)
    requires Locks.Within(mode, s) && Open(s) == {}
    ensures Idle(s)
  {
    forall q | q in s.procs ensures !Transacting(s.procs[q]) {
      assert q !in Open(s);
    }
  }

  // ---------- every direct continuation is a run ----------

  // `run` continued by `more` commits exactly `g`, and leaves other requests where they were.
  predicate Performs(mode: Mode, run: seq<Label>, more: seq<Label>, g: seq<Action>) {
    var s, s' := Exec(mode, run), Exec(mode, run + more);
    && s'.history == s.history + g
    && Idle(s') && s'.redis == map[]
    && forall q :: q in s.procs ==> q in s'.procs && s'.procs[q] == s.procs[q]
  }

  lemma PerformBooking(mode: Mode, run: seq<Label>, p: Pid, a: Action) returns (more: seq<Label>)
    requires var s := Exec(mode, run); Idle(s) && s.redis == map[] && p !in s.procs && Enabled(s.db, a)
    requires a.Book? || a.Cancel?
    ensures Performs(mode, run, more, [a])
  {
    var s := Exec(mode, run);
    hide Exec, BookLabels, CancelLabels, Enabled, Apply;
    if a.Book? {
      BookEnabled(s.db, a);
      BookAlone(mode, run, p, a.u, a.e, a.n, 0, a.b, a.now);
      more := BookLabels(p, a.u, a.e, a.n, 0, a.b, a.now);
    } else {
      CancelEnabled(s.db, a);
      CancelAlone(mode, run, p, a.b, s.db.bookings[a.b].user, a.now);
      more := CancelLabels(p, a.b, s.db.bookings[a.b].user, a.now);
    }
  }

  lemma PerformEdit(mode: Mode, run: seq<Label>, p: Pid, a: Action) returns (more: seq<Label>)
    requires var s := Exec(mode, run); Idle(s) && s.redis == map[] && p !in s.procs && Enabled(s.db, a)
    requires a.Update? || a.Delete? || a.Create?
    requires a.Update? ==> ReadEarlier(Exec(mode, run).history, a) && a.readAt == |Exec(mode, run).history|
    ensures Performs(mode, run, more, [a])
  {
    if a.Update? { ReadIsCurrent(mode, run, a); }
    hide Exec, UpdateLabels, DeleteLabels, Enabled, Apply, ReadEarlier;
    if a.Update? {
      UpdateAlone(mode, run, p, a.e, a.edit);
      more := UpdateLabels(p, a.e, a.edit);
    } else if a.Delete? {
      DeleteAlone(mode, run, p, a.e);
      more := DeleteLabels(p, a.e);
    } else {
      CreateAlone(mode, run, a);
      more := [CreateEvent(a.e, a.total, a.price, a.status)];
    }
  }

  lemma PerformOne(mode: Mode, run: seq<Label>, a: Action) returns (more: seq<Label>)
    requires var s := Exec(mode, run); Idle(s) && s.redis == map[] && Enabled(s.db, a) && !a.LogCancel?
    requires a.Update? ==> ReadEarlier(Exec(mode, run).history, a) && a.readAt == |Exec(mode, run).history|
    ensures Performs(mode, run, more, [a])
  {
    var p := FreshNat(Exec(mode, run).procs.Keys);
    assert p !in Exec(mode, run).procs;
    hide Exec, Enabled, Performs, ReadEarlier;
    if a.Book? || a.Cancel? {
      more := PerformBooking(mode, run, p, a);
    } else {
      more := PerformEdit(mode, run, p, a);
    }
  }

  lemma BookEnabled(db: Db, a: Action)
    requires a.Book? && Enabled(db, a)
    ensures BookAllowed(db, a.b, a.u, a.e, a.n)
  {
  }

  lemma CancelEnabled(db: Db, a: Action)
    requires a.Cancel? && Enabled(db, a)
    ensures CancelAllowed(db, a.b)
  {
  }

  // An update that read after the last committed action carries the row as it is now.
  lemma ReadIsCurrent(mode: Mode, run: seq<Label>, a: Action)
    requires a.Update? && ReadEarlier(Exec(mode, run).history, a) && a.readAt == |Exec(mode, run).history|
    ensures var s := Exec(mode, run);
            a.e in s.db.events && a.read == s.db.events[a.e] && !a.read.deleted
  {
    TablesAre(mode, run);
    assert Exec(mode, run).history[..a.readAt] == Exec(mode, run).history;
  }

  lemma PerformMore(mode: Mode, run: seq<Label>, first: seq<Label>, last: seq<Label>, g: seq<Action>, a: Action)
    requires Performs(mode, run, first, g) && Performs(mode, run + first, last, [a])
    ensures Performs(mode, run, first + last, g + [a])
  {
    hide Exec;
    assert run + (first + last) == run + first + last;
    assert Exec(mode, run).history + g + [a] == Exec(mode, run).history + (g + [a]);
  }

  // The history so far allows the last action of `g` after the others.
  lemma LastAllowed(h: seq<Action>, g: seq<Action>, a: Action)
    requires Valid(h + (g + [a])) && Direct(h, g + [a])
    ensures Valid(h + g) && Direct(h, g) && Enabled(Replay(h + g), a) && !a.LogCancel?
    ensures a.Update? ==> ReadEarlier(h + g, a) && a.readAt == |h + g|
  {
    assert h + (g + [a]) == h + g + [a];
    hide Enabled, ReadEarlier, Replay, Direct;
    Extend(h + g, a);
    LastDirect(h, g, a);
  }

  lemma LastDirect(h: seq<Action>, g: seq<Action>, a: Action)
    requires Direct(h, g + [a])
    ensures Direct(h, g) && !a.LogCancel? && (a.Update? ==> a.readAt == |h| + |g|)
  {
    assert (g + [a])[|g|] == a;
    forall i | 0 <= i < |g|
      ensures !g[i].LogCancel? && (g[i].Update? ==> g[i].readAt == |h| + i)
    {
      assert (g + [a])[i] == g[i];
    }
  }

  // From an idle state the machine can carry out every valid continuation of its history
  // whose updates write right after their read, disturbing no waiting request.
  lemma {:induction false} Perform(mode: Mode, run: seq<Label>, g: seq<Action>) returns (more: seq<Label>)
    requires var s := Exec(mode, run); Idle(s) && s.redis == map[] && Valid(s.history + g) && Direct(s.history, g)
    ensures Performs(mode, run, more, g)
  {
    hide Exec, Valid, Replay, Direct, ReadEarlier;
    if g == [] {
      more := [];
      assert run + more == run;
      assert Exec(mode, run).history + g == Exec(mode, run).history;
    } else {
      var g', a := g[..|g| - 1], g[|g| - 1];
      assert g == g' + [a];
      LastAllowed(Exec(mode, run).history, g', a);
      var first := Perform(mode, run, g');
      TablesAre(mode, run + first);
      var last := PerformOne(mode, run + first, a);
      more := first + last;
      PerformMore(mode, run, first, last, g', a);
    }
  }

  lemma TablesAre(mode: Mode, run: seq<Label>)
    ensures Replay(Exec(mode, run).history) == Exec(mode, run).db
  {
    RunOk(mode, run);
  }

  // ---------- the condition, for every reachable state ----------

  // `p` has read the event for its update, at whatever time, and not written it yet.
  predicate Waiting(s: State, p: Pid) {
    p in s.procs && s.procs[p].UpdateRead?
  }

  // While `p` waits, `more` happens, in which all updates of the event are honest; then the
  // write succeeds and leaves at least `m` more tickets on sale or held than there are now.
  ghost predicate PutsBack(mode: Mode, run: seq<Label>, p: Pid, more: seq<Label>, m: int)
    requires Waiting(Exec(mode, run), p)
  {
    var s, s1, s2 := Exec(mode, run), Exec(mode, run + more), Exec(mode, run + more + [WriteEvent(p)]);
    StillWaits(s, s1, p) && Gained(s, s2, p, m)
  }

  predicate StillWaits(s: State, s1: State, p: Pid)
    requires Waiting(s, p)
  {
    && p in s1.procs && s1.procs[p] == s.procs[p]
    && s.history <= s1.history
    && Honest(s1.history[|s.history|..], s.procs[p].e)
  }

  predicate HasWritten(s2: State, p: Pid, e: EventId) {
    p in s2.procs && s2.procs[p] == Done(UpdateDone) && e in s2.db.events
  }

  ghost predicate Gained(s: State, s2: State, p: Pid, m: int)
    requires Waiting(s, p)
  {
    var e := s.procs[p].e;
    HasWritten(s2, p, e) && e in s.db.events && Kept(s.db, e) + m <= Kept(s2.db, e)
  }

  // The row as it is now, the row read, and the request decide.
  predicate CanPutBack(s: State, p: Pid, m: int)
    requires Waiting(s, p)
  {
    var pc := s.procs[p];
    pc.e in s.db.events && CanResell(s.db.events[pc.e], pc.read, pc.edit, m)
  }

  // The pending write is an update that the history allows to follow some day.
  lemma PendingUpdate(mode: Mode, s: State, p: Pid)
    requires Inv(mode, s) && Waiting(s, p)
    ensures var u := PendingWrite(s.procs[p]);
            Valid(s.history) && s.db == Replay(s.history) && ReadEarlier(s.history, u) && u.e in s.db.events
  {
    ProcIs(mode, s, p);
    SinceVersion(s.history, s.procs[p].readAt, s.procs[p].e);
  }

  lemma WriteDone(mode: Mode, s: State, p: Pid)
    requires Waiting(s, p)
    requires p in Step(mode, s, WriteEvent(p)).procs && Step(mode, s, WriteEvent(p)).procs[p] == Done(UpdateDone)
    ensures Step(mode, s, WriteEvent(p)).history == s.history + [PendingWrite(s.procs[p])]
  {
    assert Step(mode, s, WriteEvent(p)) == DoWriteEvent(s, p, s.procs[p]);
    hide Step, RewriteEvent;
  }

  lemma PutsBackOnlyThen(mode: Mode, run: seq<Label>, p: Pid, more: seq<Label>, m: int)
    requires Waiting(Exec(mode, run), p) && 0 < m && PutsBack(mode, run, p, more, m)
    ensures CanPutBack(Exec(mode, run), p, m)
  {
    var s, s1, s2 := Exec(mode, run), Exec(mode, run + more), Exec(mode, run + more + [WriteEvent(p)]);
    RunMore(mode, run + more, WriteEvent(p));
    RunOk(mode, run);
    RunOk(mode, run + more + [WriteEvent(p)]);
    hide Exec, Step, ProcOk, CanResell, Kept, ReadEarlier;
    PendingUpdate(mode, s, p);
    WriteDone(mode, s1, p);
    var u, g := PendingWrite(s.procs[p]), s1.history[|s.history|..];
    assert s.history + g == s1.history;
    assert s.history + g + [u] == s2.history;
    OnlyThen(s.history, g, u, m);
  }

  // The actions `g` are carried out while `p` waits.
  lemma ActMeanwhile(mode: Mode, run: seq<Label>, p: Pid, g: seq<Action>) returns (more: seq<Label>)
    requires var s := Exec(mode, run);
             Waiting(s, p) && Direct(s.history, g) && Valid(s.history + g) && Honest(g, s.procs[p].e)
    ensures var s, s1 := Exec(mode, run), Exec(mode, run + more);
            StillWaits(s, s1, p) && Idle(s1) && s1.history == s.history + g
  {
    var s := Exec(mode, run);
    hide Exec, Valid, Direct, Honest;
    var clear := AbortAll(mode, run);
    var act := Perform(mode, run + clear, g);
    more := clear + act;
    assert run + clear + act == run + more;
    assert Exec(mode, run + more).history[|s.history|..] == g;
  }

  lemma PutsBackIndeed(mode: Mode, run: seq<Label>, p: Pid, m: int) returns (more: seq<Label>)
    requires Waiting(Exec(mode, run), p) && 0 < m && CanPutBack(Exec(mode, run), p, m)
    ensures PutsBack(mode, run, p, more, m)
  {
    var s := Exec(mode, run);
    RunOk(mode, run);
    hide Exec, Step, ProcOk, CanResell, Kept, Idle, Honest, ReadEarlier;
    PendingUpdate(mode, s, p);
    var u := PendingWrite(s.procs[p]);
    var g := ThenIndeed(s.history, u, m);
    Extend(s.history + g, u);
    hide Valid;
    more := ActMeanwhile(mode, run, p, g);
    TablesAre(mode, run + more);
    UpdateWrites(mode, run + more, p);
    TablesAre(mode, run + more + [WriteEvent(p)]);
  }

  // In every reachable state, with any requests in flight and however long ago `p` read: the
  // update of `p` can put at least `m` sold tickets back on sale, all other updates of the
  // event being honest from now on, if and only if `CanResell` holds of the row as it is
  // now, the row it read, and its fields.
  lemma PutsBackIff(mode: Mode, run: seq<Label>, p: Pid, m: int)
    requires Waiting(Exec(mode, run), p) && 0 < m
    ensures (exists more :: PutsBack(mode, run, p, more, m)) <==> CanPutBack(Exec(mode, run), p, m)
  {
    hide Exec, PutsBack, CanPutBack;
    if more :| PutsBack(mode, run, p, more, m) {
      PutsBackOnlyThen(mode, run, p, more, m);
    }
    if CanPutBack(Exec(mode, run), p, m) {
      var more := PutsBackIndeed(mode, run, p, m);
    }
  }

  // The same, and afterwards more tickets are on sale or held than were ever created.
  ghost predicate Oversells(mode: Mode, run: seq<Label>, p: Pid, more: seq<Label>)
    requires Waiting(Exec(mode, run), p)
  {
    var s, s1, s2 := Exec(mode, run), Exec(mode, run + more), Exec(mode, run + more + [WriteEvent(p)]);
    StillWaits(s, s1, p) && TooMany(s, s2, p)
  }

  ghost predicate TooMany(s: State, s2: State, p: Pid)
    requires Waiting(s, p)
  {
    var e := s.procs[p].e;
    HasWritten(s2, p, e) && CreatedTotal(s2.history, e) < Kept(s2.db, e)
  }

  // One ticket more than were lost so far.
  ghost function OneTooMany(s: State, e: EventId): int
    requires e in s.db.events
  {
    CreatedTotal(s.history, e) - Kept(s.db, e) + 1
  }

  lemma CreationStays(mode: Mode, run: seq<Label>, p: Pid, more: seq<Label>)
    requires Waiting(Exec(mode, run), p)
    requires StillWaits(Exec(mode, run), Exec(mode, run + more), p)
    requires HasWritten(Exec(mode, run + more + [WriteEvent(p)]), p, Exec(mode, run).procs[p].e)
    ensures var s, s2, e := Exec(mode, run), Exec(mode, run + more + [WriteEvent(p)]), Exec(mode, run).procs[p].e;
            e in s.db.events && CreatedTotal(s2.history, e) == CreatedTotal(s.history, e)
  {
    var s, s1, s2 := Exec(mode, run), Exec(mode, run + more), Exec(mode, run + more + [WriteEvent(p)]);
    RunMore(mode, run + more, WriteEvent(p));
    RunOk(mode, run);
    RunOk(mode, run + more + [WriteEvent(p)]);
    hide Exec, Step, ProcOk;
    PendingUpdate(mode, s, p);
    WriteDone(mode, s1, p);
    assert s2.history[..|s.history|] == s.history;
    CreatedOnce(s2.history, |s.history|, s.procs[p].e);
  }

  // While all committed updates of the event are honest (so that nothing is oversold, by
  // NoOverselling) and others stay so, a waiting update can oversell the event if and only
  // if it can put back one ticket more than were lost so far.
  lemma OversellsIff(mode: Mode, run: seq<Label>, p: Pid)
    requires Waiting(Exec(mode, run), p) && Honest(Exec(mode, run).history, Exec(mode, run).procs[p].e)
    ensures var s := Exec(mode, run);
            var e := s.procs[p].e;
            && e in s.db.events
            && ((exists more :: Oversells(mode, run, p, more)) <==> CanPutBack(s, p, OneTooMany(s, e)))
  {
    var s := Exec(mode, run);
    var e := s.procs[p].e;
    RunOk(mode, run);
    PendingUpdate(mode, s, p);
    NoOversellingInHonestRuns(mode, run, e);
    hide Exec, Inv, StillWaits, CanResell;
    if more :| Oversells(mode, run, p, more) {
      CreationStays(mode, run, p, more);
      PutsBackOnlyThen(mode, run, p, more, OneTooMany(s, e));
    }
    if CanPutBack(s, p, OneTooMany(s, e)) {
      var more := PutsBackIndeed(mode, run, p, OneTooMany(s, e));
      CreationStays(mode, run, p, more);
      assert Oversells(mode, run, p, more);
    }
  }

  // Right after its read an update can oversell only with a version newer than the row read;
  // an update with the version of an earlier GET never can.
  lemma OnlyNewerVersions(mode: Mode, run: seq<Label>, p: Pid, more: seq<Label>)
    requires Waiting(Exec(mode, run), p) && Honest(Exec(mode, run).history, Exec(mode, run).procs[p].e)
    requires Oversells(mode, run, p, more)
    ensures Exec(mode, run).procs[p].read.version < Exec(mode, run).procs[p].edit.version
  {
    var s := Exec(mode, run);
    OversellsIff(mode, run, p);
    RunOk(mode, run);
    PendingUpdate(mode, s, p);
    NoOversellingInHonestRuns(mode, run, s.procs[p].e);
    hide Exec, Inv, Oversells, CanResell, ReadEarlier;
    if HonestAction(PendingWrite(s.procs[p])) {
      HonestNeverCan(s.history, PendingWrite(s.procs[p]), OneTooMany(s, s.procs[p].e));
    }
  }
}
