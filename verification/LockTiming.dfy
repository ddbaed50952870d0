// The Redis lock of one event as a timed machine: SET NX PX, release by token, expiry.
module LockTiming {
  import opened Schema

  // The stored key: its token and the time from which Redis drops it. Every result below is
  // for any `life` of a key: the ttl that SET was given if a key goes at the very instant of
  // its expiry, and one millisecond more if it goes only once that instant has passed.
  datatype Key = Key(tok: Token, expires: int)

  // One holder of a token: when it acquired the lock, its transaction span, its release.
  datatype Flow = Flow(since: int, txFrom: Option<int>, txTo: Option<int>, released: Option<int>)

  datatype State = State(clock: int, key: Option<Key>, flows: map<Token, Flow>)

  const START := State(0, None, map[])

  // `BeginTx` to `Release` follow the order of the deferred calls in BookTicket: the
  // transaction ends, by commit or rollback, before the release script is sent; the script
  // may not reach Redis (`delivered`), its error being ignored.
  datatype Label =
    | Tick(ms: nat)
    | Expire
    | Acquire(tok: Token)
    | BeginTx(tok: Token)
    | EndTx(tok: Token)
    | Release(tok: Token, delivered: bool)

  predicate Live(f: Flow) {
    f.released.None?
  }

  function Step(life: nat, s: State, l: Label): State {
    match l
    case Tick(ms) => s.(clock := s.clock + ms)
    case Expire => if s.key.Some? && s.key.value.expires <= s.clock then s.(key := None) else s
    case Acquire(tok) =>
      // SET key tok NX PX ttl, with a token that was never used before
      if tok in s.flows || s.key.Some? then s
      else s.(key := Some(Key(tok, s.clock + life)),
              flows := s.flows[tok := Flow(s.clock, None, None, None)])
    case BeginTx(tok) =>
      if tok in s.flows && Live(s.flows[tok]) && s.flows[tok].txFrom.None?
      then s.(flows := s.flows[tok := s.flows[tok].(txFrom := Some(s.clock))]) else s
    case EndTx(tok) =>
      if tok in s.flows && Live(s.flows[tok]) && s.flows[tok].txFrom.Some? && s.flows[tok].txTo.None?
      then s.(flows := s.flows[tok := s.flows[tok].(txTo := Some(s.clock))]) else s
    case Release(tok, delivered) =>
      if tok in s.flows && Live(s.flows[tok]) && s.flows[tok].txFrom.Some? == s.flows[tok].txTo.Some?
      then
        // if get(key) == tok then del(key)
        s.(key := if delivered && s.key.Some? && s.key.value.tok == tok then None else s.key,
           flows := s.flows[tok := s.flows[tok].(released := Some(s.clock))])
      else s
  }

  function Exec(life: nat, run: seq<Label>): State {
    if run == [] then START else Step(life, Exec(life, run[..|run| - 1]), run[|run| - 1])
  }

  // One flow from acquire to release, whatever time its parts take: its record, and the key
  // free again if the script reaches Redis in time, else gone from its expiry on.
  lemma OneFlow(life: nat, run: seq<Label>, t: Token, wait: nat, work: nat, rest: nat, delivered: bool)
    requires t !in Exec(life, run).flows && Exec(life, run).key == None
    ensures var s := Exec(life, run);
            var s' := Exec(life, run + [Acquire(t), Tick(wait), BeginTx(t), Tick(work), EndTx(t), Tick(rest),
                                        Release(t, delivered)]);
            var at := s.clock;
            && s'.clock == at + wait + work + rest
            && s'.flows == s.flows[t := Flow(at, Some(at + wait), Some(at + wait + work),
                                             Some(at + wait + work + rest))]
            && s'.key == if delivered then None else Some(Key(t, at + life))
  {
    var s, at := Exec(life, run), Exec(life, run).clock;
    var r1 := run + [Acquire(t)];
    var r3, r5 := r1 + [Tick(wait), BeginTx(t)], r1 + [Tick(wait), BeginTx(t)] + [Tick(work), EndTx(t)];
    hide Exec, Step;
    AcquireFirst(life, run, t);
    LaterStep(life, r1, wait, BeginTx(t), t, s.flows, Flow(at, None, None, None));
    LaterStep(life, r3, work, EndTx(t), t, s.flows, Flow(at, Some(at + wait), None, None));
    LaterStep(life, r5, rest, Release(t, delivered), t, s.flows,
              Flow(at, Some(at + wait), Some(at + wait + work), None));
    assert r5 + [Tick(rest), Release(t, delivered)]
        == run + [Acquire(t), Tick(wait), BeginTx(t), Tick(work), EndTx(t), Tick(rest), Release(t, delivered)];
  }

  lemma AcquireFirst(life: nat, run: seq<Label>, t: Token)
    requires t !in Exec(life, run).flows && Exec(life, run).key == None
    ensures var s := Exec(life, run);
            Exec(life, run + [Acquire(t)])
              == State(s.clock, Some(Key(t, s.clock + life)), s.flows[t := Flow(s.clock, None, None, None)])
  {
    RunMore(life, run, Acquire(t));
    hide Exec;
  }

  // The next step of flow `f`, some time later.
  lemma LaterStep(life: nat, run: seq<Label>, ms: nat, l: Label, t: Token, flows: map<Token, Flow>, f: Flow)
    requires Exec(life, run).flows == flows[t := f] && Exec(life, run).key.Some? && Exec(life, run).key.value.tok == t
    requires f.released == None
    requires || (l == BeginTx(t) && f.txFrom == None)
             || (l == EndTx(t) && f.txFrom != None && f.txTo == None)
             || (l.Release? && l.tok == t && f.txTo != None && f.txFrom != None)
    ensures var s := Exec(life, run);
            Exec(life, run + [Tick(ms), l])
              == State(s.clock + ms, if l.Release? && l.delivered then None else s.key,
                       flows[t := if l.BeginTx? then f.(txFrom := Some(s.clock + ms))
                                  else if l.EndTx? then f.(txTo := Some(s.clock + ms))
                                  else f.(released := Some(s.clock + ms))])
  {
    RunMore(life, run, Tick(ms));
    RunMore(life, run + [Tick(ms)], l);
    assert run + [Tick(ms)] + [l] == run + [Tick(ms), l];
    hide Exec;
    var f' := if l.BeginTx? then f.(txFrom := Some(Exec(life, run).clock + ms))
              else if l.EndTx? then f.(txTo := Some(Exec(life, run).clock + ms))
              else f.(released := Some(Exec(life, run).clock + ms));
    assert flows[t := f][t := f'] == flows[t := f'];
  }

  // What each step does to the key and to the flows, and when it does nothing.
  lemma TimeLaw(life: nat, run: seq<Label>, l: Label)
    requires l.Tick? || l.Expire? || l.Acquire?
    ensures var s, s' := Exec(life, run), Exec(life, run + [l]);
            && (l.Tick? ==> s' == State(s.clock + l.ms, s.key, s.flows))
            && (l.Expire? ==>
                  s' == State(s.clock, if s.key.Some? && s.key.value.expires <= s.clock then None else s.key, s.flows))
            && (l.Acquire? ==>
                  s' == if l.tok in s.flows || s.key.Some? then s
                        else State(s.clock, Some(Key(l.tok, s.clock + life)),
                                   s.flows[l.tok := Flow(s.clock, None, None, None)]))
  {
    RunMore(life, run, l);
    hide Exec;
  }

  lemma FlowLaw(life: nat, run: seq<Label>, l: Label)
    requires l.BeginTx? || l.EndTx? || l.Release?
    requires l.tok in Exec(life, run).flows
    ensures var s, s', f := Exec(life, run), Exec(life, run + [l]), Exec(life, run).flows[l.tok];
            && s'.clock == s.clock
            && (l.BeginTx? && f.txFrom == None && f.released == None ==>
                  s'.flows == s.flows[l.tok := Flow(f.since, Some(s.clock), f.txTo, None)] && s'.key == s.key)
            && (l.EndTx? && f.txFrom != None && f.txTo == None && f.released == None ==>
                  s'.flows == s.flows[l.tok := Flow(f.since, f.txFrom, Some(s.clock), None)] && s'.key == s.key)
            && (l.Release? && f.released == None && (f.txFrom == None <==> f.txTo == None) ==>
                  && s'.flows == s.flows[l.tok := Flow(f.since, f.txFrom, f.txTo, Some(s.clock))]
                  && s'.key == if l.delivered && s.key.Some? && s.key.value.tok == l.tok then None else s.key)
            && ((f.released != None || (l.BeginTx? && f.txFrom != None)
                 || (l.EndTx? && (f.txFrom == None || f.txTo != None))
                 || (l.Release? && !(f.txFrom == None <==> f.txTo == None))) ==> s' == s)
  {
    RunMore(life, run, l);
    hide Exec;
  }

  // ---------- the invariant ----------

  predicate FlowOk(clock: int, f: Flow) {
    && f.since <= clock
    && (f.txFrom.Some? ==> f.since <= f.txFrom.value <= clock)
    && (f.txTo.Some? ==> f.txFrom.Some? && f.txFrom.value <= f.txTo.value <= clock)
    && (f.released.Some? ==>
          && f.since <= f.released.value <= clock
          && f.txFrom.Some? == f.txTo.Some?
          && (f.txTo.Some? ==> f.txTo.value <= f.released.value))
  }

  // A live flow whose time is not up is the one whose token is stored.
  predicate Stored(life: nat, s: State, t: Token, f: Flow) {
    Live(f) && s.clock < f.since + life ==> s.key == Some(Key(t, f.since + life))
  }

  predicate Inv(life: nat, s: State) {
    && (forall t :: t in s.flows ==> FlowOk(s.clock, s.flows[t]) && Stored(life, s, t, s.flows[t]))
    && (s.key.Some? ==>
          s.key.value.tok in s.flows && s.key.value.expires == s.flows[s.key.value.tok].since + life)
  }

  lemma TimeStepOk(life: nat, s: State, l: Label)
    requires Inv(life, s) && (l.Tick? || l.Expire? || l.Acquire?)
    ensures Inv(life, Step(life, s, l))
  {
  }

  lemma TxStepOk(life: nat, s: State, l: Label)
    requires Inv(life, s) && (l.BeginTx? || l.EndTx?)
    ensures Inv(life, Step(life, s, l))
  {
  }

  lemma ReleaseStepOk(life: nat, s: State, l: Label)
    requires Inv(life, s) && (l.Release?)
    ensures Inv(life, Step(life, s, l))
  {
  }

  lemma StepOk(life: nat, s: State, l: Label)
    requires Inv(life, s)
    ensures Inv(life, Step(life, s, l))
  {
    hide Inv;
    if l.BeginTx? || l.EndTx? {
      TxStepOk(life, s, l);
    } else if l.Release? {
      ReleaseStepOk(life, s, l);
    } else {
      TimeStepOk(life, s, l);
    }
  }

  lemma {:induction false} InvInEveryRun(life: nat, run: seq<Label>)
    ensures Inv(life, Exec(life, run)) && 0 <= Exec(life, run).clock
  {
    if run != [] {
      InvInEveryRun(life, run[..|run| - 1]);
      StepOk(life, Exec(life, run[..|run| - 1]), run[|run| - 1]);
    }
  }

  // ---------- safety of the lock ----------

  // Until a token's own release or its life, whichever comes first, no other acquire succeeds.
  lemma NoSecondHolder(life: nat, run: seq<Label>, t: Token, other: Token)
    requires var s := Exec(life, run);
             t in s.flows && Live(s.flows[t]) && s.clock < s.flows[t].since + life
    ensures Exec(life, run + [Acquire(other)]) == Exec(life, run)
  {
    InvInEveryRun(life, run);
    assert (run + [Acquire(other)])[..|run|] == run;
  }

  // A holder whose lock expired and was taken again cannot remove the new lock: a stored
  // key only disappears by its own token's release or once its own life is over.
  lemma OnlyOwnerOrExpiryRemoves(life: nat, run: seq<Label>, l: Label)
    requires Exec(life, run).key.Some?
    ensures var s, s' := Exec(life, run), Exec(life, run + [l]);
            var t := s.key.value.tok;
            && t in s.flows
            && (s'.key != s.key ==>
                  s'.key == None && (l == Release(t, true) || (l == Expire && s.flows[t].since + life <= s.clock)))
  {
    InvInEveryRun(life, run);
    assert (run + [l])[..|run|] == run;
  }

  // ---------- mutual exclusion of timely transactions ----------

  // The flow is inside its transaction.
  predicate Open(f: Flow) {
    f.txFrom.Some? && f.txTo.None?
  }

  // No transaction is open once the time of its flow's key is up.
  predicate Timely(life: nat, s: State) {
    forall t :: t in s.flows && Open(s.flows[t]) ==> s.clock < s.flows[t].since + life
  }

  predicate TimelyRun(life: nat, run: seq<Label>) {
    forall i :: 0 <= i <= |run| ==> Timely(life, Exec(life, run[..i]))
  }

  // The transaction of `f` has ended before that of `g` began.
  predicate SpanBefore(f: Flow, g: Flow) {
    f.txTo.Some? && g.txFrom.Some? && f.txTo.value <= g.txFrom.value
  }

  predicate Serial(s: State) {
    forall t, u :: t in s.flows && u in s.flows && t != u && s.flows[t].txFrom.Some? && s.flows[u].txFrom.Some? ==>
      SpanBefore(s.flows[t], s.flows[u]) || SpanBefore(s.flows[u], s.flows[t])
  }

  // At most the one flow whose token is stored is inside its transaction.
  lemma OpenIsStored(life: nat, s: State, t: Token)
    requires Inv(life, s) && Timely(life, s) && t in s.flows && Open(s.flows[t])
    ensures s.key.Some? && s.key.value.tok == t
  {
    assert FlowOk(s.clock, s.flows[t]);
  }

  lemma BeginIsSerial(life: nat, s: State, t: Token)
    requires Inv(life, s) && Serial(s)
    requires var s' := Step(life, s, BeginTx(t)); s' != s && Inv(life, s') && Timely(life, s')
    ensures Serial(Step(life, s, BeginTx(t)))
  {
    var s' := Step(life, s, BeginTx(t));
    forall u | u in s.flows && u != t && s.flows[u].txFrom.Some?
      ensures SpanBefore(s'.flows[u], s'.flows[t])
    {
      assert FlowOk(s.clock, s.flows[u]);
      OpenIsStored(life, s', t);
      if Open(s.flows[u]) { OpenIsStored(life, s', u); }
    }
  }

  // No other step opens a transaction or moves the end of one that has ended.
  lemma OtherStepIsSerial(life: nat, s: State, l: Label)
    requires Serial(s) && !l.BeginTx?
    ensures Serial(Step(life, s, l))
  {
    var s' := Step(life, s, l);
    forall t, u | t in s'.flows && u in s'.flows && t != u && s'.flows[t].txFrom.Some? && s'.flows[u].txFrom.Some?
      ensures SpanBefore(s'.flows[t], s'.flows[u]) || SpanBefore(s'.flows[u], s'.flows[t])
    {
      assert t in s.flows && u in s.flows;
      assert SpanBefore(s.flows[t], s.flows[u]) || SpanBefore(s.flows[u], s.flows[t]);
    }
  }

  lemma SerialStep(life: nat, s: State, l: Label)
    requires Inv(life, s) && Serial(s) && Inv(life, Step(life, s, l)) && Timely(life, Step(life, s, l))
    ensures Serial(Step(life, s, l))
  {
    hide Inv, Serial, Timely;
    if l.BeginTx? {
      if Step(life, s, l) != s { BeginIsSerial(life, s, l.tok); }
    } else {
      OtherStepIsSerial(life, s, l);
    }
  }

  lemma {:induction false} TimelyRunIsSerial(life: nat, run: seq<Label>)
    requires TimelyRun(life, run)
    ensures Serial(Exec(life, run))
  {
    if run != [] {
      var prefix := run[..|run| - 1];
      forall i | 0 <= i <= |prefix| ensures Timely(life, Exec(life, prefix[..i])) {
        assert prefix[..i] == run[..i];
      }
      TimelyRunIsSerial(life, prefix);
      InvInEveryRun(life, prefix);
      InvInEveryRun(life, run);
      assert run[..|run|] == run;
      hide Inv, Serial, Timely;
      SerialStep(life, Exec(life, prefix), run[|run| - 1]);
    }
  }

  // If every transaction ends before its flow's key may expire, the booking transactions of
  // an event never overlap: of any two, one ended before the other began.
  lemma TransactionsDisjoint(life: nat, run: seq<Label>, t: Token, u: Token)
    requires TimelyRun(life, run)
    requires var s := Exec(life, run);
             t in s.flows && u in s.flows && t != u && s.flows[t].txFrom.Some? && s.flows[u].txFrom.Some?
    ensures var s := Exec(life, run);
            SpanBefore(s.flows[t], s.flows[u]) || SpanBefore(s.flows[u], s.flows[t])
  {
    TimelyRunIsSerial(life, run);
  }

  // ---------- and only of those ----------

  predicate OpenIn(s: State, t: Token) {
    t in s.flows && Open(s.flows[t])
  }

  // Wait, let the stored key expire, and book with a new token.
  function Join(ms: nat, u: Token): seq<Label> {
    [Tick(ms), Expire, Acquire(u), BeginTx(u)]
  }

  lemma JoinSucceeds(life: nat, run: seq<Label>, ms: nat, u: Token)
    requires var s := Exec(life, run);
             u !in s.flows && (s.key.Some? ==> s.key.value.expires <= s.clock + ms)
    ensures var s, s' := Exec(life, run), Exec(life, run + Join(ms, u));
            && s'.clock == s.clock + ms && OpenIn(s', u) && s'.flows.Keys == s.flows.Keys + {u}
            && forall t :: t in s.flows ==> t in s'.flows && s'.flows[t] == s.flows[t]
  {
    RunMore(life, run, Tick(ms));
    var r := run + [Tick(ms)];
    RunMore(life, r, Expire);
    RunMore(life, r + [Expire], Acquire(u));
    RunMore(life, r + [Expire] + [Acquire(u)], BeginTx(u));
    hide Exec;
    assert r + [Expire] + [Acquire(u)] + [BeginTx(u)] == run + Join(ms, u);
  }

  // Whenever the time of a flow's key runs out inside its transaction, in any run whatever,
  // a newcomer can open a second transaction beside it.
  lemma OverdueOverlaps(life: nat, run: seq<Label>, t: Token, u: Token)
    requires var s := Exec(life, run);
             OpenIn(s, t) && s.flows[t].since + life <= s.clock && u !in s.flows
    ensures var s' := Exec(life, run + Join(life, u)); OpenIn(s', t) && OpenIn(s', u)
  {
    InvInEveryRun(life, run);
    var s := Exec(life, run);
    assert s.key.Some? ==> FlowOk(s.clock, s.flows[s.key.value.tok]);
    hide Exec, Join;
    JoinSucceeds(life, run, life, u);
  }

  // By time `deadline`, with `t` inside its transaction, `u` is in one too.
  predicate JoinedBy(life: nat, run: seq<Label>, more: seq<Label>, t: Token, u: Token, deadline: int) {
    var s' := Exec(life, run + more);
    u != t && s'.clock <= deadline && OpenIn(s', t) && OpenIn(s', u)
  }

  // Some other flow that has the lock, or once had it, and has not ended its transaction.
  predicate AnotherUnended(s: State, t: Token) {
    exists u :: u in s.flows && u != t && Unended(s.flows[u])
  }

  predicate Unended(f: Flow) {
    Live(f) && f.txTo.None?
  }

  // The key is free by the deadline: now, by its expiry, or by a release still to come.
  predicate FreeBy(s: State, t: Token, deadline: int) {
    s.key.Some? ==>
      || s.key.value.expires <= deadline
      || (s.key.value.tok != t && s.key.value.tok in s.flows && Live(s.flows[s.key.value.tok]))
  }

  predicate CanOverlap(s: State, t: Token, deadline: int) {
    s.clock <= deadline && (AnotherUnended(s, t) || FreeBy(s, t, deadline))
  }

  // Flows keep their start, and once ended they stay ended.
  lemma FlowsContinue(life: nat, s: State, l: Label, t: Token)
    requires t in s.flows
    ensures var s' := Step(life, s, l);
            && s.clock <= s'.clock && t in s'.flows && s'.flows[t].since == s.flows[t].since
            && (Unended(s'.flows[t]) ==> Unended(s.flows[t]))
            && (Live(s'.flows[t]) ==> Live(s.flows[t]))
  {
  }

  // A key that is not free by the deadline keeps newcomers out.
  lemma ShutOut(life: nat, s: State, l: Label, t: Token, deadline: int)
    requires t in s.flows && Live(s.flows[t]) && !FreeBy(s, t, deadline) && s.clock <= deadline
    ensures var s' := Step(life, s, l); t in s'.flows
    ensures var s' := Step(life, s, l); Unended(s'.flows[t]) ==> s'.key == s.key && s'.flows.Keys == s.flows.Keys
    ensures var s' := Step(life, s, l); Unended(s'.flows[t]) ==> !FreeBy(s', t, deadline)
  {
  }

  // Until the deadline, as long as `t` has not ended, there is nobody new and nobody else unended.
  predicate AloneUntil(s: State, s': State, t: Token, deadline: int) {
    && s.clock <= s'.clock && t in s'.flows
    && (s'.clock <= deadline && Unended(s'.flows[t]) ==>
          s'.flows.Keys == s.flows.Keys && !AnotherUnended(s', t) && !FreeBy(s', t, deadline))
  }

  lemma StaysAlone(life: nat, s: State, s': State, l: Label, t: Token, deadline: int)
    requires AloneUntil(s, s', t, deadline)
    ensures AloneUntil(s, Step(life, s', l), t, deadline)
  {
    var s'' := Step(life, s', l);
    FlowsContinue(life, s', l, t);
    if s''.clock <= deadline && Unended(s''.flows[t]) {
      ShutOut(life, s', l, t, deadline);
      forall u | u in s''.flows && u != t ensures !Unended(s''.flows[u]) {
        FlowsContinue(life, s', l, u);
      }
    }
    hide Step;
  }

  lemma {:induction false} NobodyJoins(life: nat, run: seq<Label>, more: seq<Label>, t: Token, deadline: int)
    requires var s := Exec(life, run); t in s.flows && !AnotherUnended(s, t) && !FreeBy(s, t, deadline)
    ensures AloneUntil(Exec(life, run), Exec(life, run + more), t, deadline)
  {
    if more == [] {
      assert run + more == run;
    } else {
      var most, l := more[..|more| - 1], more[|more| - 1];
      assert run + more == run + most + [l];
      NobodyJoins(life, run, most, t, deadline);
      RunMore(life, run + most, l);
      hide Exec, Step;
      StaysAlone(life, Exec(life, run), Exec(life, run + most), l, t, deadline);
    }
  }

  // An unended flow can be inside its transaction at once.
  lemma UnendedJoins(life: nat, run: seq<Label>, t: Token, u: Token, deadline: int) returns (more: seq<Label>)
    requires var s := Exec(life, run);
             OpenIn(s, t) && u in s.flows && u != t && Unended(s.flows[u]) && s.clock <= deadline
    ensures JoinedBy(life, run, more, t, u, deadline)
  {
    if OpenIn(Exec(life, run), u) {
      more := [];
      assert run + more == run;
    } else {
      more := [BeginTx(u)];
      RunMore(life, run, BeginTx(u));
      hide Exec;
    }
  }

  // A newcomer can, once the key is free.
  lemma NewcomerJoins(life: nat, run: seq<Label>, t: Token, u: Token, deadline: int) returns (more: seq<Label>)
    requires var s := Exec(life, run);
             OpenIn(s, t) && u !in s.flows && s.clock <= deadline && FreeBy(s, t, deadline) && !AnotherUnended(s, t)
    ensures JoinedBy(life, run, more, t, u, deadline)
  {
    var s := Exec(life, run);
    if s.key.None? || s.key.value.expires <= deadline {
      var ms: nat := if s.key.None? || s.key.value.expires <= s.clock then 0 else s.key.value.expires - s.clock;
      hide Exec, Join;
      JoinSucceeds(life, run, ms, u);
      more := Join(ms, u);
    } else {
      var v := s.key.value.tok;
      InvInEveryRun(life, run);
      assert FlowOk(s.clock, s.flows[v]) && !Unended(s.flows[v]);
      RunMore(life, run, Release(v, true));
      hide Exec, Join;
      JoinSucceeds(life, run + [Release(v, true)], 0, u);
      more := [Release(v, true)] + Join(0, u);
      assert run + more == run + [Release(v, true)] + Join(0, u);
    }
  }

  // In any run, beside an open transaction of `t` a second one can be open by a deadline if
  // and only if another flow has not ended yet, or the key is free by then: it is free now,
  // its time is up, or its holder, not `t`, has only its release to do.
  lemma OverlapIff(life: nat, run: seq<Label>, t: Token, deadline: int)
    requires OpenIn(Exec(life, run), t)
    ensures (exists more, u :: JoinedBy(life, run, more, t, u, deadline)) <==> CanOverlap(Exec(life, run), t, deadline)
  {
    var s := Exec(life, run);
    InvInEveryRun(life, run);
    assert FlowOk(s.clock, s.flows[t]);
    if more, u :| JoinedBy(life, run, more, t, u, deadline) {
      InvInEveryRun(life, run + more);
      OpenIsUnended(life, run + more, t);
      OpenIsUnended(life, run + more, u);
      ClockRuns(life, run, more);
      if !AnotherUnended(s, t) && !FreeBy(s, t, deadline) {
        NobodyJoins(life, run, more, t, deadline);
      }
    }
    if CanOverlap(s, t, deadline) {
      hide Exec, FreeBy;
      if AnotherUnended(s, t) {
        var u :| u in s.flows && u != t && Unended(s.flows[u]);
        var more := UnendedJoins(life, run, t, u, deadline);
      } else {
        var u := FreshNat(s.flows.Keys);
        assert u !in s.flows;
        var more := NewcomerJoins(life, run, t, u, deadline);
      }
    }
  }

  lemma OpenIsUnended(life: nat, run: seq<Label>, t: Token)
    requires OpenIn(Exec(life, run), t)
    ensures Unended(Exec(life, run).flows[t])
  {
    InvInEveryRun(life, run);
    assert FlowOk(Exec(life, run).clock, Exec(life, run).flows[t]);
  }

  lemma {:induction false} ClockRuns(life: nat, run: seq<Label>, more: seq<Label>)
    ensures Exec(life, run).clock <= Exec(life, run + more).clock
  {
    if more == [] {
      assert run + more == run;
    } else {
      var most, l := more[..|more| - 1], more[|more| - 1];
      assert run + more == run + most + [l];
      ClockRuns(life, run, most);
      RunMore(life, run + most, l);
      hide Exec;
    }
  }

  // For a flow whose own time is not up, the key is its own: a second transaction can be
  // open beside it if and only if another flow is late but not ended, or its time is up by
  // the deadline.
  lemma OverlapIffOverdue(life: nat, run: seq<Label>, t: Token, deadline: int)
    requires var s := Exec(life, run); OpenIn(s, t) && s.clock < s.flows[t].since + life
    ensures var s := Exec(life, run);
            ((exists more, u :: JoinedBy(life, run, more, t, u, deadline)) <==>
               s.flows[t].since + life <= deadline || (s.clock <= deadline && AnotherUnended(s, t)))
    ensures var s := Exec(life, run);
            forall u :: u in s.flows && u != t && Unended(s.flows[u]) ==> s.flows[u].since + life <= s.clock
  {
    OverlapIff(life, run, t, deadline);
    InvInEveryRun(life, run);
    OpenIsUnended(life, run, t);
    assert Stored(life, Exec(life, run), t, Exec(life, run).flows[t]);
    forall u | u in Exec(life, run).flows && u != t && Unended(Exec(life, run).flows[u])
      ensures Exec(life, run).flows[u].since + life <= Exec(life, run).clock
    {
      assert Stored(life, Exec(life, run), u, Exec(life, run).flows[u]);
    }
  }

  // The 5 * time.Second of BookTicket, in milliseconds.
  const LOCK_TTL := 5000

  function Life(ttl: nat, dropsAtExpiry: bool): nat {
    if dropsAtExpiry then ttl else ttl + 1
  }

  // A booking that is still inside its transaction when its key goes shares the event with
  // the next one.
  lemma SlowFlowOverlaps(dropsAtExpiry: bool) returns (run: seq<Label>)
    ensures var life := Life(LOCK_TTL, dropsAtExpiry);
            var s := Exec(life, run);
            s.clock == life && s.flows.Keys == {0, 1} && OpenIn(s, 0) && OpenIn(s, 1)
  {
    var life := Life(LOCK_TTL, dropsAtExpiry);
    var first := [Acquire(0), BeginTx(0)];
    RunMore(life, [], Acquire(0));
    assert [] + [Acquire(0)] == [Acquire(0)];
    RunMore(life, [Acquire(0)], BeginTx(0));
    assert [Acquire(0)] + [BeginTx(0)] == first;
    hide Exec, Join;
    JoinSucceeds(life, first, life, 1);
    run := first + Join(life, 1);
  }

  lemma RunMore(life: nat, run: seq<Label>, l: Label)
    ensures Exec(life, run + [l]) == Step(life, Exec(life, run), l)
  {
    assert (run + [l])[..|run|] == run;
  }
}
