// The converse of refinement for requests that run alone: every booking, cancellation,
// update or deletion that the atomic specification allows is also carried through by the
// machine.
module Alone {
  import opened Schema
  import opened History
  import opened Protocol
  import opened Refinement

  lemma RunNext(mode: Mode, run: seq<Label>, ls: seq<Label>, i: nat)
    requires i < |ls|
    ensures Exec(mode, run + ls[..i + 1]) == Step(mode, Exec(mode, run + ls[..i]), ls[i])
  {
    assert run + ls[..i + 1] == run + ls[..i] + [ls[i]];
    RunMore(mode, run + ls[..i], ls[i]);
  }

  // No transaction is open.
  predicate Idle(s: State) {
    s.eventLocks == map[] && s.bookingLocks == map[] && s.inDoubt == map[]
  }

  // What is left of a state when `p` has finished with `result` and only tables and history moved.
  function Finished(s: State, p: Pid, result: Result, db: Db, a: Action): State {
    s.(procs := s.procs[p := Done(result)], db := db, history := s.history + [a])
  }

  // ---------- booking ----------

  function BookLabels(p: Pid, u: UserId, e: EventId, n: int, tok: Token, b: BookingId, now: int): seq<Label> {
    [Arrive(p, BookRequest(u, e, n)), AcquireLock(p, tok), ReadForUpdate(p), InsertBooking(p, b, now),
     UpdateTickets(p), LogInTx(p, true), CommitBooking(p), ReleaseLock(p)]
  }

  predicate CanStart(s: State, p: Pid, v: Seen, b: BookingId) {
    && Idle(s) && p !in s.procs && v.e !in s.redis
    && BookAllowed(s.db, b, v.u, v.e, v.n)
    && v.row == s.db.events[v.e] && v.readAt == |s.history|
    && EventChecks(v.row)
  }

  // The state after the first `k` labels of an undisturbed booking.
  function Booking(mode: Mode, s: State, p: Pid, v: Seen, b: BookingId, now: int, k: nat): State
    requires v.e in s.db.events
  {
    var row := InsertedBooking(v.u, v.e, v.n, v.row.price, now);
    var event := v.row.(remaining := v.row.remaining - v.n, version := v.row.version + 1);
    var action := Book(b, v.u, v.e, v.n, now);
    var pc :=
      if k == 1 then BookStart(v.u, v.e, v.n)
      else if k == 2 then BookLocked(v.u, v.e, v.n, v.tok)
      else if k == 3 then BookRead(v)
      else if k == 4 then BookInserted(v, b, now, row)
      else if k == 5 then BookDecremented(v, b, now, row, event)
      else if k == 6 then BookLogged(v, b, now, row, event, false)
      else if k == 7 then BookEnded(v.e, v.tok, Booked(b))
      else Done(Booked(b));
    State(if k < 7 then s.db else Apply(s.db, action),
          if k == 0 then s.procs else s.procs[p := pc],
          if ((k == 3 || k == 4) && mode == Locking) || k == 5 || k == 6 then map[v.e := p] else map[],
          if 4 <= k <= 6 then map[b := p] else map[],
          if 4 <= k <= 6 then map[(v.u, v.e) := p] else map[],
          if 2 <= k <= 7 then s.redis[v.e := v.tok] else s.redis,
          if k < 7 then s.history else s.history + [action])
  }

  predicate TakesStep(mode: Mode, s: State, p: Pid, v: Seen, b: BookingId, now: int, k: nat)
    requires v.e in s.db.events && k < 8
  {
    Step(mode, Booking(mode, s, p, v, b, now, k), BookLabels(p, v.u, v.e, v.n, v.tok, b, now)[k])
      == Booking(mode, s, p, v, b, now, k + 1)
  }

  lemma BookingArrives(mode: Mode, s: State, p: Pid, v: Seen, b: BookingId, now: int)
    requires CanStart(s, p, v, b)
    ensures TakesStep(mode, s, p, v, b, now, 0)
  {
  }

  lemma BookingLocks(mode: Mode, s: State, p: Pid, v: Seen, b: BookingId, now: int)
    requires CanStart(s, p, v, b)
    ensures TakesStep(mode, s, p, v, b, now, 1)
  {
  }

  lemma BookingReads(mode: Mode, s: State, p: Pid, v: Seen, b: BookingId, now: int)
    requires CanStart(s, p, v, b)
    ensures TakesStep(mode, s, p, v, b, now, 2)
  {
  }

  lemma BookingInserts(mode: Mode, s: State, p: Pid, v: Seen, b: BookingId, now: int)
    requires CanStart(s, p, v, b)
    ensures TakesStep(mode, s, p, v, b, now, 3)
  {
    PriceFitsBigint(v.n, v.row.price);
  }

  lemma DecrementAlone(mode: Mode, s: State, p: Pid, v: Seen, b: BookingId, now: int, row: BookingRow, event: EventRow)
    requires p in s.procs && s.procs[p] == BookInserted(v, b, now, row) && FreeFor(s.eventLocks, v.e, p)
    requires v.e in s.db.events && DecrementTickets(s.db.events[v.e], v.row.version, v.n) == Wrote(event)
    ensures Step(mode, s, UpdateTickets(p))
         == At(s, p, BookDecremented(v, b, now, row, event)).(eventLocks := s.eventLocks[v.e := p])
  {
    hide DecrementTickets;
  }

  lemma DecrementedState(mode: Mode, s: State, p: Pid, v: Seen, b: BookingId, now: int)
    requires v.e in s.db.events
    ensures var row := InsertedBooking(v.u, v.e, v.n, v.row.price, now);
            var event := v.row.(remaining := v.row.remaining - v.n, version := v.row.version + 1);
            var s4 := Booking(mode, s, p, v, b, now, 4);
            && s4.db == s.db && p in s4.procs && s4.procs[p] == BookInserted(v, b, now, row)
            && FreeFor(s4.eventLocks, v.e, p)
            && Booking(mode, s, p, v, b, now, 5)
               == At(s4, p, BookDecremented(v, b, now, row, event)).(eventLocks := s4.eventLocks[v.e := p])
  {
    hide InsertedBooking, Apply;
    assert map[][v.e := p] == map[v.e := p] == map[v.e := p][v.e := p];
  }

  lemma BookingDecrements(mode: Mode, s: State, p: Pid, v: Seen, b: BookingId, now: int)
    requires CanStart(s, p, v, b)
    ensures TakesStep(mode, s, p, v, b, now, 4)
  {
    var row := InsertedBooking(v.u, v.e, v.n, v.row.price, now);
    var event := v.row.(remaining := v.row.remaining - v.n, version := v.row.version + 1);
    assert DecrementTickets(s.db.events[v.e], v.row.version, v.n) == Wrote(event);
    assert v.e in s.db.events;
    hide CanStart, InsertedBooking, Step, DecrementTickets, Booking, FreeFor;
    DecrementedState(mode, s, p, v, b, now);
    DecrementAlone(mode, Booking(mode, s, p, v, b, now, 4), p, v, b, now, row, event);
  }

  lemma BookingLogs(mode: Mode, s: State, p: Pid, v: Seen, b: BookingId, now: int)
    requires CanStart(s, p, v, b)
    ensures TakesStep(mode, s, p, v, b, now, 5)
  {
    hide CanStart, Apply;
  }

  lemma NothingLeft<K>(k: K, p: Pid)
    ensures Without(map[k := p], p) == map[]
  {
  }

  // The pending rows of the booking are what the atomic action writes.
  lemma BookingApplied(s: State, p: Pid, v: Seen, b: BookingId, now: int)
    requires CanStart(s, p, v, b)
    ensures var row := InsertedBooking(v.u, v.e, v.n, v.row.price, now);
            var event := v.row.(remaining := v.row.remaining - v.n, version := v.row.version + 1);
            Apply(s.db, Book(b, v.u, v.e, v.n, now))
              == Db(s.db.events[v.e := event], s.db.bookings[b := row], s.db.audits + [BookingCreated(b, row)])
  {
    PriceFitsBigint(v.n, v.row.price);
    hide HasActive;
  }

  lemma CommitAloneLeaves(mode: Mode, s: State, p: Pid, v: Seen, b: BookingId, now: int,
                          row: BookingRow, event: EventRow)
    requires p in s.procs && s.procs[p] == BookLogged(v, b, now, row, event, false)
    requires s.eventLocks == map[v.e := p] && s.bookingLocks == map[b := p] && s.inDoubt == map[(v.u, v.e) := p]
    ensures Step(mode, s, CommitBooking(p))
         == State(Db(s.db.events[v.e := event], s.db.bookings[b := row], s.db.audits + [BookingCreated(b, row)]),
                  s.procs[p := BookEnded(v.e, v.tok, Booked(b))], map[], map[], map[], s.redis,
                  s.history + [Book(b, v.u, v.e, v.n, now)])
  {
    NothingLeft(v.e, p);
    NothingLeft(b, p);
    NothingLeft((v.u, v.e), p);
    hide Without;
  }

  lemma BookingCommits(mode: Mode, s: State, p: Pid, v: Seen, b: BookingId, now: int)
    requires CanStart(s, p, v, b)
    ensures TakesStep(mode, s, p, v, b, now, 6)
  {
    BookingApplied(s, p, v, b, now);
    hide Apply, CanStart, InsertedBooking, Step;
    var row := InsertedBooking(v.u, v.e, v.n, v.row.price, now);
    var event := v.row.(remaining := v.row.remaining - v.n, version := v.row.version + 1);
    CommitAloneLeaves(mode, Booking(mode, s, p, v, b, now, 6), p, v, b, now, row, event);
  }

  lemma BookingEnds(mode: Mode, s: State, p: Pid, v: Seen, b: BookingId, now: int)
    requires CanStart(s, p, v, b)
    ensures TakesStep(mode, s, p, v, b, now, 7)
  {
    assert s.redis[v.e := v.tok] - {v.e} == s.redis;
    hide CanStart, Apply;
  }

  lemma BookingStep(mode: Mode, s: State, p: Pid, v: Seen, b: BookingId, now: int, k: nat)
    requires CanStart(s, p, v, b) && k < 8
    ensures TakesStep(mode, s, p, v, b, now, k)
  {
    hide TakesStep, CanStart;
    if k == 0 {
      BookingArrives(mode, s, p, v, b, now);
    } else if k == 1 {
      BookingLocks(mode, s, p, v, b, now);
    } else if k == 2 {
      BookingReads(mode, s, p, v, b, now);
    } else if k == 3 {
      BookingInserts(mode, s, p, v, b, now);
    } else if k == 4 {
      BookingDecrements(mode, s, p, v, b, now);
    } else if k == 5 {
      BookingLogs(mode, s, p, v, b, now);
    } else if k == 6 {
      BookingCommits(mode, s, p, v, b, now);
    } else {
      BookingEnds(mode, s, p, v, b, now);
    }
  }

  lemma {:induction false} BookingRun(mode: Mode, run: seq<Label>, p: Pid, v: Seen, b: BookingId, now: int, k: nat)
    requires CanStart(Exec(mode, run), p, v, b) && k <= 8
    ensures Exec(mode, run + BookLabels(p, v.u, v.e, v.n, v.tok, b, now)[..k])
         == Booking(mode, Exec(mode, run), p, v, b, now, k)
  {
    var ls := BookLabels(p, v.u, v.e, v.n, v.tok, b, now);
    hide Step, Exec, Booking;
    if k == 0 {
      assert run + ls[..0] == run;
      BookingStart(mode, Exec(mode, run), p, v, b, now);
    } else {
      BookingRun(mode, run, p, v, b, now, k - 1);
      RunNext(mode, run, ls, k - 1);
      BookingStep(mode, Exec(mode, run), p, v, b, now, k - 1);
    }
  }

  lemma BookingStart(mode: Mode, s: State, p: Pid, v: Seen, b: BookingId, now: int)
    requires CanStart(s, p, v, b)
    ensures Booking(mode, s, p, v, b, now, 0) == s
  {
  }

  // A booking that is allowed and undisturbed commits, whatever was booked or cancelled
  // before: in particular a user may book again after cancelling.
  lemma BookAlone(mode: Mode, run: seq<Label>, p: Pid, u: UserId, e: EventId, n: int, tok: Token,
                  b: BookingId, now: int)
    requires var s := Exec(mode, run); Idle(s) && p !in s.procs && e !in s.redis && BookAllowed(s.db, b, u, e, n)
    ensures var s, a := Exec(mode, run), Book(b, u, e, n, now);
            Exec(mode, run + BookLabels(p, u, e, n, tok, b, now))
              == Finished(s, p, Booked(b), Apply(s.db, a), a)
  {
    var s, ls := Exec(mode, run), BookLabels(p, u, e, n, tok, b, now);
    RunOk(mode, run);
    ReplayOk(s.history);
    hide Exec;
    BookingRun(mode, run, p, Seen(u, e, n, tok, s.db.events[e], |s.history|), b, now, 8);
    assert ls[..8] == ls;
  }

  // ---------- cancelling ----------

  function CancelLabels(p: Pid, b: BookingId, u: UserId, now: int): seq<Label> {
    [Arrive(p, CancelRequest(b, u)), ReadBooking(p), LockBooking(p), MarkCancelled(p, now), Restore(p),
     CommitCancel(p), LogCancelled(p, false)]
  }

  predicate CanCancel(s: State, p: Pid, b: BookingId, u: UserId) {
    Idle(s) && p !in s.procs && CancelAllowed(s.db, b) && s.db.bookings[b].user == u
  }

  // The state after the first `k` labels of an undisturbed cancellation.
  function Cancelling(s: State, p: Pid, b: BookingId, u: UserId, now: int, k: nat): State
    requires CancelAllowed(s.db, b)
  {
    var row := s.db.bookings[b];
    var event := RestoreTickets(s.db.events[row.event], row.count).row;
    var pc :=
      if k == 1 then CancelStart(b, u)
      else if k == 2 then CancelRead(b, u, row)
      else if k == 3 then CancelLocked(b, u, row, row)
      else if k == 4 then CancelMarked(b, row, row, now)
      else if k == 5 then CancelRestored(b, row, row, now, event)
      else if k == 6 then CancelCommitted(b, row, CancelRow(row, now))
      else Done(CancelDone(b));
    State(if k < 6 then s.db else Apply(s.db, Cancel(b, now)),
          if k == 0 then s.procs else s.procs[p := pc],
          if k == 5 then map[row.event := p] else map[],
          if 3 <= k <= 5 then map[b := p] else map[],
          if 4 <= k <= 5 then map[(row.user, row.event) := p] else map[],
          s.redis,
          if k < 6 then s.history else s.history + [Cancel(b, now)])
  }

  predicate CancelTakesStep(mode: Mode, s: State, p: Pid, b: BookingId, u: UserId, now: int, k: nat)
    requires CancelAllowed(s.db, b) && k < 7
  {
    Step(mode, Cancelling(s, p, b, u, now, k), CancelLabels(p, b, u, now)[k]) == Cancelling(s, p, b, u, now, k + 1)
  }

  lemma CancelArrives(mode: Mode, s: State, p: Pid, b: BookingId, u: UserId, now: int)
    requires CanCancel(s, p, b, u)
    ensures CancelTakesStep(mode, s, p, b, u, now, 0)
  {
  }

  lemma CancelReads(mode: Mode, s: State, p: Pid, b: BookingId, u: UserId, now: int)
    requires CanCancel(s, p, b, u)
    ensures CancelTakesStep(mode, s, p, b, u, now, 1)
  {
  }

  lemma CancelLocks(mode: Mode, s: State, p: Pid, b: BookingId, u: UserId, now: int)
    requires CanCancel(s, p, b, u)
    ensures CancelTakesStep(mode, s, p, b, u, now, 2)
  {
  }

  lemma CancelMarks(mode: Mode, s: State, p: Pid, b: BookingId, u: UserId, now: int)
    requires CanCancel(s, p, b, u)
    ensures CancelTakesStep(mode, s, p, b, u, now, 3)
  {
  }

  lemma CancelRestores(mode: Mode, s: State, p: Pid, b: BookingId, u: UserId, now: int)
    requires CanCancel(s, p, b, u)
    ensures CancelTakesStep(mode, s, p, b, u, now, 4)
  {
  }

  lemma CancelCommitLeaves(mode: Mode, s: State, p: Pid, b: BookingId, row: BookingRow, now: int, event: EventRow)
    requires p in s.procs && s.procs[p] == CancelRestored(b, row, row, now, event)
    requires s.eventLocks == map[row.event := p] && s.bookingLocks == map[b := p]
    requires s.inDoubt == map[(row.user, row.event) := p]
    ensures Step(mode, s, CommitCancel(p))
         == State(s.db.(events := s.db.events[row.event := event], bookings := s.db.bookings[b := CancelRow(row, now)]),
                  s.procs[p := CancelCommitted(b, row, CancelRow(row, now))], map[], map[], map[], s.redis,
                  s.history + [Cancel(b, now)])
  {
    NothingLeft(row.event, p);
    NothingLeft(b, p);
    NothingLeft((row.user, row.event), p);
    hide Without, CancelRow;
  }

  lemma CancelCommits(mode: Mode, s: State, p: Pid, b: BookingId, u: UserId, now: int)
    requires CanCancel(s, p, b, u)
    ensures CancelTakesStep(mode, s, p, b, u, now, 5)
  {
    var row := s.db.bookings[b];
    var event := RestoreTickets(s.db.events[row.event], row.count).row;
    assert Apply(s.db, Cancel(b, now))
      == s.db.(events := s.db.events[row.event := event], bookings := s.db.bookings[b := CancelRow(row, now)]);
    assert CancelAllowed(s.db, b);
    hide Step, Apply, CanCancel, CancelAllowed, CancelRow, RestoreTickets;
    CancelCommitLeaves(mode, Cancelling(s, p, b, u, now, 5), p, b, row, now, event);
  }

  lemma CancelLogs(mode: Mode, s: State, p: Pid, b: BookingId, u: UserId, now: int)
    requires CanCancel(s, p, b, u)
    ensures CancelTakesStep(mode, s, p, b, u, now, 6)
  {
  }

  lemma CancelStep(mode: Mode, s: State, p: Pid, b: BookingId, u: UserId, now: int, k: nat)
    requires CanCancel(s, p, b, u) && k < 7
    ensures CancelTakesStep(mode, s, p, b, u, now, k)
  {
    assert CancelAllowed(s.db, b);
    hide CancelTakesStep, CanCancel, CancelAllowed;
    if k == 0 {
      CancelArrives(mode, s, p, b, u, now);
    } else if k == 1 {
      CancelReads(mode, s, p, b, u, now);
    } else if k == 2 {
      CancelLocks(mode, s, p, b, u, now);
    } else if k == 3 {
      CancelMarks(mode, s, p, b, u, now);
    } else if k == 4 {
      CancelRestores(mode, s, p, b, u, now);
    } else if k == 5 {
      CancelCommits(mode, s, p, b, u, now);
    } else {
      CancelLogs(mode, s, p, b, u, now);
    }
  }

  lemma {:induction false} CancelRun(mode: Mode, run: seq<Label>, p: Pid, b: BookingId, u: UserId, now: int, k: nat)
    requires CanCancel(Exec(mode, run), p, b, u) && k <= 7
    ensures Exec(mode, run + CancelLabels(p, b, u, now)[..k]) == Cancelling(Exec(mode, run), p, b, u, now, k)
  {
    var ls := CancelLabels(p, b, u, now);
    if k == 0 {
      assert run + ls[..0] == run;
    } else {
      hide Step, Exec, Cancelling;
      CancelRun(mode, run, p, b, u, now, k - 1);
      RunNext(mode, run, ls, k - 1);
      CancelStep(mode, Exec(mode, run), p, b, u, now, k - 1);
    }
  }

  // A cancellation by the owner that is allowed and undisturbed commits, even if the audit
  // insert after the commit fails.
  lemma CancelAlone(mode: Mode, run: seq<Label>, p: Pid, b: BookingId, u: UserId, now: int)
    requires CanCancel(Exec(mode, run), p, b, u)
    ensures var s, a := Exec(mode, run), Cancel(b, now);
            Exec(mode, run + CancelLabels(p, b, u, now)) == Finished(s, p, CancelDone(b), Apply(s.db, a), a)
  {
    CancelRun(mode, run, p, b, u, now, 7);
    assert CancelLabels(p, b, u, now)[..7] == CancelLabels(p, b, u, now);
  }

  // ---------- updating and deleting ----------

  // With nothing else open, an update request reads the row as it is now,
  lemma UpdateReads(mode: Mode, run: seq<Label>, p: Pid, e: EventId, edit: Edit)
    requires var s := Exec(mode, run);
             p !in s.procs && e in s.db.events && !s.db.events[e].deleted && EditValid(edit)
    ensures var s := Exec(mode, run);
            Exec(mode, run + [Arrive(p, UpdateRequest(e, edit)), ReadEvent(p)])
              == At(s, p, UpdateRead(e, edit, s.db.events[e], |s.history|))
  {
    var s, r := Exec(mode, run), run + [Arrive(p, UpdateRequest(e, edit))];
    RunMore(mode, run, Arrive(p, UpdateRequest(e, edit)));
    RunMore(mode, r, ReadEvent(p));
    assert r + [ReadEvent(p)] == run + [Arrive(p, UpdateRequest(e, edit)), ReadEvent(p)];
    assert Exec(mode, r) == At(s, p, UpdateStart(e, edit));
    hide Exec;
    assert s.procs[p := UpdateStart(e, edit)][p := UpdateRead(e, edit, s.db.events[e], |s.history|)]
        == s.procs[p := UpdateRead(e, edit, s.db.events[e], |s.history|)];
  }

  // The action that a waiting update will commit.
  function PendingWrite(pc: Proc): Action
    requires pc.UpdateRead?
  {
    Update(pc.e, pc.edit, pc.read, pc.readAt)
  }

  // and whenever it was read, it is written if it still matches and passes the CHECKs.
  lemma UpdateWrites(mode: Mode, run: seq<Label>, p: Pid)
    requires var s := Exec(mode, run);
             Idle(s) && p in s.procs && s.procs[p].UpdateRead? && Enabled(s.db, PendingWrite(s.procs[p]))
    ensures var s := Exec(mode, run);
            var a := PendingWrite(s.procs[p]);
            Exec(mode, run + [WriteEvent(p)]) == Finished(s, p, UpdateDone, Apply(s.db, a), a)
  {
    RunMore(mode, run, WriteEvent(p));
    hide Exec;
    WriteAlone(mode, Exec(mode, run), p);
  }

  lemma EndsIdle(s: State, p: Pid, pc: Proc)
    requires Idle(s)
    ensures EndTx(s, p, pc) == At(s, p, pc)
  {
  }

  lemma WriteAlone(mode: Mode, s: State, p: Pid)
    requires Idle(s) && p in s.procs && s.procs[p].UpdateRead? && Enabled(s.db, PendingWrite(s.procs[p]))
    ensures var a := PendingWrite(s.procs[p]);
            Step(mode, s, WriteEvent(p)) == Finished(s, p, UpdateDone, Apply(s.db, a), a)
  {
    assert Step(mode, s, WriteEvent(p)) == DoWriteEvent(s, p, s.procs[p]);
    EndsIdle(s, p, Done(UpdateDone));
    hide Step, EndTx, RewriteEvent;
  }

  function UpdateLabels(p: Pid, e: EventId, edit: Edit): seq<Label> {
    [Arrive(p, UpdateRequest(e, edit)), ReadEvent(p), WriteEvent(p)]
  }

  // An update that is allowed and undisturbed commits. Its fields need no check of their
  // own: the CHECKs of the table are at least as strict.
  lemma UpdateAlone(mode: Mode, run: seq<Label>, p: Pid, e: EventId, edit: Edit)
    requires var s := Exec(mode, run);
             && Idle(s) && p !in s.procs && e in s.db.events && !s.db.events[e].deleted
             && Enabled(s.db, Update(e, edit, s.db.events[e], |s.history|))
    ensures var s := Exec(mode, run);
            var a := Update(e, edit, s.db.events[e], |s.history|);
            Exec(mode, run + UpdateLabels(p, e, edit)) == Finished(s, p, UpdateDone, Apply(s.db, a), a)
  {
    var s := Exec(mode, run);
    EditIsValid(mode, run, e, edit);
    var read := [Arrive(p, UpdateRequest(e, edit)), ReadEvent(p)];
    hide Exec, Enabled, EditValid, Apply;
    UpdateReads(mode, run, p, e, edit);
    UpdateWrites(mode, run + read, p);
    assert run + read + [WriteEvent(p)] == run + UpdateLabels(p, e, edit);
    assert s.procs[p := UpdateRead(e, edit, s.db.events[e], |s.history|)][p := Done(UpdateDone)]
        == s.procs[p := Done(UpdateDone)];
  }

  lemma EditIsValid(mode: Mode, run: seq<Label>, e: EventId, edit: Edit)
    requires var s := Exec(mode, run);
             e in s.db.events && Enabled(s.db, Update(e, edit, s.db.events[e], |s.history|))
    ensures EditValid(edit)
  {
    RunOk(mode, run);
    ReplayOk(Exec(mode, run).history);
  }

  function DeleteLabels(p: Pid, e: EventId): seq<Label> {
    [Arrive(p, DeleteRequest(e)), ReadEvent(p), SoftDelete(p)]
  }

  lemma DeleteAlone(mode: Mode, run: seq<Label>, p: Pid, e: EventId)
    requires var s := Exec(mode, run); Idle(s) && p !in s.procs && Enabled(s.db, Delete(e))
    ensures var s, a := Exec(mode, run), Delete(e);
            Exec(mode, run + DeleteLabels(p, e)) == Finished(s, p, DeleteDone, Apply(s.db, a), a)
  {
    var s, read := Exec(mode, run), [Arrive(p, DeleteRequest(e)), ReadEvent(p)];
    DeleteReads(mode, run, p, e);
    RunMore(mode, run + read, SoftDelete(p));
    hide Exec, Enabled, Apply;
    assert run + read + [SoftDelete(p)] == run + DeleteLabels(p, e);
    DeleteWrites(mode, At(s, p, DeleteRead(e)), p, e);
    hide Step;
    assert s.procs[p := DeleteRead(e)][p := Done(DeleteDone)] == s.procs[p := Done(DeleteDone)];
  }

  lemma DeleteReads(mode: Mode, run: seq<Label>, p: Pid, e: EventId)
    requires var s := Exec(mode, run); p !in s.procs && e in s.db.events && !s.db.events[e].deleted
    ensures Exec(mode, run + [Arrive(p, DeleteRequest(e)), ReadEvent(p)]) == At(Exec(mode, run), p, DeleteRead(e))
  {
    var s, r := Exec(mode, run), run + [Arrive(p, DeleteRequest(e))];
    RunMore(mode, run, Arrive(p, DeleteRequest(e)));
    RunMore(mode, r, ReadEvent(p));
    assert r + [ReadEvent(p)] == run + [Arrive(p, DeleteRequest(e)), ReadEvent(p)];
    assert Exec(mode, r) == At(s, p, DeleteStart(e));
    hide Exec;
    assert s.procs[p := DeleteStart(e)][p := DeleteRead(e)] == s.procs[p := DeleteRead(e)];
  }

  lemma DeleteWrites(mode: Mode, s: State, p: Pid, e: EventId)
    requires Idle(s) && p in s.procs && s.procs[p] == DeleteRead(e) && Enabled(s.db, Delete(e))
    ensures Step(mode, s, SoftDelete(p)) == Finished(s, p, DeleteDone, Apply(s.db, Delete(e)), Delete(e))
  {
    assert Step(mode, s, SoftDelete(p)) == DoSoftDelete(s, p, s.procs[p]);
    EndsIdle(s, p, Done(DeleteDone));
    hide Step, EndTx;
  }

  // Creating an event is one statement.
  lemma CreateAlone(mode: Mode, run: seq<Label>, a: Action)
    requires a.Create? && Enabled(Exec(mode, run).db, a)
    ensures var s := Exec(mode, run);
            Exec(mode, run + [CreateEvent(a.e, a.total, a.price, a.status)])
              == s.(db := Apply(s.db, a), history := s.history + [a])
  {
    RunMore(mode, run, CreateEvent(a.e, a.total, a.price, a.status));
    hide Exec;
  }
}
