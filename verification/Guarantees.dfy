// What holds in every reachable state of the interleaved machine, for any number of
// requests, any interleaving, any behaviour of Redis and aborts at any point.
module Guarantees {
  import opened Schema
  import opened History
  import opened Ledger
  import opened Protocol
  import opened Refinement
  import opened Steps

  // ---------- refinement ----------

  // The committed tables are the replay of a history of actions that were each enabled.
  lemma Refines(mode: Mode, run: seq<Label>)
    ensures var s := Exec(mode, run);
            Valid(s.history) && s.db == Replay(s.history) && DbOk(s.db)
  {
    RunOk(mode, run);
    ReplayOk(Exec(mode, run).history);
  }

  lemma HistoryGrows(mode: Mode, s: State, l: Label)
    ensures Quiet(s, Step(mode, s, l)) || AppendsOne(s, Step(mode, s, l))
  {
  }

  predicate Takes(s: State, s': State, a: Action) {
    s'.history == s.history + [a] && Enabled(s.db, a) && s'.db == Apply(s.db, a)
  }

  lemma OneActionTaken(mode: Mode, s: State, s': State)
    requires Inv(mode, s) && Inv(mode, s') && AppendsOne(s, s')
    ensures Takes(s, s', s'.history[|s.history|])
  {
    var a := s'.history[|s.history|];
    assert s'.history == s.history + [a];
    Extend(s.history, a);
  }

  // Each step leaves tables and history alone or takes one enabled action, whole.
  lemma StepRefines(mode: Mode, run: seq<Label>, l: Label)
    ensures var s, s' := Exec(mode, run), Exec(mode, run + [l]);
            Quiet(s, s') || exists a :: Takes(s, s', a)
  {
    RunMore(mode, run, l);
    RunOk(mode, run);
    RunOk(mode, run + [l]);
    HistoryGrows(mode, Exec(mode, run), l);
    hide Exec, Step, Inv;
    if !Quiet(Exec(mode, run), Exec(mode, run + [l])) {
      OneActionTaken(mode, Exec(mode, run), Exec(mode, run + [l]));
    }
  }

  // The tables change only in the step that makes a request succeed, when an event is
  // created, or when the audit row of a committed cancellation is written.
  lemma OnlySuccessWrites(mode: Mode, s: State, l: Label)
    requires Step(mode, s, l).db != s.db && !l.CreateEvent?
    ensures !l.Arrive? && !l.RedisChange? && l.p in s.procs && l.p in Step(mode, s, l).procs
    ensures Succeeds(s.procs[l.p], Step(mode, s, l).procs[l.p])
  {
  }

  // ---------- booking ----------

  lemma CommitBookingEffect(mode: Mode, s: State, p: Pid, pc: Proc)
    requires Inv(mode, s) && p in s.procs && s.procs[p] == pc && pc.BookLogged?
    ensures var v, s' := pc.seen, Step(mode, s, CommitBooking(p));
            if pc.poisoned then
              s'.db == s.db && s'.procs[p] == BookEnded(v.e, v.tok, Failed(Database))
            else
              && BookAllowed(s.db, pc.b, v.u, v.e, v.n)
              && s'.db == Apply(s.db, Book(pc.b, v.u, v.e, v.n, pc.now))
              && s'.db.bookings[pc.b].price == v.n * s.db.events[v.e].price
              && s'.procs[p] == BookEnded(v.e, v.tok, Booked(pc.b))
  {
    ProcIs(mode, s, p);
    hide Inv;
    assert Step(mode, s, CommitBooking(p)) == DoCommitBooking(s, p, pc);
  }

  // The step that commits a booking finds it valid against the tables of that very
  // instant, and leaves them as the atomic booking does, the price being the exact product.
  lemma CommittedBookingIsValid(mode: Mode, run: seq<Label>, p: Pid)
    requires p in Exec(mode, run).procs && Exec(mode, run).procs[p].BookLogged?
    ensures var s, s', pc := Exec(mode, run), Exec(mode, run + [CommitBooking(p)]), Exec(mode, run).procs[p];
            var v := pc.seen;
            if pc.poisoned then
              s'.db == s.db && s'.procs[p] == BookEnded(v.e, v.tok, Failed(Database))
            else
              && BookAllowed(s.db, pc.b, v.u, v.e, v.n)
              && s'.db == Apply(s.db, Book(pc.b, v.u, v.e, v.n, pc.now))
              && s'.db.bookings[pc.b].price == v.n * s.db.events[v.e].price
              && s'.procs[p] == BookEnded(v.e, v.tok, Booked(pc.b))
  {
    RunMore(mode, run, CommitBooking(p));
    RunOk(mode, run);
    hide Inv, Exec;
    CommitBookingEffect(mode, Exec(mode, run), p, Exec(mode, run).procs[p]);
  }

  // No two open transactions have inserted or are cancelling under the same key, and while
  // an insert is open no committed active booking has its key.
  lemma OneWriterPerKey(mode: Mode, run: seq<Label>, p: Pid, q: Pid)
    requires p in Exec(mode, run).procs && q in Exec(mode, run).procs && p != q
    ensures var s := Exec(mode, run);
            var key := KeyInDoubt(s.procs[p]);
            && (key.Some? ==> KeyInDoubt(s.procs[q]) != key)
            && (s.procs[p].BookInserted? || s.procs[p].BookDecremented? || s.procs[p].BookLogged? ==>
                  key.Some? && !HasActive(s.db.bookings, key.value.0, key.value.1))
  {
    var s := Exec(mode, run);
    RunOk(mode, run);
    ProcIs(mode, s, p);
    ProcIs(mode, s, q);
    hide Exec, HasActive;
    if s.procs[p].CancelMarked? || s.procs[p].CancelRestored? {
      KeyIsFree(mode, s, p, s.procs[p].b, q);
      hide ProcOk, Inv;
    } else if s.procs[q].CancelMarked? || s.procs[q].CancelRestored? {
      KeyIsFree(mode, s, q, s.procs[q].b, p);
      InsertHoldsItsKey(mode, s, p, s.procs[p]);
      hide ProcOk, Inv;
    } else {
      InsertHoldsItsKey(mode, s, p, s.procs[p]);
      InsertHoldsItsKey(mode, s, q, s.procs[q]);
      hide ProcOk, Inv;
    }
  }

  lemma InsertHoldsItsKey(mode: Mode, s: State, p: Pid, pc: Proc)
    requires ProcOk(mode, s, p, pc)
    ensures var key := KeyInDoubt(pc);
            pc.BookInserted? || pc.BookDecremented? || pc.BookLogged? ==>
              key.Some? && Holds(s.inDoubt, key.value, p) && !HasActive(s.db.bookings, key.value.0, key.value.1)
  {
    hide SeenOk, Enabled, HasActive;
  }

  // Under the row lock the version check is never the one to fail, whatever Redis does:
  // the decrement is not blocked, matches its row and passes the CHECKs. The one exception
  // is an event whose INT version is exhausted.
  lemma RowLockSuffices(run: seq<Label>, p: Pid)
    requires p in Exec(Locking, run).procs && Exec(Locking, run).procs[p].BookInserted?
    ensures var s, s' := Exec(Locking, run), Exec(Locking, run + [UpdateTickets(p)]);
            var v := s.procs[p].seen;
            && v.e in s.db.events && s.db.events[v.e] == v.row
            && (v.row.version < MAX_INT ==> s'.procs[p].BookDecremented?)
            && (v.row.version == MAX_INT ==> s'.procs[p] == BookEnded(v.e, v.tok, Failed(Database)))
  {
    RunMore(Locking, run, UpdateTickets(p));
    RunOk(Locking, run);
    var s := Exec(Locking, run);
    ProcIs(Locking, s, p);
    RowInRange(s, s.procs[p].seen);
    hide Inv, Exec, Replay;
    DecrementUnderLock(s, p, s.procs[p].seen);
  }

  lemma DecrementUnderLock(s: State, p: Pid, v: Seen)
    requires p in s.procs && s.procs[p].BookInserted? && s.procs[p].seen == v && SeenOk(Locking, s, p, v)
    requires EventChecks(v.row)
    ensures var s' := Step(Locking, s, UpdateTickets(p));
            && v.e in s.db.events && s.db.events[v.e] == v.row && p in s'.procs
            && (v.row.version < MAX_INT ==> s'.procs[p].BookDecremented?)
            && (v.row.version == MAX_INT ==> s'.procs[p] == BookEnded(v.e, v.tok, Failed(Database)))
  {
    assert Step(Locking, s, UpdateTickets(p)) == DoUpdateTickets(s, p, s.procs[p]);
    hide Step, Replay;
  }

  predicate Decided(s: State, s': State, p: Pid, v: Seen)
    requires p in s'.procs
  {
    && v.e in s.db.events
    && var cur := s.db.events[v.e];
    && (s'.procs[p].BookDecremented? <==> cur.version == v.row.version && !cur.deleted && cur.version < MAX_INT)
    && (s'.procs[p].BookDecremented? ==>
          && cur.status == Published && cur.price == v.row.price && v.n <= cur.remaining
          && s'.procs[p].event.remaining == cur.remaining - v.n)
    && (cur.version != v.row.version || cur.deleted ==>
          s'.procs[p] == BookEnded(v.e, v.tok, Failed(VersionConflict)) && s'.db == s.db)
  }

  lemma DecrementEffect(mode: Mode, s: State, p: Pid, v: Seen)
    requires Inv(mode, s) && p in s.procs && s.procs[p].BookInserted? && s.procs[p].seen == v
    requires FreeFor(s.eventLocks, v.e, p)
    ensures p in Step(mode, s, UpdateTickets(p)).procs
    ensures Decided(s, Step(mode, s, UpdateTickets(p)), p, v)
  {
    ProcIs(mode, s, p);
    SeenStillBookable(mode, s, p, v);
    ReplayOk(s.history);
    assert EventChecks(s.db.events[v.e]);
    hide Inv, Replay, DbOk;
    assert Step(mode, s, UpdateTickets(p)) == DoUpdateTickets(s, p, s.procs[p]);
    hide Step, ProcOk, SeenOk;
  }

  // Without the row lock (and without Redis) the version check decides alone: once the row
  // is free, the decrement goes through exactly when the version it read is the current one
  // of an undeleted event, and then the status and price it read are current too.
  lemma VersionCheckSuffices(mode: Mode, run: seq<Label>, p: Pid)
    requires p in Exec(mode, run).procs && Exec(mode, run).procs[p].BookInserted?
    requires FreeFor(Exec(mode, run).eventLocks, Exec(mode, run).procs[p].seen.e, p)
    ensures var s, s' := Exec(mode, run), Exec(mode, run + [UpdateTickets(p)]);
            p in s'.procs && Decided(s, s', p, s.procs[p].seen)
  {
    RunMore(mode, run, UpdateTickets(p));
    RunOk(mode, run);
    hide Inv, Exec;
    DecrementEffect(mode, Exec(mode, run), p, Exec(mode, run).procs[p].seen);
  }

  // The int64 product of a validated booking is the true product and fits a BIGINT.
  lemma PriceIsExact(mode: Mode, run: seq<Label>, p: Pid)
    requires p in Exec(mode, run).procs && Exec(mode, run).procs[p].BookRead?
    ensures var v := Exec(mode, run).procs[p].seen;
            && Wrap64(v.n * v.row.price) == v.n * v.row.price
            && 0 <= v.n * v.row.price <= MAX_INT * MAX_INT
            && BookingChecks(InsertedBooking(v.u, v.e, v.n, v.row.price, 0))
  {
    RunOk(mode, run);
    var s := Exec(mode, run);
    ProcIs(mode, s, p);
    RowInRange(s, s.procs[p].seen);
    PriceFitsBigint(s.procs[p].seen.n, s.procs[p].seen.row.price);
  }

  // ---------- the ledger ----------

  lemma LedgerInEveryRun(mode: Mode, run: seq<Label>, e: EventId)
    requires e in Exec(mode, run).db.events
    ensures var s := Exec(mode, run);
            Kept(s.db, e) == CreatedTotal(s.history, e) + Drift(s.history, e)
  {
    RunOk(mode, run);
    LedgerHolds(Exec(mode, run).history, e);
  }

  lemma NoOversellingInHonestRuns(mode: Mode, run: seq<Label>, e: EventId)
    requires e in Exec(mode, run).db.events && Honest(Exec(mode, run).history, e)
    ensures var s := Exec(mode, run);
            var kept := Kept(s.db, e);
            && kept <= CreatedTotal(s.history, e)
            && (kept == CreatedTotal(s.history, e) <==>
                  !exists i: nat, j: nat :: CancelInGap(s.history, e, i, j))
  {
    RunOk(mode, run);
    NoOverselling(Exec(mode, run).history, e);
  }

  lemma VersionsInEveryRun(mode: Mode, run: seq<Label>, e: EventId)
    requires e in Exec(mode, run).db.events
    ensures var s := Exec(mode, run);
            s.db.events[e].version == 1 + BookingRows(s.db, e) + UpdatesOf(s.history, e)
  {
    RunOk(mode, run);
    VersionCountsWrites(Exec(mode, run).history, e);
  }

  // ---------- bookings, cancellations and their audit rows ----------

  // At most one active booking per user and event; bookings and their `create` audit rows
  // one to one; every cancelled booking gave its tickets back exactly once.
  lemma BookingsInEveryRun(mode: Mode, run: seq<Label>)
    ensures var s := Exec(mode, run);
            && OneActive(s.db.bookings)
            && Audited(s.db)
            && CancelLogsExact(s.db)
            && forall b :: CancelsOf(s.history, b)
                        == if b in s.db.bookings && s.db.bookings[b].status == Cancelled then 1 else 0
  {
    RunOk(mode, run);
    var s := Exec(mode, run);
    ReplayOk(s.history);
    forall b
      ensures CancelsOf(s.history, b)
           == if b in s.db.bookings && s.db.bookings[b].status == Cancelled then 1 else 0
    {
      GivesBackOnce(s.history, b);
    }
  }

  // Cancelling the active booking of a key leaves none.
  lemma CancelFreesKey(db: Db, b: BookingId, now: int)
    requires OneActive(db.bookings) && CancelAllowed(db, b)
    ensures !HasActive(Apply(db, Cancel(b, now)).bookings, db.bookings[b].user, db.bookings[b].event)
  {
    var row := db.bookings[b];
    forall c | c in db.bookings && Active(db.bookings[c]) && c != b
      ensures !(db.bookings[c].user == row.user && db.bookings[c].event == row.event)
    {
      assert SameKey(db.bookings[c], row) <==> db.bookings[c].user == row.user && db.bookings[c].event == row.event;
    }
  }

  lemma CommitCancelEffect(mode: Mode, s: State, p: Pid, pc: Proc)
    requires ProcOk(mode, s, p, pc) && p in s.procs && s.procs[p] == pc && pc.CancelRestored?
    requires BookingsOk(s.db) && OneActive(s.db.bookings)
    ensures var s' := Step(mode, s, CommitCancel(p));
            && pc.b in s.db.bookings && s.db.bookings[pc.b] == pc.row && pc.row.status == Confirmed
            && s'.db == Apply(s.db, Cancel(pc.b, pc.now))
            && pc.row.event in s.db.events
            && s'.db.events[pc.row.event].remaining == s.db.events[pc.row.event].remaining + pc.row.count
            && !HasActive(s'.db.bookings, pc.row.user, pc.row.event)
  {
    assert Step(mode, s, CommitCancel(p)) == DoCommitCancel(s, p, pc);
    assert BookingOk(s.db, s.db.bookings[pc.b]);
    CancelFreesKey(s.db, pc.b, pc.now);
    hide Step, HasActive, OneActive, BookingsOk;
  }

  // A committing cancellation takes its booking from confirmed to cancelled, gives exactly
  // its tickets back, and frees the user to book the event again.
  lemma CommittedCancelFreesTheUser(mode: Mode, run: seq<Label>, p: Pid)
    requires p in Exec(mode, run).procs && Exec(mode, run).procs[p].CancelRestored?
    ensures var s, s', pc := Exec(mode, run), Exec(mode, run + [CommitCancel(p)]), Exec(mode, run).procs[p];
            && pc.b in s.db.bookings && s.db.bookings[pc.b].status == Confirmed
            && s'.db == Apply(s.db, Cancel(pc.b, pc.now))
            && s'.db.bookings[pc.b].status == Cancelled
            && pc.row.event in s.db.events
            && s'.db.events[pc.row.event].remaining == s.db.events[pc.row.event].remaining + s.db.bookings[pc.b].count
            && !HasActive(s'.db.bookings, pc.row.user, pc.row.event)
  {
    RunMore(mode, run, CommitCancel(p));
    RunOk(mode, run);
    ReplayOk(Exec(mode, run).history);
    ProcIs(mode, Exec(mode, run), p);
    hide Exec, ProcOk, Replay;
    CommitCancelEffect(mode, Exec(mode, run), p, Exec(mode, run).procs[p]);
  }

  // The row a cancellation read without a lock is the row it later locked.
  lemma CancelReadWasExact(mode: Mode, run: seq<Label>, p: Pid)
    requires p in Exec(mode, run).procs
    ensures var s, pc := Exec(mode, run), Exec(mode, run).procs[p];
            match pc
            case CancelLocked(b, u, before, row) => b in s.db.bookings && before == row == s.db.bookings[b]
            case CancelCommitted(b, before, after) =>
              && b in s.db.bookings && s.db.bookings[b] == after
              && before.status == Confirmed && before.version == 1 && before.cancelledAt == None
              && after == CancelRow(before, after.updatedAt)
            case _ => true
  {
    RunOk(mode, run);
    ProcIs(mode, Exec(mode, run), p);
  }

  // In honest runs whose updates never shrink the event, giving tickets back never fails.
  lemma RestoreNeverFails(mode: Mode, run: seq<Label>, p: Pid)
    requires p in Exec(mode, run).procs && Exec(mode, run).procs[p].CancelMarked?
    requires Honest(Exec(mode, run).history, Exec(mode, run).procs[p].row.event)
    requires NeverShrinks(Exec(mode, run).history, Exec(mode, run).procs[p].row.event)
    requires FreeFor(Exec(mode, run).eventLocks, Exec(mode, run).procs[p].row.event, p)
    ensures Exec(mode, run + [Restore(p)]).procs[p].CancelRestored?
  {
    RunMore(mode, run, Restore(p));
    RunOk(mode, run);
    CancelFits(mode, Exec(mode, run), p);
    hide Inv, Exec, Honest, NeverShrinks;
    RestoreEffect(mode, Exec(mode, run), p, Exec(mode, run).procs[p]);
  }

  lemma CancelFits(mode: Mode, s: State, p: Pid)
    requires Inv(mode, s) && p in s.procs && s.procs[p].CancelMarked?
    requires Honest(s.history, s.procs[p].row.event) && NeverShrinks(s.history, s.procs[p].row.event)
    ensures CancelAllowed(s.db, s.procs[p].b) && s.procs[p].row == s.db.bookings[s.procs[p].b]
  {
    ProcIs(mode, s, p);
    hide Honest, NeverShrinks;
    CancelNeverStuck(s.history, s.procs[p].b);
  }

  lemma RestoreEffect(mode: Mode, s: State, p: Pid, pc: Proc)
    requires p in s.procs && s.procs[p] == pc && pc.CancelMarked? && FreeFor(s.eventLocks, pc.row.event, p)
    requires CancelAllowed(s.db, pc.b) && pc.row == s.db.bookings[pc.b]
    ensures Step(mode, s, Restore(p)).procs[p].CancelRestored?
  {
    assert Step(mode, s, Restore(p)) == DoRestore(s, p, pc);
  }

  // ---------- the Redis keys ----------

  // A request adds a lock key only where there was none, under its own token, and removes
  // only a key that still holds its own token.
  lemma LockKeysAreOwn(mode: Mode, s: State, l: Label, e: EventId)
    requires !l.RedisChange?
    ensures var s' := Step(mode, s, l);
            && (e in s.redis && e in s'.redis ==> s'.redis[e] == s.redis[e])
            && (e !in s.redis && e in s'.redis ==> l.AcquireLock? && s'.redis[e] == l.tok)
            && (e in s.redis && e !in s'.redis ==>
                  l.ReleaseLock? && l.p in s.procs && s.procs[l.p].BookEnded?
                  && s.procs[l.p].e == e && s.procs[l.p].tok == s.redis[e])
  {
  }
}
