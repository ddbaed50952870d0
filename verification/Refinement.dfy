// Every interleaved run refines the atomic specification: the committed tables are always
// the replay of a valid history, and each step appends at most one enabled action to it.
module Refinement {
  import opened Schema
  import opened History
  import opened Protocol
  import opened Ledger

  // ---------- the invariant of one request ----------

  predicate Holds<K>(m: map<K, Pid>, k: K, p: Pid) {
    k in m && m[k] == p
  }

  // The row a booking read was committed, bookable, and (under the row lock) still is the row.
  predicate SeenOk(mode: Mode, s: State, p: Pid, v: Seen) {
    && v.readAt <= |s.history|
    && v.e in Replay(s.history[..v.readAt]).events
    && Replay(s.history[..v.readAt]).events[v.e] == v.row
    && v.row.status == Published && !v.row.deleted
    && 0 < v.n <= v.row.remaining
    && (mode == Locking ==>
          Holds(s.eventLocks, v.e, p) && v.e in s.db.events && s.db.events[v.e] == v.row)
  }

  predicate InsertOk(s: State, p: Pid, v: Seen, b: BookingId) {
    && b !in s.db.bookings
    && Holds(s.bookingLocks, b, p)
    && Holds(s.inDoubt, (v.u, v.e), p)
    && !HasActive(s.db.bookings, v.u, v.e)
  }

  // The pending writes are exactly what the atomic booking would do to the tables right now.
  predicate ReadyToBook(s: State, p: Pid, v: Seen, b: BookingId, now: int, row: BookingRow, event: EventRow) {
    && InsertOk(s, p, v, b)
    && Holds(s.eventLocks, v.e, p)
    && Enabled(s.db, Book(b, v.u, v.e, v.n, now))
    && row == NewBooking(v.u, v.e, v.n, s.db.events[v.e].price, now)
    && event == s.db.events[v.e].(
         remaining := s.db.events[v.e].remaining - v.n, version := s.db.events[v.e].version + 1)
  }

  predicate CancelLockOk(s: State, p: Pid, b: BookingId, before: BookingRow, row: BookingRow) {
    && Holds(s.bookingLocks, b, p)
    && b in s.db.bookings && s.db.bookings[b] == row
    && Active(row) && before == row
  }

  predicate ProcOk(mode: Mode, s: State, p: Pid, pc: Proc) {
    match pc
    case BookStart(u, e, n) => 0 < n
    case BookLocked(u, e, n, tok) => 0 < n
    case BookRead(v) => SeenOk(mode, s, p, v)
    case BookInserted(v, b, now, row) =>
      SeenOk(mode, s, p, v) && InsertOk(s, p, v, b) && row == InsertedBooking(v.u, v.e, v.n, v.row.price, now)
    case BookDecremented(v, b, now, row, event) => ReadyToBook(s, p, v, b, now, row, event)
    case BookLogged(v, b, now, row, event, poisoned) => ReadyToBook(s, p, v, b, now, row, event)
    case CancelRead(b, u, before) =>
      b in s.db.bookings && (before == s.db.bookings[b] || !Active(s.db.bookings[b]))
    case CancelLocked(b, u, before, row) => CancelLockOk(s, p, b, before, row)
    case CancelMarked(b, before, row, now) =>
      CancelLockOk(s, p, b, before, row) && Holds(s.inDoubt, (row.user, row.event), p)
    case CancelRestored(b, before, row, now, event) =>
      && CancelLockOk(s, p, b, before, row)
      && Holds(s.inDoubt, (row.user, row.event), p)
      && Holds(s.eventLocks, row.event, p)
      && row.event in s.db.events
      && RestoreTickets(s.db.events[row.event], row.count) == Wrote(event)
    case CancelCommitted(b, before, after) => Enabled(s.db, LogCancel(b, before, after))
    case UpdateRead(e, edit, read, readAt) => ReadEarlier(s.history, Update(e, edit, read, readAt))
    case _ => true
  }

  ghost predicate Inv(mode: Mode, s: State) {
    && Valid(s.history)
    && Replay(s.history) == s.db
    && forall p :: p in s.procs ==> ProcOk(mode, s, p, s.procs[p])
  }

  // ---------- other requests are not disturbed ----------

  // Whatever `q` holds in `s` it still holds in `s'`.
  ghost predicate Keeps(s: State, s': State, q: Pid) {
    && (forall e :: Holds(s.eventLocks, e, q) ==> Holds(s'.eventLocks, e, q))
    && (forall b :: Holds(s.bookingLocks, b, q) ==> Holds(s'.bookingLocks, b, q))
    && (forall k :: Holds(s.inDoubt, k, q) ==> Holds(s'.inDoubt, k, q))
  }

  // The action touches no row and no index key that `q` holds.
  predicate Spares(s: State, a: Action, q: Pid) {
    match a
    case Book(b, u, e, n, now) =>
      !Holds(s.eventLocks, e, q) && !Holds(s.bookingLocks, b, q) && !Holds(s.inDoubt, (u, e), q)
    case Cancel(b, now) =>
      !Holds(s.bookingLocks, b, q)
      && (b in s.db.bookings ==> !Holds(s.eventLocks, s.db.bookings[b].event, q))
    case Update(e, edit, read, readAt) => !Holds(s.eventLocks, e, q)
    case Delete(e) => !Holds(s.eventLocks, e, q)
    case _ => true
  }

  lemma QuietForOthers(mode: Mode, s: State, s': State, q: Pid, pc: Proc)
    requires ProcOk(mode, s, q, pc) && Keeps(s, s', q)
    requires s'.db == s.db && s'.history == s.history
    ensures ProcOk(mode, s', q, pc)
  {
  }

  predicate CommitsAction(s: State, s': State, a: Action) {
    && Enabled(s.db, a)
    && s'.db == Apply(s.db, a)
    && s'.history == s.history + [a]
  }

  lemma CommitSparesSeen(mode: Mode, s: State, s': State, a: Action, q: Pid, v: Seen)
    requires SeenOk(mode, s, q, v) && Keeps(s, s', q) && Spares(s, a, q) && CommitsAction(s, s', a)
    ensures SeenOk(mode, s', q, v)
  {
    assert s'.history[..v.readAt] == s.history[..v.readAt];
  }

  lemma CommitSparesInsert(s: State, s': State, a: Action, q: Pid, v: Seen, b: BookingId)
    requires InsertOk(s, q, v, b) && Keeps(s, s', q) && Spares(s, a, q) && CommitsAction(s, s', a)
    ensures InsertOk(s', q, v, b)
  {
    forall c | c in s'.db.bookings && Active(s'.db.bookings[c])
      ensures !(s'.db.bookings[c].user == v.u && s'.db.bookings[c].event == v.e)
    {
      if c in s.db.bookings {
        assert Active(s.db.bookings[c]) && SameKey(s.db.bookings[c], s'.db.bookings[c]);
      }
    }
  }

  // `a` commits from `s` to `s'` and leaves alone whatever `q`, which is at `pc`, relies on.
  ghost predicate CommitsBeside(mode: Mode, s: State, s': State, a: Action, q: Pid, pc: Proc) {
    DbOk(s.db) && ProcOk(mode, s, q, pc) && Keeps(s, s', q) && Spares(s, a, q) && CommitsAction(s, s', a)
  }

  lemma CommitSparesRead(mode: Mode, s: State, s': State, a: Action, q: Pid, pc: Proc)
    requires CommitsBeside(mode, s, s', a, q, pc) && (pc.BookRead? || pc.BookInserted?)
    ensures ProcOk(mode, s', q, pc)
  {
    hide DbOk, Keeps, Spares, CommitsAction;
    CommitSparesSeen(mode, s, s', a, q, pc.seen);
    if pc.BookInserted? {
      CommitSparesInsert(s, s', a, q, pc.seen, pc.b);
    }
    hide SeenOk, InsertOk;
  }

  lemma CommitSparesPending(mode: Mode, s: State, s': State, a: Action, q: Pid, pc: Proc)
    requires CommitsBeside(mode, s, s', a, q, pc) && (pc.BookDecremented? || pc.BookLogged?)
    ensures ProcOk(mode, s', q, pc)
  {
    hide DbOk;
    CommitSparesInsert(s, s', a, q, pc.seen, pc.b);
    hide HasActive;
  }

  lemma CommitSparesUpdate(mode: Mode, s: State, s': State, a: Action, q: Pid, pc: Proc)
    requires CommitsBeside(mode, s, s', a, q, pc) && pc.UpdateRead?
    ensures ProcOk(mode, s', q, pc)
  {
    hide DbOk, Keeps, Spares, Apply, Enabled;
    assert s'.history[..pc.readAt] == s.history[..pc.readAt];
  }

  lemma CommitSparesCancelRead(mode: Mode, s: State, s': State, a: Action, q: Pid, pc: Proc)
    requires CommitsBeside(mode, s, s', a, q, pc) && pc.CancelRead?
    ensures ProcOk(mode, s', q, pc)
  {
    BookingsStay(s.db, a);
    hide DbOk, Keeps, Spares;
  }

  lemma CommitSparesCancelled(mode: Mode, s: State, s': State, a: Action, q: Pid, pc: Proc)
    requires CommitsBeside(mode, s, s', a, q, pc) && pc.CancelCommitted?
    ensures ProcOk(mode, s', q, pc)
  {
    BookingsStay(s.db, a);
    hide DbOk, Keeps, Spares, Apply;
  }

  lemma CommitSparesCancelLock(mode: Mode, s: State, s': State, a: Action, q: Pid, pc: Proc)
    requires CommitsBeside(mode, s, s', a, q, pc) && (pc.CancelLocked? || pc.CancelMarked? || pc.CancelRestored?)
    ensures ProcOk(mode, s', q, pc)
  {
    hide DbOk, HasActive;
  }

  lemma CommitForOthers(mode: Mode, s: State, s': State, a: Action, q: Pid, pc: Proc)
    requires CommitsBeside(mode, s, s', a, q, pc)
    ensures ProcOk(mode, s', q, pc)
  {
    if pc.BookRead? || pc.BookInserted? {
      CommitSparesRead(mode, s, s', a, q, pc);
    } else if pc.BookDecremented? || pc.BookLogged? {
      CommitSparesPending(mode, s, s', a, q, pc);
    } else if pc.UpdateRead? {
      CommitSparesUpdate(mode, s, s', a, q, pc);
    } else if pc.CancelRead? {
      CommitSparesCancelRead(mode, s, s', a, q, pc);
    } else if pc.CancelCommitted? {
      CommitSparesCancelled(mode, s, s', a, q, pc);
    } else if pc.CancelLocked? || pc.CancelMarked? || pc.CancelRestored? {
      CommitSparesCancelLock(mode, s, s', a, q, pc);
    } else {
      hide CommitsAction, Keeps, Spares, DbOk;
    }
  }

  // ---------- the kinds of step ----------

  // A step of `p` that commits nothing.
  lemma QuietStep(mode: Mode, s: State, s': State, p: Pid, pc: Proc)
    requires Inv(mode, s)
    requires s'.db == s.db && s'.history == s.history && s'.procs == s.procs[p := pc]
    requires forall q :: q != p ==> Keeps(s, s', q)
    requires ProcOk(mode, s', p, pc)
    ensures Inv(mode, s')
  {
    forall q | q in s'.procs
      ensures ProcOk(mode, s', q, s'.procs[q])
    {
      if q != p {
        QuietForOthers(mode, s, s', q, s.procs[q]);
      }
    }
  }

  lemma EndTxKeeps(s: State, p: Pid, pc: Proc, q: Pid)
    requires q != p
    ensures Keeps(s, EndTx(s, p, pc), q)
  {
  }

  // A rollback, or any other end of a transaction without effect.
  lemma EndStep(mode: Mode, s: State, p: Pid, pc: Proc)
    requires Inv(mode, s)
    requires ProcOk(mode, EndTx(s, p, pc), p, pc)
    ensures Inv(mode, EndTx(s, p, pc))
  {
    forall q | q != p ensures Keeps(s, EndTx(s, p, pc), q) { EndTxKeeps(s, p, pc, q); }
    QuietStep(mode, s, EndTx(s, p, pc), p, pc);
  }

  // A step that only moves the program counter of `p`, and maybe changes Redis.
  lemma MoveStep(mode: Mode, s: State, s': State, p: Pid, pc: Proc)
    requires Inv(mode, s)
    requires s' == At(s, p, pc).(redis := s'.redis)
    requires ProcOk(mode, s', p, pc)
    ensures Inv(mode, s')
  {
    QuietStep(mode, s, s', p, pc);
  }

  // A step of `p` that locks an event row which no other request holds.
  lemma LockEventStep(mode: Mode, s: State, p: Pid, pc: Proc, e: EventId)
    requires Inv(mode, s) && FreeFor(s.eventLocks, e, p)
    requires ProcOk(mode, At(s, p, pc).(eventLocks := s.eventLocks[e := p]), p, pc)
    ensures Inv(mode, At(s, p, pc).(eventLocks := s.eventLocks[e := p]))
  {
    QuietStep(mode, s, At(s, p, pc).(eventLocks := s.eventLocks[e := p]), p, pc);
  }

  // A step of `p` that ends its transaction by committing action `a`.
  lemma CommitStep(mode: Mode, s: State, s': State, p: Pid, pc: Proc, a: Action)
    requires Inv(mode, s) && CommitsAction(s, s', a)
    requires a.Update? ==> ReadEarlier(s.history, a)
    requires s' == Commit(EndTx(s, p, pc), s'.db, a) || s' == Commit(At(s, p, pc), s'.db, a)
    requires forall q :: q != p ==> Spares(s, a, q)
    requires ProcOk(mode, s', p, pc)
    ensures Inv(mode, s')
  {
    Extend(s.history, a);
    ReplayOk(s.history);
    forall q | q in s'.procs
      ensures ProcOk(mode, s', q, s'.procs[q])
    {
      if q != p {
        EndTxKeeps(s, p, pc, q);
        CommitForOthers(mode, s, s', a, q, s.procs[q]);
      }
    }
  }

  // ---------- BookTicket ----------

  lemma ProcIs(mode: Mode, s: State, p: Pid)
    requires Inv(mode, s) && p in s.procs
    ensures ProcOk(mode, s, p, s.procs[p])
  {
  }

  lemma AcquireLockOk(mode: Mode, s: State, p: Pid, pc: Proc, tok: Token)
    requires Inv(mode, s) && p in s.procs && s.procs[p] == pc && pc.BookStart?
    ensures Inv(mode, DoAcquireLock(s, p, pc, tok))
  {
    hide Inv;
    ProcIs(mode, s, p);
    if pc.e in s.redis {
      MoveStep(mode, s, DoAcquireLock(s, p, pc, tok), p, Done(Failed(LockNotAcquired)));
    } else {
      MoveStep(mode, s, DoAcquireLock(s, p, pc, tok), p, BookLocked(pc.u, pc.e, pc.n, tok));
    }
  }

  lemma ReadForUpdateOk(mode: Mode, s: State, p: Pid, pc: Proc)
    requires Inv(mode, s) && p in s.procs && s.procs[p] == pc && pc.BookLocked?
    ensures Inv(mode, DoReadForUpdate(mode, s, p, pc))
  {
    hide Inv;
    if pc.e !in s.db.events || s.db.events[pc.e].deleted {
      EndStep(mode, s, p, BookEnded(pc.e, pc.tok, Failed(NotFound)));
    } else if mode == VersionOnly || FreeFor(s.eventLocks, pc.e, p) {
      var row := s.db.events[pc.e];
      if row.status != Published {
        EndStep(mode, s, p, BookEnded(pc.e, pc.tok, Failed(NotAvailable)));
      } else if row.remaining < pc.n {
        EndStep(mode, s, p, BookEnded(pc.e, pc.tok, Failed(Insufficient)));
      } else {
        var v := Seen(pc.u, pc.e, pc.n, pc.tok, row, |s.history|);
        ReadIsSeen(mode, s, p, v);
        if mode == Locking {
          LockEventStep(mode, s, p, BookRead(v), pc.e);
        } else {
          MoveStep(mode, s, At(s, p, BookRead(v)), p, BookRead(v));
        }
      }
    }
  }

  lemma ReadIsSeen(mode: Mode, s: State, p: Pid, v: Seen)
    requires Inv(mode, s) && v.e in s.db.events && s.db.events[v.e] == v.row && v.readAt == |s.history|
    requires v.row.status == Published && !v.row.deleted && v.n <= v.row.remaining
    requires p in s.procs && s.procs[p] == BookLocked(v.u, v.e, v.n, v.tok)
    ensures SeenOk(mode, At(s, p, BookRead(v)).(
      eventLocks := if mode == Locking then s.eventLocks[v.e := p] else s.eventLocks), p, v)
  {
    assert s.history[..|s.history|] == s.history;
    ProcIs(mode, s, p);
  }

  lemma InsertBookingOk(mode: Mode, s: State, p: Pid, pc: Proc, b: BookingId, now: int)
    requires Inv(mode, s) && p in s.procs && s.procs[p] == pc && pc.BookRead?
    ensures Inv(mode, DoInsertBooking(s, p, pc, b, now))
  {
    hide Inv;
    var v := pc.seen;
    var row := InsertedBooking(v.u, v.e, v.n, v.row.price, now);
    if b in s.db.bookings || b in s.bookingLocks || !FreeFor(s.inDoubt, (v.u, v.e), p) {
    } else if HasActive(s.db.bookings, v.u, v.e) {
      EndStep(mode, s, p, BookEnded(v.e, v.tok, Failed(AlreadyActive)));
    } else if !BookingChecks(row) {
      EndStep(mode, s, p, BookEnded(v.e, v.tok, Failed(Database)));
    } else {
      ProcIs(mode, s, p);
      QuietStep(mode, s, DoInsertBooking(s, p, pc, b, now), p, BookInserted(v, b, now, row));
    }
  }

  // A decrement that finds the version it expects finds the row it read, but for tickets
  // given back meanwhile: status and price are current and enough tickets remain.
  lemma SeenStillBookable(mode: Mode, s: State, p: Pid, v: Seen)
    requires Inv(mode, s) && SeenOk(mode, s, p, v)
    ensures v.e in s.db.events
    ensures var cur := s.db.events[v.e];
            && v.row.version <= cur.version
            && (cur.version == v.row.version ==>
                  && cur.status == Published && cur.price == v.row.price
                  && v.n <= v.row.remaining <= cur.remaining)
  {
    SinceVersion(s.history, v.readAt, v.e);
  }

  lemma UpdateTicketsOk(mode: Mode, s: State, p: Pid, pc: Proc)
    requires Inv(mode, s) && p in s.procs && s.procs[p] == pc && pc.BookInserted?
    ensures Inv(mode, DoUpdateTickets(s, p, pc))
  {
    hide Inv;
    var v := pc.seen;
    var out := if v.e in s.db.events then DecrementTickets(s.db.events[v.e], v.row.version, v.n) else NoRow;
    if out.NoRow? {
      EndStep(mode, s, p, BookEnded(v.e, v.tok, Failed(VersionConflict)));
    } else if FreeFor(s.eventLocks, v.e, p) {
      match out
      case Rejected => EndStep(mode, s, p, BookEnded(v.e, v.tok, Failed(Database)));
      case Wrote(event) =>
        ProcIs(mode, s, p);
        SeenStillBookable(mode, s, p, v);
        RowInRange(s, v);
        PriceFitsBigint(v.n, v.row.price);
        LockEventStep(mode, s, p, BookDecremented(v, pc.b, pc.now, pc.row, event), v.e);
    }
  }

  lemma RowInRange(s: State, v: Seen)
    requires v.readAt <= |s.history| && v.e in Replay(s.history[..v.readAt]).events
    requires Replay(s.history[..v.readAt]).events[v.e] == v.row
    ensures EventChecks(v.row)
  {
    ReplayOk(s.history[..v.readAt]);
  }

  lemma CommitBookingOk(mode: Mode, s: State, p: Pid, pc: Proc)
    requires Inv(mode, s) && p in s.procs && s.procs[p] == pc && pc.BookLogged?
    ensures Inv(mode, DoCommitBooking(s, p, pc))
  {
    hide Inv;
    var v := pc.seen;
    if pc.poisoned {
      EndStep(mode, s, p, BookEnded(v.e, v.tok, Failed(Database)));
    } else {
      ProcIs(mode, s, p);
      CommitStep(mode, s, DoCommitBooking(s, p, pc), p, BookEnded(v.e, v.tok, Booked(pc.b)),
                 Book(pc.b, v.u, v.e, v.n, pc.now));
    }
  }

  // ---------- CancelBooking ----------

  lemma ReadBookingOk(mode: Mode, s: State, p: Pid, pc: Proc)
    requires Inv(mode, s) && p in s.procs && s.procs[p] == pc && pc.CancelStart?
    ensures Inv(mode, DoReadBooking(s, p, pc))
  {
    hide Inv;
    if pc.b !in s.db.bookings {
      EndStep(mode, s, p, Done(Failed(NotFound)));
    } else if s.db.bookings[pc.b].user != pc.u {
      EndStep(mode, s, p, Done(Failed(NotOwner)));
    } else {
      MoveStep(mode, s, DoReadBooking(s, p, pc), p, CancelRead(pc.b, pc.u, s.db.bookings[pc.b]));
    }
  }

  // A booking that was active when read without a lock and still is active is unchanged.
  lemma LockBookingOk(mode: Mode, s: State, p: Pid, pc: Proc)
    requires Inv(mode, s) && p in s.procs && s.procs[p] == pc && pc.CancelRead?
    ensures Inv(mode, DoLockBooking(s, p, pc))
  {
    hide Inv;
    ProcIs(mode, s, p);
    if FreeFor(s.bookingLocks, pc.b, p) {
      var row := s.db.bookings[pc.b];
      if row.user != pc.u {
        EndStep(mode, s, p, Done(Failed(NotFound)));
      } else if !Active(row) {
        EndStep(mode, s, p, Done(Failed(CannotCancel)));
      } else {
        QuietStep(mode, s, DoLockBooking(s, p, pc), p, CancelLocked(pc.b, pc.u, pc.before, row));
      }
    }
  }

  // No request can have a key in doubt while a committed active booking under it is locked
  // by another.
  lemma KeyIsFree(mode: Mode, s: State, p: Pid, b: BookingId, q: Pid)
    requires Inv(mode, s) && Holds(s.bookingLocks, b, p) && q != p && q in s.procs
    requires b in s.db.bookings && Active(s.db.bookings[b])
    ensures var key := (s.db.bookings[b].user, s.db.bookings[b].event);
            match s.procs[q]
            case BookInserted(v, c, now, row) => (v.u, v.e) != key
            case BookDecremented(v, c, now, row, event) => (v.u, v.e) != key
            case BookLogged(v, c, now, row, event, poisoned) => (v.u, v.e) != key
            case CancelMarked(c, before, row, now) => (row.user, row.event) != key
            case CancelRestored(c, before, row, now, event) => (row.user, row.event) != key
            case _ => true
  {
    ReplayOk(s.history);
    ProcIs(mode, s, q);
  }

  lemma MarkCancelledOk(mode: Mode, s: State, p: Pid, pc: Proc, now: int)
    requires Inv(mode, s) && p in s.procs && s.procs[p] == pc && pc.CancelLocked?
    ensures Inv(mode, DoMarkCancelled(s, p, pc, now))
  {
    var s' := DoMarkCancelled(s, p, pc, now);
    forall q | q in s'.procs
      ensures ProcOk(mode, s', q, s'.procs[q])
    {
      if q != p {
        KeyIsFree(mode, s, p, pc.b, q);
        assert ProcOk(mode, s, q, s.procs[q]);
      }
    }
  }

  lemma RestoreOk(mode: Mode, s: State, p: Pid, pc: Proc)
    requires Inv(mode, s) && p in s.procs && s.procs[p] == pc && pc.CancelMarked?
    ensures Inv(mode, DoRestore(s, p, pc))
  {
    hide Inv;
    var e := pc.row.event;
    if FreeFor(s.eventLocks, e, p) {
      var out := if e in s.db.events then RestoreTickets(s.db.events[e], pc.row.count) else Rejected;
      match out
      case Wrote(event) =>
        ProcIs(mode, s, p);
        LockEventStep(mode, s, p, CancelRestored(pc.b, pc.before, pc.row, pc.now, event), e);
      case _ => EndStep(mode, s, p, Done(Failed(Database)));
    }
  }

  lemma CommitCancelOk(mode: Mode, s: State, p: Pid, pc: Proc)
    requires Inv(mode, s) && p in s.procs && s.procs[p] == pc && pc.CancelRestored?
    ensures Inv(mode, DoCommitCancel(s, p, pc))
  {
    var after := CancelRow(pc.row, pc.now);
    ProcIs(mode, s, p);
    ConfirmedIfActive(mode, s, pc.b);
    hide Inv;
    CommitStep(mode, s, DoCommitCancel(s, p, pc), p, CancelCommitted(pc.b, pc.before, after),
               Cancel(pc.b, pc.now));
  }

  // An active booking is as it was inserted.
  lemma ConfirmedIfActive(mode: Mode, s: State, b: BookingId)
    requires Inv(mode, s) && b in s.db.bookings && Active(s.db.bookings[b])
    ensures s.db.bookings[b] == AsInserted(s.db.bookings[b]) && s.db.bookings[b].event in s.db.events
  {
    ReplayOk(s.history);
    assert BookingOk(s.db, s.db.bookings[b]);
  }

  lemma LogCancelledOk(mode: Mode, s: State, p: Pid, pc: Proc, ok: bool)
    requires Inv(mode, s) && p in s.procs && s.procs[p] == pc && pc.CancelCommitted?
    ensures Inv(mode, DoLogCancelled(s, p, pc, ok))
  {
    hide Inv;
    ProcIs(mode, s, p);
    if ok {
      CommitStep(mode, s, DoLogCancelled(s, p, pc, ok), p, Done(CancelDone(pc.b)),
                 LogCancel(pc.b, pc.before, pc.after));
    } else {
      MoveStep(mode, s, DoLogCancelled(s, p, pc, ok), p, Done(CancelDone(pc.b)));
    }
  }

  // ---------- Update and Delete ----------

  lemma ReadEventOk(mode: Mode, s: State, p: Pid, pc: Proc)
    requires Inv(mode, s) && p in s.procs && s.procs[p] == pc && (pc.UpdateStart? || pc.DeleteStart?)
    ensures Inv(mode, DoReadEvent(s, p, pc))
  {
    var now := |s.history|;
    assert pc.e in s.db.events ==> Replay(s.history[..now]).events[pc.e] == s.db.events[pc.e] by {
      assert s.history[..now] == s.history;
    }
    assert Replay(s.history[..now]).events.Keys == s.db.events.Keys by {
      assert s.history[..now] == s.history;
    }
    hide Inv;
    if pc.e !in s.db.events || s.db.events[pc.e].deleted {
      EndStep(mode, s, p, Done(Failed(NotFound)));
    } else if pc.DeleteStart? {
      MoveStep(mode, s, At(s, p, DeleteRead(pc.e)), p, DeleteRead(pc.e));
    } else if !EditValid(pc.edit) {
      EndStep(mode, s, p, Done(Failed(Invalid)));
    } else {
      var pc' := UpdateRead(pc.e, pc.edit, s.db.events[pc.e], now);
      MoveStep(mode, s, At(s, p, pc'), p, pc');
    }
  }

  lemma WriteCommitsOk(mode: Mode, s: State, p: Pid, pc: Proc)
    requires Inv(mode, s) && p in s.procs && s.procs[p] == pc && pc.UpdateRead?
    requires pc.e in s.db.events && FreeFor(s.eventLocks, pc.e, p)
    requires RewriteEvent(s.db.events[pc.e], Edited(pc.read, pc.edit)).Wrote?
    ensures Inv(mode, DoWriteEvent(s, p, pc))
  {
    assert Encodable(Edited(pc.read, pc.edit));
    hide Inv, RewriteEvent, ReadEarlier, EditValid;
    ProcIs(mode, s, p);
    CommitStep(mode, s, DoWriteEvent(s, p, pc), p, Done(UpdateDone),
               Update(pc.e, pc.edit, pc.read, pc.readAt));
  }

  lemma WriteEventOk(mode: Mode, s: State, p: Pid, pc: Proc)
    requires Inv(mode, s) && p in s.procs && s.procs[p] == pc && pc.UpdateRead?
    ensures Inv(mode, DoWriteEvent(s, p, pc))
  {
    hide Inv, RewriteEvent;
    var out := if pc.e in s.db.events then RewriteEvent(s.db.events[pc.e], Edited(pc.read, pc.edit)) else NoRow;
    if !Encodable(Edited(pc.read, pc.edit)) {
      EndStep(mode, s, p, Done(Failed(Database)));
    } else if out.NoRow? {
      EndStep(mode, s, p, Done(Failed(VersionConflict)));
    } else if FreeFor(s.eventLocks, pc.e, p) {
      if out.Rejected? {
        EndStep(mode, s, p, Done(Failed(Database)));
      } else {
        WriteCommitsOk(mode, s, p, pc);
      }
    }
  }

  lemma SoftDeleteOk(mode: Mode, s: State, p: Pid, pc: Proc)
    requires Inv(mode, s) && p in s.procs && s.procs[p] == pc && pc.DeleteRead?
    ensures Inv(mode, DoSoftDelete(s, p, pc))
  {
    hide Inv;
    if pc.e !in s.db.events || s.db.events[pc.e].deleted {
      EndStep(mode, s, p, Done(Failed(NotFound)));
    } else if FreeFor(s.eventLocks, pc.e, p) {
      CommitStep(mode, s, DoSoftDelete(s, p, pc), p, Done(DeleteDone), Delete(pc.e));
    }
  }

  // ---------- every step, every run ----------

  lemma CreateOk(mode: Mode, s: State, l: Label)
    requires Inv(mode, s) && l.CreateEvent?
    ensures Inv(mode, Step(mode, s, l))
  {
    var s' := Step(mode, s, l);
    var a := Create(l.e, l.total, l.price, l.status);
    if s' != s {
      Extend(s.history, a);
      ReplayOk(s.history);
      forall q | q in s'.procs
        ensures ProcOk(mode, s', q, s'.procs[q])
      {
        CommitForOthers(mode, s, s', a, q, s.procs[q]);
      }
    }
  }

  lemma LogInTxOk(mode: Mode, s: State, p: Pid, pc: Proc, ok: bool)
    requires Inv(mode, s) && p in s.procs && s.procs[p] == pc && pc.BookDecremented?
    ensures Inv(mode, At(s, p, BookLogged(pc.seen, pc.b, pc.now, pc.row, pc.event, !ok)))
  {
    hide Inv;
    ProcIs(mode, s, p);
    var pc' := BookLogged(pc.seen, pc.b, pc.now, pc.row, pc.event, !ok);
    MoveStep(mode, s, At(s, p, pc'), p, pc');
  }

  lemma ReleaseLockOk(mode: Mode, s: State, p: Pid, pc: Proc)
    requires Inv(mode, s) && p in s.procs && s.procs[p] == pc && pc.BookEnded?
    ensures Inv(mode, DoReleaseLock(s, p, pc))
  {
    hide Inv;
    MoveStep(mode, s, DoReleaseLock(s, p, pc), p, Done(pc.result));
  }

  lemma AbortOk(mode: Mode, s: State, p: Pid, pc: Proc)
    requires Inv(mode, s)
    ensures Inv(mode, DoAbort(s, p, pc))
  {
    hide Inv;
    EndStep(mode, s, p, AfterAbort(pc));
  }

  lemma ArriveOk(mode: Mode, s: State, p: Pid, request: Request)
    requires Inv(mode, s) && p !in s.procs
    ensures Inv(mode, At(s, p, Begin(request)))
  {
    hide Inv;
    MoveStep(mode, s, At(s, p, Begin(request)), p, Begin(request));
  }

  lemma RedisChangeOk(mode: Mode, s: State, keys: map<EventId, Token>)
    requires Inv(mode, s)
    ensures Inv(mode, s.(redis := keys))
  {
    forall q | q in s.procs
      ensures ProcOk(mode, s.(redis := keys), q, s.procs[q])
    {
      QuietForOthers(mode, s, s.(redis := keys), q, s.procs[q]);
    }
  }

  predicate BookLabel(l: Label) {
    l.AcquireLock? || l.ReadForUpdate? || l.InsertBooking? || l.UpdateTickets? || l.LogInTx? || l.CommitBooking?
    || l.ReleaseLock?
  }

  lemma BookStepOk(mode: Mode, s: State, l: Label, pc: Proc)
    requires BookLabel(l) && Inv(mode, s) && l.p in s.procs && s.procs[l.p] == pc
    ensures Inv(mode, StepProc(mode, s, l, pc))
  {
    hide Inv, ProcOk;
    match l
    case AcquireLock(p, tok) => if pc.BookStart? { AcquireLockOk(mode, s, p, pc, tok); }
    case ReadForUpdate(p) => if pc.BookLocked? { ReadForUpdateOk(mode, s, p, pc); }
    case InsertBooking(p, b, now) => if pc.BookRead? { InsertBookingOk(mode, s, p, pc, b, now); }
    case UpdateTickets(p) => if pc.BookInserted? { UpdateTicketsOk(mode, s, p, pc); }
    case LogInTx(p, ok) => if pc.BookDecremented? { LogInTxOk(mode, s, p, pc, ok); }
    case CommitBooking(p) => if pc.BookLogged? { CommitBookingOk(mode, s, p, pc); }
    case ReleaseLock(p) => if pc.BookEnded? { ReleaseLockOk(mode, s, p, pc); }
  }

  lemma ProcStepOk(mode: Mode, s: State, l: Label, pc: Proc)
    requires !BookLabel(l) && !l.CreateEvent? && !l.Arrive? && !l.RedisChange?
    requires Inv(mode, s) && l.p in s.procs && s.procs[l.p] == pc
    ensures Inv(mode, StepProc(mode, s, l, pc))
  {
    hide Inv, ProcOk;
    match l
    case ReadBooking(p) => if pc.CancelStart? { ReadBookingOk(mode, s, p, pc); }
    case LockBooking(p) => if pc.CancelRead? { LockBookingOk(mode, s, p, pc); }
    case MarkCancelled(p, now) => if pc.CancelLocked? { MarkCancelledOk(mode, s, p, pc, now); }
    case Restore(p) => if pc.CancelMarked? { RestoreOk(mode, s, p, pc); }
    case CommitCancel(p) => if pc.CancelRestored? { CommitCancelOk(mode, s, p, pc); }
    case LogCancelled(p, ok) => if pc.CancelCommitted? { LogCancelledOk(mode, s, p, pc, ok); }
    case ReadEvent(p) => if pc.UpdateStart? || pc.DeleteStart? { ReadEventOk(mode, s, p, pc); }
    case WriteEvent(p) => if pc.UpdateRead? { WriteEventOk(mode, s, p, pc); }
    case SoftDelete(p) => if pc.DeleteRead? { SoftDeleteOk(mode, s, p, pc); }
    case Abort(p) => AbortOk(mode, s, p, pc);
  }

  lemma StepOk(mode: Mode, s: State, l: Label)
    requires Inv(mode, s)
    ensures Inv(mode, Step(mode, s, l))
  {
    hide Inv, StepProc, ProcOk;
    if l.CreateEvent? {
      CreateOk(mode, s, l);
    } else if l.Arrive? {
      if l.p !in s.procs { ArriveOk(mode, s, l.p, l.request); }
    } else if l.RedisChange? {
      RedisChangeOk(mode, s, l.keys);
    } else if l.p in s.procs {
      if BookLabel(l) {
        BookStepOk(mode, s, l, s.procs[l.p]);
      } else {
        ProcStepOk(mode, s, l, s.procs[l.p]);
      }
    }
  }

  lemma {:induction false} RunOk(mode: Mode, run: seq<Label>)
    ensures Inv(mode, Exec(mode, run))
  {
    if run != [] {
      RunOk(mode, run[..|run| - 1]);
      StepOk(mode, Exec(mode, run[..|run| - 1]), run[|run| - 1]);
    }
  }

  lemma RunMore(mode: Mode, run: seq<Label>, l: Label)
    ensures Exec(mode, run + [l]) == Step(mode, Exec(mode, run), l)
  {
    assert (run + [l])[..|run|] == run;
  }
}
