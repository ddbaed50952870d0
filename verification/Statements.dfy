// Every statement of every request, as a table over the committed rows: when it waits, which
// error it answers and what it leaves behind. The table names none of the functions that the
// machine is made of; every run follows it.
module Statements {
  import opened Schema
  import opened History
  import opened Ledger
  import opened Protocol
  import opened Refinement
  import opened Steps

  // The statement that a request at this program counter sends next.
  predicate Fits(pc: Proc, l: Label) {
    match l
    case AcquireLock(p, tok) => pc.BookStart?
    case ReadForUpdate(p) => pc.BookLocked?
    case InsertBooking(p, b, now) => pc.BookRead?
    case UpdateTickets(p) => pc.BookInserted?
    case LogInTx(p, ok) => pc.BookDecremented?
    case CommitBooking(p) => pc.BookLogged?
    case ReleaseLock(p) => pc.BookEnded?
    case ReadBooking(p) => pc.CancelStart?
    case LockBooking(p) => pc.CancelRead?
    case MarkCancelled(p, now) => pc.CancelLocked?
    case Restore(p) => pc.CancelMarked?
    case CommitCancel(p) => pc.CancelRestored?
    case LogCancelled(p, ok) => pc.CancelCommitted?
    case ReadEvent(p) => pc.UpdateStart? || pc.DeleteStart?
    case WriteEvent(p) => pc.UpdateRead?
    case SoftDelete(p) => pc.DeleteRead?
    case _ => false
  }

  predicate Visible(s: State, e: EventId) {
    e in s.db.events && !s.db.events[e].deleted
  }

  predicate AtVersion(s: State, e: EventId, version: int) {
    Visible(s, e) && s.db.events[e].version == version
  }

  predicate HeldByOther<K>(m: map<K, Pid>, k: K, p: Pid) {
    k in m && m[k] != p
  }

  predicate FitsInt(x: int) {
    -2147483648 <= x <= 2147483647
  }

  predicate Sendable(edit: Edit, read: EventRow) {
    FitsInt(edit.total) && FitsInt(read.remaining) && FitsInt(edit.price) && FitsInt(edit.version)
  }

  // The statement waits for a lock of another transaction; a row that does not match is
  // never waited for.
  predicate Blocked(mode: Mode, s: State, l: Label, pc: Proc)
    requires Fits(pc, l)
  {
    match l
    case ReadForUpdate(p) => mode == Locking && Visible(s, pc.e) && HeldByOther(s.eventLocks, pc.e, p)
    case InsertBooking(p, b, now) =>
      b in s.db.bookings || b in s.bookingLocks || HeldByOther(s.inDoubt, (pc.seen.u, pc.seen.e), p)
    case UpdateTickets(p) =>
      AtVersion(s, pc.seen.e, pc.seen.row.version) && HeldByOther(s.eventLocks, pc.seen.e, p)
    case LockBooking(p) => HeldByOther(s.bookingLocks, pc.b, p)
    case Restore(p) => HeldByOther(s.eventLocks, pc.row.event, p)
    case WriteEvent(p) =>
      Sendable(pc.edit, pc.read) && AtVersion(s, pc.e, pc.edit.version) && HeldByOther(s.eventLocks, pc.e, p)
    case SoftDelete(p) => Visible(s, pc.e) && HeldByOther(s.eventLocks, pc.e, p)
    case _ => false
  }

  // The error that the tables force, if any. `Database` is a poisoned transaction, or a row
  // that a column or a CHECK refuses.
  function Refusal(s: State, pc: Proc): Option<Error> {
    match pc
    case BookStart(u, e, n) => if e in s.redis then Some(LockNotAcquired) else None
    case BookLocked(u, e, n, tok) =>
      if !Visible(s, e) then Some(NotFound)
      else if s.db.events[e].status != Published then Some(NotAvailable)
      else if s.db.events[e].remaining < n then Some(Insufficient)
      else None
    case BookRead(v) =>
      if exists b :: b in s.db.bookings && (s.db.bookings[b].status == Pending || s.db.bookings[b].status == Confirmed)
                     && s.db.bookings[b].user == v.u && s.db.bookings[b].event == v.e
      then Some(AlreadyActive) else None
    case BookInserted(v, b, now, row) =>
      if !AtVersion(s, v.e, v.row.version) then Some(VersionConflict)
      else if s.db.events[v.e].version == 2147483647 then Some(Database)
      else None
    case BookLogged(v, b, now, row, event, poisoned) => if poisoned then Some(Database) else None
    case CancelStart(b, u) =>
      if b !in s.db.bookings then Some(NotFound)
      else if s.db.bookings[b].user != u then Some(NotOwner)
      else None
    case CancelRead(b, u, before) =>
      if b !in s.db.bookings || s.db.bookings[b].user != u then Some(NotFound)
      else if s.db.bookings[b].status != Pending && s.db.bookings[b].status != Confirmed then Some(CannotCancel)
      else None
    case CancelMarked(b, before, row, now) =>
      if row.event in s.db.events
         && s.db.events[row.event].remaining + row.count <= s.db.events[row.event].total
      then None else Some(Database)
    case UpdateStart(e, edit) =>
      if !Visible(s, e) then Some(NotFound)
      else if edit.version <= 0 || edit.total <= 0 || edit.price < 0 then Some(Invalid)
      else None
    case UpdateRead(e, edit, read, readAt) =>
      if !Sendable(edit, read) then Some(Database)
      else if !AtVersion(s, e, edit.version) then Some(VersionConflict)
      else if edit.total <= 0 || !(0 <= read.remaining <= edit.total) || edit.price < 0 || edit.version == 2147483647
      then Some(Database)
      else None
    case DeleteStart(e) => if Visible(s, e) then None else Some(NotFound)
    case DeleteRead(e) => if Visible(s, e) then None else Some(NotFound)
    case _ => None
  }

  // A refused booking keeps its Redis key for the release that follows; others are done.
  function Refused(pc: Proc, err: Error): Proc {
    match pc
    case BookLocked(u, e, n, tok) => BookEnded(e, tok, Failed(err))
    case BookRead(v) => BookEnded(v.e, v.tok, Failed(err))
    case BookInserted(v, b, now, row) => BookEnded(v.e, v.tok, Failed(err))
    case BookDecremented(v, b, now, row, event) => BookEnded(v.e, v.tok, Failed(err))
    case BookLogged(v, b, now, row, event, poisoned) => BookEnded(v.e, v.tok, Failed(err))
    case _ => Done(Failed(err))
  }

  // An event row with fewer tickets and the next version, or with more tickets.
  function Sold(r: EventRow, n: int): EventRow {
    EventRow(r.total, r.remaining - n, r.price, r.status, r.version + 1, false)
  }

  function Restored(r: EventRow, n: int): EventRow {
    EventRow(r.total, r.remaining + n, r.price, r.status, r.version, r.deleted)
  }

  function Confirmation(v: Seen, price: int, now: int): BookingRow {
    BookingRow(v.u, v.e, v.n, v.n * price, Confirmed, 1, now, now, None)
  }

  function Cancellation(r: BookingRow, now: int): BookingRow {
    BookingRow(r.user, r.event, r.count, r.price, Cancelled, r.version + 1, r.bookedAt, now, Some(now))
  }

  // Where the request goes if it is not refused: what it read is what is committed now.
  function Next(s: State, l: Label, pc: Proc): Proc
    requires Fits(pc, l) && Refusal(s, pc) == None
  {
    match l
    case AcquireLock(p, tok) => BookLocked(pc.u, pc.e, pc.n, tok)
    case ReadForUpdate(p) => BookRead(Seen(pc.u, pc.e, pc.n, pc.tok, s.db.events[pc.e], |s.history|))
    case InsertBooking(p, b, now) => BookInserted(pc.seen, b, now, Confirmation(pc.seen, pc.seen.row.price, now))
    case UpdateTickets(p) =>
      BookDecremented(pc.seen, pc.b, pc.now, pc.row, Sold(s.db.events[pc.seen.e], pc.seen.n))
    case LogInTx(p, ok) => BookLogged(pc.seen, pc.b, pc.now, pc.row, pc.event, !ok)
    case CommitBooking(p) => BookEnded(pc.seen.e, pc.seen.tok, Booked(pc.b))
    case ReleaseLock(p) => Done(pc.result)
    case ReadBooking(p) => CancelRead(pc.b, pc.u, s.db.bookings[pc.b])
    case LockBooking(p) => CancelLocked(pc.b, pc.u, pc.before, s.db.bookings[pc.b])
    case MarkCancelled(p, now) => CancelMarked(pc.b, pc.before, pc.row, now)
    case Restore(p) =>
      CancelRestored(pc.b, pc.before, pc.row, pc.now, Restored(s.db.events[pc.row.event], pc.row.count))
    case CommitCancel(p) => CancelCommitted(pc.b, pc.before, Cancellation(pc.row, pc.now))
    case LogCancelled(p, ok) => Done(CancelDone(pc.b))
    case ReadEvent(p) =>
      if pc.DeleteStart? then DeleteRead(pc.e) else UpdateRead(pc.e, pc.edit, s.db.events[pc.e], |s.history|)
    case WriteEvent(p) => Done(UpdateDone)
    case SoftDelete(p) => Done(DeleteDone)
    case _ => pc
  }

  // The tables if it is not refused, written over the rows as they are committed now.
  function TablesAfter(s: State, l: Label, pc: Proc): Db {
    var events, bookings := s.db.events, s.db.bookings;
    match l
    case CommitBooking(p) =>
      if !pc.BookLogged? || pc.seen.e !in events then s.db else
      var row := Confirmation(pc.seen, events[pc.seen.e].price, pc.now);
      Db(events[pc.seen.e := Sold(events[pc.seen.e], pc.seen.n)], bookings[pc.b := row],
         s.db.audits + [BookingCreated(pc.b, row)])
    case CommitCancel(p) =>
      if !pc.CancelRestored? || pc.b !in bookings || bookings[pc.b].event !in events then s.db else
      var row := bookings[pc.b];
      Db(events[row.event := Restored(events[row.event], row.count)], bookings[pc.b := Cancellation(row, pc.now)],
         s.db.audits)
    case LogCancelled(p, ok) =>
      if !ok || !pc.CancelCommitted? || pc.b !in bookings then s.db else
      var row := bookings[pc.b];
      var made := BookingRow(row.user, row.event, row.count, row.price, Confirmed, 1, row.bookedAt, row.bookedAt,
                             None);
      Db(events, bookings, s.db.audits + [BookingCancelled(pc.b, made, row)])
    case WriteEvent(p) =>
      if !pc.UpdateRead? then s.db else
      var row := EventRow(pc.edit.total, pc.read.remaining, pc.edit.price, pc.edit.status, pc.edit.version + 1, false);
      Db(events[pc.e := row], bookings, s.db.audits)
    case SoftDelete(p) =>
      if !pc.DeleteRead? || pc.e !in events then s.db else
      var r := events[pc.e];
      Db(events[pc.e := EventRow(r.total, r.remaining, r.price, r.status, r.version, true)], bookings, s.db.audits)
    case _ => s.db
  }

  function KeysAfter(s: State, l: Label, pc: Proc): map<EventId, Token> {
    if l.AcquireLock? && pc.BookStart? then s.redis[pc.e := l.tok]
    else if l.ReleaseLock? && pc.BookEnded? && pc.e in s.redis && s.redis[pc.e] == pc.tok then s.redis - {pc.e}
    else s.redis
  }

  predicate Answers(mode: Mode, s: State, l: Label, pc: Proc, s': State)
    requires Fits(pc, l)
  {
    if Blocked(mode, s, l, pc) then s' == s
    else if Refusal(s, pc).Some? then
      s'.procs == s.procs[l.p := Refused(pc, Refusal(s, pc).value)] && s'.db == s.db && s'.redis == s.redis
    else
      && s'.procs == s.procs[l.p := Next(s, l, pc)]
      && s'.db == TablesAfter(s, l, pc) && s'.redis == KeysAfter(s, l, pc)
  }

  // ---------- statement by statement ----------

  // The end of a transaction touches only program counter and locks.
  lemma EndsOnly(s: State, p: Pid)
    ensures forall pc :: EndTx(s, p, pc).procs == s.procs[p := pc] && EndTx(s, p, pc).db == s.db
                         && EndTx(s, p, pc).redis == s.redis && EndTx(s, p, pc).history == s.history
  {
  }

  lemma AcquireAnswers(mode: Mode, s: State, p: Pid, pc: Proc, tok: Token)
    requires pc.BookStart?
    ensures Answers(mode, s, AcquireLock(p, tok), pc, DoAcquireLock(s, p, pc, tok))
  {
  }

  lemma ReadAnswers(mode: Mode, s: State, p: Pid, pc: Proc)
    requires pc.BookLocked?
    ensures Answers(mode, s, ReadForUpdate(p), pc, DoReadForUpdate(mode, s, p, pc))
  {
    hide EndTx;
    EndsOnly(s, p);
  }

  lemma InsertAnswers(mode: Mode, s: State, p: Pid, pc: Proc, b: BookingId, now: int)
    requires pc.BookRead? && SeenOk(mode, s, p, pc.seen)
    ensures Answers(mode, s, InsertBooking(p, b, now), pc, DoInsertBooking(s, p, pc, b, now))
  {
    RowInRange(s, pc.seen);
    PriceFitsBigint(pc.seen.n, pc.seen.row.price);
    hide SeenOk, Replay, Without;
  }

  // What the invariant gives a pending decrement: an unchanged version means enough tickets.
  predicate Sellable(s: State, v: Seen) {
    AtVersion(s, v.e, v.row.version) ==>
      EventChecks(s.db.events[v.e]) && 0 < v.n <= s.db.events[v.e].remaining
  }

  lemma SeenIsSellable(mode: Mode, s: State, p: Pid, v: Seen)
    requires Inv(mode, s) && SeenOk(mode, s, p, v)
    ensures Sellable(s, v)
  {
    SeenStillBookable(mode, s, p, v);
    ReplayOk(s.history);
    hide Inv, Replay;
  }

  lemma DecrementAnswers(mode: Mode, s: State, p: Pid, pc: Proc)
    requires pc.BookInserted? && Sellable(s, pc.seen)
    ensures Answers(mode, s, UpdateTickets(p), pc, DoUpdateTickets(s, p, pc))
  {
    hide Without;
    if AtVersion(s, pc.seen.e, pc.seen.row.version) && s.db.events[pc.seen.e].version < 2147483647 {
      assert DecrementTickets(s.db.events[pc.seen.e], pc.seen.row.version, pc.seen.n)
          == Wrote(Sold(s.db.events[pc.seen.e], pc.seen.n));
      hide DecrementTickets;
    }
  }

  lemma CommitAnswers(mode: Mode, s: State, p: Pid, pc: Proc)
    requires pc.BookLogged? && ProcOk(mode, s, p, pc)
    ensures Answers(mode, s, CommitBooking(p), pc, DoCommitBooking(s, p, pc))
  {
    hide HasActive;
  }

  lemma SmallAnswers(mode: Mode, s: State, l: Label, pc: Proc)
    requires (l.LogInTx? || l.ReleaseLock? || l.MarkCancelled?) && Fits(pc, l)
    ensures Answers(mode, s, l, pc, StepProc(mode, s, l, pc))
  {
  }

  lemma ReadBookingAnswers(mode: Mode, s: State, p: Pid, pc: Proc)
    requires pc.CancelStart?
    ensures Answers(mode, s, ReadBooking(p), pc, DoReadBooking(s, p, pc))
  {
    hide EndTx;
    EndsOnly(s, p);
  }

  lemma LockBookingAnswers(mode: Mode, s: State, p: Pid, pc: Proc)
    requires pc.CancelRead?
    ensures Answers(mode, s, LockBooking(p), pc, DoLockBooking(s, p, pc))
  {
    hide EndTx;
    EndsOnly(s, p);
  }

  lemma RestoreAnswers(mode: Mode, s: State, p: Pid, pc: Proc)
    requires pc.CancelMarked? && EventsOk(s.db) && 0 < pc.row.count
    ensures Answers(mode, s, Restore(p), pc, DoRestore(s, p, pc))
  {
    hide EndTx;
    EndsOnly(s, p);
  }

  lemma CommitCancelAnswers(mode: Mode, s: State, p: Pid, pc: Proc)
    requires pc.CancelRestored? && ProcOk(mode, s, p, pc)
    ensures Answers(mode, s, CommitCancel(p), pc, DoCommitCancel(s, p, pc))
  {
  }

  lemma LogCancelledAnswers(mode: Mode, s: State, p: Pid, pc: Proc, ok: bool)
    requires pc.CancelCommitted? && ProcOk(mode, s, p, pc)
    ensures Answers(mode, s, LogCancelled(p, ok), pc, DoLogCancelled(s, p, pc, ok))
  {
  }

  lemma ReadForUpdatingAnswers(mode: Mode, s: State, p: Pid, pc: Proc)
    requires pc.UpdateStart?
    ensures Answers(mode, s, ReadEvent(p), pc, DoReadEvent(s, p, pc))
  {
    hide EndTx;
    EndsOnly(s, p);
  }

  lemma ReadForDeletingAnswers(mode: Mode, s: State, p: Pid, pc: Proc)
    requires pc.DeleteStart?
    ensures Answers(mode, s, ReadEvent(p), pc, DoReadEvent(s, p, pc))
  {
    hide EndTx;
    EndsOnly(s, p);
  }

  lemma WriteRefused(mode: Mode, s: State, p: Pid, pc: Proc)
    requires pc.UpdateRead? && (Blocked(mode, s, WriteEvent(p), pc) || Refusal(s, pc).Some?)
    ensures Answers(mode, s, WriteEvent(p), pc, DoWriteEvent(s, p, pc))
  {
    hide EndTx;
    EndsOnly(s, p);
  }

  lemma WriteGoesThrough(mode: Mode, s: State, p: Pid, pc: Proc)
    requires pc.UpdateRead? && !Blocked(mode, s, WriteEvent(p), pc) && Refusal(s, pc) == None
    ensures Answers(mode, s, WriteEvent(p), pc, DoWriteEvent(s, p, pc))
  {
    var row := EventRow(pc.edit.total, pc.read.remaining, pc.edit.price, pc.edit.status, pc.edit.version + 1, false);
    assert RewriteEvent(s.db.events[pc.e], Edited(pc.read, pc.edit)) == Wrote(row);
    assert Encodable(Edited(pc.read, pc.edit)) && FreeFor(s.eventLocks, pc.e, p);
    hide RewriteEvent, Encodable, FreeFor, Without;
  }

  lemma WriteAnswers(mode: Mode, s: State, p: Pid, pc: Proc)
    requires pc.UpdateRead?
    ensures Answers(mode, s, WriteEvent(p), pc, DoWriteEvent(s, p, pc))
  {
    hide Answers, DoWriteEvent, Blocked, Refusal;
    if Blocked(mode, s, WriteEvent(p), pc) || Refusal(s, pc).Some? {
      WriteRefused(mode, s, p, pc);
    } else {
      WriteGoesThrough(mode, s, p, pc);
    }
  }

  lemma DeleteAnswers(mode: Mode, s: State, p: Pid, pc: Proc)
    requires pc.DeleteRead?
    ensures Answers(mode, s, SoftDelete(p), pc, DoSoftDelete(s, p, pc))
  {
    hide EndTx;
    EndsOnly(s, p);
  }

  lemma BookAnswers(mode: Mode, s: State, l: Label, pc: Proc)
    requires Inv(mode, s) && BookLabel(l) && l.p in s.procs && s.procs[l.p] == pc && Fits(pc, l)
    ensures Answers(mode, s, l, pc, StepProc(mode, s, l, pc))
  {
    ProcIs(mode, s, l.p);
    hide Inv, SeenOk, Answers;
    match l
    case AcquireLock(p, tok) => AcquireAnswers(mode, s, p, pc, tok);
    case ReadForUpdate(p) => ReadAnswers(mode, s, p, pc);
    case InsertBooking(p, b, now) => InsertAnswers(mode, s, p, pc, b, now);
    case UpdateTickets(p) =>
      SeenIsSellable(mode, s, p, pc.seen);
      DecrementAnswers(mode, s, p, pc);
    case CommitBooking(p) => CommitAnswers(mode, s, p, pc);
    case LogInTx(p, ok) => SmallAnswers(mode, s, l, pc);
    case ReleaseLock(p) => SmallAnswers(mode, s, l, pc);
  }

  lemma OtherAnswers(mode: Mode, s: State, l: Label, pc: Proc)
    requires Inv(mode, s) && !BookLabel(l) && Fits(pc, l) && l.p in s.procs && s.procs[l.p] == pc
    ensures Answers(mode, s, l, pc, StepProc(mode, s, l, pc))
  {
    ProcIs(mode, s, l.p);
    ReplayOk(s.history);
    assert EventsOk(s.db) && BookingsOk(s.db);
    assert pc.CancelMarked? ==> BookingOk(s.db, s.db.bookings[pc.b]);
    hide Inv, SeenOk, Answers, EventsOk, BookingsOk, DbOk;
    match l
    case ReadBooking(p) => ReadBookingAnswers(mode, s, p, pc);
    case LockBooking(p) => LockBookingAnswers(mode, s, p, pc);
    case MarkCancelled(p, now) => SmallAnswers(mode, s, l, pc);
    case Restore(p) => RestoreAnswers(mode, s, p, pc);
    case CommitCancel(p) => CommitCancelAnswers(mode, s, p, pc);
    case LogCancelled(p, ok) => LogCancelledAnswers(mode, s, p, pc, ok);
    case ReadEvent(p) =>
      if pc.UpdateStart? { ReadForUpdatingAnswers(mode, s, p, pc); } else { ReadForDeletingAnswers(mode, s, p, pc); }
    case WriteEvent(p) => WriteAnswers(mode, s, p, pc);
    case SoftDelete(p) => DeleteAnswers(mode, s, p, pc);
  }

  // ---------- every run follows the table ----------

  // Any statement of a request: one that is not its next one or has to wait does nothing;
  // one that the tables refuse answers exactly that error; any other goes through and leaves
  // exactly what the table says.
  lemma Answered(mode: Mode, run: seq<Label>, l: Label)
    requires !l.CreateEvent? && !l.Arrive? && !l.RedisChange? && !l.Abort?
    requires l.p in Exec(mode, run).procs
    ensures var s, s' := Exec(mode, run), Exec(mode, run + [l]);
            var pc := s.procs[l.p];
            if Fits(pc, l) then Answers(mode, s, l, pc, s') else s' == s
  {
    var s := Exec(mode, run);
    RunOk(mode, run);
    RunMore(mode, run, l);
    hide Exec, Answers, Inv;
    if !Fits(s.procs[l.p], l) {
      NotNext(mode, s, l, s.procs[l.p]);
    } else {
      hide StepProc, Fits;
      if BookLabel(l) {
        BookAnswers(mode, s, l, s.procs[l.p]);
      } else {
        OtherAnswers(mode, s, l, s.procs[l.p]);
      }
    }
  }

  lemma NotNext(mode: Mode, s: State, l: Label, pc: Proc)
    requires !l.CreateEvent? && !l.Arrive? && !l.RedisChange? && !l.Abort? && !Fits(pc, l)
    ensures StepProc(mode, s, l, pc) == s
  {
  }

  // An abort rolls the transaction back: tables and Redis keys stay, a booking still has its
  // key to release, and what was committed before stays reported.
  lemma Aborted(mode: Mode, run: seq<Label>, p: Pid)
    requires p in Exec(mode, run).procs
    ensures var s, s' := Exec(mode, run), Exec(mode, run + [Abort(p)]);
            var pc := s.procs[p];
            && s'.db == s.db && s'.redis == s.redis
            && s'.procs == s.procs[p :=
                 if pc.Done? then pc
                 else if pc.BookEnded? then Done(pc.result)
                 else if pc.CancelCommitted? then Done(CancelDone(pc.b))
                 else if pc.BookLocked? then BookEnded(pc.e, pc.tok, Failed(Database))
                 else if pc.BookRead? || pc.BookInserted? || pc.BookDecremented? || pc.BookLogged?
                 then BookEnded(pc.seen.e, pc.seen.tok, Failed(Database))
                 else Done(Failed(Database))]
  {
    var s := Exec(mode, run);
    RunMore(mode, run, Abort(p));
    hide Exec;
    assert Step(mode, s, Abort(p)) == DoAbort(s, p, s.procs[p]);
    EndsOnly(s, p);
    hide Step, EndTx;
  }

  // What comes from outside: a new request, of which only a ticket count is checked before
  // anything is read; a new event; any change of the Redis keys.
  lemma Arrives(mode: Mode, run: seq<Label>, p: Pid, request: Request)
    ensures var s, s' := Exec(mode, run), Exec(mode, run + [Arrive(p, request)]);
            if p in s.procs then s' == s
            else
              && s'.db == s.db && s'.redis == s.redis
              && s'.procs == s.procs[p :=
                   if request.BookRequest? then
                     if request.n <= 0 then Done(Failed(Invalid)) else BookStart(request.u, request.e, request.n)
                   else if request.CancelRequest? then CancelStart(request.b, request.u)
                   else if request.UpdateRequest? then UpdateStart(request.e, request.edit)
                   else DeleteStart(request.e)]
  {
    RunMore(mode, run, Arrive(p, request));
    hide Exec;
  }

  lemma FromOutside(mode: Mode, run: seq<Label>, l: Label)
    requires l.CreateEvent? || l.RedisChange?
    ensures var s, s' := Exec(mode, run), Exec(mode, run + [l]);
            && s'.procs == s.procs
            && (l.CreateEvent? ==>
                  && s'.redis == s.redis
                  && s'.db == if l.e !in s.db.events && 0 < l.total <= 2147483647 && 0 <= l.price <= 2147483647
                              then Db(s.db.events[l.e := EventRow(l.total, l.total, l.price, l.status, 1, false)],
                                      s.db.bookings, s.db.audits)
                              else s.db)
            && (l.RedisChange? ==> s' == s.(redis := l.keys))
  {
    RunMore(mode, run, l);
    hide Exec;
  }

  // ---------- what follows for errors ----------

  function ErrorOf(pc: Proc): Option<Error> {
    if HasFailed(pc) then Some(pc.result.err) else None
  }

  // Whenever a request fails it was aborted from outside, or the tables refuse it at that
  // very step; and a booking sees a version conflict only without the row lock.
  lemma ErrorsAreTrue(mode: Mode, run: seq<Label>, l: Label)
    requires !l.CreateEvent? && !l.Arrive? && !l.RedisChange?
    requires l.p in Exec(mode, run).procs && ErrorOf(Exec(mode, run).procs[l.p]) == None
    ensures var s, s' := Exec(mode, run), Exec(mode, run + [l]);
            var pc := s.procs[l.p];
            && l.p in s'.procs
            && var err := ErrorOf(s'.procs[l.p]);
            && (err.Some? ==> if l.Abort? then err == Some(Database) else Fits(pc, l) && err == Refusal(s, pc))
            && (err == Some(VersionConflict) && pc.BookInserted? ==> mode == VersionOnly)
  {
    var s := Exec(mode, run);
    if l.Abort? {
      Aborted(mode, run, l.p);
      hide Exec;
    } else {
      Answered(mode, run, l);
      RunOk(mode, run);
      ProcIs(mode, s, l.p);
      hide Exec, Inv, TablesAfter, KeysAfter, Blocked, Next, Replay;
      if Fits(s.procs[l.p], l) && Refusal(s, s.procs[l.p]) == None { NextIsNoError(s, l, s.procs[l.p]); }
    }
  }

  lemma NextIsNoError(s: State, l: Label, pc: Proc)
    requires ErrorOf(pc) == None && Fits(pc, l) && Refusal(s, pc) == None
    ensures ErrorOf(Next(s, l, pc)) == None
  {
  }

  // ---------- request by request, spelled out ----------

  lemma CommitFinds(mode: Mode, s: State, p: Pid, pc: Proc)
    requires ProcOk(mode, s, p, pc) && pc.BookLogged?
    ensures pc.seen.e in s.db.events
  {
    hide HasActive;
  }

  lemma CancelFinds(mode: Mode, s: State, p: Pid, pc: Proc)
    requires Inv(mode, s) && ProcOk(mode, s, p, pc) && (pc.CancelMarked? || pc.CancelRestored?)
    ensures pc.b in s.db.bookings && s.db.bookings[pc.b] == pc.row && pc.row.event in s.db.events
  {
    ConfirmedIfActive(mode, s, pc.b);
    hide Inv;
  }

  // BookTicket takes the Redis key or is turned away.
  lemma AcquireLaw(mode: Mode, run: seq<Label>, p: Pid, u: UserId, e: EventId, n: int, tok: Token)
    requires p in Exec(mode, run).procs && Exec(mode, run).procs[p] == BookStart(u, e, n)
    ensures var s, s' := Exec(mode, run), Exec(mode, run + [AcquireLock(p, tok)]);
            && s'.db == s.db && p in s'.procs
            && (e in s.redis ==> s'.procs[p] == Done(Failed(LockNotAcquired)) && s'.redis == s.redis)
            && (e !in s.redis ==> s'.procs[p] == BookLocked(u, e, n, tok) && s'.redis == s.redis[e := tok])
  {
    Answered(mode, run, AcquireLock(p, tok));
    hide Exec;
  }

  // The locking read: not found, waiting, not available, insufficient, or the row itself.
  lemma ReadLaw(mode: Mode, run: seq<Label>, p: Pid, u: UserId, e: EventId, n: int, tok: Token)
    requires p in Exec(mode, run).procs && Exec(mode, run).procs[p] == BookLocked(u, e, n, tok)
    ensures var s, s' := Exec(mode, run), Exec(mode, run + [ReadForUpdate(p)]);
            && s'.db == s.db && s'.redis == s.redis && p in s'.procs
            && if e !in s.db.events || s.db.events[e].deleted then s'.procs[p] == BookEnded(e, tok, Failed(NotFound))
               else
                 var row := s.db.events[e];
                 if mode == Locking && e in s.eventLocks && s.eventLocks[e] != p then s' == s
                 else if row.status != Published then s'.procs[p] == BookEnded(e, tok, Failed(NotAvailable))
                 else if row.remaining < n then s'.procs[p] == BookEnded(e, tok, Failed(Insufficient))
                 else s'.procs[p] == BookRead(Seen(u, e, n, tok, row, |s.history|))
  {
    Answered(mode, run, ReadForUpdate(p));
    hide Exec;
  }

  // The insert: waiting for the key or the id, a duplicate, or the row with its exact price.
  lemma InsertLaw(mode: Mode, run: seq<Label>, p: Pid, v: Seen, b: BookingId, now: int)
    requires p in Exec(mode, run).procs && Exec(mode, run).procs[p] == BookRead(v)
    ensures var s, s' := Exec(mode, run), Exec(mode, run + [InsertBooking(p, b, now)]);
            && s'.db == s.db && s'.redis == s.redis && p in s'.procs
            && if b in s.db.bookings || b in s.bookingLocks
                  || ((v.u, v.e) in s.inDoubt && s.inDoubt[(v.u, v.e)] != p) then s' == s
               else if exists c :: c in s.db.bookings && s.db.bookings[c].status in {Pending, Confirmed}
                                   && s.db.bookings[c].user == v.u && s.db.bookings[c].event == v.e
               then s'.procs[p] == BookEnded(v.e, v.tok, Failed(AlreadyActive))
               else s'.procs[p] == BookInserted(v, b, now,
                      BookingRow(v.u, v.e, v.n, v.n * v.row.price, Confirmed, 1, now, now, None))
  {
    Answered(mode, run, InsertBooking(p, b, now));
    hide Exec;
  }

  // The decrement: a stale version, waiting, the last INT version, or the ticket count.
  lemma DecrementLaw(mode: Mode, run: seq<Label>, p: Pid, v: Seen, b: BookingId, now: int, row: BookingRow)
    requires p in Exec(mode, run).procs && Exec(mode, run).procs[p] == BookInserted(v, b, now, row)
    ensures var s, s' := Exec(mode, run), Exec(mode, run + [UpdateTickets(p)]);
            && s'.db == s.db && s'.redis == s.redis && p in s'.procs
            && if v.e !in s.db.events || s.db.events[v.e].deleted || s.db.events[v.e].version != v.row.version
               then s'.procs[p] == BookEnded(v.e, v.tok, Failed(VersionConflict))
               else
                 var r := s.db.events[v.e];
                 if v.e in s.eventLocks && s.eventLocks[v.e] != p then s' == s
                 else if r.version == 2147483647 then s'.procs[p] == BookEnded(v.e, v.tok, Failed(Database))
                 else s'.procs[p] == BookDecremented(v, b, now, row,
                        EventRow(r.total, r.remaining - v.n, r.price, r.status, r.version + 1, false))
  {
    Answered(mode, run, UpdateTickets(p));
    hide Exec;
  }

  // The commit: everything at once, or nothing because the audit insert had failed.
  lemma BookingCommitLaw(mode: Mode, run: seq<Label>, p: Pid, v: Seen, b: BookingId, now: int, row: BookingRow,
                         event: EventRow, poisoned: bool)
    requires p in Exec(mode, run).procs && Exec(mode, run).procs[p] == BookLogged(v, b, now, row, event, poisoned)
    ensures var s, s' := Exec(mode, run), Exec(mode, run + [CommitBooking(p)]);
            && v.e in s.db.events && s'.redis == s.redis && p in s'.procs
            && var r := s.db.events[v.e];
               var booking := BookingRow(v.u, v.e, v.n, v.n * r.price, Confirmed, 1, now, now, None);
               if poisoned then s'.procs[p] == BookEnded(v.e, v.tok, Failed(Database)) && s'.db == s.db
               else
                 && s'.procs[p] == BookEnded(v.e, v.tok, Booked(b))
                 && s'.db.events
                    == s.db.events[v.e := EventRow(r.total, r.remaining - v.n, r.price, r.status, r.version + 1, false)]
                 && s'.db.bookings == s.db.bookings[b := booking]
                 && s'.db.audits == s.db.audits + [BookingCreated(b, booking)]
  {
    hide Exec, Inv, ProcOk;
    Answered(mode, run, CommitBooking(p));
    RunOk(mode, run);
    ProcIs(mode, Exec(mode, run), p);
    CommitFinds(mode, Exec(mode, run), p, Exec(mode, run).procs[p]);
  }

  // The release: the key goes only if it still holds this token, and the result stands.
  lemma ReleaseLaw(mode: Mode, run: seq<Label>, p: Pid, e: EventId, tok: Token, result: Result)
    requires p in Exec(mode, run).procs && Exec(mode, run).procs[p] == BookEnded(e, tok, result)
    ensures var s, s' := Exec(mode, run), Exec(mode, run + [ReleaseLock(p)]);
            && s'.db == s.db && p in s'.procs && s'.procs[p] == Done(result)
            && s'.redis == if e in s.redis && s.redis[e] == tok then s.redis - {e} else s.redis
  {
    Answered(mode, run, ReleaseLock(p));
    hide Exec;
  }

  // The audit insert in the transaction changes nothing but whether the commit can succeed.
  lemma LogLaw(mode: Mode, run: seq<Label>, p: Pid, v: Seen, b: BookingId, now: int, row: BookingRow, event: EventRow,
               ok: bool)
    requires p in Exec(mode, run).procs && Exec(mode, run).procs[p] == BookDecremented(v, b, now, row, event)
    ensures var s, s' := Exec(mode, run), Exec(mode, run + [LogInTx(p, ok)]);
            && s'.db == s.db && s'.redis == s.redis && p in s'.procs
            && s'.procs[p] == BookLogged(v, b, now, row, event, !ok)
  {
    hide Exec;
    Answered(mode, run, LogInTx(p, ok));
  }

  // CancelBooking: found and owned, then locked and active.
  lemma CancelReadLaw(mode: Mode, run: seq<Label>, p: Pid, b: BookingId, u: UserId)
    requires p in Exec(mode, run).procs && Exec(mode, run).procs[p] == CancelStart(b, u)
    ensures var s, s' := Exec(mode, run), Exec(mode, run + [ReadBooking(p)]);
            && s'.db == s.db && s'.redis == s.redis && p in s'.procs
            && s'.procs[p] == (if b !in s.db.bookings then Done(Failed(NotFound))
                               else if s.db.bookings[b].user != u then Done(Failed(NotOwner))
                               else CancelRead(b, u, s.db.bookings[b]))
  {
    Answered(mode, run, ReadBooking(p));
    hide Exec;
  }

  lemma CancelLockLaw(mode: Mode, run: seq<Label>, p: Pid, b: BookingId, u: UserId, before: BookingRow)
    requires p in Exec(mode, run).procs && Exec(mode, run).procs[p] == CancelRead(b, u, before)
    ensures var s, s' := Exec(mode, run), Exec(mode, run + [LockBooking(p)]);
            && s'.db == s.db && s'.redis == s.redis && p in s'.procs
            && if b in s.bookingLocks && s.bookingLocks[b] != p then s' == s
               else s'.procs[p] == (if b !in s.db.bookings || s.db.bookings[b].user != u then Done(Failed(NotFound))
                                    else if s.db.bookings[b].status !in {Pending, Confirmed}
                                    then Done(Failed(CannotCancel))
                                    else CancelLocked(b, u, before, s.db.bookings[b]))
  {
    hide Exec;
    Answered(mode, run, LockBooking(p));
  }

  lemma CancelMarkLaw(mode: Mode, run: seq<Label>, p: Pid, b: BookingId, u: UserId, before: BookingRow,
                      row: BookingRow, now: int)
    requires p in Exec(mode, run).procs && Exec(mode, run).procs[p] == CancelLocked(b, u, before, row)
    ensures var s, s' := Exec(mode, run), Exec(mode, run + [MarkCancelled(p, now)]);
            && s'.db == s.db && s'.redis == s.redis && p in s'.procs
            && s'.procs[p] == CancelMarked(b, before, row, now)
  {
    hide Exec;
    Answered(mode, run, MarkCancelled(p, now));
  }

  // Giving the tickets back waits for the event row, and fails only if they do not fit.
  lemma RestoreLaw(mode: Mode, run: seq<Label>, p: Pid, b: BookingId, before: BookingRow, row: BookingRow, now: int)
    requires p in Exec(mode, run).procs && Exec(mode, run).procs[p] == CancelMarked(b, before, row, now)
    ensures var s, s' := Exec(mode, run), Exec(mode, run + [Restore(p)]);
            && s'.db == s.db && s'.redis == s.redis && p in s'.procs && row.event in s.db.events
            && var r := s.db.events[row.event];
               if row.event in s.eventLocks && s.eventLocks[row.event] != p then s' == s
               else s'.procs[p] == (if r.total < r.remaining + row.count then Done(Failed(Database))
                                    else CancelRestored(b, before, row, now, EventRow(
                                      r.total, r.remaining + row.count, r.price, r.status, r.version, r.deleted)))
  {
    hide Exec, Inv, ProcOk;
    Answered(mode, run, Restore(p));
    RunOk(mode, run);
    ProcIs(mode, Exec(mode, run), p);
    CancelFinds(mode, Exec(mode, run), p, Exec(mode, run).procs[p]);
  }

  lemma CancelCommitLaw(mode: Mode, run: seq<Label>, p: Pid, b: BookingId, before: BookingRow, row: BookingRow,
                        now: int, event: EventRow)
    requires p in Exec(mode, run).procs && Exec(mode, run).procs[p] == CancelRestored(b, before, row, now, event)
    ensures var s, s' := Exec(mode, run), Exec(mode, run + [CommitCancel(p)]);
            && b in s.db.bookings && s.db.bookings[b].event in s.db.events
            && s'.redis == s.redis && p in s'.procs && s'.db.audits == s.db.audits
            && var c := s.db.bookings[b];
               var r := s.db.events[c.event];
               var after := BookingRow(c.user, c.event, c.count, c.price, Cancelled, c.version + 1, c.bookedAt, now,
                                       Some(now));
            && s'.procs[p] == CancelCommitted(b, before, after)
            && s'.db.bookings == s.db.bookings[b := after]
            && s'.db.events == s.db.events[c.event :=
                 EventRow(r.total, r.remaining + c.count, r.price, r.status, r.version, r.deleted)]
  {
    hide Exec, Inv, ProcOk;
    Answered(mode, run, CommitCancel(p));
    RunOk(mode, run);
    ProcIs(mode, Exec(mode, run), p);
    CancelFinds(mode, Exec(mode, run), p, Exec(mode, run).procs[p]);
  }

  // The audit row of a cancellation holds the booking as it was made and as it is now.
  lemma CancelLogLaw(mode: Mode, run: seq<Label>, p: Pid, b: BookingId, before: BookingRow, after: BookingRow, ok: bool)
    requires p in Exec(mode, run).procs && Exec(mode, run).procs[p] == CancelCommitted(b, before, after)
    ensures var s, s' := Exec(mode, run), Exec(mode, run + [LogCancelled(p, ok)]);
            && b in s.db.bookings && s'.redis == s.redis && p in s'.procs && s'.procs[p] == Done(CancelDone(b))
            && s'.db.events == s.db.events && s'.db.bookings == s.db.bookings
            && var c := s.db.bookings[b];
               var made := BookingRow(c.user, c.event, c.count, c.price, Confirmed, 1, c.bookedAt, c.bookedAt, None);
               s'.db.audits == if ok then s.db.audits + [BookingCancelled(b, made, c)] else s.db.audits
  {
    hide Exec, Inv, ProcOk;
    Answered(mode, run, LogCancelled(p, ok));
    RunOk(mode, run);
    ProcIs(mode, Exec(mode, run), p);
    LoggedIsThere(mode, Exec(mode, run), p, Exec(mode, run).procs[p]);
  }

  lemma LoggedIsThere(mode: Mode, s: State, p: Pid, pc: Proc)
    requires ProcOk(mode, s, p, pc) && pc.CancelCommitted?
    ensures pc.b in s.db.bookings
  {
  }

  // EventService.Update: the row as it is now, or not found, or invalid; then one write.
  lemma UpdateReadLaw(mode: Mode, run: seq<Label>, p: Pid, e: EventId, edit: Edit)
    requires p in Exec(mode, run).procs && Exec(mode, run).procs[p] == UpdateStart(e, edit)
    ensures var s, s' := Exec(mode, run), Exec(mode, run + [ReadEvent(p)]);
            && s'.db == s.db && s'.redis == s.redis && p in s'.procs
            && s'.procs[p] == (if e !in s.db.events || s.db.events[e].deleted then Done(Failed(NotFound))
                               else if edit.version <= 0 || edit.total <= 0 || edit.price < 0 then Done(Failed(Invalid))
                               else UpdateRead(e, edit, s.db.events[e], |s.history|))
  {
    hide Exec;
    Answered(mode, run, ReadEvent(p));
  }

  lemma UpdateWriteLaw(mode: Mode, run: seq<Label>, p: Pid, e: EventId, edit: Edit, read: EventRow, readAt: nat)
    requires p in Exec(mode, run).procs && Exec(mode, run).procs[p] == UpdateRead(e, edit, read, readAt)
    ensures var s, s' := Exec(mode, run), Exec(mode, run + [WriteEvent(p)]);
            && s'.redis == s.redis && p in s'.procs
            && if !(-2147483648 <= edit.total <= 2147483647 && -2147483648 <= edit.price <= 2147483647
                    && -2147483648 <= edit.version <= 2147483647 && -2147483648 <= read.remaining <= 2147483647)
               then s'.procs[p] == Done(Failed(Database)) && s'.db == s.db
               else if e !in s.db.events || s.db.events[e].deleted || s.db.events[e].version != edit.version
               then s'.procs[p] == Done(Failed(VersionConflict)) && s'.db == s.db
               else if e in s.eventLocks && s.eventLocks[e] != p then s' == s
               else if edit.total <= 0 || edit.price < 0 || !(0 <= read.remaining <= edit.total)
                       || edit.version == 2147483647
               then s'.procs[p] == Done(Failed(Database)) && s'.db == s.db
               else
                 && s'.procs[p] == Done(UpdateDone)
                 && s'.db.bookings == s.db.bookings && s'.db.audits == s.db.audits
                 && s'.db.events == s.db.events[e :=
                      EventRow(edit.total, read.remaining, edit.price, edit.status, edit.version + 1, false)]
  {
    hide Exec;
    Answered(mode, run, WriteEvent(p));
  }

  // EventService.Delete: read without a lock, then marked.
  lemma DeleteReadLaw(mode: Mode, run: seq<Label>, p: Pid, e: EventId)
    requires p in Exec(mode, run).procs && Exec(mode, run).procs[p] == DeleteStart(e)
    ensures var s, s' := Exec(mode, run), Exec(mode, run + [ReadEvent(p)]);
            && s'.db == s.db && s'.redis == s.redis && p in s'.procs
            && s'.procs[p] == if e in s.db.events && !s.db.events[e].deleted then DeleteRead(e)
                              else Done(Failed(NotFound))
  {
    hide Exec;
    Answered(mode, run, ReadEvent(p));
  }

  lemma DeleteWriteLaw(mode: Mode, run: seq<Label>, p: Pid, e: EventId)
    requires p in Exec(mode, run).procs && Exec(mode, run).procs[p] == DeleteRead(e)
    ensures var s, s' := Exec(mode, run), Exec(mode, run + [SoftDelete(p)]);
            && s'.redis == s.redis && p in s'.procs
            && if e !in s.db.events || s.db.events[e].deleted
               then s'.procs[p] == Done(Failed(NotFound)) && s'.db == s.db
               else if e in s.eventLocks && s.eventLocks[e] != p then s' == s
               else
                 && s'.procs[p] == Done(DeleteDone)
                 && s'.db.bookings == s.db.bookings && s'.db.audits == s.db.audits
                 && var r := s.db.events[e];
                    s'.db.events
                      == s.db.events[e := EventRow(r.total, r.remaining, r.price, r.status, r.version, true)]
  {
    hide Exec;
    Answered(mode, run, SoftDelete(p));
  }
}
