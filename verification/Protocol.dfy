// The interleaved machine. Any number of requests run concurrently; each label is one
// statement of one request, executed under Read Committed (PostgreSQL 16, section 13.2.1).
// A label that is blocked or does not fit the request's program counter changes nothing,
// so every sequence of labels is a run.
module Protocol {
  import opened Schema
  import opened History

  type Pid = nat

  // `Locking` is the code as written. `VersionOnly` reads the event with a plain SELECT
  // instead of SELECT ... FOR UPDATE, leaving only the version check of the decrement.
  datatype Mode = Locking | VersionOnly

  datatype Result = Booked(b: BookingId) | CancelDone(b: BookingId) | UpdateDone | DeleteDone | Failed(err: Error)

  datatype Request =
    | BookRequest(u: UserId, e: EventId, n: int)
    | CancelRequest(b: BookingId, u: UserId)
    | UpdateRequest(e: EventId, edit: Edit)
    | DeleteRequest(e: EventId)

  // What a booking request has read so far: the event row, and (an auxiliary value that
  // no step ever looks at) the length of the history at the time of the read.
  datatype Seen = Seen(u: UserId, e: EventId, n: int, tok: Token, row: EventRow, readAt: nat)

  // Program counters with local variables. Uncommitted writes live in the transaction
  // that made them: `row`/`after` for the booking row, `event` for the event row.
  datatype Proc =
    // BookTicket
    | BookStart(u: UserId, e: EventId, n: int)
    | BookLocked(u: UserId, e: EventId, n: int, tok: Token)
    | BookRead(seen: Seen)
    | BookInserted(seen: Seen, b: BookingId, now: int, row: BookingRow)
    | BookDecremented(seen: Seen, b: BookingId, now: int, row: BookingRow, event: EventRow)
    | BookLogged(seen: Seen, b: BookingId, now: int, row: BookingRow, event: EventRow, poisoned: bool)
    | BookEnded(e: EventId, tok: Token, result: Result)
    // CancelBooking
    | CancelStart(b: BookingId, u: UserId)
    | CancelRead(b: BookingId, u: UserId, before: BookingRow)
    | CancelLocked(b: BookingId, u: UserId, before: BookingRow, row: BookingRow)
    | CancelMarked(b: BookingId, before: BookingRow, row: BookingRow, now: int)
    | CancelRestored(b: BookingId, before: BookingRow, row: BookingRow, now: int, event: EventRow)
    | CancelCommitted(b: BookingId, before: BookingRow, after: BookingRow)
    // EventService.Update and Delete
    | UpdateStart(e: EventId, edit: Edit)
    | UpdateRead(e: EventId, edit: Edit, read: EventRow, readAt: nat)
    | DeleteStart(e: EventId)
    | DeleteRead(e: EventId)
    | Done(result: Result)

  // The committed tables, the requests, the row locks, the in-doubt entries of the partial
  // unique index (the uncommitted transaction that decides whether a key is taken), the
  // Redis lock keys, and the auxiliary history of committed actions.
  datatype State = State(
    db: Db,
    procs: map<Pid, Proc>,
    eventLocks: map<EventId, Pid>,
    bookingLocks: map<BookingId, Pid>,
    inDoubt: map<(UserId, EventId), Pid>,
    redis: map<EventId, Token>,
    history: seq<Action>)

  const START := State(EMPTY_DB, map[], map[], map[], map[], map[], [])

  datatype Label =
    | CreateEvent(e: EventId, total: int, price: int, status: EventStatus)
    | Arrive(p: Pid, request: Request)
    | RedisChange(keys: map<EventId, Token>)
    | AcquireLock(p: Pid, tok: Token)
    | ReadForUpdate(p: Pid)
    | InsertBooking(p: Pid, b: BookingId, now: int)
    | UpdateTickets(p: Pid)
    | LogInTx(p: Pid, ok: bool)
    | CommitBooking(p: Pid)
    | ReleaseLock(p: Pid)
    | ReadBooking(p: Pid)
    | LockBooking(p: Pid)
    | MarkCancelled(p: Pid, now: int)
    | Restore(p: Pid)
    | CommitCancel(p: Pid)
    | LogCancelled(p: Pid, ok: bool)
    | ReadEvent(p: Pid)
    | WriteEvent(p: Pid)
    | SoftDelete(p: Pid)
    | Abort(p: Pid)

  function At(s: State, p: Pid, pc: Proc): State {
    s.(procs := s.procs[p := pc])
  }

  function Without<K>(m: map<K, Pid>, p: Pid): map<K, Pid> {
    map k | k in m && m[k] != p :: m[k]
  }

  // The end of a transaction, by commit or rollback, releases all it held.
  function EndTx(s: State, p: Pid, pc: Proc): State {
    At(s, p, pc).(
      eventLocks := Without(s.eventLocks, p),
      bookingLocks := Without(s.bookingLocks, p),
      inDoubt := Without(s.inDoubt, p))
  }

  // A booking whose transaction is rolled back; the deferred lock release comes after.
  function FailBooking(s: State, p: Pid, e: EventId, tok: Token, err: Error): State {
    EndTx(s, p, BookEnded(e, tok, Failed(err)))
  }

  function Fail(s: State, p: Pid, err: Error): State {
    EndTx(s, p, Done(Failed(err)))
  }

  // An autocommitted or committing action, recorded in the history.
  function Commit(s: State, db: Db, a: Action): State {
    s.(db := db, history := s.history + [a])
  }

  predicate Quiet(s: State, s': State) {
    s'.history == s.history && s'.db == s.db
  }

  // The one step in which a request takes effect, and what it becomes by it.
  predicate Succeeds(pc: Proc, pc': Proc) {
    || (pc.BookLogged? && !pc.poisoned && pc' == BookEnded(pc.seen.e, pc.seen.tok, Booked(pc.b)))
    || (pc.CancelRestored? && pc' == CancelCommitted(pc.b, pc.before, CancelRow(pc.row, pc.now)))
    || (pc.CancelCommitted? && pc' == Done(CancelDone(pc.b)))
    || (pc.UpdateRead? && pc' == Done(UpdateDone))
    || (pc.DeleteRead? && pc' == Done(DeleteDone))
  }

  predicate AppendsOne(s: State, s': State) {
    |s'.history| == |s.history| + 1 && s'.history[..|s.history|] == s.history
  }

  // A step of `p` leaves tables and history alone, or appends one action and succeeds.
  predicate Proceeds(s: State, s': State, p: Pid, pc: Proc) {
    Quiet(s, s') || (AppendsOne(s, s') && p in s'.procs && Succeeds(pc, s'.procs[p]))
  }

  predicate FreeFor<K>(m: map<K, Pid>, k: K, p: Pid) {
    k in m ==> m[k] == p
  }

  // ---------- BookTicket, statement by statement ----------

  function DoAcquireLock(s: State, p: Pid, pc: Proc, tok: Token): (s': State)
    requires pc.BookStart?
    ensures Quiet(s, s')
  {
    if pc.e in s.redis then At(s, p, Done(Failed(LockNotAcquired)))
    else At(s, p, BookLocked(pc.u, pc.e, pc.n, tok)).(redis := s.redis[pc.e := tok])
  }

  // BEGIN; SELECT ... FOR UPDATE, which waits only for a row that matches; then the checks
  // on the row just read.
  function DoReadForUpdate(mode: Mode, s: State, p: Pid, pc: Proc): (s': State)
    requires pc.BookLocked?
    ensures Quiet(s, s') && s'.redis == s.redis
  {
    if pc.e !in s.db.events || s.db.events[pc.e].deleted then FailBooking(s, p, pc.e, pc.tok, NotFound)
    else if mode == Locking && !FreeFor(s.eventLocks, pc.e, p) then s
    else
      var row := s.db.events[pc.e];
      if row.status != Published then FailBooking(s, p, pc.e, pc.tok, NotAvailable)
      else if row.remaining < pc.n then FailBooking(s, p, pc.e, pc.tok, Insufficient)
      else
        At(s, p, BookRead(Seen(pc.u, pc.e, pc.n, pc.tok, row, |s.history|))).(
          eventLocks := if mode == Locking then s.eventLocks[pc.e := p] else s.eventLocks)
  }

  // INSERT INTO bookings. It waits while another transaction has this key in doubt;
  // the new id is one that no committed or uncommitted row uses.
  function DoInsertBooking(s: State, p: Pid, pc: Proc, b: BookingId, now: int): (s': State)
    requires pc.BookRead?
    ensures Quiet(s, s') && s'.redis == s.redis
  {
    var v := pc.seen;
    if b in s.db.bookings || b in s.bookingLocks || !FreeFor(s.inDoubt, (v.u, v.e), p) then s
    else
      var row := InsertedBooking(v.u, v.e, v.n, v.row.price, now);
      if HasActive(s.db.bookings, v.u, v.e) then FailBooking(s, p, v.e, v.tok, AlreadyActive)
      else if !BookingChecks(row) then FailBooking(s, p, v.e, v.tok, Database)
      else
        At(s, p, BookInserted(v, b, now, row)).(
          bookingLocks := s.bookingLocks[b := p],
          inDoubt := s.inDoubt[(v.u, v.e) := p])
  }

  function DoUpdateTickets(s: State, p: Pid, pc: Proc): (s': State)
    requires pc.BookInserted?
    ensures Quiet(s, s') && s'.redis == s.redis
  {
    var v := pc.seen;
    var out := if v.e in s.db.events then DecrementTickets(s.db.events[v.e], v.row.version, v.n) else NoRow;
    if out.NoRow? then FailBooking(s, p, v.e, v.tok, VersionConflict)
    else if !FreeFor(s.eventLocks, v.e, p) then s
    else
      match out
      case Rejected => FailBooking(s, p, v.e, v.tok, Database)
      case Wrote(event) =>
        At(s, p, BookDecremented(v, pc.b, pc.now, pc.row, event)).(eventLocks := s.eventLocks[v.e := p])
  }

  // The error of the audit insert is ignored, but a failed statement poisons the transaction.
  function DoCommitBooking(s: State, p: Pid, pc: Proc): (s': State)
    requires pc.BookLogged?
    ensures Proceeds(s, s', p, pc) && s'.redis == s.redis
  {
    var v := pc.seen;
    if pc.poisoned then FailBooking(s, p, v.e, v.tok, Database)
    else
      Commit(EndTx(s, p, BookEnded(v.e, v.tok, Booked(pc.b))),
             Db(s.db.events[v.e := pc.event],
                s.db.bookings[pc.b := pc.row],
                s.db.audits + [BookingCreated(pc.b, pc.row)]),
             Book(pc.b, v.u, v.e, v.n, pc.now))
  }

  // The release script: delete the key only if it still holds this token.
  function DoReleaseLock(s: State, p: Pid, pc: Proc): (s': State)
    requires pc.BookEnded?
    ensures Quiet(s, s')
  {
    At(s, p, Done(pc.result)).(
      redis := if pc.e in s.redis && s.redis[pc.e] == pc.tok then s.redis - {pc.e} else s.redis)
  }

  // ---------- CancelBooking ----------

  function DoReadBooking(s: State, p: Pid, pc: Proc): (s': State)
    requires pc.CancelStart?
    ensures Quiet(s, s') && s'.redis == s.redis
  {
    if pc.b !in s.db.bookings then Fail(s, p, NotFound)
    else if s.db.bookings[pc.b].user != pc.u then Fail(s, p, NotOwner)
    else At(s, p, CancelRead(pc.b, pc.u, s.db.bookings[pc.b]))
  }

  function DoLockBooking(s: State, p: Pid, pc: Proc): (s': State)
    requires pc.CancelRead?
    ensures Quiet(s, s') && s'.redis == s.redis
  {
    if !FreeFor(s.bookingLocks, pc.b, p) then s
    else if pc.b !in s.db.bookings || s.db.bookings[pc.b].user != pc.u then Fail(s, p, NotFound)
    else
      var row := s.db.bookings[pc.b];
      if !Active(row) then Fail(s, p, CannotCancel)
      else
        At(s, p, CancelLocked(pc.b, pc.u, pc.before, row)).(bookingLocks := s.bookingLocks[pc.b := p])
  }

  function DoMarkCancelled(s: State, p: Pid, pc: Proc, now: int): (s': State)
    requires pc.CancelLocked?
    ensures Quiet(s, s') && s'.redis == s.redis
  {
    At(s, p, CancelMarked(pc.b, pc.before, pc.row, now)).(
      inDoubt := s.inDoubt[(pc.row.user, pc.row.event) := p])
  }

  function DoRestore(s: State, p: Pid, pc: Proc): (s': State)
    requires pc.CancelMarked?
    ensures Quiet(s, s') && s'.redis == s.redis
  {
    if !FreeFor(s.eventLocks, pc.row.event, p) then s
    else
      var out := if pc.row.event in s.db.events
                 then RestoreTickets(s.db.events[pc.row.event], pc.row.count) else Rejected;
      match out
      case Wrote(event) =>
        At(s, p, CancelRestored(pc.b, pc.before, pc.row, pc.now, event)).(
          eventLocks := s.eventLocks[pc.row.event := p])
      case _ => Fail(s, p, Database)
  }

  function DoCommitCancel(s: State, p: Pid, pc: Proc): (s': State)
    requires pc.CancelRestored?
    ensures Proceeds(s, s', p, pc) && s'.redis == s.redis
  {
    var after := CancelRow(pc.row, pc.now);
    Commit(EndTx(s, p, CancelCommitted(pc.b, pc.before, after)),
           s.db.(events := s.db.events[pc.row.event := pc.event],
                 bookings := s.db.bookings[pc.b := after]),
           Cancel(pc.b, pc.now))
  }

  // The snapshots written are the row read without a lock and the row returned by Cancel.
  function DoLogCancelled(s: State, p: Pid, pc: Proc, ok: bool): (s': State)
    requires pc.CancelCommitted?
    ensures Proceeds(s, s', p, pc) && s'.redis == s.redis
  {
    var s' := At(s, p, Done(CancelDone(pc.b)));
    if !ok then s'
    else
      Commit(s', s.db.(audits := s.db.audits + [BookingCancelled(pc.b, pc.before, pc.after)]),
             LogCancel(pc.b, pc.before, pc.after))
  }

  // ---------- EventService.Update and Delete ----------

  predicate EditValid(edit: Edit) {
    0 < edit.version && 0 < edit.total && 0 <= edit.price
  }

  function DoReadEvent(s: State, p: Pid, pc: Proc): (s': State)
    requires pc.UpdateStart? || pc.DeleteStart?
    ensures Quiet(s, s') && s'.redis == s.redis
  {
    if pc.e !in s.db.events || s.db.events[pc.e].deleted then Fail(s, p, NotFound)
    else if pc.DeleteStart? then At(s, p, DeleteRead(pc.e))
    else if !EditValid(pc.edit) then Fail(s, p, Invalid)
    else At(s, p, UpdateRead(pc.e, pc.edit, s.db.events[pc.e], |s.history|))
  }

  // One autocommitted UPDATE. Numbers that are no INT are refused at once; a row that does
  // not match is not waited for; one that does is written only if it still matches once its
  // lock is free.
  function DoWriteEvent(s: State, p: Pid, pc: Proc): (s': State)
    requires pc.UpdateRead?
    ensures Proceeds(s, s', p, pc) && s'.redis == s.redis
  {
    var with := Edited(pc.read, pc.edit);
    if !Encodable(with) then Fail(s, p, Database)
    else
      var out := if pc.e in s.db.events then RewriteEvent(s.db.events[pc.e], with) else NoRow;
      if out.NoRow? then Fail(s, p, VersionConflict)
      else if !FreeFor(s.eventLocks, pc.e, p) then s
      else
        match out
        case Rejected => Fail(s, p, Database)
        case Wrote(row) =>
          Commit(EndTx(s, p, Done(UpdateDone)), s.db.(events := s.db.events[pc.e := row]),
                 Update(pc.e, pc.edit, pc.read, pc.readAt))
  }

  function DoSoftDelete(s: State, p: Pid, pc: Proc): (s': State)
    requires pc.DeleteRead?
    ensures Proceeds(s, s', p, pc) && s'.redis == s.redis
  {
    if pc.e !in s.db.events || s.db.events[pc.e].deleted then Fail(s, p, NotFound)
    else if !FreeFor(s.eventLocks, pc.e, p) then s
    else
      Commit(EndTx(s, p, Done(DeleteDone)),
             s.db.(events := s.db.events[pc.e := s.db.events[pc.e].(deleted := true)]),
             Delete(pc.e))
  }

  // ---------- the whole machine ----------

  function Begin(request: Request): Proc {
    match request
    case BookRequest(u, e, n) => if n <= 0 then Done(Failed(Invalid)) else BookStart(u, e, n)
    case CancelRequest(b, u) => CancelStart(b, u)
    case UpdateRequest(e, edit) => UpdateStart(e, edit)
    case DeleteRequest(e) => DeleteStart(e)
  }

  // An error, a lost connection or a deadlock victim: the transaction is rolled back. The
  // deferred lock release still follows in a booking; after a commit only the release or
  // the audit insert is lost.
  function AfterAbort(pc: Proc): (pc': Proc)
    ensures pc'.BookEnded? || pc'.Done?
  {
    match pc
    case BookLocked(u, e, n, tok) => BookEnded(e, tok, Failed(Database))
    case BookRead(v) => BookEnded(v.e, v.tok, Failed(Database))
    case BookInserted(v, b, now, row) => BookEnded(v.e, v.tok, Failed(Database))
    case BookDecremented(v, b, now, row, event) => BookEnded(v.e, v.tok, Failed(Database))
    case BookLogged(v, b, now, row, event, poisoned) => BookEnded(v.e, v.tok, Failed(Database))
    case BookEnded(e, tok, result) => Done(result)
    case CancelCommitted(b, before, after) => Done(CancelDone(b))
    case Done(result) => pc
    case _ => Done(Failed(Database))
  }

  function DoAbort(s: State, p: Pid, pc: Proc): State {
    EndTx(s, p, AfterAbort(pc))
  }

  function StepProc(mode: Mode, s: State, l: Label, pc: Proc): (s': State)
    requires !l.CreateEvent? && !l.Arrive? && !l.RedisChange?
    ensures Proceeds(s, s', l.p, pc)
    ensures l.AcquireLock? || l.ReleaseLock? || s'.redis == s.redis
  {
    match l
    case AcquireLock(p, tok) => if pc.BookStart? then DoAcquireLock(s, p, pc, tok) else s
    case ReadForUpdate(p) => if pc.BookLocked? then DoReadForUpdate(mode, s, p, pc) else s
    case InsertBooking(p, b, now) => if pc.BookRead? then DoInsertBooking(s, p, pc, b, now) else s
    case UpdateTickets(p) => if pc.BookInserted? then DoUpdateTickets(s, p, pc) else s
    case LogInTx(p, ok) =>
      if pc.BookDecremented? then At(s, p, BookLogged(pc.seen, pc.b, pc.now, pc.row, pc.event, !ok)) else s
    case CommitBooking(p) => if pc.BookLogged? then DoCommitBooking(s, p, pc) else s
    case ReleaseLock(p) => if pc.BookEnded? then DoReleaseLock(s, p, pc) else s
    case ReadBooking(p) => if pc.CancelStart? then DoReadBooking(s, p, pc) else s
    case LockBooking(p) => if pc.CancelRead? then DoLockBooking(s, p, pc) else s
    case MarkCancelled(p, now) => if pc.CancelLocked? then DoMarkCancelled(s, p, pc, now) else s
    case Restore(p) => if pc.CancelMarked? then DoRestore(s, p, pc) else s
    case CommitCancel(p) => if pc.CancelRestored? then DoCommitCancel(s, p, pc) else s
    case LogCancelled(p, ok) => if pc.CancelCommitted? then DoLogCancelled(s, p, pc, ok) else s
    case ReadEvent(p) => if pc.UpdateStart? || pc.DeleteStart? then DoReadEvent(s, p, pc) else s
    case WriteEvent(p) => if pc.UpdateRead? then DoWriteEvent(s, p, pc) else s
    case SoftDelete(p) => if pc.DeleteRead? then DoSoftDelete(s, p, pc) else s
    case Abort(p) => DoAbort(s, p, pc)
  }

  function Step(mode: Mode, s: State, l: Label): State {
    match l
    case CreateEvent(e, total, price, status) =>
      var row := NewEvent(total, price, status);
      if e in s.db.events || !EventChecks(row) then s
      else Commit(s, s.db.(events := s.db.events[e := row]), Create(e, total, price, status))
    case Arrive(p, request) => if p in s.procs then s else At(s, p, Begin(request))
    case RedisChange(keys) => s.(redis := keys)
    case _ => if l.p !in s.procs then s else StepProc(mode, s, l, s.procs[l.p])
  }

  // The state after a run, for every sequence of labels.
  function Exec(mode: Mode, run: seq<Label>): State {
    if run == [] then START
    else Step(mode, Exec(mode, run[..|run| - 1]), run[|run| - 1])
  }
}
