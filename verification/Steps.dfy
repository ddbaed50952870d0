// What one step of one request can change: who holds which lock, where the program counter
// goes, and which action is committed.
module Steps {
  import opened Schema
  import opened History
  import opened Protocol

  // ---------- what a request holds ----------

  // The row locks and the index key that a request holds at a program counter.
  function EventHeld(mode: Mode, pc: Proc): Option<EventId> {
    match pc
    case BookRead(v) => if mode == Locking then Some(v.e) else None
    case BookInserted(v, b, now, row) => if mode == Locking then Some(v.e) else None
    case BookDecremented(v, b, now, row, event) => Some(v.e)
    case BookLogged(v, b, now, row, event, poisoned) => Some(v.e)
    case CancelRestored(b, before, row, now, event) => Some(row.event)
    case _ => None
  }

  function BookingHeld(pc: Proc): Option<BookingId> {
    match pc
    case BookInserted(v, b, now, row) => Some(b)
    case BookDecremented(v, b, now, row, event) => Some(b)
    case BookLogged(v, b, now, row, event, poisoned) => Some(b)
    case CancelLocked(b, u, before, row) => Some(b)
    case CancelMarked(b, before, row, now) => Some(b)
    case CancelRestored(b, before, row, now, event) => Some(b)
    case _ => None
  }

  // The (user, event) key whose uniqueness an open transaction is about to decide.
  function KeyInDoubt(pc: Proc): Option<(UserId, EventId)> {
    match pc
    case BookInserted(v, b, now, row) => Some((v.u, v.e))
    case BookDecremented(v, b, now, row, event) => Some((v.u, v.e))
    case BookLogged(v, b, now, row, event, poisoned) => Some((v.u, v.e))
    case CancelMarked(b, before, row, now) => Some((row.user, row.event))
    case CancelRestored(b, before, row, now, event) => Some((row.user, row.event))
    case _ => None
  }

  // The Redis key and token of a booking between its acquire and its release.
  function LockOf(pc: Proc): Option<(EventId, Token)> {
    match pc
    case BookLocked(u, e, n, tok) => Some((e, tok))
    case BookRead(v) => Some((v.e, v.tok))
    case BookInserted(v, b, now, row) => Some((v.e, v.tok))
    case BookDecremented(v, b, now, row, event) => Some((v.e, v.tok))
    case BookLogged(v, b, now, row, event, poisoned) => Some((v.e, v.tok))
    case BookEnded(e, tok, result) => Some((e, tok))
    case _ => None
  }

  predicate StillHeld<K(==)>(before: Option<K>, after: Option<K>) {
    before.Some? ==> after == before
  }

  predicate LosesNothing(mode: Mode, pc: Proc, pc': Proc) {
    && StillHeld(EventHeld(mode, pc), EventHeld(mode, pc'))
    && StillHeld(BookingHeld(pc), BookingHeld(pc'))
    && StillHeld(KeyInDoubt(pc), KeyInDoubt(pc'))
  }

  // `p` gained at most what it now holds; nothing else changed hands.
  predicate Gains<K(==)>(m: map<K, Pid>, m': map<K, Pid>, p: Pid, held: Option<K>) {
    forall k :: k in m' ==> (m'[k] == p && held == Some(k)) || (k in m && m'[k] == m[k])
  }

  predicate GainsOnly(mode: Mode, s: State, s': State, p: Pid, pc: Proc) {
    && Gains(s.eventLocks, s'.eventLocks, p, EventHeld(mode, pc))
    && Gains(s.bookingLocks, s'.bookingLocks, p, BookingHeld(pc))
    && Gains(s.inDoubt, s'.inDoubt, p, KeyInDoubt(pc))
  }

  predicate Released(s: State, s': State, p: Pid) {
    && s'.eventLocks == Without(s.eventLocks, p)
    && s'.bookingLocks == Without(s.bookingLocks, p)
    && s'.inDoubt == Without(s.inDoubt, p)
  }

  // How a step of `p` that does something changes who holds what.
  predicate Disciplined(mode: Mode, s: State, s': State, p: Pid) {
    && p in s.procs && p in s'.procs
    && s'.procs == s.procs[p := s'.procs[p]]
    && (Released(s, s', p)
        || (LosesNothing(mode, s.procs[p], s'.procs[p]) && GainsOnly(mode, s, s', p, s'.procs[p])))
  }

  // ---------- where it goes ----------

  function CommittedBy(s: State, s': State): Option<Action> {
    if |s.history| < |s'.history| then Some(s'.history[|s.history|]) else None
  }

  predicate HasFailed(pc: Proc) {
    (pc.Done? || pc.BookEnded?) && pc.result.Failed?
  }

  // A failed booking keeps its Redis key until its release; other requests are done.
  predicate FailsFrom(pc: Proc, pc': Proc) {
    && !pc.Done? && !pc.BookEnded? && !pc.CancelCommitted?
    && HasFailed(pc') && LockOf(pc') == LockOf(pc)
  }

  // Where a request can get in one step of its own, and what that step commits.
  predicate Moves(pc: Proc, pc': Proc, a: Option<Action>) {
    (pc' == pc && a == None) || (FailsFrom(pc, pc') && a == None) ||
    match pc
    case BookStart(u, e, n) => a == None && pc'.BookLocked? && pc' == BookLocked(u, e, n, pc'.tok)
    case BookLocked(u, e, n, tok) =>
      a == None && pc'.BookRead? && pc' == BookRead(Seen(u, e, n, tok, pc'.seen.row, pc'.seen.readAt))
    case BookRead(v) => a == None && pc'.BookInserted? && pc'.seen == v
    case BookInserted(v, b, now, row) =>
      a == None && pc'.BookDecremented? && pc' == BookDecremented(v, b, now, row, pc'.event)
    case BookDecremented(v, b, now, row, event) =>
      a == None && pc'.BookLogged? && pc' == BookLogged(v, b, now, row, event, pc'.poisoned)
    case BookLogged(v, b, now, row, event, poisoned) =>
      a == Some(Book(b, v.u, v.e, v.n, now)) && pc' == BookEnded(v.e, v.tok, Booked(b))
    case BookEnded(e, tok, result) => a == None && pc' == Done(result)
    case CancelStart(b, u) => a == None && pc'.CancelRead? && pc' == CancelRead(b, u, pc'.before)
    case CancelRead(b, u, before) =>
      a == None && pc'.CancelLocked? && pc' == CancelLocked(b, u, before, pc'.row) && pc'.row.user == u
    case CancelLocked(b, u, before, row) =>
      a == None && pc'.CancelMarked? && pc' == CancelMarked(b, before, row, pc'.now)
    case CancelMarked(b, before, row, now) =>
      a == None && pc'.CancelRestored? && pc' == CancelRestored(b, before, row, now, pc'.event)
    case CancelRestored(b, before, row, now, event) =>
      a == Some(Cancel(b, now)) && pc' == CancelCommitted(b, before, CancelRow(row, now))
    case CancelCommitted(b, before, after) =>
      pc' == Done(CancelDone(b)) && (a == None || a == Some(LogCancel(b, before, after)))
    case UpdateStart(e, edit) =>
      a == None && pc'.UpdateRead? && pc' == UpdateRead(e, edit, pc'.read, pc'.readAt)
    case UpdateRead(e, edit, read, readAt) =>
      a == Some(Update(e, edit, read, readAt)) && pc' == Done(UpdateDone)
    case DeleteStart(e) => a == None && pc' == DeleteRead(e)
    case DeleteRead(e) => a == Some(Delete(e)) && pc' == Done(DeleteDone)
    case Done(result) => false
  }

  predicate Proper(mode: Mode, s: State, s': State, p: Pid) {
    && p in s.procs && p in s'.procs
    && Moves(s.procs[p], s'.procs[p], CommittedBy(s, s'))
    && (s' == s || Disciplined(mode, s, s', p))
  }

  lemma EndIsDisciplined(mode: Mode, s: State, p: Pid)
    requires p in s.procs
    ensures forall pc :: Disciplined(mode, s, EndTx(s, p, pc), p)
    ensures forall pc, db, a :: Disciplined(mode, s, Commit(EndTx(s, p, pc), db, a), p)
    ensures forall pc :: LosesNothing(mode, s.procs[p], pc) ==> Disciplined(mode, s, At(s, p, pc), p)
  {
  }

  lemma GainIsDisciplined(mode: Mode, s: State, s': State, p: Pid, pc: Proc)
    requires p in s.procs && s'.procs == s.procs[p := pc]
    requires LosesNothing(mode, s.procs[p], pc) && GainsOnly(mode, s, s', p, pc)
    ensures Disciplined(mode, s, s', p)
  {
  }

  lemma ReadForUpdateIsProper(mode: Mode, s: State, p: Pid, pc: Proc)
    requires p in s.procs && s.procs[p] == pc && pc.BookLocked?
    ensures Proper(mode, s, DoReadForUpdate(mode, s, p, pc), p)
  {
    hide Disciplined;
    EndIsDisciplined(mode, s, p);
    var s' := DoReadForUpdate(mode, s, p, pc);
    if p in s'.procs && s'.procs[p].BookRead? {
      GainIsDisciplined(mode, s, s', p, s'.procs[p]);
    }
  }

  lemma InsertBookingIsProper(mode: Mode, s: State, p: Pid, pc: Proc, b: BookingId, now: int)
    requires p in s.procs && s.procs[p] == pc && pc.BookRead?
    ensures Proper(mode, s, DoInsertBooking(s, p, pc, b, now), p)
  {
    hide Disciplined, HasActive, BookingChecks, InsertedBooking;
    EndIsDisciplined(mode, s, p);
    var s' := DoInsertBooking(s, p, pc, b, now);
    if p in s'.procs && s'.procs[p].BookInserted? {
      GainIsDisciplined(mode, s, s', p, s'.procs[p]);
    }
  }

  lemma UpdateTicketsIsProper(mode: Mode, s: State, p: Pid, pc: Proc)
    requires p in s.procs && s.procs[p] == pc && pc.BookInserted?
    ensures Proper(mode, s, DoUpdateTickets(s, p, pc), p)
  {
    hide Disciplined;
    EndIsDisciplined(mode, s, p);
    var s' := DoUpdateTickets(s, p, pc);
    if p in s'.procs && s'.procs[p].BookDecremented? {
      GainIsDisciplined(mode, s, s', p, s'.procs[p]);
    }
  }

  lemma CommitBookingIsProper(mode: Mode, s: State, p: Pid, pc: Proc)
    requires p in s.procs && s.procs[p] == pc && pc.BookLogged?
    ensures Proper(mode, s, DoCommitBooking(s, p, pc), p)
  {
    hide Disciplined;
    EndIsDisciplined(mode, s, p);
  }

  lemma ReadBookingIsProper(mode: Mode, s: State, p: Pid, pc: Proc)
    requires p in s.procs && s.procs[p] == pc && pc.CancelStart?
    ensures Proper(mode, s, DoReadBooking(s, p, pc), p)
  {
    hide Disciplined;
    EndIsDisciplined(mode, s, p);
  }

  lemma LockBookingIsProper(mode: Mode, s: State, p: Pid, pc: Proc)
    requires p in s.procs && s.procs[p] == pc && pc.CancelRead?
    ensures Proper(mode, s, DoLockBooking(s, p, pc), p)
  {
    hide Disciplined;
    EndIsDisciplined(mode, s, p);
    var s' := DoLockBooking(s, p, pc);
    if p in s'.procs && s'.procs[p].CancelLocked? {
      GainIsDisciplined(mode, s, s', p, s'.procs[p]);
    }
  }

  lemma MarkCancelledIsProper(mode: Mode, s: State, p: Pid, pc: Proc, now: int)
    requires p in s.procs && s.procs[p] == pc && pc.CancelLocked?
    ensures Proper(mode, s, DoMarkCancelled(s, p, pc, now), p)
  {
  }

  lemma RestoreIsProper(mode: Mode, s: State, p: Pid, pc: Proc)
    requires p in s.procs && s.procs[p] == pc && pc.CancelMarked?
    ensures Proper(mode, s, DoRestore(s, p, pc), p)
  {
    hide Disciplined;
    EndIsDisciplined(mode, s, p);
    var s' := DoRestore(s, p, pc);
    if p in s'.procs && s'.procs[p].CancelRestored? {
      GainIsDisciplined(mode, s, s', p, s'.procs[p]);
    }
  }

  lemma CommitCancelIsProper(mode: Mode, s: State, p: Pid, pc: Proc)
    requires p in s.procs && s.procs[p] == pc && pc.CancelRestored?
    ensures Proper(mode, s, DoCommitCancel(s, p, pc), p)
  {
    hide Disciplined;
    EndIsDisciplined(mode, s, p);
  }

  lemma ReadEventIsProper(mode: Mode, s: State, p: Pid, pc: Proc)
    requires p in s.procs && s.procs[p] == pc && (pc.UpdateStart? || pc.DeleteStart?)
    ensures Proper(mode, s, DoReadEvent(s, p, pc), p)
  {
    hide Disciplined;
    EndIsDisciplined(mode, s, p);
  }

  lemma WriteOutcomes(s: State, p: Pid, pc: Proc)
    requires pc.UpdateRead?
    ensures var s' := DoWriteEvent(s, p, pc);
            || s' == s || s' == Fail(s, p, VersionConflict) || s' == Fail(s, p, Database)
            || s' == Commit(EndTx(s, p, Done(UpdateDone)), s'.db, Update(pc.e, pc.edit, pc.read, pc.readAt))
  {
    hide RewriteEvent, EndTx;
  }

  lemma WriteEventIsProper(mode: Mode, s: State, p: Pid, pc: Proc)
    requires p in s.procs && s.procs[p] == pc && pc.UpdateRead?
    ensures Proper(mode, s, DoWriteEvent(s, p, pc), p)
  {
    hide Disciplined, DoWriteEvent;
    EndIsDisciplined(mode, s, p);
    WriteOutcomes(s, p, pc);
  }

  lemma SoftDeleteIsProper(mode: Mode, s: State, p: Pid, pc: Proc)
    requires p in s.procs && s.procs[p] == pc && pc.DeleteRead?
    ensures Proper(mode, s, DoSoftDelete(s, p, pc), p)
  {
    hide Disciplined;
    EndIsDisciplined(mode, s, p);
  }

  lemma AbortIsProper(mode: Mode, s: State, p: Pid, pc: Proc)
    requires p in s.procs && s.procs[p] == pc
    ensures Proper(mode, s, DoAbort(s, p, pc), p)
  {
    hide Disciplined;
    EndIsDisciplined(mode, s, p);
  }

  lemma RedisStepIsProper(mode: Mode, s: State, p: Pid, pc: Proc, tok: Token)
    requires p in s.procs && s.procs[p] == pc
    ensures pc.BookStart? ==> Proper(mode, s, DoAcquireLock(s, p, pc, tok), p)
    ensures pc.BookEnded? ==> Proper(mode, s, DoReleaseLock(s, p, pc), p)
  {
  }

  lemma LogInTxIsProper(mode: Mode, s: State, p: Pid, pc: Proc, ok: bool)
    requires p in s.procs && s.procs[p] == pc && pc.BookDecremented?
    ensures Proper(mode, s, At(s, p, BookLogged(pc.seen, pc.b, pc.now, pc.row, pc.event, !ok)), p)
  {
    hide Disciplined;
    EndIsDisciplined(mode, s, p);
  }

  lemma LogCancelledIsProper(mode: Mode, s: State, p: Pid, pc: Proc, ok: bool)
    requires p in s.procs && s.procs[p] == pc && pc.CancelCommitted?
    ensures Proper(mode, s, DoLogCancelled(s, p, pc, ok), p)
  {
  }

  lemma StayingIsProper(mode: Mode, s: State, p: Pid)
    requires p in s.procs
    ensures Proper(mode, s, s, p)
  {
  }

  lemma StepIsProper(mode: Mode, s: State, l: Label, pc: Proc)
    requires !l.CreateEvent? && !l.Arrive? && !l.RedisChange?
    requires l.p in s.procs && s.procs[l.p] == pc
    ensures Proper(mode, s, StepProc(mode, s, l, pc), l.p)
  {
    StayingIsProper(mode, s, l.p);
    hide Proper;
    match l
    case AcquireLock(p, tok) => if pc.BookStart? { RedisStepIsProper(mode, s, p, pc, tok); }
    case ReleaseLock(p) => if pc.BookEnded? { RedisStepIsProper(mode, s, p, pc, 0); }
    case ReadForUpdate(p) => if pc.BookLocked? { ReadForUpdateIsProper(mode, s, p, pc); }
    case InsertBooking(p, b, now) => if pc.BookRead? { InsertBookingIsProper(mode, s, p, pc, b, now); }
    case UpdateTickets(p) => if pc.BookInserted? { UpdateTicketsIsProper(mode, s, p, pc); }
    case CommitBooking(p) => if pc.BookLogged? { CommitBookingIsProper(mode, s, p, pc); }
    case ReadBooking(p) => if pc.CancelStart? { ReadBookingIsProper(mode, s, p, pc); }
    case LockBooking(p) => if pc.CancelRead? { LockBookingIsProper(mode, s, p, pc); }
    case MarkCancelled(p, now) => if pc.CancelLocked? { MarkCancelledIsProper(mode, s, p, pc, now); }
    case Restore(p) => if pc.CancelMarked? { RestoreIsProper(mode, s, p, pc); }
    case CommitCancel(p) => if pc.CancelRestored? { CommitCancelIsProper(mode, s, p, pc); }
    case ReadEvent(p) => if pc.UpdateStart? || pc.DeleteStart? { ReadEventIsProper(mode, s, p, pc); }
    case WriteEvent(p) => if pc.UpdateRead? { WriteEventIsProper(mode, s, p, pc); }
    case SoftDelete(p) => if pc.DeleteRead? { SoftDeleteIsProper(mode, s, p, pc); }
    case Abort(p) => AbortIsProper(mode, s, p, pc);
    case LogInTx(p, ok) => if pc.BookDecremented? { LogInTxIsProper(mode, s, p, pc, ok); }
    case LogCancelled(p, ok) => if pc.CancelCommitted? { LogCancelledIsProper(mode, s, p, pc, ok); }
  }
}
