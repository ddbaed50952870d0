// Concrete runs of the code as written that show which of the conditions used in
// Guarantees cannot be dropped.
module Anomalies {
  import opened Schema
  import opened History
  import opened Ledger
  import opened Protocol
  import opened Refinement
  import opened Alone

  function Ticket(total: int, remaining: int, version: int): EventRow {
    EventRow(total, remaining, 0, Published, version, false)
  }

  // The tables hold exactly this event and these bookings, and no transaction is open.
  predicate Tables(s: State, event: EventRow, bookings: map<BookingId, BookingRow>, h: seq<Action>) {
    && s.db.events == map[0 := event] && s.db.bookings == bookings && s.history == h
    && Idle(s) && s.redis == map[]
  }

  function Put(total: int): Action {
    Create(0, total, 0, Published)
  }

  lemma AfterCreate(total: int)
    requires 0 < total <= MAX_INT
    ensures var s := Exec(Locking, [CreateEvent(0, total, 0, Published)]);
            Tables(s, Ticket(total, total, 1), map[], [Put(total)]) && s.procs == map[]
  {
    RunMore(Locking, [], CreateEvent(0, total, 0, Published));
    assert [] + [CreateEvent(0, total, 0, Published)] == [CreateEvent(0, total, 0, Published)];
  }

  // An undisturbed booking of one ticket, on explicit tables.
  lemma AfterBooking(run: seq<Label>, p: Pid, u: UserId, b: BookingId)
    requires var s := Exec(Locking, run);
             && Idle(s) && s.redis == map[] && p !in s.procs && b !in s.db.bookings
             && 0 in s.db.events && s.db.events[0].status == Published && !s.db.events[0].deleted
             && s.db.events[0].price == 0 && 1 <= s.db.events[0].remaining && s.db.events[0].version < MAX_INT
             && !HasActive(s.db.bookings, u, 0)
    ensures var s, s' := Exec(Locking, run), Exec(Locking, run + BookLabels(p, u, 0, 1, 0, b, 0));
            && Idle(s') && s'.redis == map[] && s'.procs == s.procs[p := Done(Booked(b))]
            && s'.db.events == s.db.events[0 := s.db.events[0].(
                 remaining := s.db.events[0].remaining - 1, version := s.db.events[0].version + 1)]
            && s'.db.bookings == s.db.bookings[b := NewBooking(u, 0, 1, 0, 0)]
            && s'.history == s.history + [Book(b, u, 0, 1, 0)]
  {
    hide Exec, BookLabels;
    BookAlone(Locking, run, p, u, 0, 1, 0, b, 0);
  }

  // ---------- a version from the future ----------

  const GUESS := Edit(1, 0, Published, 2)

  // The single ticket is sold while an update that guessed the next version is waiting.
  lemma SoldMeanwhile() returns (run: seq<Label>)
    ensures var s := Exec(Locking, run);
            && Tables(s, Ticket(1, 0, 2), map[0 := NewBooking(0, 0, 1, 0, 0)], [Put(1), Book(0, 0, 0, 1, 0)])
            && s.procs == map[0 := Done(Booked(0)), 1 := UpdateRead(0, GUESS, Ticket(1, 1, 1), 1)]
  {
    AfterCreate(1);
    run := [CreateEvent(0, 1, 0, Published)];
    hide Exec, BookLabels;
    UpdateReads(Locking, run, 1, 0, GUESS);
    run := run + [Arrive(1, UpdateRequest(0, GUESS)), ReadEvent(1)];
    AfterBooking(run, 0, 0, 0);
    run := run + BookLabels(0, 0, 0, 1, 0, 0, 0);
  }

  // The waiting update passes the version check and puts the sold ticket back on sale.
  lemma BackOnSale() returns (run: seq<Label>)
    ensures var s := Exec(Locking, run);
            && Tables(s, Ticket(1, 1, 3), map[0 := NewBooking(0, 0, 1, 0, 0)],
                      [Put(1), Book(0, 0, 0, 1, 0), Update(0, GUESS, Ticket(1, 1, 1), 1)])
            && s.procs == map[0 := Done(Booked(0)), 1 := Done(UpdateDone)]
  {
    var r := SoldMeanwhile();
    hide Exec;
    UpdateWrites(Locking, r, 1);
    run := r + [WriteEvent(1)];
  }

  // Honesty cannot be dropped: after an update whose version is newer than the row it
  // read, two bookings hold the one ticket.
  lemma FutureVersionOversells() returns (run: seq<Label>)
    ensures var s := Exec(Locking, run);
            && s.db.events == map[0 := Ticket(1, 0, 4)]
            && ActiveTickets(s.db, 0) == 2
            && !Honest(s.history, 0)
  {
    var r := BackOnSale();
    hide Exec, BookLabels;
    AfterBooking(r, 2, 1, 1);
    run := r + BookLabels(2, 1, 0, 1, 0, 1, 0);
    assert !HonestAction(Exec(Locking, run).history[2]);
    TwoBookings();
  }

  lemma TwoBookings()
    ensures var b0, b1 := NewBooking(0, 0, 1, 0, 0), NewBooking(1, 0, 1, 0, 0);
            Total(map[0 := b0][1 := b1], HeldTickets(0)) == 2
  {
    var b0, b1 := NewBooking(0, 0, 1, 0, 0), NewBooking(1, 0, 1, 0, 0);
    assert map[][0 := b0] == map[0 := b0];
    PutIn(map[], HeldTickets(0), 0, b0);
    PutIn(map[0 := b0], HeldTickets(0), 1, b1);
  }

  // ---------- a cancellation in the gap of an update ----------

  // An honest update can lose a cancelled ticket: it read before the cancellation and
  // writes the old number of remaining tickets after it.
  lemma CancelInGapLosesTickets() returns (run: seq<Label>)
    ensures var s := Exec(Locking, run);
            && s.db.events == map[0 := Ticket(1, 0, 3)]
            && ActiveTickets(s.db, 0) == 0
            && Honest(s.history, 0)
  {
    var r := WaitingForCancel();
    hide Exec;
    UpdateWrites(Locking, r, 1);
    run := r + [WriteEvent(1)];
    var row := CancelRow(NewBooking(0, 0, 1, 0, 0), 0);
    assert map[][0 := row] == map[0 := row];
    PutIn(map[], HeldTickets(0), 0, row);
  }

  lemma SoldAndRead() returns (run: seq<Label>)
    ensures var s := Exec(Locking, run);
            && Tables(s, Ticket(1, 0, 2), map[0 := NewBooking(0, 0, 1, 0, 0)], [Put(1), Book(0, 0, 0, 1, 0)])
            && s.procs == map[0 := Done(Booked(0)), 1 := UpdateRead(0, GUESS, Ticket(1, 0, 2), 2)]
  {
    AfterCreate(1);
    run := [CreateEvent(0, 1, 0, Published)];
    hide Exec, BookLabels;
    AfterBooking(run, 0, 0, 0);
    run := run + BookLabels(0, 0, 0, 1, 0, 0, 0);
    UpdateReads(Locking, run, 1, 0, GUESS);
    run := run + [Arrive(1, UpdateRequest(0, GUESS)), ReadEvent(1)];
  }

  lemma WaitingForCancel() returns (run: seq<Label>)
    ensures var s := Exec(Locking, run);
            && Tables(s, Ticket(1, 1, 2), map[0 := CancelRow(NewBooking(0, 0, 1, 0, 0), 0)],
                      [Put(1), Book(0, 0, 0, 1, 0), Cancel(0, 0)])
            && 1 in s.procs && s.procs[1] == UpdateRead(0, GUESS, Ticket(1, 0, 2), 2)
  {
    var r := SoldAndRead();
    hide Exec, CancelLabels;
    CancelAlone(Locking, r, 2, 0, 0, 0);
    run := r + CancelLabels(2, 0, 0, 0);
  }

  // ---------- a total below what is sold ----------

  // An honest update that lowers the total can leave an active booking that nobody can cancel.
  lemma ShrinkingBlocksCancel() returns (run: seq<Label>)
    ensures var s := Exec(Locking, run);
            && s.db.events == map[0 := Ticket(1, 1, 3)]
            && 0 in s.db.bookings && Active(s.db.bookings[0]) && !CancelAllowed(s.db, 0)
            && Honest(s.history, 0)
  {
    AfterCreate(2);
    run := [CreateEvent(0, 2, 0, Published)];
    hide Exec, BookLabels;
    AfterBooking(run, 0, 0, 0);
    run := run + BookLabels(0, 0, 0, 1, 0, 0, 0);
    UpdateReads(Locking, run, 1, 0, GUESS);
    run := run + [Arrive(1, UpdateRequest(0, GUESS)), ReadEvent(1)];
    UpdateWrites(Locking, run, 1);
    run := run + [WriteEvent(1)];
  }
}
