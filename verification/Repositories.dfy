// The repository layer run by one request at a time: the committed tables, a transaction
// with its own view, and each repository call as the statements it sends.
module Repositories {
  import opened Schema
  import opened History

  datatype Result<+T> = Ok(value: T) | Err(error: Error)

  // The committed tables.
  class Database {
    var events: map<EventId, EventRow>
    var bookings: map<BookingId, BookingRow>
    var audits: seq<AuditRow>

    function Tables(): Db
      reads this
    {
      Db(events, bookings, audits)
    }

    constructor ()
      ensures Tables() == EMPTY_DB
    {
      events, bookings, audits := map[], map[], [];
    }

    method Install(db: Db)
      modifies this
      ensures Tables() == db
    {
      events, bookings, audits := db.events, db.bookings, db.audits;
    }
  }

  // An open transaction: the tables as it sees them, and whether a statement has failed.
  class Tx {
    const database: Database
    var view: Db
    var poisoned: bool

    constructor (database: Database)
      ensures this.database == database && view == database.Tables() && !poisoned
    {
      this.database := database;
      view := database.Tables();
      poisoned := false;
    }

    // A transaction in which a statement failed cannot commit; rollback needs no step here,
    // since nothing is installed before the commit.
    method Commit(reachable: bool) returns (ok: bool)
      modifies database
      ensures ok <==> reachable && !poisoned
      ensures database.Tables() == if ok then view else old(database.Tables())
    {
      ok := reachable && !poisoned;
      if ok {
        database.Install(view);
      }
    }
  }

  // ---------- EventRepo ----------

  method GetEventForUpdate(tx: Tx, e: EventId) returns (r: Result<EventRow>)
    ensures r.Ok? <==> e in tx.view.events && !tx.view.events[e].deleted
    ensures r.Ok? ==> r.value == tx.view.events[e]
    ensures r.Err? ==> r.error == NotFound
  {
    if e in tx.view.events && !tx.view.events[e].deleted {
      r := Ok(tx.view.events[e]);
    } else {
      r := Err(NotFound);
    }
  }

  method UpdateTicketsInTx(tx: Tx, e: EventId, version: int, decrement: int) returns (r: Result<()>)
    requires !tx.poisoned
    modifies tx
    ensures var out := if e in old(tx.view).events
                       then DecrementTickets(old(tx.view).events[e], version, decrement) else NoRow;
            match out
            case Wrote(row) =>
              r.Ok? && !tx.poisoned && tx.view == old(tx.view).(events := old(tx.view).events[e := row])
            case NoRow => r == Err(VersionConflict) && !tx.poisoned && tx.view == old(tx.view)
            case Rejected => r == Err(Error.Database) && tx.poisoned && tx.view == old(tx.view)
  {
    if e !in tx.view.events || tx.view.events[e].version != version || tx.view.events[e].deleted {
      return Err(VersionConflict);
    }
    var row := tx.view.events[e];
    row := row.(remaining := row.remaining - decrement, version := row.version + 1);
    if !EventChecks(row) {
      tx.poisoned := true;
      return Err(Error.Database);
    }
    tx.view := tx.view.(events := tx.view.events[e := row]);
    r := Ok(());
  }

  // Update: one autocommitted statement that writes every column, `remaining` included.
  // What cannot be encoded is refused first; a text that is too long may be found out
  // `early`, when the statement is planned, or only once the row is there.
  method UpdateEvent(database: Database, e: EventId, d: Details, row: EventRow, early: bool)
      returns (r: Result<EventRow>)
    modifies database
    ensures var out := if !TextsLegal(d) || (early && !TextsFit(d)) then Rejected
                       else if e in old(database.events) then RewriteEvent(old(database.events)[e], row)
                       else if Encodable(row) then NoRow else Rejected;
            && (r.Ok? <==> out.Wrote? && TextsFit(d) && DatesCheck(d))
            && (r.Ok? ==> r.value == out.row
                          && database.Tables() == old(database.Tables()).(events := old(database.events)[e := out.row]))
            && (r.Err? ==> r.error == (if out.NoRow? then VersionConflict else Error.Database)
                           && database.Tables() == old(database.Tables()))
  {
    if !TextsLegal(d) || (early && !TextsFit(d)) || !Encodable(row) {
      return Err(Error.Database);
    }
    if e !in database.events || database.events[e].version != row.version || database.events[e].deleted {
      return Err(VersionConflict);
    }
    var written := row.(version := database.events[e].version + 1, deleted := false);
    if !EventChecks(written) || !TextsFit(d) || !DatesCheck(d) {
      return Err(Error.Database);
    }
    database.events := database.events[e := written];
    r := Ok(written);
  }

  method SoftDelete(database: Database, e: EventId) returns (r: Result<()>)
    modifies database
    ensures r.Ok? <==> Enabled(old(database.Tables()), Delete(e))
    ensures r.Err? ==> r.error == NotFound
    ensures database.Tables() == Apply(old(database.Tables()), Delete(e))
  {
    if e !in database.events || database.events[e].deleted {
      return Err(NotFound);
    }
    database.events := database.events[e := database.events[e].(deleted := true)];
    r := Ok(());
  }

  // ---------- BookingRepo ----------

  // INSERT INTO bookings with a generated id; a unique violation poisons the transaction.
  method CreateBookingInTx(tx: Tx, id: BookingId, booking: BookingRow) returns (r: Result<BookingRow>)
    requires !tx.poisoned && id !in tx.view.bookings && Active(booking)
    modifies tx
    ensures r.Ok? <==> !HasActive(old(tx.view).bookings, booking.user, booking.event) && BookingChecks(booking)
    ensures BookingChecks(booking) <==> 0 < booking.count <= 2147483647 && 0 <= booking.price <= 9223372036854775807
    ensures r.Ok? ==> r.value == booking && !tx.poisoned
                      && tx.view == old(tx.view).(bookings := old(tx.view).bookings[id := booking])
    ensures r.Err? ==> tx.poisoned && tx.view == old(tx.view)
    ensures r.Err? ==> r.error == if HasActive(old(tx.view).bookings, booking.user, booking.event)
                                  then AlreadyActive else Error.Database
  {
    if HasActive(tx.view.bookings, booking.user, booking.event) {
      tx.poisoned := true;
      return Err(AlreadyActive);
    }
    if !BookingChecks(booking) {
      tx.poisoned := true;
      return Err(Error.Database);
    }
    tx.view := tx.view.(bookings := tx.view.bookings[id := booking]);
    r := Ok(booking);
  }

  // Lock the booking, mark it cancelled, give its tickets back, commit.
  method CancelInDatabase(database: Database, b: BookingId, u: UserId, now: int, reachable: bool)
      returns (r: Result<BookingRow>)
    requires BookingsOk(database.Tables())
    modifies database
    ensures var db := old(database.Tables());
            && (r.Ok? <==> reachable && b in db.bookings && db.bookings[b].user == u && CancelAllowed(db, b))
            && (r.Ok? ==> database.Tables() == Apply(db, Cancel(b, now)) && r.value == CancelRow(db.bookings[b], now))
            && (r.Err? ==> database.Tables() == db)
            && (r == Err(NotFound) <==> b !in db.bookings || db.bookings[b].user != u)
            && (r == Err(CannotCancel) <==> b in db.bookings && db.bookings[b].user == u && !Active(db.bookings[b]))
            && (r.Err? ==> r.error in {NotFound, CannotCancel, Error.Database})
  {
    var tx := new Tx(database);
    if b !in tx.view.bookings || tx.view.bookings[b].user != u {
      return Err(NotFound);
    }
    var row := tx.view.bookings[b];
    if row.status != Pending && row.status != Confirmed {
      return Err(CannotCancel);
    }
    var updated := CancelRow(row, now);
    tx.view := tx.view.(bookings := tx.view.bookings[b := updated]);
    assert BookingOk(database.Tables(), row);
    var event := tx.view.events[row.event];
    event := event.(remaining := event.remaining + row.count);
    if !EventChecks(event) {
      tx.poisoned := true;
      return Err(Error.Database);
    }
    tx.view := tx.view.(events := tx.view.events[row.event := event]);
    var ok := tx.Commit(reachable);
    if !ok {
      return Err(Error.Database);
    }
    r := Ok(updated);
  }

  // ---------- AuditRepo ----------

  // The same insert inside a transaction, or autocommitted when there is none.
  method LogInTx(tx: Tx, row: AuditRow, accepted: bool)
    requires !tx.poisoned
    modifies tx
    ensures tx.poisoned <==> !accepted
    ensures tx.view == if accepted then old(tx.view).(audits := old(tx.view).audits + [row]) else old(tx.view)
  {
    if accepted {
      tx.view := tx.view.(audits := tx.view.audits + [row]);
    } else {
      tx.poisoned := true;
    }
  }

  method Log(database: Database, row: AuditRow, accepted: bool)
    modifies database
    ensures database.Tables() == if accepted then old(database.Tables()).(audits := old(database.audits) + [row])
                                 else old(database.Tables())
  {
    if accepted {
      database.audits := database.audits + [row];
    }
  }

  // ---------- creating events ----------

  // The INSERT INTO events of this row succeeds.
  predicate Insertable(d: Details, row: EventRow) {
    EventChecks(row) && TextsLegal(d) && TextsFit(d) && DatesCheck(d)
  }

  // INSERT INTO events with a generated id, autocommitted.
  method CreateEventRow(database: Database, e: EventId, d: Details, row: EventRow) returns (r: Result<EventRow>)
    requires e !in database.events && !row.deleted
    modifies database
    ensures r.Ok? <==> Insertable(d, row.(version := 1))
    ensures r.Ok? ==> r.value == row.(version := 1)
                      && database.Tables() == old(database.Tables()).(events := old(database.events)[e := r.value])
    ensures r.Err? ==> r.error == Error.Database && database.Tables() == old(database.Tables())
  {
    var created := row.(version := 1);
    if !Insertable(d, created) {
      return Err(Error.Database);
    }
    database.events := database.events[e := created];
    r := Ok(created);
  }
}
