// The PostgreSQL tables: column widths, CHECK constraints, and what each SQL
// statement of the repositories does to one row.
module Schema {
  datatype Option<+T> = None | Some(value: T)

  type UserId = nat
  type EventId = nat
  type BookingId = nat
  type Token = nat

  const MAX_INT := 0x7fff_ffff
  const MAX_BIGINT := 0x7fff_ffff_ffff_ffff

  datatype EventStatus = Draft | Published | Withdrawn | SoldOut

  datatype BookingStatus = Pending | Confirmed | Cancelled | Refunded

  datatype EventRow = EventRow(
    total: int, remaining: int, price: int, status: EventStatus, version: int, deleted: bool)

  // The columns of an event that no other table depends on. Times are nanoseconds.
  datatype Details = Details(name: string, description: string, location: string, startsAt: int, endsAt: int)

  datatype BookingRow = BookingRow(
    user: UserId, event: EventId, count: int, price: int, status: BookingStatus, version: int,
    bookedAt: int, updatedAt: int, cancelledAt: Option<int>)

  datatype AuditRow =
    | BookingCreated(b: BookingId, row: BookingRow)
    | BookingCancelled(b: BookingId, before: BookingRow, after: BookingRow)

  datatype Db = Db(
    events: map<EventId, EventRow>, bookings: map<BookingId, BookingRow>, audits: seq<AuditRow>)

  datatype Error =
    | Invalid | LockNotAcquired | NotFound | NotAvailable | Insufficient | AlreadyActive
    | VersionConflict | NotOwner | CannotCancel | Database

  // One entry of a batch of bookings.
  datatype BatchEntry = BatchEntry(e: EventId, n: int)

  const EMPTY_DB := Db(map[], map[], [])

  // What one SQL statement did: matched nothing, was refused, or wrote this row.
  datatype Outcome<+T> = NoRow | Rejected | Wrote(row: T)

  // The CHECK constraints of the events table together with the INT column widths.
  predicate EventChecks(r: EventRow) {
    && 0 < r.total <= MAX_INT
    && 0 <= r.remaining <= r.total
    && 0 <= r.price <= MAX_INT
    && r.version <= MAX_INT
  }

  // TIMESTAMPTZ keeps whole microseconds (PostgreSQL 16, section 8.5).
  function Stored(nanos: int): (micros: int)
    ensures 1000 * micros <= nanos < 1000 * micros + 1000
  {
    nanos / 1000
  }

  predicate DatesCheck(d: Details) {
    Stored(d.startsAt) < Stored(d.endsAt)
  }

  // VARCHAR(255) counts characters.
  predicate TextsFit(d: Details) {
    |d.name| <= 255 && |d.location| <= 255
  }

  // PostgreSQL text cannot hold the character NUL.
  predicate TextsLegal(d: Details) {
    '\0' !in d.name && '\0' !in d.description && '\0' !in d.location
  }

  predicate BookingChecks(r: BookingRow) {
    && 0 < r.count <= MAX_INT
    && 0 <= r.price <= MAX_BIGINT
  }

  // The statuses that the partial unique index covers.
  predicate Active(r: BookingRow) {
    r.status == Pending || r.status == Confirmed
  }

  predicate HasActive(bookings: map<BookingId, BookingRow>, u: UserId, e: EventId) {
    exists b :: b in bookings && Active(bookings[b]) && bookings[b].user == u && bookings[b].event == e
  }

  // int64 arithmetic of Go: two's complement wrap-around.
  function Wrap64(x: int): (r: int)
    ensures -0x8000_0000_0000_0000 <= r < 0x8000_0000_0000_0000
    ensures (r - x) % 0x1_0000_0000_0000_0000 == 0
  {
    (x + 0x8000_0000_0000_0000) % 0x1_0000_0000_0000_0000 - 0x8000_0000_0000_0000
  }

  // The booking row that BookTicket hands to the INSERT; the price product is an int64.
  function InsertedBooking(u: UserId, e: EventId, n: int, price: int, now: int): BookingRow {
    BookingRow(u, e, n, Wrap64(n * price), Confirmed, 1, now, now, None)
  }

  function Write(r: EventRow): Outcome<EventRow> {
    if EventChecks(r) then Wrote(r) else Rejected
  }

  // UPDATE events SET remaining = remaining - n, version = version + 1
  // WHERE version = v AND deleted_at IS NULL
  function DecrementTickets(r: EventRow, v: int, n: int): Outcome<EventRow> {
    if r.version != v || r.deleted then NoRow
    else Write(r.(remaining := r.remaining - n, version := r.version + 1))
  }

  // UPDATE events SET remaining = remaining + n
  function RestoreTickets(r: EventRow, n: int): Outcome<EventRow> {
    Write(r.(remaining := r.remaining + n))
  }

  predicate Int4(x: int) {
    -MAX_INT - 1 <= x <= MAX_INT
  }

  // The numbers of a row that can be sent as INT.
  predicate Encodable(r: EventRow) {
    Int4(r.total) && Int4(r.remaining) && Int4(r.price) && Int4(r.version)
  }

  // UPDATE events SET <every column of `with`>, version = version + 1
  // WHERE version = <that of `with`> AND deleted_at IS NULL. Numbers that are no INT are
  // refused before any row is looked for.
  function RewriteEvent(r: EventRow, with: EventRow): Outcome<EventRow> {
    if !Encodable(with) then Rejected
    else if r.version != with.version || r.deleted then NoRow
    else Write(with.(version := r.version + 1, deleted := false))
  }

  // UPDATE bookings SET status = 'cancelled', cancelled_at, updated_at, version = version + 1
  function CancelRow(r: BookingRow, now: int): BookingRow {
    r.(status := Cancelled, cancelledAt := Some(now), updatedAt := now, version := r.version + 1)
  }

  // The row as the INSERT left it, whatever happened to it since.
  function AsInserted(r: BookingRow): BookingRow {
    r.(status := Confirmed, version := 1, updatedAt := r.bookedAt, cancelledAt := None)
  }

  // The availability check before the multiplication keeps the int64 product exact.
  lemma PriceFitsBigint(n: int, price: int)
    requires 0 < n <= MAX_INT && 0 <= price <= MAX_INT
    ensures 0 <= n * price <= MAX_INT * MAX_INT < MAX_BIGINT
    ensures Wrap64(n * price) == n * price
  {
    ProductBound(n, price, MAX_INT);
  }

  lemma ProductBound(a: int, b: int, m: int)
    requires 0 <= a <= m && 0 <= b <= m
    ensures 0 <= a * b <= m * m
  {
    assert a * b <= a * m <= m * m by {
      assert a * (m - b) >= 0;
      assert (m - a) * m >= 0;
    }
  }

  // Ids, tokens and requests never run out.
  lemma {:induction false} FreshNat(s: set<nat>) returns (n: nat)
    ensures forall x :: x in s ==> x < n
  {
    if s == {} {
      n := 0;
    } else {
      var x :| x in s;
      n := FreshNat(s - {x});
      n := if n <= x then x + 1 else n;
      assert s == s - {x} + {x};
    }
  }
}
