// The atomic specification: the tables change only by whole committed actions,
// and a history is a sequence of actions each of which was enabled when it happened.
module History {
  import opened Schema

  // The fields of an update request; `version` is the one the client sent.
  datatype Edit = Edit(total: int, price: int, status: EventStatus, version: int)

  datatype Action =
    | Create(e: EventId, total: int, price: int, status: EventStatus)
    | Book(b: BookingId, u: UserId, e: EventId, n: int, now: int)
    | Cancel(b: BookingId, now: int)
    | Update(e: EventId, edit: Edit, read: EventRow, readAt: nat)
    | Delete(e: EventId)
    | LogCancel(b: BookingId, before: BookingRow, after: BookingRow)

  function NewEvent(total: int, price: int, status: EventStatus): EventRow {
    EventRow(total, total, price, status, 1, false)
  }

  // The booking that a committed request must leave behind: the price is the true product.
  function NewBooking(u: UserId, e: EventId, n: int, price: int, now: int): BookingRow {
    BookingRow(u, e, n, n * price, Confirmed, 1, now, now, None)
  }

  // The row an update writes: the request's fields over the row it read earlier,
  // `remaining` included.
  function Edited(read: EventRow, edit: Edit): EventRow {
    EventRow(edit.total, read.remaining, edit.price, edit.status, edit.version, read.deleted)
  }

  predicate BookAllowed(db: Db, b: BookingId, u: UserId, e: EventId, n: int) {
    && b !in db.bookings
    && e in db.events
    && db.events[e].status == Published
    && !db.events[e].deleted
    && 0 < n <= db.events[e].remaining
    && db.events[e].version < MAX_INT
    && !HasActive(db.bookings, u, e)
  }

  predicate CancelAllowed(db: Db, b: BookingId) {
    && b in db.bookings
    && Active(db.bookings[b])
    && db.bookings[b].event in db.events
    && RestoreTickets(db.events[db.bookings[b].event], db.bookings[b].count).Wrote?
  }

  predicate Enabled(db: Db, a: Action) {
    match a
    case Create(e, total, price, status) =>
      e !in db.events && EventChecks(NewEvent(total, price, status))
    case Book(b, u, e, n, now) => BookAllowed(db, b, u, e, n)
    case Cancel(b, now) => CancelAllowed(db, b)
    case Update(e, edit, read, readAt) =>
      e in db.events && RewriteEvent(db.events[e], Edited(read, edit)).Wrote?
    case Delete(e) => e in db.events && !db.events[e].deleted
    case LogCancel(b, before, after) =>
      // A cancellation is only ever logged with the two rows it really moved between.
      && b in db.bookings
      && db.bookings[b] == after
      && before == AsInserted(after)
      && after == CancelRow(before, after.updatedAt)
  }

  // The effect of an action; one that is not enabled has none.
  function Apply(db: Db, a: Action): Db {
    if !Enabled(db, a) then db else
    match a
    case Create(e, total, price, status) =>
      db.(events := db.events[e := NewEvent(total, price, status)])
    case Book(b, u, e, n, now) =>
      var row := db.events[e];
      var booking := NewBooking(u, e, n, row.price, now);
      Db(db.events[e := row.(remaining := row.remaining - n, version := row.version + 1)],
         db.bookings[b := booking],
         db.audits + [BookingCreated(b, booking)])
    case Cancel(b, now) =>
      var booking := db.bookings[b];
      var row := db.events[booking.event];
      db.(events := db.events[booking.event := row.(remaining := row.remaining + booking.count)],
          bookings := db.bookings[b := CancelRow(booking, now)])
    case Update(e, edit, read, readAt) =>
      db.(events := db.events[e := RewriteEvent(db.events[e], Edited(read, edit)).row])
    case Delete(e) =>
      db.(events := db.events[e := db.events[e].(deleted := true)])
    case LogCancel(b, before, after) =>
      db.(audits := db.audits + [BookingCancelled(b, before, after)])
  }

  // The atomic actions, spelled out on the rows: when each is allowed,
  lemma WhenEnabled(db: Db, a: Action)
    ensures a.Create? ==> (Enabled(db, a) <==>
              a.e !in db.events && 0 < a.total <= 2147483647 && 0 <= a.price <= 2147483647)
    ensures a.Book? ==> (Enabled(db, a) <==>
              && a.b !in db.bookings && a.e in db.events
              && var r := db.events[a.e];
              && r.status == Published && !r.deleted && 0 < a.n <= r.remaining && r.version < 2147483647
              && !exists c :: c in db.bookings && db.bookings[c].status in {Pending, Confirmed}
                              && db.bookings[c].user == a.u && db.bookings[c].event == a.e)
    ensures a.Cancel? ==> (Enabled(db, a) <==>
              && a.b in db.bookings
              && var c := db.bookings[a.b];
              && c.status in {Pending, Confirmed} && c.event in db.events
              && var r := db.events[c.event];
              && 0 <= r.remaining + c.count <= r.total && 0 < r.total <= 2147483647
              && 0 <= r.price <= 2147483647 && r.version <= 2147483647)
    ensures a.Update? ==> (Enabled(db, a) <==>
              && a.e in db.events && !db.events[a.e].deleted && db.events[a.e].version == a.edit.version
              && 0 < a.edit.total <= 2147483647 && 0 <= a.read.remaining <= a.edit.total
              && 0 <= a.edit.price <= 2147483647 && -2147483648 <= a.edit.version < 2147483647)
    ensures a.Delete? ==> (Enabled(db, a) <==> a.e in db.events && !db.events[a.e].deleted)
    ensures a.LogCancel? ==> (Enabled(db, a) <==>
              && a.b in db.bookings && db.bookings[a.b] == a.after
              && var c := a.after;
              && c == BookingRow(c.user, c.event, c.count, c.price, Cancelled, 2, c.bookedAt, c.updatedAt,
                                 Some(c.updatedAt))
              && a.before == BookingRow(c.user, c.event, c.count, c.price, Confirmed, 1, c.bookedAt, c.bookedAt, None))
  {
  }

  // and what each leaves behind.
  lemma WhatApplies(db: Db, a: Action)
    requires Enabled(db, a)
    ensures a.Create? ==>
              Apply(db, a) == Db(db.events[a.e := EventRow(a.total, a.total, a.price, a.status, 1, false)],
                                 db.bookings, db.audits)
    ensures a.Book? ==>
              && a.e in db.events
              && var r := db.events[a.e];
                 var row := BookingRow(a.u, a.e, a.n, a.n * r.price, Confirmed, 1, a.now, a.now, None);
                 Apply(db, a) == Db(
                   db.events[a.e := EventRow(r.total, r.remaining - a.n, r.price, r.status, r.version + 1, false)],
                   db.bookings[a.b := row], db.audits + [BookingCreated(a.b, row)])
    ensures a.Cancel? ==>
              && a.b in db.bookings && db.bookings[a.b].event in db.events
              && var c := db.bookings[a.b];
                 var r := db.events[c.event];
                 Apply(db, a) == Db(
                   db.events[c.event :=
                     EventRow(r.total, r.remaining + c.count, r.price, r.status, r.version, r.deleted)],
                   db.bookings[a.b := BookingRow(c.user, c.event, c.count, c.price, Cancelled, c.version + 1,
                                                 c.bookedAt, a.now, Some(a.now))],
                   db.audits)
    ensures a.Update? ==>
              Apply(db, a) == Db(
                db.events[a.e := EventRow(a.edit.total, a.read.remaining, a.edit.price, a.edit.status,
                                          a.edit.version + 1, false)],
                db.bookings, db.audits)
    ensures a.Delete? ==>
              && a.e in db.events
              && var r := db.events[a.e];
                 Apply(db, a) == Db(
                   db.events[a.e := EventRow(r.total, r.remaining, r.price, r.status, r.version, true)],
                   db.bookings, db.audits)
    ensures a.LogCancel? ==>
              Apply(db, a) == Db(db.events, db.bookings, db.audits + [BookingCancelled(a.b, a.before, a.after)])
  {
    hide HasActive;
  }

  function Replay(h: seq<Action>): Db {
    if h == [] then EMPTY_DB else Apply(Replay(h[..|h| - 1]), h[|h| - 1])
  }

  // The row an update carries is the committed row at some earlier point, unlocked since.
  predicate ReadEarlier(h: seq<Action>, a: Action)
    requires a.Update?
  {
    && a.readAt <= |h|
    && a.e in Replay(h[..a.readAt]).events
    && Replay(h[..a.readAt]).events[a.e] == a.read
    && !a.read.deleted
  }

  predicate CanFollow(h: seq<Action>, a: Action) {
    Enabled(Replay(h), a) && (a.Update? ==> ReadEarlier(h, a))
  }

  predicate Valid(h: seq<Action>) {
    h == [] || (Valid(h[..|h| - 1]) && CanFollow(h[..|h| - 1], h[|h| - 1]))
  }

  lemma Extend(h: seq<Action>, a: Action)
    ensures Replay(h + [a]) == Apply(Replay(h), a)
    ensures Valid(h + [a]) <==> Valid(h) && CanFollow(h, a)
  {
    assert (h + [a])[..|h|] == h;
  }

  lemma PrefixValid(h: seq<Action>, i: nat)
    requires Valid(h) && i <= |h|
    ensures Valid(h[..i])
  {
    if i < |h| {
      PrefixValid(h[..|h| - 1], i);
      assert h[..|h| - 1][..i] == h[..i];
    } else {
      assert h[..i] == h;
    }
  }

  // ---------- what every reachable table state satisfies ----------

  predicate EventsOk(db: Db) {
    forall e :: e in db.events ==> EventChecks(db.events[e]) && 1 <= db.events[e].version
  }

  predicate BookingOk(db: Db, r: BookingRow) {
    && BookingChecks(r)
    && r.event in db.events
    && (r.status == Confirmed || r.status == Cancelled)
    && (r.status == Confirmed ==> r == AsInserted(r))
    && (r.status == Cancelled ==> r == CancelRow(AsInserted(r), r.updatedAt))
  }

  predicate BookingsOk(db: Db) {
    forall b :: b in db.bookings ==> BookingOk(db, db.bookings[b])
  }

  predicate SameKey(r: BookingRow, r': BookingRow) {
    r.user == r'.user && r.event == r'.event
  }

  predicate OneActive(bookings: map<BookingId, BookingRow>) {
    forall b, b' | b in bookings && b' in bookings && Active(bookings[b]) && Active(bookings[b'])
                     && SameKey(bookings[b], bookings[b']) :: b == b'
  }

  function CreatedRows(audits: seq<AuditRow>, b: BookingId): nat {
    if audits == [] then 0
    else
      var last := audits[|audits| - 1];
      CreatedRows(audits[..|audits| - 1], b) + if last.BookingCreated? && last.b == b then 1 else 0
  }

  // Booking rows and `create` audit rows correspond one to one, and each audit row
  // holds the booking as it was inserted.
  ghost predicate Audited(db: Db) {
    && (forall b :: CreatedRows(db.audits, b) == if b in db.bookings then 1 else 0)
    && (forall i :: 0 <= i < |db.audits| && db.audits[i].BookingCreated? ==>
          && db.audits[i].b in db.bookings
          && db.audits[i].row == AsInserted(db.bookings[db.audits[i].b]))
  }

  predicate CancelLogsExact(db: Db) {
    forall i :: 0 <= i < |db.audits| && db.audits[i].BookingCancelled? ==>
      var l := db.audits[i];
      && l.b in db.bookings
      && db.bookings[l.b] == l.after
      && l.before == AsInserted(l.after)
      && l.after == CancelRow(l.before, l.after.updatedAt)
  }

  ghost predicate DbOk(db: Db) {
    EventsOk(db) && BookingsOk(db) && OneActive(db.bookings) && Audited(db) && CancelLogsExact(db)
  }

  lemma EventsStay(db: Db, a: Action)
    requires EventsOk(db)
    ensures EventsOk(Apply(db, a)) && db.events.Keys <= Apply(db, a).events.Keys
  {
  }

  lemma BookingsStay(db: Db, a: Action)
    requires EventsOk(db) && BookingsOk(db)
    ensures BookingsOk(Apply(db, a)) && db.bookings.Keys <= Apply(db, a).bookings.Keys
    ensures forall b :: b in db.bookings ==> AsInserted(Apply(db, a).bookings[b]) == AsInserted(db.bookings[b])
    ensures forall b :: b in db.bookings && !Active(db.bookings[b]) ==> Apply(db, a).bookings[b] == db.bookings[b]
  {
    var db' := Apply(db, a);
    EventsStay(db, a);
    if a.Book? && Enabled(db, a) {
      PriceFitsBigint(a.n, db.events[a.e].price);
    }
    forall b | b in db'.bookings
      ensures BookingOk(db', db'.bookings[b])
    {
      if b in db.bookings {
        assert BookingOk(db, db.bookings[b]);
      }
    }
  }

  lemma OneActiveStays(db: Db, a: Action)
    requires OneActive(db.bookings)
    ensures OneActive(Apply(db, a).bookings)
  {
  }

  lemma AuditedStays(db: Db, a: Action)
    requires EventsOk(db) && BookingsOk(db) && Audited(db)
    ensures Audited(Apply(db, a))
  {
    var db' := Apply(db, a);
    BookingsStay(db, a);
    if |db'.audits| > |db.audits| {
      assert db'.audits[..|db'.audits| - 1] == db.audits;
    }
    hide BookingsOk, EventsOk;
  }

  lemma CancelLogsStay(db: Db, a: Action)
    requires EventsOk(db) && BookingsOk(db) && CancelLogsExact(db)
    ensures CancelLogsExact(Apply(db, a))
  {
    BookingsStay(db, a);
    hide EventsOk;
    if a.LogCancel? && Enabled(db, a) {
      assert BookingOk(db, db.bookings[a.b]);
    }
  }

  lemma AuditsStay(db: Db, a: Action)
    requires EventsOk(db) && BookingsOk(db) && Audited(db) && CancelLogsExact(db)
    ensures Audited(Apply(db, a)) && CancelLogsExact(Apply(db, a))
  {
    AuditedStays(db, a);
    CancelLogsStay(db, a);
  }

  lemma ApplyOk(db: Db, a: Action)
    requires DbOk(db)
    ensures DbOk(Apply(db, a))
  {
    EventsStay(db, a);
    BookingsStay(db, a);
    OneActiveStays(db, a);
    AuditsStay(db, a);
  }

  // Whatever is committed, and in whatever order, the tables stay consistent.
  lemma {:induction false} ReplayOk(h: seq<Action>)
    ensures DbOk(Replay(h))
  {
    if h != [] {
      ReplayOk(h[..|h| - 1]);
      ApplyOk(Replay(h[..|h| - 1]), h[|h| - 1]);
    }
  }
}
