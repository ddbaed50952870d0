// The service layer run by one request at a time, against the atomic specification.
module Services {
  import opened Schema
  import opened History
  import opened Repositories
  import opened AuditDiff

  // The lock keys of Redis; a key maps to the token that holds it.
  class RedisLocks {
    var keys: map<EventId, Token>

    constructor ()
      ensures keys == map[]
    {
      keys := map[];
    }

    // SET NX: true iff the key was free.
    method AcquireLock(e: EventId, tok: Token) returns (ok: bool)
      modifies this
      ensures ok <==> e !in old(keys)
      ensures keys == if ok then old(keys)[e := tok] else old(keys)
    {
      ok := e !in keys;
      if ok {
        keys := keys[e := tok];
      }
    }

    // Delete the key only if it still holds this token.
    method ReleaseLock(e: EventId, tok: Token)
      modifies this
      ensures keys == if e in old(keys) && old(keys)[e] == tok then old(keys) - {e} else old(keys)
    {
      if e in keys && keys[e] == tok {
        keys := keys - {e};
      }
    }
  }

  // What a booking gets from outside: the generated token and id, the transaction time, and
  // whether Redis, BEGIN, the audit insert and COMMIT go through.
  datatype Outside = Outside(
    tok: Token, id: BookingId, now: int, redisUp: bool, beginOk: bool, auditOk: bool, commitOk: bool)

  // The request gets as far as reading the event row.
  predicate ReachesEvent(keys: map<EventId, Token>, e: EventId, n: int, o: Outside) {
    0 < n && o.redisUp && e !in keys && o.beginOk
  }

  predicate CanSee(db: Db, e: EventId) {
    e in db.events && !db.events[e].deleted
  }

  // What an undisturbed booking request returns: success in exactly the allowed case with
  // everything outside going through, each business error in exactly its case, and the
  // version conflict never.
  predicate RightResult(db: Db, keys: map<EventId, Token>, u: UserId, e: EventId, n: int, o: Outside,
                        r: Result<BookingRow>) {
    var reaches := ReachesEvent(keys, e, n, o);
    && (r.Ok? <==> reaches && BookAllowed(db, o.id, u, e, n) && o.auditOk && o.commitOk)
    && (r.Ok? ==> r.value == NewBooking(u, e, n, db.events[e].price, o.now))
    && (r == Err(Invalid) <==> n <= 0)
    && (r == Err(LockNotAcquired) <==> 0 < n && o.redisUp && e in keys)
    && (r == Err(NotFound) <==> reaches && !CanSee(db, e))
    && (r == Err(NotAvailable) <==> reaches && CanSee(db, e) && db.events[e].status != Published)
    && (r == Err(Insufficient) <==>
          reaches && CanSee(db, e) && db.events[e].status == Published && db.events[e].remaining < n)
    && (r == Err(AlreadyActive) <==>
          && reaches && CanSee(db, e) && db.events[e].status == Published && n <= db.events[e].remaining
          && HasActive(db.bookings, u, e))
    && r != Err(VersionConflict)
  }

  class BookingService {
    const database: Database
    const redis: RedisLocks

    constructor (database: Database, redis: RedisLocks)
      ensures this.database == database && this.redis == redis
    {
      this.database := database;
      this.redis := redis;
    }

    // Either the booking commits exactly as the atomic action does, or no table changes;
    // the Redis keys are as before.
    method BookTicket(u: UserId, e: EventId, n: int, o: Outside) returns (r: Result<BookingRow>)
      requires DbOk(database.Tables()) && o.id !in database.bookings
      modifies database, redis
      ensures DbOk(database.Tables()) && redis.keys == old(redis.keys)
      ensures RightResult(old(database.Tables()), old(redis.keys), u, e, n, o, r)
      ensures database.Tables()
           == if r.Ok? then Apply(old(database.Tables()), Book(o.id, u, e, n, o.now)) else old(database.Tables())
    {
      if n <= 0 {
        return Err(Invalid);
      }
      if !o.redisUp {
        return Err(Error.Database);
      }
      var locked := redis.AcquireLock(e, o.tok);
      if !locked {
        return Err(LockNotAcquired);
      }
      r := BookLocked(u, e, n, o);
      redis.ReleaseLock(e, o.tok);
      assert redis.keys == old(redis.keys);
    }

    // The part of BookTicket that runs while the lock is held.
    method BookLocked(u: UserId, e: EventId, n: int, o: Outside) returns (r: Result<BookingRow>)
      requires 0 < n && DbOk(database.Tables()) && o.id !in database.bookings
      modifies database
      ensures DbOk(database.Tables())
      ensures var db := old(database.Tables());
              && (r.Ok? <==> o.beginOk && BookAllowed(db, o.id, u, e, n) && o.auditOk && o.commitOk)
              && (r.Ok? ==> database.Tables() == Apply(db, Book(o.id, u, e, n, o.now))
                            && r.value == NewBooking(u, e, n, db.events[e].price, o.now))
              && (r.Err? ==> database.Tables() == db)
              && (r == Err(NotFound) <==> o.beginOk && !CanSee(db, e))
              && (r == Err(NotAvailable) <==> o.beginOk && CanSee(db, e) && db.events[e].status != Published)
              && (r == Err(Insufficient) <==> o.beginOk && CanSee(db, e) && db.events[e].status == Published
                                              && db.events[e].remaining < n)
              && (r == Err(AlreadyActive) <==> o.beginOk && CanSee(db, e) && db.events[e].status == Published
                                               && n <= db.events[e].remaining && HasActive(db.bookings, u, e))
              && r != Err(VersionConflict) && r != Err(Invalid) && r != Err(LockNotAcquired)
    {
      assert e in database.events ==> EventChecks(database.events[e]);
      hide DbOk;
      if !o.beginOk {
        return Err(Error.Database);
      }
      var tx := new Tx(database);
      var event := CheckEvent(tx, e, n);
      if event.Err? {
        return Err(event.error);
      }
      r := WriteBooking(tx, u, e, n, event.value, o);
      ApplyOk(old(database.Tables()), Book(o.id, u, e, n, o.now));
    }

    // Step 3 and 4: read the event under its row lock and check it.
    method CheckEvent(tx: Tx, e: EventId, n: int) returns (r: Result<EventRow>)
      ensures r.Ok? <==> CanSee(tx.view, e) && tx.view.events[e].status == Published && n <= tx.view.events[e].remaining
      ensures r.Ok? ==> r.value == tx.view.events[e]
      ensures r.Err? ==> r.error == if !CanSee(tx.view, e) then NotFound
                                    else if tx.view.events[e].status != Published then NotAvailable else Insufficient
    {
      r := GetEventForUpdate(tx, e);
      if r.Err? {
        return;
      }
      if r.value.status != Published {
        return Err(NotAvailable);
      }
      if r.value.remaining < n {
        return Err(Insufficient);
      }
    }

    // Step 5 to 8: insert, decrement, log, commit.
    method WriteBooking(tx: Tx, u: UserId, e: EventId, n: int, event: EventRow, o: Outside)
        returns (r: Result<BookingRow>)
      requires tx.database == database && tx.view == database.Tables() && !tx.poisoned && o.id !in database.bookings
      requires CanSee(tx.view, e) && event == tx.view.events[e] && EventChecks(event)
      requires event.status == Published && 0 < n <= event.remaining
      modifies tx, database
      ensures var db := old(database.Tables());
              && (r.Ok? <==> BookAllowed(db, o.id, u, e, n) && o.auditOk && o.commitOk)
              && (r.Ok? ==> database.Tables() == Apply(db, Book(o.id, u, e, n, o.now))
                            && r.value == NewBooking(u, e, n, event.price, o.now))
              && (r.Err? ==> database.Tables() == db
                             && r.error == if HasActive(db.bookings, u, e) then AlreadyActive else Error.Database)
    {
      PriceFitsBigint(n, event.price);
      r := CreateBookingInTx(tx, o.id, InsertedBooking(u, e, n, event.price, o.now));
      if r.Err? {
        return;
      }
      var counted := UpdateTicketsInTx(tx, e, event.version, n);
      if counted.Err? {
        return Err(counted.error);
      }
      LogInTx(tx, BookingCreated(o.id, r.value), o.auditOk);
      var ok := tx.Commit(o.commitOk);
      if !ok {
        return Err(Error.Database);
      }
    }

    // The owner's active booking is cancelled and its tickets given back, or nothing
    // changes; the diff logged leads from the old snapshot to the new one.
    method CancelBooking(b: BookingId, u: UserId, now: int, commitOk: bool, auditOk: bool)
        returns (r: Result<BookingRow>, diff: Diff)
      requires DbOk(database.Tables())
      modifies database
      ensures DbOk(database.Tables())
      ensures var db := old(database.Tables());
              && (r.Ok? <==> b in db.bookings && db.bookings[b].user == u && CancelAllowed(db, b) && commitOk)
              && (r.Err? ==> database.Tables() == db)
              && (r == Err(NotFound) <==> b !in db.bookings)
              && (r == Err(NotOwner) <==> b in db.bookings && db.bookings[b].user != u)
              && (r == Err(CannotCancel) <==> b in db.bookings && db.bookings[b].user == u && !Active(db.bookings[b]))
              && (r.Ok? ==>
                    && r.value == CancelRow(db.bookings[b], now)
                    && SameRendering(Forward(ToMap(b, db.bookings[b]), diff), ToMap(b, r.value))
                    && var done := Apply(db, Cancel(b, now));
                       database.Tables()
                         == if auditOk then Apply(done, LogCancel(b, db.bookings[b], r.value)) else done)
    {
      diff := map[];
      if b !in database.bookings {
        return Err(NotFound), diff;
      }
      var before := database.bookings[b];
      if before.user != u {
        return Err(NotOwner), diff;
      }
      ghost var db := database.Tables();
      r := CancelInDatabase(database, b, u, now, commitOk);
      if r.Err? {
        return;
      }
      diff := ComputeDiff(ToMap(b, before), ToMap(b, r.value));
      CancelThenLog(db, b, now);
      Log(database, BookingCancelled(b, before, r.value), auditOk);
    }

    // Entries are booked one after another until one fails. What was returned is exactly
    // what was committed, in order; the failing entry and those after it changed nothing.
    method BatchBook(u: UserId, reqs: seq<BatchEntry>, os: seq<Outside>)
        returns (results: seq<BookingRow>, error: Option<Error>)
      requires DbOk(database.Tables()) && |os| == |reqs|
      requires forall i :: 0 <= i < |os| ==> os[i].id !in database.bookings
      requires forall i, j :: 0 <= i < j < |os| ==> os[i].id != os[j].id
      modifies database, redis
      ensures DbOk(database.Tables()) && redis.keys == old(redis.keys)
      ensures BatchDone(old(database.Tables()), database.Tables(), u, reqs, os, results)
      ensures error == None <==> 0 < |reqs| <= 10 && |results| == |reqs|
      ensures !(0 < |reqs| <= 10) ==> results == [] && error == Some(Invalid)
      ensures 0 < |reqs| <= 10 && error.Some? ==>
                var k := |results|;
                && k < |reqs|
                && RightResult(database.Tables(), redis.keys, u, reqs[k].e, reqs[k].n, os[k], Err(error.value))
    {
      results, error := [], None;
      if |reqs| == 0 || |reqs| > 10 {
        return [], Some(Invalid);
      }
      ghost var db := database.Tables();
      for i := 0 to |reqs|
        invariant DbOk(database.Tables()) && redis.keys == old(redis.keys)
        invariant |results| == i && error == None
        invariant BatchDone(db, database.Tables(), u, reqs, os, results)
        invariant forall j :: i <= j < |os| ==> os[j].id !in database.bookings
      {
        ghost var before := database.Tables();
        var r := BookTicket(u, reqs[i].e, reqs[i].n, os[i]);
        if r.Err? {
          return results, Some(r.error);
        }
        OneMoreDone(db, before, u, reqs, os, results);
        results := results + [r.value];
      }
    }
  }

  // The audit row written after a cancellation is the one the specification allows, and its
  // diff replays.
  lemma CancelThenLog(db: Db, b: BookingId, now: int)
    requires DbOk(db) && CancelAllowed(db, b)
    ensures var before, after := db.bookings[b], CancelRow(db.bookings[b], now);
            var done, log := Apply(db, Cancel(b, now)), LogCancel(b, before, after);
            && DbOk(done) && DbOk(Apply(done, log))
            && Apply(done, log) == done.(audits := done.audits + [BookingCancelled(b, before, after)])
            && SameRendering(Forward(ToMap(b, before), DiffOf(ToMap(b, before), ToMap(b, after))), ToMap(b, after))
  {
    var before, after := db.bookings[b], CancelRow(db.bookings[b], now);
    assert BookingOk(db, before);
    BookingSnapshotsAreNilFree(b, after);
    ForwardFromSame(ToMap(b, before), ToMap(b, before), ToMap(b, after));
    hide ToMap, DiffOf, Forward, SameRendering, DbOk;
    ApplyOk(db, Cancel(b, now));
    ApplyOk(Apply(db, Cancel(b, now)), LogCancel(b, before, after));
  }

  // The tables after the atomic bookings of all entries, in order.
  function BookAll(db: Db, u: UserId, reqs: seq<BatchEntry>, os: seq<Outside>): Db
    requires |os| == |reqs|
  {
    if reqs == [] then db
    else
      var n := |reqs| - 1;
      Apply(BookAll(db, u, reqs[..n], os[..n]), Book(os[n].id, u, reqs[n].e, reqs[n].n, os[n].now))
  }

  predicate AllAllowed(db: Db, u: UserId, reqs: seq<BatchEntry>, os: seq<Outside>)
    requires |os| == |reqs|
  {
    reqs == [] ||
    var n := |reqs| - 1;
    && AllAllowed(db, u, reqs[..n], os[..n])
    && BookAllowed(BookAll(db, u, reqs[..n], os[..n]), os[n].id, u, reqs[n].e, reqs[n].n)
  }

  // From `db` to `now` exactly the first |results| entries were committed, each allowed when
  // its turn came, and `results` are their rows in order.
  predicate BatchDone(db: Db, now: Db, u: UserId, reqs: seq<BatchEntry>, os: seq<Outside>, results: seq<BookingRow>)
    requires |os| == |reqs|
  {
    var k := |results|;
    && k <= |reqs|
    && AllAllowed(db, u, reqs[..k], os[..k])
    && now == BookAll(db, u, reqs[..k], os[..k])
    && forall j :: 0 <= j < k ==>
         && os[j].id in now.bookings
         && results[j] == now.bookings[os[j].id]
         && results[j].user == u && results[j].event == reqs[j].e && results[j].count == reqs[j].n
  }

  lemma OneMoreDone(db: Db, now: Db, u: UserId, reqs: seq<BatchEntry>, os: seq<Outside>, results: seq<BookingRow>)
    requires |os| == |reqs| && |results| < |reqs| && BatchDone(db, now, u, reqs, os, results)
    requires var o, r := os[|results|], reqs[|results|]; BookAllowed(now, o.id, u, r.e, r.n)
    ensures var o, r := os[|results|], reqs[|results|];
            BatchDone(db, Apply(now, Book(o.id, u, r.e, r.n, o.now)), u, reqs, os,
                      results + [NewBooking(u, r.e, r.n, now.events[r.e].price, o.now)])
  {
    var k := |results|;
    var o, r := os[k], reqs[k];
    OneMoreAllowed(db, u, reqs, os, k);
    var row := NewBooking(u, r.e, r.n, now.events[r.e].price, o.now);
    var after, results' := Apply(now, Book(o.id, u, r.e, r.n, o.now)), results + [row];
    assert o.id !in now.bookings && after.bookings == now.bookings[o.id := row];
    hide BookAllowed, AllAllowed, BookAll, Apply;
    forall j | 0 <= j <= k
      ensures os[j].id in after.bookings && results'[j] == after.bookings[os[j].id]
      ensures results'[j].user == u && results'[j].event == reqs[j].e && results'[j].count == reqs[j].n
    {
      if j < k { assert os[j].id in now.bookings; }
    }
  }

  lemma OneMoreAllowed(db: Db, u: UserId, reqs: seq<BatchEntry>, os: seq<Outside>, k: nat)
    requires |os| == |reqs| && k < |reqs|
    ensures var done, o, r := BookAll(db, u, reqs[..k], os[..k]), os[k], reqs[k];
            && (AllAllowed(db, u, reqs[..k + 1], os[..k + 1]) <==>
                  AllAllowed(db, u, reqs[..k], os[..k]) && BookAllowed(done, o.id, u, r.e, r.n))
            && BookAll(db, u, reqs[..k + 1], os[..k + 1]) == Apply(done, Book(o.id, u, r.e, r.n, o.now))
  {
    assert reqs[..k + 1][..k] == reqs[..k] && os[..k + 1][..k] == os[..k];
    hide BookAllowed, Apply;
  }

  function TicketsFor(reqs: seq<BatchEntry>, e: EventId): int {
    if reqs == [] then 0
    else TicketsFor(reqs[..|reqs| - 1], e) + if reqs[|reqs| - 1].e == e then reqs[|reqs| - 1].n else 0
  }

  // Every event's remaining tickets fall by exactly the tickets of the committed prefix.
  lemma {:induction false} BatchTakesItsTickets(db: Db, u: UserId, reqs: seq<BatchEntry>, os: seq<Outside>, e: EventId)
    requires |os| == |reqs| && AllAllowed(db, u, reqs, os) && e in db.events
    ensures e in BookAll(db, u, reqs, os).events
    ensures BookAll(db, u, reqs, os).events[e].remaining == db.events[e].remaining - TicketsFor(reqs, e)
  {
    if reqs != [] {
      BatchTakesItsTickets(db, u, reqs[..|reqs| - 1], os[..|os| - 1], e);
    }
  }

  lemma {:induction false} BookedStaysActive(db: Db, u: UserId, reqs: seq<BatchEntry>, os: seq<Outside>, i: nat)
    requires |os| == |reqs| && AllAllowed(db, u, reqs, os) && i < |reqs|
    ensures HasActive(BookAll(db, u, reqs, os).bookings, u, reqs[i].e)
  {
    var n := |reqs| - 1;
    var before, after := BookAll(db, u, reqs[..n], os[..n]), BookAll(db, u, reqs, os);
    if i < n {
      BookedStaysActive(db, u, reqs[..n], os[..n], i);
      var b :| b in before.bookings && Active(before.bookings[b])
               && before.bookings[b].user == u && before.bookings[b].event == reqs[i].e;
      assert b in after.bookings && after.bookings[b] == before.bookings[b];
    } else {
      assert os[n].id in after.bookings && Active(after.bookings[os[n].id]);
    }
  }

  // The events of a committed batch are pairwise distinct.
  lemma {:induction false} BatchEventsDistinct(db: Db, u: UserId, reqs: seq<BatchEntry>, os: seq<Outside>)
    requires |os| == |reqs| && AllAllowed(db, u, reqs, os)
    ensures forall i, j :: 0 <= i < j < |reqs| ==> reqs[i].e != reqs[j].e
  {
    if reqs != [] {
      var n := |reqs| - 1;
      BatchEventsDistinct(db, u, reqs[..n], os[..n]);
      forall i | 0 <= i < n ensures reqs[i].e != reqs[n].e {
        BookedStaysActive(db, u, reqs[..n], os[..n], i);
      }
    }
  }

  // ---------- EventService ----------

  // A status as sent by a client: left out, one of the enum, or any other text.
  datatype StatusText = Blank | Named(status: EventStatus) | Unknown

  datatype EventFields = EventFields(details: Details, total: int, price: int, status: StatusText)

  // The bytes of a text in UTF-8, which is what Go's `len` counts.
  function Utf8Length(s: string): nat {
    if s == "" then 0
    else Utf8Length(s[..|s| - 1]) + CharBytes(s[|s| - 1])
  }

  // Section 3 of RFC 3629.
  function CharBytes(c: char): nat {
    var code := c as int;
    if code < 0x80 then 1 else if code < 0x800 then 2 else if code < 0x1_0000 then 3 else 4
  }

  predicate LongEnough(name: string) {
    3 <= Utf8Length(name)
  }

  predicate FieldsValid(f: EventFields) {
    && LongEnough(f.details.name) && f.details.location != ""
    && 0 < f.total && 0 <= f.price
    && f.details.startsAt < f.details.endsAt
  }

  method ValidateCreateEvent(f: EventFields) returns (ok: bool)
    ensures ok <==> FieldsValid(f)
  {
    if Utf8Length(f.details.name) < 3 { return false; }
    if f.details.location == "" { return false; }
    if f.total <= 0 { return false; }
    if f.price < 0 { return false; }
    if !(f.details.startsAt < f.details.endsAt) { return false; }
    return true;
  }

  function StatusOf(f: EventFields): EventStatus {
    if f.status.Named? then f.status.status else Draft
  }

  // The row that Create hands to the INSERT: every ticket is still there.
  function FreshEvent(f: EventFields): EventRow {
    EventRow(f.total, f.total, f.price, StatusOf(f), 0, false)
  }

  // What the table demands of a new event beyond its CHECKs: known status, widths, legal text.
  predicate ColumnsHold(f: EventFields) {
    f.status != Unknown && f.total <= MAX_INT && f.price <= MAX_INT && TextsLegal(f.details) && TextsFit(f.details)
  }

  // The INSERT of the new event goes through.
  predicate Storable(f: EventFields) {
    f.status != Unknown && Insertable(f.details, FreshEvent(f).(version := 1))
  }

  lemma {:induction false} BytesCoverCharacters(s: string)
    ensures |s| <= Utf8Length(s) <= 4 * |s|
  {
    if s != "" {
      BytesCoverCharacters(s[..|s| - 1]);
    }
  }

  // What the validation accepts, in characters: a name is long enough with three of them, with
  // two of which one takes two bytes, or with one that takes three.
  lemma AcceptedFields(f: EventFields)
    ensures FieldsValid(f) <==>
            && LongEnough(f.details.name)
            && f.details.location != "" && 0 < f.total && 0 <= f.price && f.details.startsAt < f.details.endsAt
    ensures LongEnough(f.details.name) <==>
            || 3 <= |f.details.name|
            || (|f.details.name| == 2 && (0x80 <= f.details.name[0] as int || 0x80 <= f.details.name[1] as int))
            || (|f.details.name| == 1 && 0x800 <= f.details.name[0] as int)
  {
    BytesCoverCharacters(f.details.name);
    BytesOfTwo(f.details.name);
  }

  lemma BytesOfTwo(s: string)
    ensures |s| == 1 ==> Utf8Length(s) == CharBytes(s[0])
    ensures |s| == 2 ==> Utf8Length(s) == CharBytes(s[0]) + CharBytes(s[1])
  {
    if |s| == 1 {
      assert s[..0] == "";
    } else if |s| == 2 {
      BytesOfTwo(s[..1]);
    }
  }

  // What the table accepts.
  lemma StorableFields(f: EventFields)
    ensures Storable(f) <==>
            && f.status != Unknown && 0 < f.total <= 2147483647 && 0 <= f.price <= 2147483647
            && |f.details.name| <= 255 && |f.details.location| <= 255
            && '\0' !in f.details.name && '\0' !in f.details.description && '\0' !in f.details.location
            && f.details.startsAt / 1000 < f.details.endsAt / 1000
  {
  }

  // Where the validation and the CHECKs of the table part. Valid fields that the columns
  // can hold are refused by the table exactly when both dates fall into one microsecond.
  // Fields that the table takes are refused by the validation exactly for an empty location
  // or a name under three bytes, which no name of three characters is.
  lemma ValidationAgainstChecks(f: EventFields)
    ensures FieldsValid(f) ==>
              (Storable(f) <==> ColumnsHold(f) && Stored(f.details.startsAt) != Stored(f.details.endsAt))
    ensures Storable(f) ==> (FieldsValid(f) <==> LongEnough(f.details.name) && f.details.location != "")
    ensures 3 <= |f.details.name| ==> LongEnough(f.details.name)
    ensures LongEnough(f.details.name) ==> f.details.name != ""
  {
    BytesCoverCharacters(f.details.name);
  }

  // Both gaps are real: a name of one character passes as three bytes, and dates half a
  // microsecond apart pass and are then refused by the table.
  lemma ValidationGaps()
    ensures LongEnough("\U{6771}")
    ensures var f := EventFields(Details("abc", "", "x", 0, 500), 1, 0, Blank);
            FieldsValid(f) && ColumnsHold(f) && !Storable(f)
  {
    BytesCoverCharacters("abc");
    assert "\U{6771}"[..0] == "";
  }

  class EventService {
    const database: Database

    constructor (database: Database)
      ensures this.database == database
    {
      this.database := database;
    }

    // A new event starts at version 1 with all its tickets; a missing status means draft,
    // which nobody can book.
    method Create(e: EventId, f: EventFields) returns (r: Result<EventRow>)
      requires e !in database.events
      modifies database
      ensures r.Ok? <==> FieldsValid(f) && Storable(f)
      ensures r == Err(Invalid) <==> !FieldsValid(f)
      ensures r.Ok? ==> r.value == EventRow(f.total, f.total, f.price, r.value.status, 1, false)
      ensures r.Ok? && f.status.Named? ==> r.value.status == f.status.status
      ensures r.Ok? && f.status == Blank ==>
                r.value.status == Draft && forall b, u, n :: !BookAllowed(database.Tables(), b, u, e, n)
      ensures r.Ok? ==>
                && r.value == NewEvent(f.total, f.price, StatusOf(f))
                && database.Tables() == Apply(old(database.Tables()), Action.Create(e, f.total, f.price, StatusOf(f)))
      ensures r.Err? ==> database.Tables() == old(database.Tables())
    {
      var valid := ValidateCreateEvent(f);
      if !valid {
        return Err(Invalid);
      }
      if f.status == Unknown {
        return Err(Error.Database);
      }
      r := CreateEventRow(database, e, f.details, FreshEvent(f));
    }

    // Read the row, overwrite the request's fields, write it back under the client's
    // version. Run alone it succeeds only at the current version, and then neither loses
    // nor creates tickets. A version conflict is reported only for what can be sent at all.
    method Update(e: EventId, f: EventFields, version: int, early: bool) returns (r: Result<EventRow>)
      requires EventsOk(database.Tables())
      modifies database
      ensures var db := old(database.Tables());
              && (r.Ok? <==> CanSee(db, e) && 0 < version && FieldsValid(f) && f.status.Named? && ColumnsHold(f)
                             && version == db.events[e].version && version < MAX_INT
                             && db.events[e].remaining <= f.total && DatesCheck(f.details))
              && (r.Ok? ==>
                    && database.Tables() == db.(events := db.events[e := r.value])
                    && r.value == EventRow(f.total, db.events[e].remaining, f.price, f.status.status,
                                           version + 1, false))
              && (r.Err? ==> database.Tables() == db)
              && (r == Err(NotFound) <==> !CanSee(db, e))
              && (r == Err(Invalid) <==> CanSee(db, e) && !(0 < version && FieldsValid(f)))
              && (r == Err(VersionConflict) <==>
                    && CanSee(db, e) && 0 < version && FieldsValid(f) && f.status.Named?
                    && version != db.events[e].version
                    && version <= MAX_INT && f.total <= MAX_INT && f.price <= MAX_INT
                    && TextsLegal(f.details) && (early ==> TextsFit(f.details)))
      ensures r.Ok? ==>
                var db := old(database.Tables());
                var a := Action.Update(e, Edit(f.total, f.price, f.status.status, version), db.events[e], 0);
                Enabled(db, a) && database.Tables() == Apply(db, a)
    {
      if e !in database.events || database.events[e].deleted {
        return Err(NotFound);
      }
      var row := database.events[e];
      if version <= 0 {
        return Err(Invalid);
      }
      var valid := ValidateCreateEvent(f);
      if !valid {
        return Err(Invalid);
      }
      if !f.status.Named? {
        return Err(Error.Database);
      }
      row := row.(total := f.total, price := f.price, status := f.status.status, version := version);
      r := UpdateEvent(database, e, f.details, row, early);
    }

    method Delete(e: EventId) returns (r: Result<()>)
      modifies database
      ensures r.Ok? <==> CanSee(old(database.Tables()), e)
      ensures r.Err? ==> r.error == NotFound
      ensures database.Tables() == Apply(old(database.Tables()), Action.Delete(e))
    {
      if e !in database.events || database.events[e].deleted {
        return Err(NotFound);
      }
      r := SoftDelete(database, e);
    }

    // One round trip for up to fifty events: all of them are inserted or none is. The rows
    // are returned before the implicit transaction commits and the error of closing the
    // batch is dropped, so a failing commit is reported as success.
    method BatchCreate(ids: seq<EventId>, fs: seq<EventFields>, commitOk: bool) returns (r: Result<seq<EventRow>>)
      requires |ids| == |fs|
      requires forall i :: 0 <= i < |ids| ==> ids[i] !in database.events
      requires forall i, j :: 0 <= i < j < |ids| ==> ids[i] != ids[j]
      modifies database
      ensures r.Ok? <==> 0 < |fs| <= 50 && forall i :: 0 <= i < |fs| ==> FieldsValid(fs[i]) && Storable(fs[i])
      ensures r == Err(Invalid) <==> !(0 < |fs| <= 50) || exists i :: 0 <= i < |fs| && !FieldsValid(fs[i])
      ensures r.Ok? ==> |r.value| == |fs| && forall i :: 0 <= i < |fs| ==>
                && r.value[i] == EventRow(fs[i].total, fs[i].total, fs[i].price, r.value[i].status, 1, false)
                && (fs[i].status.Named? ==> r.value[i].status == fs[i].status.status)
                && (fs[i].status == Blank ==> r.value[i].status == Draft)
      ensures r.Ok? && commitOk ==>
                && database.bookings == old(database.bookings) && database.audits == old(database.audits)
                && (forall e :: e in database.events <==> e in old(database.events) || e in ids)
                && (forall e :: e in old(database.events) ==> database.events[e] == old(database.events)[e])
                && forall i :: 0 <= i < |fs| ==> database.events[ids[i]] == r.value[i]
      ensures r.Err? || !commitOk ==> database.Tables() == old(database.Tables())
    {
      if |fs| == 0 || |fs| > 50 {
        return Err(Invalid);
      }
      for i := 0 to |fs|
        invariant database.Tables() == old(database.Tables())
        invariant forall j :: 0 <= j < i ==> FieldsValid(fs[j])
      {
        var valid := ValidateCreateEvent(fs[i]);
        if !valid {
          return Err(Invalid);
        }
      }
      var tx := new Tx(database);
      var created, ok := InsertEvents(tx, ids, fs);
      if !ok {
        return Err(Error.Database);
      }
      ok := tx.Commit(commitOk);
      r := Ok(created);
    }
  }

  // The queued inserts, inside the one implicit transaction of the batch.
  method InsertEvents(tx: Tx, ids: seq<EventId>, fs: seq<EventFields>) returns (created: seq<EventRow>, ok: bool)
    requires |ids| == |fs| && !tx.poisoned
    requires forall i :: 0 <= i < |ids| ==> ids[i] !in tx.view.events
    requires forall i, j :: 0 <= i < j < |ids| ==> ids[i] != ids[j]
    requires forall i :: 0 <= i < |fs| ==> FieldsValid(fs[i])
    modifies tx
    ensures ok <==> forall i :: 0 <= i < |fs| ==> Storable(fs[i])
    ensures ok <==> !tx.poisoned
    ensures ok ==>
              && tx.view == old(tx.view).(events := tx.view.events)
              && (forall e :: e in tx.view.events <==> e in old(tx.view).events || e in ids)
              && (forall e :: e in old(tx.view).events ==> tx.view.events[e] == old(tx.view).events[e])
              && |created| == |fs|
              && forall i :: 0 <= i < |fs| ==>
                   tx.view.events[ids[i]] == created[i] == NewEvent(fs[i].total, fs[i].price, StatusOf(fs[i]))
  {
    created, ok := [], true;
    for i := 0 to |fs|
      invariant !tx.poisoned && |created| == i
      invariant tx.view == old(tx.view).(events := tx.view.events)
      invariant forall e :: e in tx.view.events <==> e in old(tx.view).events || e in ids[..i]
      invariant forall e :: e in old(tx.view).events ==> tx.view.events[e] == old(tx.view).events[e]
      invariant forall j :: 0 <= j < i ==> Storable(fs[j])
      invariant forall j :: 0 <= j < i ==>
        tx.view.events[ids[j]] == created[j] == NewEvent(fs[j].total, fs[j].price, StatusOf(fs[j]))
    {
      if !Storable(fs[i]) {
        tx.poisoned := true;
        return created, false;
      }
      var row := FreshEvent(fs[i]).(version := 1);
      tx.view := tx.view.(events := tx.view.events[ids[i] := row]);
      created := created + [row];
      assert ids[..i + 1] == ids[..i] + [ids[i]];
    }
    assert ids[..|fs|] == ids;
  }
}
