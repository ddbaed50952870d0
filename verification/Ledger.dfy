// The ticket ledger of one event over a whole history of committed actions.
module Ledger {
  import opened Schema
  import opened History

  // ---------- sums over the bookings table ----------

  // The sum of a weight over all rows, in whatever order they are taken.
  ghost function Total(m: map<BookingId, BookingRow>, w: BookingRow -> int): int {
    if m == map[] then 0
    else
      var b :| b in m;
      w(m[b]) + Total(m - {b}, w)
  }

  lemma {:induction false} TakeOut(m: map<BookingId, BookingRow>, w: BookingRow -> int, b: BookingId)
    requires b in m
    ensures Total(m, w) == w(m[b]) + Total(m - {b}, w)
    decreases |m|
  {
    var c :| c in m && Total(m, w) == w(m[c]) + Total(m - {c}, w);
    if c != b {
      TakeOut(m - {c}, w, b);
      TakeOut(m - {b}, w, c);
      assert m - {c} - {b} == m - {b} - {c};
    }
  }

  lemma PutIn(m: map<BookingId, BookingRow>, w: BookingRow -> int, b: BookingId, row: BookingRow)
    ensures Total(m[b := row], w) == Total(m, w) + w(row) - if b in m then w(m[b]) else 0
  {
    var m' := m[b := row];
    TakeOut(m', w, b);
    if b in m {
      TakeOut(m, w, b);
      assert m' - {b} == m - {b};
    } else {
      assert m' - {b} == m;
    }
  }

  lemma {:induction false} TotalAtLeast(m: map<BookingId, BookingRow>, w: BookingRow -> int)
    requires forall b :: b in m ==> 0 <= w(m[b])
    ensures 0 <= Total(m, w)
    decreases |m|
  {
    if m != map[] {
      var b :| b in m;
      TakeOut(m, w, b);
      TotalAtLeast(m - {b}, w);
    }
  }

  function HeldTickets(e: EventId): BookingRow -> int {
    (r: BookingRow) => if r.event == e && Active(r) then r.count else 0
  }

  function OneOf(e: EventId): BookingRow -> int {
    (r: BookingRow) => if r.event == e then 1 else 0
  }

  // Tickets held by the active bookings of an event.
  ghost function ActiveTickets(db: Db, e: EventId): int {
    Total(db.bookings, HeldTickets(e))
  }

  // Tickets on sale or held.
  ghost function Kept(db: Db, e: EventId): int
    requires e in db.events
  {
    db.events[e].remaining + ActiveTickets(db, e)
  }

  // Booking rows ever committed for an event, cancelled or not.
  ghost function BookingRows(db: Db, e: EventId): int {
    Total(db.bookings, OneOf(e))
  }

  lemma ActiveTicketsCover(db: Db, e: EventId, b: BookingId)
    requires BookingsOk(db)
    requires b in db.bookings && Active(db.bookings[b]) && db.bookings[b].event == e
    ensures db.bookings[b].count <= ActiveTickets(db, e)
  {
    TakeOut(db.bookings, HeldTickets(e), b);
    forall c | c in db.bookings - {b}
      ensures 0 <= HeldTickets(e)((db.bookings - {b})[c])
    {
      assert BookingOk(db, db.bookings[c]);
    }
    TotalAtLeast(db.bookings - {b}, HeldTickets(e));
  }

  // ---------- what one action does to the ledger ----------

  // The tickets a cancellation gives back to event `e`.
  function GivenBack(db: Db, a: Action, e: EventId): int {
    if a.Cancel? && Enabled(db, a) && db.bookings[a.b].event == e then db.bookings[a.b].count else 0
  }

  // How far the `remaining` an update writes is from the one it overwrites.
  function UpdateDrift(db: Db, a: Action, e: EventId): int {
    if a.Update? && a.e == e && Enabled(db, a) then a.read.remaining - db.events[e].remaining else 0
  }

  lemma LedgerStep(db: Db, a: Action, e: EventId)
    requires EventsOk(db) && BookingsOk(db) && e in db.events
    ensures e in Apply(db, a).events
    ensures Kept(Apply(db, a), e) == Kept(db, e) + UpdateDrift(db, a, e)
  {
    if Enabled(db, a) {
      match a
      case Book(b, u, e', n, now) =>
        PutIn(db.bookings, HeldTickets(e), b, NewBooking(u, e', n, db.events[e'].price, now));
      case Cancel(b, now) =>
        PutIn(db.bookings, HeldTickets(e), b, CancelRow(db.bookings[b], now));
      case _ =>
    }
  }

  // ---------- the ledger over a history ----------

  function CreatedTotal(h: seq<Action>, e: EventId): int {
    if h == [] then 0
    else
      var prefix, last := h[..|h| - 1], h[|h| - 1];
      CreatedTotal(prefix, e)
      + if last.Create? && last.e == e && Enabled(Replay(prefix), last) then last.total else 0
  }

  // The sum, over the updates of `e`, of remaining as read minus remaining as overwritten.
  function Drift(h: seq<Action>, e: EventId): int {
    if h == [] then 0
    else Drift(h[..|h| - 1], e) + UpdateDrift(Replay(h[..|h| - 1]), h[|h| - 1], e)
  }

  lemma {:induction false} NothingBeforeCreation(h: seq<Action>, e: EventId)
    requires e !in Replay(h).events
    ensures CreatedTotal(h, e) == 0 && Drift(h, e) == 0 && ActiveTickets(Replay(h), e) == 0
    ensures BookingRows(Replay(h), e) == 0 && UpdatesOf(h, e) == 0
  {
    ReplayOk(h);
    NoRows(HeldTickets(e), Replay(h).bookings);
    NoRows(OneOf(e), Replay(h).bookings);
    if h != [] {
      ReplayOk(h[..|h| - 1]);
      EventsStay(Replay(h[..|h| - 1]), h[|h| - 1]);
      NothingBeforeCreation(h[..|h| - 1], e);
    }
  }

  lemma {:induction false} NoRows(w: BookingRow -> int, m: map<BookingId, BookingRow>)
    requires forall b :: b in m ==> w(m[b]) == 0
    ensures Total(m, w) == 0
    decreases |m|
  {
    if m != map[] {
      var b :| b in m;
      TakeOut(m, w, b);
      NoRows(w, m - {b});
    }
  }

  // The ledger: remaining + tickets held == total at creation + drift of the updates.
  // Book, cancel and delete contribute nothing.
  lemma {:induction false} LedgerHolds(h: seq<Action>, e: EventId)
    requires e in Replay(h).events
    ensures Kept(Replay(h), e) == CreatedTotal(h, e) + Drift(h, e)
  {
    var prefix, last := h[..|h| - 1], h[|h| - 1];
    ReplayOk(prefix);
    if e in Replay(prefix).events {
      LedgerHolds(prefix, e);
      LedgerStep(Replay(prefix), last, e);
    } else {
      NothingBeforeCreation(prefix, e);
    }
  }

  // ---------- versions ----------

  function UpdatesOf(h: seq<Action>, e: EventId): int {
    if h == [] then 0
    else
      var prefix, last := h[..|h| - 1], h[|h| - 1];
      UpdatesOf(prefix, e)
      + if last.Update? && last.e == e && Enabled(Replay(prefix), last) then 1 else 0
  }

  lemma RowsStep(db: Db, a: Action, e: EventId)
    requires e in db.events
    ensures e in Apply(db, a).events
    ensures Apply(db, a).events[e].version - BookingRows(Apply(db, a), e)
         == db.events[e].version - BookingRows(db, e)
            + if a.Update? && a.e == e && Enabled(db, a) then 1 else 0
  {
    if Enabled(db, a) {
      match a
      case Book(b, u, e', n, now) =>
        PutIn(db.bookings, OneOf(e), b, NewBooking(u, e', n, db.events[e'].price, now));
      case Cancel(b, now) =>
        PutIn(db.bookings, OneOf(e), b, CancelRow(db.bookings[b], now));
      case _ =>
    }
  }

  // version == 1 + booking rows ever committed + successful updates.
  lemma {:induction false} VersionCountsWrites(h: seq<Action>, e: EventId)
    requires e in Replay(h).events
    ensures Replay(h).events[e].version == 1 + BookingRows(Replay(h), e) + UpdatesOf(h, e)
  {
    var prefix, last := h[..|h| - 1], h[|h| - 1];
    if e in Replay(prefix).events {
      VersionCountsWrites(prefix, e);
      RowsStep(Replay(prefix), last, e);
    } else {
      NothingBeforeCreation(prefix, e);
    }
  }

  // The tickets given back to `e` by the cancellations of h[from..].
  function GivenBackSince(h: seq<Action>, from: nat, e: EventId): int {
    if |h| <= from then 0
    else GivenBackSince(h[..|h| - 1], from, e) + GivenBack(Replay(h[..|h| - 1]), h[|h| - 1], e)
  }

  // `r'` is `r` some time later: versions never go back, and while the version stands
  // still only `back` tickets were given back and nothing else changed but the deletion.
  predicate LaterRow(r: EventRow, r': EventRow, back: int) {
    && r.version <= r'.version
    && (r.deleted ==> r'.deleted)
    && (r.version == r'.version ==>
          r' == r.(remaining := r.remaining + back, deleted := r'.deleted))
  }

  lemma LaterByOne(db: Db, a: Action, e: EventId)
    requires BookingsOk(db) && e in db.events
    ensures e in Apply(db, a).events
    ensures LaterRow(db.events[e], Apply(db, a).events[e], GivenBack(db, a, e))
  {
  }

  lemma {:induction false} SinceVersion(h: seq<Action>, from: nat, e: EventId)
    requires from <= |h| && e in Replay(h[..from]).events
    ensures e in Replay(h).events
    ensures LaterRow(Replay(h[..from]).events[e], Replay(h).events[e], GivenBackSince(h, from, e))
    ensures 0 <= GivenBackSince(h, from, e)
  {
    GivenBackNonNegative(h, from, e);
    if from == |h| {
      assert h[..from] == h;
    } else {
      var prefix := h[..|h| - 1];
      assert prefix[..from] == h[..from];
      SinceVersion(prefix, from, e);
      ReplayOk(prefix);
      LaterByOne(Replay(prefix), h[|h| - 1], e);
    }
  }

  predicate Versioned(a: Action, e: EventId) {
    (a.Book? || a.Update?) && a.e == e
  }

  // No two versioned writes succeed from the same (event, version).
  lemma VersionUsedOnce(h: seq<Action>, i: nat, j: nat, e: EventId)
    requires i < j < |h| && Versioned(h[i], e) && Versioned(h[j], e)
    requires Enabled(Replay(h[..i]), h[i]) && Enabled(Replay(h[..j]), h[j])
    ensures Replay(h[..i]).events[e].version < Replay(h[..j]).events[e].version
  {
    assert h[..j][..i + 1] == h[..i + 1];
    assert h[..i + 1][..i] == h[..i];
    SinceVersion(h[..j], i + 1, e);
  }

  // ---------- honest updates ----------

  // The client's version is no newer than the row its update read.
  predicate HonestAction(a: Action) {
    a.Update? ==> a.edit.version <= a.read.version
  }

  // All updates of `e` in the history were honest; those of other events do not matter.
  predicate Honest(h: seq<Action>, e: EventId) {
    forall i :: 0 <= i < |h| && h[i].Update? && h[i].e == e ==> HonestAction(h[i])
  }

  // A version taken from any earlier GET of the event is honest.
  lemma EarlierGetIsHonest(h: seq<Action>, a: Action, seenAt: nat)
    requires a.Update? && ReadEarlier(h, a)
    requires seenAt <= a.readAt && a.e in Replay(h[..seenAt]).events
    requires a.edit.version == Replay(h[..seenAt]).events[a.e].version
    ensures HonestAction(a)
  {
    assert h[..a.readAt][..seenAt] == h[..seenAt];
    SinceVersion(h[..a.readAt], seenAt, a.e);
  }

  // An honest update loses exactly the tickets cancelled between its read and its write.
  lemma HonestUpdateDrift(h: seq<Action>, a: Action)
    requires a.Update? && CanFollow(h, a) && HonestAction(a)
    ensures UpdateDrift(Replay(h), a, a.e) == -GivenBackSince(h, a.readAt, a.e) <= 0
  {
    SinceVersion(h, a.readAt, a.e);
  }

  // Tickets cancelled inside the read-to-write gap of some update of `e`.
  function LostCancels(h: seq<Action>, e: EventId): int {
    if h == [] then 0
    else
      var prefix, last := h[..|h| - 1], h[|h| - 1];
      LostCancels(prefix, e)
      + if last.Update? && last.e == e && Enabled(Replay(prefix), last)
        then GivenBackSince(prefix, last.readAt, e) else 0
  }

  lemma {:induction false} HonestDrift(h: seq<Action>, e: EventId)
    requires Valid(h) && Honest(h, e)
    ensures Drift(h, e) == -LostCancels(h, e) <= 0
  {
    if h != [] {
      var prefix, last := h[..|h| - 1], h[|h| - 1];
      HonestDrift(prefix, e);
      if last.Update? && last.e == e {
        assert HonestAction(last);
        HonestUpdateDrift(prefix, last);
      }
    }
  }

  // Some update of `e` at index j overwrote a cancellation committed at index i,
  // after the update had read the row.
  predicate CancelInGap(h: seq<Action>, e: EventId, i: nat, j: nat) {
    && i < j < |h|
    && h[j].Update? && h[j].e == e && h[j].readAt <= i
    && h[i].Cancel?
    && h[i].b in Replay(h[..i]).bookings
    && Replay(h[..i]).bookings[h[i].b].event == e
  }

  lemma {:induction false} GivenBackMeansCancel(h: seq<Action>, from: nat, e: EventId) returns (i: nat)
    requires GivenBackSince(h, from, e) != 0
    ensures from <= i < |h| && h[i].Cancel?
    ensures h[i].b in Replay(h[..i]).bookings && Replay(h[..i]).bookings[h[i].b].event == e
  {
    var prefix := h[..|h| - 1];
    if GivenBackSince(prefix, from, e) != 0 {
      i := GivenBackMeansCancel(prefix, from, e);
      assert prefix[..i] == h[..i];
    } else {
      i := |h| - 1;
    }
  }

  lemma {:induction false} CancelGivesBack(h: seq<Action>, from: nat, i: nat, e: EventId)
    requires Valid(h) && from <= i < |h| && h[i].Cancel?
    requires h[i].b in Replay(h[..i]).bookings && Replay(h[..i]).bookings[h[i].b].event == e
    ensures 0 < GivenBackSince(h, from, e)
  {
    var prefix := h[..|h| - 1];
    ReplayOk(prefix);
    GivenBackNonNegative(prefix, from, e);
    if i < |h| - 1 {
      assert prefix[..i] == h[..i];
      CancelGivesBack(prefix, from, i, e);
    }
  }

  lemma {:induction false} GivenBackNonNegative(h: seq<Action>, from: nat, e: EventId)
    ensures 0 <= GivenBackSince(h, from, e)
  {
    if from < |h| {
      ReplayOk(h[..|h| - 1]);
      GivenBackNonNegative(h[..|h| - 1], from, e);
    }
  }

  lemma {:induction false} LostCancelsMeansGap(h: seq<Action>, e: EventId)
    requires Valid(h)
    ensures 0 <= LostCancels(h, e)
    ensures LostCancels(h, e) != 0 ==> exists i: nat, j: nat :: CancelInGap(h, e, i, j)
  {
    if h != [] {
      var prefix, last := h[..|h| - 1], h[|h| - 1];
      LostCancelsMeansGap(prefix, e);
      if LostCancels(prefix, e) != 0 {
        var i: nat, j: nat :| CancelInGap(prefix, e, i, j);
        assert prefix[..i] == h[..i];
        assert CancelInGap(h, e, i, j);
      }
      if last.Update? {
        GivenBackNonNegative(prefix, last.readAt, e);
        if last.e == e && GivenBackSince(prefix, last.readAt, e) != 0 {
          var i := GivenBackMeansCancel(prefix, last.readAt, e);
          assert prefix[..i] == h[..i];
          assert CancelInGap(h, e, i, |h| - 1);
        }
      }
    }
  }

  lemma {:induction false} GapLosesTickets(h: seq<Action>, e: EventId, i: nat, j: nat)
    requires Valid(h) && CancelInGap(h, e, i, j)
    ensures 0 < LostCancels(h, e)
  {
    var prefix, last := h[..|h| - 1], h[|h| - 1];
    LostCancelsMeansGap(prefix, e);
    if j < |h| - 1 {
      assert prefix[..i] == h[..i];
      GapLosesTickets(prefix, e, i, j);
      if last.Update? { GivenBackNonNegative(prefix, last.readAt, e); }
    } else {
      assert prefix[..i] == h[..i];
      CancelGivesBack(prefix, last.readAt, i, e);
    }
  }

  // With honest updates no ticket is ever sold twice, and none is lost exactly when no
  // cancellation fell between the read and the write of an update.
  lemma NoOverselling(h: seq<Action>, e: EventId)
    requires Valid(h) && Honest(h, e) && e in Replay(h).events
    ensures var kept := Kept(Replay(h), e);
            && kept <= CreatedTotal(h, e)
            && (kept == CreatedTotal(h, e) <==> !exists i: nat, j: nat :: CancelInGap(h, e, i, j))
  {
    LedgerHolds(h, e);
    HonestDrift(h, e);
    LostCancelsMeansGap(h, e);
    if i: nat, j: nat :| CancelInGap(h, e, i, j) {
      GapLosesTickets(h, e, i, j);
    }
  }

  // ---------- cancellations ----------

  function CancelsOf(h: seq<Action>, b: BookingId): nat {
    if h == [] then 0
    else
      var prefix, last := h[..|h| - 1], h[|h| - 1];
      CancelsOf(prefix, b)
      + if last.Cancel? && last.b == b && Enabled(Replay(prefix), last) then 1 else 0
  }

  // A booking gives its tickets back at most once, exactly when it has become cancelled.
  lemma {:induction false} GivesBackOnce(h: seq<Action>, b: BookingId)
    ensures var db := Replay(h);
            CancelsOf(h, b) == if b in db.bookings && db.bookings[b].status == Cancelled then 1 else 0
  {
    if h != [] {
      var prefix := h[..|h| - 1];
      GivesBackOnce(prefix, b);
      ReplayOk(prefix);
      if b in Replay(prefix).bookings {
        assert BookingOk(Replay(prefix), Replay(prefix).bookings[b]);
      }
    }
  }

  lemma OnlyCancelDeactivates(db: Db, a: Action, b: BookingId)
    requires EventsOk(db) && BookingsOk(db) && b in db.bookings && Active(db.bookings[b])
    ensures var db' := Apply(db, a);
            b in db'.bookings && AsInserted(db'.bookings[b]) == AsInserted(db.bookings[b])
            && (Active(db'.bookings[b]) || (a.Cancel? && a.b == b))
  {
    BookingsStay(db, a);
    hide BookingsOk, EventsOk;
  }

  // A booking that was active and no longer is was cancelled in between.
  lemma {:induction false} FindCancel(h: seq<Action>, from: nat, b: BookingId) returns (k: nat)
    requires from <= |h| && b in Replay(h[..from]).bookings && Active(Replay(h[..from]).bookings[b])
    requires b !in Replay(h).bookings || !Active(Replay(h).bookings[b])
              || AsInserted(Replay(h).bookings[b]) != AsInserted(Replay(h[..from]).bookings[b])
    ensures from <= k < |h| && h[k].Cancel? && h[k].b == b
  {
    assert h[..|h|] == h;
    assert from < |h|;
    var prefix := h[..|h| - 1];
    assert prefix[..from] == h[..from];
    ReplayOk(prefix);
    var db, row := Replay(prefix), Replay(h[..from]).bookings[b];
    assert Replay(h) == Apply(db, h[|h| - 1]);
    hide Apply, Replay, Active, AsInserted;
    if b in db.bookings && Active(db.bookings[b]) && AsInserted(db.bookings[b]) == AsInserted(row) {
      OnlyCancelDeactivates(db, h[|h| - 1], b);
      k := |h| - 1;
    } else {
      k := FindCancel(prefix, from, b);
    }
  }

  // A user who books an event a second time has cancelled the first booking in between.
  // In particular a batch between whose entries nothing is cancelled books distinct events.
  lemma RebookingNeedsCancel(h: seq<Action>, i: nat, j: nat) returns (k: nat)
    requires Valid(h) && i < j < |h|
    requires h[i].Book? && h[j].Book? && h[i].u == h[j].u && h[i].e == h[j].e
    ensures i < k < j && h[k].Cancel? && h[k].b == h[i].b
  {
    FollowsPrefix(h, i);
    FollowsPrefix(h, j);
    assert h[..j][..i + 1] == h[..i + 1] && h[..i + 1][..i] == h[..i];
    k := FindCancel(h[..j], i + 1, h[i].b);
  }

  lemma FollowsPrefix(h: seq<Action>, i: nat)
    requires Valid(h) && i < |h|
    ensures CanFollow(h[..i], h[i])
  {
    PrefixValid(h, i + 1);
    assert h[..i + 1][..i] == h[..i];
  }

  // The status of an event changes only by an update that sets it.
  lemma {:induction false} FindPublish(h: seq<Action>, from: nat, e: EventId) returns (k: nat)
    requires from <= |h| && e in Replay(h[..from]).events && Replay(h[..from]).events[e].status != Published
    requires e in Replay(h).events && Replay(h).events[e].status == Published
    ensures from <= k < |h| && h[k].Update? && h[k].e == e && h[k].edit.status == Published
  {
    assert h[..|h|] == h;
    assert from < |h|;
    var prefix := h[..|h| - 1];
    assert prefix[..from] == h[..from];
    if e in Replay(prefix).events && Replay(prefix).events[e].status == Published {
      k := FindPublish(prefix, from, e);
    } else {
      StatusKept(prefix, from, e);
      k := |h| - 1;
    }
  }

  lemma StatusKept(h: seq<Action>, from: nat, e: EventId)
    requires from <= |h| && e in Replay(h[..from]).events
    ensures e in Replay(h).events
  {
    SinceVersion(h, from, e);
  }

  // An event created as a draft, or with any status but published, is booked only after an
  // update has published it.
  lemma BookedOnlyOncePublished(h: seq<Action>, i: nat, j: nat) returns (k: nat)
    requires Valid(h) && i < j < |h| && h[i].Create? && h[j].Book? && h[i].e == h[j].e && h[i].status != Published
    ensures i < k < j && h[k].Update? && h[k].e == h[j].e && h[k].edit.status == Published
  {
    FollowsPrefix(h, i);
    FollowsPrefix(h, j);
    assert h[..j][..i + 1] == h[..i + 1] && h[..i + 1][..i] == h[..i];
    StatusKept(h[..j], i + 1, h[i].e);
    k := FindPublish(h[..j], i + 1, h[i].e);
  }

  // Updates never set the total of `e` below its value at creation.
  predicate NeverShrinks(h: seq<Action>, e: EventId) {
    forall i :: 0 <= i < |h| && h[i].Update? && h[i].e == e ==> CreatedTotal(h, e) <= h[i].edit.total
  }

  lemma {:induction false} CreatedOnce(h: seq<Action>, i: nat, e: EventId)
    requires i <= |h| && e in Replay(h[..i]).events
    ensures e in Replay(h).events
    ensures CreatedTotal(h, e) == CreatedTotal(h[..i], e)
  {
    if i == |h| {
      assert h[..i] == h;
    } else {
      var prefix := h[..|h| - 1];
      assert prefix[..i] == h[..i];
      CreatedOnce(prefix, i, e);
    }
  }

  lemma {:induction false} TotalKept(h: seq<Action>, e: EventId)
    requires e in Replay(h).events && NeverShrinks(h, e)
    ensures CreatedTotal(h, e) <= Replay(h).events[e].total
  {
    var prefix, last := h[..|h| - 1], h[|h| - 1];
    if e in Replay(prefix).events {
      CreatedOnce(h, |h| - 1, e);
      assert NeverShrinks(prefix, e) by {
        forall i | 0 <= i < |prefix| && prefix[i].Update? && prefix[i].e == e
          ensures CreatedTotal(prefix, e) <= prefix[i].edit.total
        {
          assert h[i] == prefix[i];
        }
      }
      TotalKept(prefix, e);
    } else {
      NothingBeforeCreation(prefix, e);
    }
  }

  // With honest updates that never shrink the event, every active booking can be cancelled.
  lemma CancelNeverStuck(h: seq<Action>, b: BookingId)
    requires Valid(h) && b in Replay(h).bookings && Active(Replay(h).bookings[b])
    requires Honest(h, Replay(h).bookings[b].event)
    requires NeverShrinks(h, Replay(h).bookings[b].event)
    ensures CancelAllowed(Replay(h), b)
  {
    var db := Replay(h);
    var e := db.bookings[b].event;
    ReplayOk(h);
    assert BookingOk(db, db.bookings[b]);
    NoOverselling(h, e);
    TotalKept(h, e);
    ActiveTicketsCover(db, e, b);
  }

  // Cancelling the listed bookings one after another.
  ghost predicate AllCancel(db: Db, bs: seq<BookingId>)
    decreases |bs|
  {
    bs == [] || (CancelAllowed(db, bs[0]) && AllCancel(Apply(db, Cancel(bs[0], 0)), bs[1..]))
  }

  // The active bookings of `e`, each listed once.
  ghost predicate ListsActive(db: Db, e: EventId, bs: seq<BookingId>) {
    && (forall i, j :: 0 <= i < j < |bs| ==> bs[i] != bs[j])
    && (forall b :: b in bs <==> b in db.bookings && Active(db.bookings[b]) && db.bookings[b].event == e)
  }

  // Without any assumption on the updates: all active bookings of an event can be
  // cancelled, in whatever order, if and only if remaining + held fits in the total.
  lemma {:induction false} AllCancelIffFits(db: Db, e: EventId, bs: seq<BookingId>)
    requires DbOk(db) && e in db.events && ListsActive(db, e, bs)
    ensures AllCancel(db, bs) <==> Kept(db, e) <= db.events[e].total
    decreases |bs|
  {
    if bs == [] {
      NoRows(HeldTickets(e), db.bookings);
    } else {
      var b, a := bs[0], Cancel(bs[0], 0);
      assert b in bs;
      ActiveTicketsCover(db, e, b);
      if CancelAllowed(db, b) {
        ApplyOk(db, a);
        LedgerStep(db, a, e);
        NextActive(db, e, bs);
        hide DbOk;
        AllCancelIffFits(Apply(db, a), e, bs[1..]);
      }
    }
  }

  lemma NextActive(db: Db, e: EventId, bs: seq<BookingId>)
    requires ListsActive(db, e, bs) && bs != [] && CancelAllowed(db, bs[0])
    ensures ListsActive(Apply(db, Cancel(bs[0], 0)), e, bs[1..])
  {
    assert bs == [bs[0]] + bs[1..];
  }
}
