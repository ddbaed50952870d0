// Exactly when a waiting update can put sold tickets back on sale.
module Resale {
  import opened Schema
  import opened History
  import opened Ledger

  // The update of `e` made by a request that reads the event now, after `h`.
  function ReadNow(h: seq<Action>, e: EventId, edit: Edit): Action
    requires e in Replay(h).events
  {
    Update(e, edit, Replay(h).events[e], |h|)
  }

  // After `h`, while the update `u` waits for its write, `g` is committed, in which all
  // updates of the event are honest; then the write leaves at least `m` more tickets on
  // sale or held than there were after `h`.
  ghost predicate Resells(h: seq<Action>, g: seq<Action>, u: Action, m: int)
    requires u.Update? && u.e in Replay(h).events
  {
    && Honest(g, u.e)
    && Valid(h + g + [u])
    && u.e in Replay(h + g + [u]).events
    && Kept(Replay(h), u.e) + m <= Kept(Replay(h + g + [u]), u.e)
  }

  // What can be read off the row as it is now, the row the update read, and its fields: the
  // write can still match and passes the CHECKs, and either the row read has that many more
  // tickets on sale than the row now, or there is time for a booking before the write (and,
  // if the event is not published, for an update that publishes it).
  predicate CanResell(now: EventRow, read: EventRow, edit: Edit, m: int) {
    && !now.deleted
    && now.version <= edit.version
    && EventChecks(Edited(read, edit).(version := edit.version + 1))
    && (m <= read.remaining - now.remaining
        || (m <= read.remaining && now.version + (if now.status == Published then 1 else 2) <= edit.version))
  }

  // Right after its read, the version has to be newer than the row read.
  lemma RightAfterRead(read: EventRow, edit: Edit, m: int)
    requires 0 < m && !read.deleted
    ensures CanResell(read, read, edit, m)
       <==> && read.version < edit.version
            && (read.status == Published || read.version + 2 <= edit.version)
            && m <= read.remaining
            && EventChecks(Edited(read, edit).(version := edit.version + 1))
  {
  }

  // An honest update never can, however long it waits.
  lemma HonestNeverCan(h: seq<Action>, u: Action, m: int)
    requires u.Update? && ReadEarlier(h, u) && HonestAction(u) && 0 < m
    ensures u.e in Replay(h).events && !CanResell(Replay(h).events[u.e], u.read, u.edit, m)
  {
    SinceVersion(h, u.readAt, u.e);
  }

  // ---------- at most this ----------

  // From `db` to `db'` by honest updates and other actions: no ticket is gained; if more are
  // held than before there was a booking, which takes a version and a published event, and
  // publishing takes another version.
  ghost predicate FairlySold(db: Db, db': Db, e: EventId) {
    && e in db.events && e in db'.events
    && var r, r' := db.events[e], db'.events[e];
    && Kept(db', e) <= Kept(db, e)
    && r.version <= r'.version
    && (r.deleted ==> r'.deleted)
    && (r'.status != r.status ==> r.version < r'.version)
    && (ActiveTickets(db, e) < ActiveTickets(db', e) ==>
          r.version + (if r.status == Published then 1 else 2) <= r'.version)
  }

  // Only a booking raises the number of tickets held.
  lemma HeldStep(db: Db, a: Action, e: EventId)
    requires EventsOk(db) && BookingsOk(db) && e in db.events
    ensures ActiveTickets(Apply(db, a), e) <= ActiveTickets(db, e) || (a.Book? && a.e == e && Enabled(db, a))
  {
    if Enabled(db, a) {
      match a
      case Book(b, u, e', n, now) =>
        PutIn(db.bookings, HeldTickets(e), b, NewBooking(u, e', n, db.events[e'].price, now));
      case Cancel(b, now) =>
        assert BookingOk(db, db.bookings[b]);
        PutIn(db.bookings, HeldTickets(e), b, CancelRow(db.bookings[b], now));
      case _ =>
    }
  }

  // The event's own row: what one action does to version, deletion and status.
  predicate RowStep(r: EventRow, r': EventRow, a: Action, e: EventId) {
    && r.version <= r'.version
    && (r.deleted ==> r'.deleted)
    && (r'.status != r.status ==> r.version < r'.version)
    && (a.Book? && a.e == e && r' != r ==> r.status == Published && r'.version == r.version + 1)
  }

  lemma RowSteps(db: Db, a: Action, e: EventId)
    requires BookingsOk(db) && e in db.events
    ensures e in Apply(db, a).events && RowStep(db.events[e], Apply(db, a).events[e], a, e)
    ensures a.Book? && a.e == e && Enabled(db, a) ==> Apply(db, a).events[e] != db.events[e]
  {
  }

  lemma FairStep(db: Db, db': Db, a: Action, e: EventId)
    requires EventsOk(db') && BookingsOk(db') && FairlySold(db, db', e) && UpdateDrift(db', a, e) <= 0
    ensures FairlySold(db, Apply(db', a), e)
  {
    LedgerStep(db', a, e);
    HeldStep(db', a, e);
    RowSteps(db', a, e);
    hide Apply, Enabled, Kept, ActiveTickets, EventsOk, BookingsOk, UpdateDrift;
  }

  lemma {:induction false} HonestGap(h: seq<Action>, g: seq<Action>, e: EventId)
    requires Valid(h + g) && e in Replay(h).events && Honest(g, e)
    ensures FairlySold(Replay(h), Replay(h + g), e)
  {
    if g == [] {
      assert h + g == h;
    } else {
      var g', a := g[..|g| - 1], g[|g| - 1];
      assert h + g == h + g' + [a];
      Extend(h + g', a);
      assert forall i :: 0 <= i < |g'| ==> g'[i] == g[i];
      HonestGap(h, g', e);
      ReplayOk(h + g');
      if a.Update? && a.e == e {
        assert HonestAction(a);
        HonestUpdateDrift(h + g', a);
      }
      hide Valid, Replay, FairlySold;
      FairStep(Replay(h), Replay(h + g'), a, e);
    }
  }

  // The write of an update turns the tickets on sale into those it read.
  lemma KeptAfterWrite(h: seq<Action>, u: Action)
    requires u.Update? && Valid(h + [u])
    ensures u.e in Replay(h).events && u.e in Replay(h + [u]).events
    ensures Kept(Replay(h + [u]), u.e) == ActiveTickets(Replay(h), u.e) + u.read.remaining
    ensures var r := Replay(h).events[u.e];
            && !r.deleted && r.version == u.edit.version && 0 <= r.remaining
            && EventChecks(Edited(u.read, u.edit).(version := u.edit.version + 1))
  {
    Extend(h, u);
    ReplayOk(h);
    LedgerStep(Replay(h), u, u.e);
    hide ActiveTickets;
  }

  lemma OnlyThen(h: seq<Action>, g: seq<Action>, u: Action, m: int)
    requires u.Update? && u.e in Replay(h).events && 0 < m && Resells(h, g, u, m)
    ensures CanResell(Replay(h).events[u.e], u.read, u.edit, m)
  {
    Extend(h + g, u);
    HonestGap(h, g, u.e);
    KeptAfterWrite(h + g, u);
    hide Replay, Valid, ActiveTickets;
  }

  // ---------- and all of this ----------

  // An unused booking id, and a user without bookings.
  lemma FreshBooking(db: Db) returns (b: BookingId, u: UserId)
    ensures b !in db.bookings
    ensures forall e :: !HasActive(db.bookings, u, e)
  {
    b := FreshNat(db.bookings.Keys);
    assert b !in db.bookings;
    var users := set c | c in db.bookings :: db.bookings[c].user;
    u := FreshNat(users);
    forall c | c in db.bookings ensures db.bookings[c].user != u {
      assert db.bookings[c].user in users;
    }
  }

  // Neither an audit row nor an update that waited between its read and its write.
  predicate Direct(h: seq<Action>, g: seq<Action>) {
    forall i :: 0 <= i < |g| ==> !g[i].LogCancel? && (g[i].Update? ==> g[i].readAt == |h| + i)
  }

  // `g` takes the event of `h` to this row, honestly, and loses or gains no ticket.
  ghost predicate Leads(h: seq<Action>, g: seq<Action>, e: EventId, row: EventRow) {
    && Direct(h, g) && Honest(g, e) && Valid(h + g)
    && e in Replay(h).events && e in Replay(h + g).events
    && Replay(h + g).events[e] == row
    && Kept(Replay(h + g), e) == Kept(Replay(h), e)
  }

  lemma OneMoreDirect(h: seq<Action>, g: seq<Action>, e: EventId, a: Action)
    requires Direct(h, g) && Honest(g, e)
    requires !a.LogCancel? && (a.Update? ==> a.readAt == |h| + |g| && HonestAction(a))
    ensures Direct(h, g + [a]) && Honest(g + [a], e)
  {
  }

  lemma LeadsOn(h: seq<Action>, g: seq<Action>, e: EventId, row: EventRow, a: Action, row': EventRow)
    requires Leads(h, g, e, row) && !a.LogCancel? && (a.Update? ==> a.readAt == |h| + |g| && HonestAction(a))
    requires CanFollow(h + g, a) && UpdateDrift(Replay(h + g), a, e) == 0
    requires e in Apply(Replay(h + g), a).events && Apply(Replay(h + g), a).events[e] == row'
    ensures Leads(h, g + [a], e, row')
  {
    OneMoreDirect(h, g, e, a);
    Extend(h + g, a);
    ReplayOk(h + g);
    hide Valid, Replay, Kept, CanFollow, Apply, UpdateDrift, Direct, Honest;
    LedgerStep(Replay(h + g), a, e);
    assert h + (g + [a]) == h + g + [a];
  }

  // An update that changes at most the status is honest and only raises the version.
  lemma Bump(h: seq<Action>, g: seq<Action>, e: EventId, row: EventRow, status: EventStatus) returns (a: Action)
    requires Leads(h, g, e, row) && !row.deleted && row.version < MAX_INT
    ensures Leads(h, g + [a], e, row.(status := status, version := row.version + 1))
  {
    a := ReadNow(h + g, e, Edit(row.total, row.price, status, row.version));
    ReplayOk(h + g);
    assert (h + g)[..|h + g|] == h + g;
    hide Valid, Kept;
    LeadsOn(h, g, e, row, a, row.(status := status, version := row.version + 1));
  }

  lemma {:induction false} Publish(h: seq<Action>, e: EventId, k: nat) returns (g: seq<Action>)
    requires Valid(h) && e in Replay(h).events && !Replay(h).events[e].deleted
    requires Replay(h).events[e].version + k <= MAX_INT
    ensures var r := Replay(h).events[e];
            Leads(h, g, e, r.(status := if k == 0 then r.status else Published, version := r.version + k))
    decreases k
  {
    var r := Replay(h).events[e];
    if k == 0 {
      g := [];
      assert h + g == h;
    } else {
      hide Leads, Valid, Replay;
      var most := Publish(h, e, k - 1);
      var before := r.(status := if k == 1 then r.status else Published, version := r.version + k - 1);
      var a := Bump(h, most, e, before, Published);
      g := most + [a];
    }
  }

  lemma Sell(h: seq<Action>, g: seq<Action>, e: EventId, row: EventRow, n: int) returns (a: Action)
    requires Leads(h, g, e, row) && row.status == Published && !row.deleted
    requires 0 < n <= row.remaining && row.version < MAX_INT
    ensures Leads(h, g + [a], e, row.(remaining := row.remaining - n, version := row.version + 1))
  {
    var b, u := FreshBooking(Replay(h + g));
    a := Book(b, u, e, n, 0);
    hide Valid, Kept;
    LeadsOn(h, g, e, row, a, row.(remaining := row.remaining - n, version := row.version + 1));
  }

  // A way to the row that the update needs: enough tickets sold, its version reached.
  lemma Prepare(h: seq<Action>, u: Action, m: int) returns (g: seq<Action>, row: EventRow)
    requires Valid(h) && u.Update? && ReadEarlier(h, u) && u.e in Replay(h).events
    requires 0 < m && CanResell(Replay(h).events[u.e], u.read, u.edit, m)
    ensures Leads(h, g, u.e, row)
    ensures !row.deleted && row.version == u.edit.version && m <= u.read.remaining - row.remaining
  {
    var e, v := u.e, u.edit.version;
    var now := Replay(h).events[e];
    hide Leads, Valid, Replay, ReadEarlier;
    if m <= u.read.remaining - now.remaining {
      g := Publish(h, e, v - now.version);
      row := now.(status := if v == now.version then now.status else Published, version := v);
    } else {
      var raise := Publish(h, e, v - now.version - 1);
      var n := m - (u.read.remaining - now.remaining);
      row := now.(status := Published, version := v - 1);
      var a := Sell(h, raise, e, row, n);
      g := raise + [a];
      row := row.(remaining := row.remaining - n, version := v);
    }
  }

  lemma UpdateFollows(h: seq<Action>, g: seq<Action>, u: Action, row: EventRow)
    requires Valid(h) && u.Update? && ReadEarlier(h, u) && Leads(h, g, u.e, row)
    requires !row.deleted && row.version == u.edit.version
    requires EventChecks(Edited(u.read, u.edit).(version := u.edit.version + 1))
    ensures Valid(h + g + [u])
    ensures UpdateDrift(Replay(h + g), u, u.e) == u.read.remaining - row.remaining
  {
    assert (h + g)[..u.readAt] == h[..u.readAt];
    Extend(h + g, u);
    ReplayOk(h + g);
    hide Valid, Replay, Kept;
  }

  lemma ThenIndeed(h: seq<Action>, u: Action, m: int) returns (g: seq<Action>)
    requires Valid(h) && u.Update? && ReadEarlier(h, u) && u.e in Replay(h).events
    requires 0 < m && CanResell(Replay(h).events[u.e], u.read, u.edit, m)
    ensures Direct(h, g) && Resells(h, g, u, m)
  {
    var row;
    g, row := Prepare(h, u, m);
    UpdateFollows(h, g, u, row);
    Extend(h + g, u);
    ReplayOk(h + g);
    hide Valid, Replay, Kept, CanResell, ReadEarlier, Apply, UpdateDrift;
    LedgerStep(Replay(h + g), u, u.e);
  }

  // In every valid history: an update that has read the event at any point of it and not
  // written yet can leave at least `m` more tickets than there are now, all other updates
  // being honest from now on, if and only if `CanResell` holds.
  lemma ResellsIff(h: seq<Action>, u: Action, m: int)
    requires Valid(h) && u.Update? && ReadEarlier(h, u) && 0 < m
    ensures u.e in Replay(h).events
    ensures (exists g :: Resells(h, g, u, m)) <==> CanResell(Replay(h).events[u.e], u.read, u.edit, m)
  {
    SinceVersion(h, u.readAt, u.e);
    if g :| Resells(h, g, u, m) {
      OnlyThen(h, g, u, m);
    }
    if CanResell(Replay(h).events[u.e], u.read, u.edit, m) {
      var g := ThenIndeed(h, u, m);
    }
  }
}
