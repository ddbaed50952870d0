// What the rate limiter remembers, in closed form: every answer of the script, for any window
// and limit and for callers whose clocks say anything.
module Remembering {
  import opened Schema
  import opened SlidingWindow

  // The Redis clock never goes back and request ids are fresh; callers' clocks are arbitrary.
  predicate Ordered(calls: seq<Call>) {
    forall i, j :: 0 <= i < j < |calls| ==> calls[i].clock <= calls[j].clock && calls[i].id != calls[j].id
  }

  predicate AdmittedAt(window: int, limit: int, calls: seq<Call>, i: nat)
    requires i < |calls|
  {
    Admits(window, limit, Exec(window, limit, calls[..i]), calls[i])
  }

  // Call `c` comes within the window after `a`, on the Redis clock: the key has not gone.
  predicate InTime(window: int, a: Call, c: Call) {
    c.clock < a.clock + window || (c.clock == a.clock + window && !c.dropsAtExpiry)
  }

  // Some admitted call since i keeps the key alive for call j.
  predicate KeptAlive(window: int, limit: int, calls: seq<Call>, i: nat, j: nat)
    requires i < j < |calls|
  {
    exists a: nat :: i <= a < j && AdmittedAt(window, limit, calls, a) && InTime(window, calls[a], calls[j])
  }

  // Call j leaves the score of call i alone: the key is alive, and the timestamp of i is not
  // too old for j (nor negative, which is never pruned).
  predicate Leaves(window: int, limit: int, calls: seq<Call>, i: nat, j: nat)
    requires i < j < |calls|
  {
    KeptAlive(window, limit, calls, i, j) && !(0 <= calls[i].now <= calls[j].now - window)
  }

  // Call i was admitted, and every call between it and k has left it alone.
  predicate Counted(window: int, limit: int, calls: seq<Call>, i: nat, k: nat)
    requires k <= |calls|
  {
    && i < k && AdmittedAt(window, limit, calls, i)
    && forall j: nat :: i < j < k ==> Leaves(window, limit, calls, i, j)
  }

  predicate LastAdmitted(window: int, limit: int, calls: seq<Call>, a: nat, k: nat)
    requires k <= |calls|
  {
    && a < k && AdmittedAt(window, limit, calls, a)
    && forall b: nat :: a < b < k ==> !AdmittedAt(window, limit, calls, b)
  }

  // A map of scores that holds exactly the calls counted before k.
  ghost predicate HoldsCounted(window: int, limit: int, calls: seq<Call>, k: nat, scores: map<RequestId, int>)
    requires k <= |calls|
  {
    && (forall i: nat :: Counted(window, limit, calls, i, k) ==>
          calls[i].id in scores && scores[calls[i].id] == calls[i].now)
    && (forall id :: id in scores ==> exists i: nat :: Counted(window, limit, calls, i, k) && calls[i].id == id)
  }

  // The expiry is that of the last admitted call.
  ghost predicate HoldsExpiry(window: int, limit: int, calls: seq<Call>, k: nat, b: Bucket)
    requires k <= |calls|
  {
    b.scores != map[] ==>
      exists a: nat :: LastAdmitted(window, limit, calls, a, k) && b.expires == Some(calls[a].clock + window)
  }

  ghost predicate Remembered(window: int, limit: int, calls: seq<Call>, k: nat, b: Bucket)
    requires k <= |calls|
  {
    HoldsCounted(window, limit, calls, k, b.scores) && HoldsExpiry(window, limit, calls, k, b)
  }

  // The Redis clock never going back, the key is still there for call k exactly if some
  // admitted call since i is within the window.
  lemma KeyStays(window: int, limit: int, calls: seq<Call>, i: nat, k: nat, b: Bucket)
    requires Ordered(calls) && k < |calls| && Remembered(window, limit, calls, k, b)
    requires Counted(window, limit, calls, i, k)
    ensures !Expired(b, calls[k]) <==> KeptAlive(window, limit, calls, i, k)
  {
    hide AdmittedAt, Leaves;
    assert calls[i].id in b.scores;
    var last: nat :| LastAdmitted(window, limit, calls, last, k) && b.expires == Some(calls[last].clock + window);
    if KeptAlive(window, limit, calls, i, k) {
      var a: nat :| i <= a < k && AdmittedAt(window, limit, calls, a) && InTime(window, calls[a], calls[k]);
      assert a <= last;
      assert calls[a].clock <= calls[last].clock;
    }
  }

  // So the script finds exactly the calls counted before k that call k leaves alone.
  lemma Found(window: int, limit: int, calls: seq<Call>, k: nat, b: Bucket)
    requires Ordered(calls) && k < |calls| && Remembered(window, limit, calls, k, b)
    ensures var kept := Kept(window, b, calls[k]);
            && (forall i: nat :: Counted(window, limit, calls, i, k) && Leaves(window, limit, calls, i, k) ==>
                  calls[i].id in kept && kept[calls[i].id] == calls[i].now)
            && (forall id :: id in kept ==>
                  exists i: nat :: Counted(window, limit, calls, i, k) && Leaves(window, limit, calls, i, k)
                                   && calls[i].id == id)
  {
    var kept := Kept(window, b, calls[k]);
    forall i: nat | Counted(window, limit, calls, i, k)
      ensures Leaves(window, limit, calls, i, k) <==> calls[i].id in kept
      ensures calls[i].id in kept ==> kept[calls[i].id] == calls[i].now
    {
      KeyStays(window, limit, calls, i, k, b);
      hide KeptAlive, Counted;
    }
    forall id | id in kept
      ensures exists i: nat :: Counted(window, limit, calls, i, k) && Leaves(window, limit, calls, i, k)
                               && calls[i].id == id
    {
      assert id in b.scores;
      var i: nat :| Counted(window, limit, calls, i, k) && calls[i].id == id;
    }
  }

  lemma CountedOn(window: int, limit: int, calls: seq<Call>, i: nat, k: nat)
    requires k < |calls|
    ensures Counted(window, limit, calls, i, k + 1)
       <==> if i < k then Counted(window, limit, calls, i, k) && Leaves(window, limit, calls, i, k)
            else i == k && AdmittedAt(window, limit, calls, k)
  {
    hide Leaves, AdmittedAt;
  }

  lemma OneMoreCall(window: int, limit: int, calls: seq<Call>, k: nat)
    requires k < |calls|
    ensures Exec(window, limit, calls[..k + 1]) == Next(window, limit, Exec(window, limit, calls[..k]), calls[k])
  {
    assert calls[..k + 1][..k] == calls[..k];
  }

  lemma CountedIfAdmitted(window: int, limit: int, calls: seq<Call>, k: nat, b: Bucket)
    requires Ordered(calls) && k < |calls| && Remembered(window, limit, calls, k, b)
    requires AdmittedAt(window, limit, calls, k)
    ensures HoldsCounted(window, limit, calls, k + 1, Kept(window, b, calls[k])[calls[k].id := calls[k].now])
  {
    var kept := Kept(window, b, calls[k]);
    var after := kept[calls[k].id := calls[k].now];
    Found(window, limit, calls, k, b);
    hide Counted, Leaves, AdmittedAt, Kept, Remembered, Ordered;
    CountedOn(window, limit, calls, k, k);
    forall i: nat | Counted(window, limit, calls, i, k + 1)
      ensures calls[i].id in after && after[calls[i].id] == calls[i].now
    {
      CountedIsEarlier(window, limit, calls, i, k + 1);
      CountedOn(window, limit, calls, i, k);
      if i < k { FreshId(calls, i, k); }
    }
    forall id | id in after
      ensures exists i: nat :: Counted(window, limit, calls, i, k + 1) && calls[i].id == id
    {
      if id != calls[k].id {
        assert id in kept;
        var i: nat :| Counted(window, limit, calls, i, k) && Leaves(window, limit, calls, i, k) && calls[i].id == id;
        CountedIsEarlier(window, limit, calls, i, k);
        CountedOn(window, limit, calls, i, k);
      }
    }
  }

  lemma FreshId(calls: seq<Call>, i: nat, k: nat)
    requires Ordered(calls) && i < k < |calls|
    ensures calls[i].id != calls[k].id
  {
  }

  lemma CountedIsEarlier(window: int, limit: int, calls: seq<Call>, i: nat, k: nat)
    requires k <= |calls| && Counted(window, limit, calls, i, k)
    ensures i < k
  {
  }

  lemma CountedIfRefused(window: int, limit: int, calls: seq<Call>, k: nat, b: Bucket)
    requires Ordered(calls) && k < |calls| && Remembered(window, limit, calls, k, b)
    requires !AdmittedAt(window, limit, calls, k)
    ensures HoldsCounted(window, limit, calls, k + 1, Kept(window, b, calls[k]))
  {
    Found(window, limit, calls, k, b);
    hide Leaves, AdmittedAt, Kept, Remembered, Counted;
    forall i: nat
      ensures Counted(window, limit, calls, i, k + 1) <==>
              i < k && Counted(window, limit, calls, i, k) && Leaves(window, limit, calls, i, k)
    {
      CountedOn(window, limit, calls, i, k);
    }
    forall id | id in Kept(window, b, calls[k])
      ensures exists i: nat :: Counted(window, limit, calls, i, k + 1) && calls[i].id == id
    {
      var i: nat :| Counted(window, limit, calls, i, k) && Leaves(window, limit, calls, i, k) && calls[i].id == id;
      CountedIsEarlier(window, limit, calls, i, k);
    }
  }

  lemma ExpiryRenewed(window: int, limit: int, calls: seq<Call>, k: nat, b: Bucket)
    requires 0 < window && k < |calls| && AdmittedAt(window, limit, calls, k)
    requires b == Exec(window, limit, calls[..k])
    ensures HoldsExpiry(window, limit, calls, k + 1, Next(window, limit, b, calls[k]))
  {
    assert Next(window, limit, b, calls[k]).expires == Some(calls[k].clock + window);
    hide Next, AdmittedAt, Exec;
    assert LastAdmitted(window, limit, calls, k, k + 1);
  }

  lemma LastStays(window: int, limit: int, calls: seq<Call>, a: nat, k: nat)
    requires k < |calls| && LastAdmitted(window, limit, calls, a, k) && !AdmittedAt(window, limit, calls, k)
    ensures LastAdmitted(window, limit, calls, a, k + 1)
  {
    hide AdmittedAt;
  }

  lemma ExpiryUntouched(window: int, limit: int, calls: seq<Call>, k: nat, b: Bucket)
    requires k < |calls| && HoldsExpiry(window, limit, calls, k, b) && !AdmittedAt(window, limit, calls, k)
    requires b == Exec(window, limit, calls[..k])
    ensures HoldsExpiry(window, limit, calls, k + 1, Next(window, limit, b, calls[k]))
  {
    if Next(window, limit, b, calls[k]).scores != map[] {
      assert b.scores != map[] && Next(window, limit, b, calls[k]).expires == b.expires;
      hide Next, AdmittedAt, Exec;
      var a: nat :| LastAdmitted(window, limit, calls, a, k) && b.expires == Some(calls[a].clock + window);
      hide LastAdmitted;
      LastStays(window, limit, calls, a, k);
    }
  }

  lemma RememberedOn(window: int, limit: int, calls: seq<Call>, k: nat, b: Bucket)
    requires 0 < window && Ordered(calls) && k < |calls| && Remembered(window, limit, calls, k, b)
    requires b == Exec(window, limit, calls[..k])
    ensures Remembered(window, limit, calls, k + 1, Next(window, limit, b, calls[k]))
  {
    hide HoldsCounted, HoldsExpiry, Exec, Kept, Ordered;
    if AdmittedAt(window, limit, calls, k) {
      ExpiryRenewed(window, limit, calls, k, b);
      CountedIfAdmitted(window, limit, calls, k, b);
    } else {
      ExpiryUntouched(window, limit, calls, k, b);
      CountedIfRefused(window, limit, calls, k, b);
    }
  }

  lemma NothingYet(window: int, limit: int, calls: seq<Call>)
    ensures Remembered(window, limit, calls, 0, EMPTY)
  {
  }

  lemma {:induction false} RememberedAlways(window: int, limit: int, calls: seq<Call>, k: nat)
    requires 0 < window && Ordered(calls) && k <= |calls|
    ensures Remembered(window, limit, calls, k, Exec(window, limit, calls[..k]))
  {
    hide Remembered, Ordered, Next;
    if k == 0 {
      NothingYet(window, limit, calls);
      assert calls[..0] == [];
    } else {
      RememberedAlways(window, limit, calls, k - 1);
      OneMoreCall(window, limit, calls, k - 1);
      RememberedOn(window, limit, calls, k - 1, Exec(window, limit, calls[..k - 1]));
    }
  }

  lemma {:induction false} NothingRemembered(window: int, limit: int, calls: seq<Call>)
    requires window <= 0
    ensures Exec(window, limit, calls) == EMPTY
  {
    if calls != [] {
      NothingRemembered(window, limit, calls[..|calls| - 1]);
    }
  }

  // The ids of the calls that are counted when call k comes.
  ghost function CountedIds(window: int, limit: int, calls: seq<Call>, k: nat): set<RequestId>
    requires k < |calls|
  {
    set i: nat | i < k && Counted(window, limit, calls, i, k) && Leaves(window, limit, calls, i, k) :: calls[i].id
  }

  // The answer in closed form: a call is admitted exactly when fewer than `limit` admitted
  // requests are counted, one being counted until a call finds its timestamp too old, or a
  // pause of the window has passed on the Redis clock without an admitted call.
  lemma AdmitsExactly(window: int, limit: int, calls: seq<Call>, k: nat)
    requires Ordered(calls) && k < |calls|
    ensures AdmittedAt(window, limit, calls, k)
       <==> if window <= 0 then 0 < limit else |CountedIds(window, limit, calls, k)| < limit
  {
    var b := Exec(window, limit, calls[..k]);
    if window <= 0 {
      NothingRemembered(window, limit, calls[..k]);
      assert Kept(window, EMPTY, calls[k]) == map[];
    } else {
      RememberedAlways(window, limit, calls, k);
      Found(window, limit, calls, k, b);
      KeysOf(window, limit, calls, k, Kept(window, b, calls[k]));
    }
  }

  lemma KeysOf(window: int, limit: int, calls: seq<Call>, k: nat, kept: map<RequestId, int>)
    requires k < |calls|
    requires forall i: nat :: Counted(window, limit, calls, i, k) && Leaves(window, limit, calls, i, k) ==>
               calls[i].id in kept
    requires forall id :: id in kept ==>
               exists i: nat :: Counted(window, limit, calls, i, k) && Leaves(window, limit, calls, i, k)
                                && calls[i].id == id
    ensures |CountedIds(window, limit, calls, k)| == |kept|
  {
    hide Leaves;
    assert kept.Keys == CountedIds(window, limit, calls, k);
    assert |kept.Keys| == |kept|;
  }

  // No longer memory: once the window has passed on the Redis clock since the last admitted
  // call, the next call is admitted whatever its own timestamp.
  lemma ForgottenAfterWindow(window: int, limit: int, calls: seq<Call>, k: nat)
    requires Ordered(calls) && k < |calls| && 0 < limit
    requires forall a: nat :: a < k && AdmittedAt(window, limit, calls, a) ==>
               calls[a].clock + window < calls[k].clock
               || (calls[a].clock + window == calls[k].clock && calls[k].dropsAtExpiry)
    ensures AdmittedAt(window, limit, calls, k)
  {
    AdmitsExactly(window, limit, calls, k);
    hide AdmittedAt, Counted;
    if 0 < window {
      assert CountedIds(window, limit, calls, k) == {};
    }
  }
}
