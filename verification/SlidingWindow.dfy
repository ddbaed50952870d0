// The sliding-window rate limiter: the Lua script on a Redis sorted set with PEXPIRE.
module SlidingWindow {
  import opened Schema

  type RequestId = nat

  // A Redis key.
  datatype Key = Key(name: string)

  // The sorted set of one key (member to score) and the time at which PEXPIRE drops it.
  datatype Bucket = Bucket(scores: map<RequestId, int>, expires: Option<int>)

  const EMPTY := Bucket(map[], None)

  // One call: the Redis clock when the script runs, the caller's timestamp, the fresh
  // request id, and whether Redis drops the key at the very instant of its expiry.
  datatype Call = Call(clock: int, now: int, id: RequestId, dropsAtExpiry: bool)

  predicate Expired(b: Bucket, c: Call) {
    b.expires.Some? && (b.expires.value < c.clock || (b.expires.value == c.clock && c.dropsAtExpiry))
  }

  function Alive(b: Bucket, c: Call): Bucket {
    if Expired(b, c) then EMPTY else b
  }

  // ZREMRANGEBYSCORE key 0 (now - window)
  function Prune(scores: map<RequestId, int>, upTo: int): map<RequestId, int> {
    map id | id in scores && !(0 <= scores[id] <= upTo) :: scores[id]
  }

  // An empty sorted set is no key at all.
  function Pruned(b: Bucket, upTo: int): Bucket {
    var kept := Prune(b.scores, upTo);
    if kept == map[] then EMPTY else b.(scores := kept)
  }

  function Kept(window: int, b: Bucket, c: Call): map<RequestId, int> {
    Prune(Alive(b, c).scores, c.now - window)
  }

  predicate Admits(window: int, limit: int, b: Bucket, c: Call) {
    |Kept(window, b, c)| < limit
  }

  // PEXPIRE with a non-positive time deletes the key.
  function Next(window: int, limit: int, b: Bucket, c: Call): Bucket {
    var kept := Kept(window, b, c);
    if |kept| < limit then
      if window <= 0 then EMPTY else Bucket(kept[c.id := c.now], Some(c.clock + window))
    else if kept == map[] then EMPTY
    else Bucket(kept, Alive(b, c).expires)
  }

  function Exec(window: int, limit: int, calls: seq<Call>): Bucket {
    if calls == [] then EMPTY
    else Next(window, limit, Exec(window, limit, calls[..|calls| - 1]), calls[|calls| - 1])
  }

  // ---------- the script, statement by statement ----------

  class Redis {
    var sets: map<Key, map<RequestId, int>>
    var expiries: map<Key, int>

    // A sorted set that exists is not empty, and only existing keys have an expiry.
    predicate Valid()
      reads this
    {
      && expiries.Keys <= sets.Keys
      && forall k :: k in sets ==> sets[k] != map[]
    }

    function BucketOf(key: Key): Bucket
      reads this
    {
      if key in sets then Bucket(sets[key], if key in expiries then Some(expiries[key]) else None) else EMPTY
    }

    constructor ()
      ensures Valid() && forall key :: BucketOf(key) == EMPTY
    {
      sets, expiries := map[], map[];
    }

    method Delete(key: Key)
      requires Valid()
      modifies this
      ensures Valid() && BucketOf(key) == EMPTY
      ensures forall k :: k != key ==> BucketOf(k) == old(BucketOf(k))
    {
      sets := sets - {key};
      expiries := expiries - {key};
    }

    method RemoveByScore(key: Key, upTo: int)
      requires Valid()
      modifies this
      ensures Valid()
      ensures BucketOf(key) == Pruned(old(BucketOf(key)), upTo)
      ensures forall k :: k != key ==> BucketOf(k) == old(BucketOf(k))
    {
      if key in sets {
        var kept := Prune(sets[key], upTo);
        if kept == map[] {
          Delete(key);
        } else {
          sets := sets[key := kept];
        }
      }
    }

    // ZCARD
    method Count(key: Key) returns (count: nat)
      ensures count == |BucketOf(key).scores|
    {
      count := if key in sets then |sets[key]| else 0;
    }

    // ZADD, then PEXPIRE
    method AddAndExpire(key: Key, window: int, c: Call)
      requires Valid()
      modifies this
      ensures Valid()
      ensures BucketOf(key) == if window <= 0 then EMPTY
                               else Bucket(old(BucketOf(key)).scores[c.id := c.now], Some(c.clock + window))
      ensures forall k :: k != key ==> BucketOf(k) == old(BucketOf(k))
    {
      var members := if key in sets then sets[key] else map[];
      sets := sets[key := members[c.id := c.now]];
      assert c.id in sets[key];
      if window <= 0 {
        Delete(key);
      } else {
        expiries := expiries[key := c.clock + window];
      }
    }

    method DropExpired(key: Key, c: Call)
      requires Valid()
      modifies this
      ensures Valid() && BucketOf(key) == Alive(old(BucketOf(key)), c)
      ensures forall k :: k != key ==> BucketOf(k) == old(BucketOf(k))
    {
      if Expired(BucketOf(key), c) {
        Delete(key);
      }
    }

    // The whole script, as Redis runs it: an expired key is dropped on access.
    method Allow(key: Key, window: int, limit: int, c: Call) returns (allowed: bool)
      requires Valid()
      modifies this
      ensures Valid()
      ensures allowed == Admits(window, limit, old(BucketOf(key)), c)
      ensures BucketOf(key) == Next(window, limit, old(BucketOf(key)), c)
      ensures forall k :: k != key ==> BucketOf(k) == old(BucketOf(k))
    {
      DropExpired(key, c);
      RemoveByScore(key, c.now - window);
      hide Valid, Expired, Prune;
      assert BucketOf(key) == Pruned(Alive(old(BucketOf(key)), c), c.now - window);
      var count := Count(key);
      if count < limit {
        AddAndExpire(key, window, c);
        return true;
      }
      return false;
    }
  }

  // ---------- the limit under clock skew ----------

  // The Redis clock never goes back, request ids are fresh, and each caller's clock is
  // within `skew` of the Redis clock.
  predicate WellTimed(calls: seq<Call>, skew: int) {
    && (forall i, j :: 0 <= i < j < |calls| ==> calls[i].clock <= calls[j].clock && calls[i].id != calls[j].id)
    && (forall i :: 0 <= i < |calls| ==> calls[i].clock - skew <= calls[i].now <= calls[i].clock + skew)
  }

  // The requests admitted at Redis times in [from, from + length).
  function AdmittedIn(window: int, limit: int, calls: seq<Call>, from: int, length: int): set<RequestId> {
    if calls == [] then {}
    else
      var prefix, last := calls[..|calls| - 1], calls[|calls| - 1];
      AdmittedIn(window, limit, prefix, from, length)
      + if Admits(window, limit, Exec(window, limit, prefix), last) && from <= last.clock < from + length
        then {last.id} else {}
  }

  // Until the time window is over, what was admitted in it is neither pruned nor expired.
  predicate Remembers(window: int, b: Bucket, ids: set<RequestId>, from: int, skew: int) {
    && (forall id :: id in ids ==> id in b.scores && from - skew <= b.scores[id])
    && (ids != {} ==> b.expires.Some? && from + window <= b.expires.value)
  }

  lemma StillKept(window: int, b: Bucket, c: Call, ids: set<RequestId>, from: int, length: int, skew: int)
    requires 0 <= skew && length <= window - 2 * skew
    requires Remembers(window, b, ids, from, skew)
    requires c.clock < from + length && c.now <= c.clock + skew
    ensures forall id :: id in ids ==> id in Kept(window, b, c) && Kept(window, b, c)[id] == b.scores[id]
    ensures ids != {} ==> !Expired(b, c)
  {
  }

  lemma {:induction false} WindowRemembered(window: int, limit: int, calls: seq<Call>, from: int, length: int,
                                            skew: int)
    requires WellTimed(calls, skew) && 0 <= skew && length <= window - 2 * skew
    requires forall i :: 0 <= i < |calls| ==> calls[i].clock < from + length
    ensures Remembers(window, Exec(window, limit, calls), AdmittedIn(window, limit, calls, from, length), from, skew)
    ensures AdmittedIn(window, limit, calls, from, length) != {} ==> calls != [] && from <= calls[|calls| - 1].clock
  {
    if calls != [] {
      var prefix, last := calls[..|calls| - 1], calls[|calls| - 1];
      WindowRemembered(window, limit, prefix, from, length, skew);
      StillKept(window, Exec(window, limit, prefix), last,
                AdmittedIn(window, limit, prefix, from, length), from, length, skew);
    }
  }

  lemma {:induction false} SubsetSize(a: set<RequestId>, b: set<RequestId>)
    requires a <= b
    ensures |a| <= |b|
  {
    if a != {} {
      var x :| x in a;
      SubsetSize(a - {x}, b - {x});
    }
  }

  // In every run, key expiry included, any half-open time window of length window - 2 * skew
  // contains at most `limit` admitted requests; without skew that is the advertised limit.
  lemma {:induction false} AtMostLimit(window: int, limit: nat, calls: seq<Call>, from: int, length: int, skew: int)
    requires WellTimed(calls, skew) && 0 <= skew && length <= window - 2 * skew
    ensures |AdmittedIn(window, limit, calls, from, length)| <= limit
  {
    if calls != [] {
      var prefix, last := calls[..|calls| - 1], calls[|calls| - 1];
      var ids := AdmittedIn(window, limit, prefix, from, length);
      var b := Exec(window, limit, prefix);
      AtMostLimit(window, limit, prefix, from, length, skew);
      if Admits(window, limit, b, last) && from <= last.clock < from + length {
        forall i | 0 <= i < |prefix| ensures prefix[i].clock < from + length {
          assert prefix[i] == calls[i];
        }
        WindowRemembered(window, limit, prefix, from, length, skew);
        StillKept(window, b, last, ids, from, length, skew);
        SubsetSize(ids, Kept(window, b, last).Keys);
        assert |Kept(window, b, last).Keys| == |Kept(window, b, last)|;
        assert |ids + {last.id}| <= |ids| + 1;
      }
    }
  }

  // ---------- and for no longer windows ----------

  // `n` requests with the ids 0 .. n-1 at Redis time `skew`, from callers whose clocks are
  // behind by as much.
  function Late(skew: nat, n: nat): (calls: seq<Call>)
    ensures |calls| == n && forall i :: 0 <= i < n ==> calls[i] == Call(skew, 0, i, false)
  {
    if n == 0 then [] else Late(skew, n - 1) + [Call(skew, 0, n - 1, false)]
  }

  function Zeros(n: nat): (scores: map<RequestId, int>)
    ensures |scores| == n && forall id: RequestId :: id in scores <==> id < n
    ensures forall id :: id in scores ==> scores[id] == 0
  {
    if n == 0 then map[] else Zeros(n - 1)[n - 1 := 0]
  }

  function AfterLate(window: int, skew: nat, n: nat): Bucket {
    if n == 0 || window <= 0 then EMPTY else Bucket(Zeros(n), Some(skew + window))
  }

  // Nothing is too old while the threshold is below the scores.
  lemma NothingPruned(scores: map<RequestId, int>, upTo: int)
    requires upTo < 0 || scores == map[]
    ensures Prune(scores, upTo) == scores
  {
  }

  lemma OneLateAdmitted(window: int, limit: nat, skew: nat, n: nat)
    requires n < limit
    ensures var b, c := AfterLate(window, skew, n), Call(skew, 0, n, false);
            Admits(window, limit, b, c) && Next(window, limit, b, c) == AfterLate(window, skew, n + 1)
  {
    var b, c := AfterLate(window, skew, n), Call(skew, 0, n, false);
    NothingPruned(b.scores, c.now - window);
    assert Zeros(n + 1) == Zeros(n)[n := 0];
    hide Prune, Zeros;
    assert Kept(window, b, c) == b.scores;
  }

  lemma {:induction false} AllLateAdmitted(window: int, limit: nat, skew: nat, n: nat, length: int)
    requires n <= limit && 0 < length
    ensures Exec(window, limit, Late(skew, n)) == AfterLate(window, skew, n)
    ensures AdmittedIn(window, limit, Late(skew, n), skew, length) == Zeros(n).Keys
  {
    if n == 0 {
      assert Late(skew, 0) == [];
    } else {
      hide Next, Admits, AfterLate, Exec, AdmittedIn, Zeros;
      var prefix, last := Late(skew, n - 1), Call(skew, 0, n - 1, false);
      AllLateAdmitted(window, limit, skew, n - 1, length);
      OneLateAdmitted(window, limit, skew, n - 1);
      AppendCall(window, limit, prefix, last, skew, length);
      assert Late(skew, n) == prefix + [last];
      OneMoreZero(n - 1);
    }
  }

  lemma OneMoreZero(n: nat)
    ensures Zeros(n + 1).Keys == Zeros(n).Keys + {n}
  {
  }

  lemma AppendCall(window: int, limit: int, calls: seq<Call>, c: Call, from: int, length: int)
    ensures Exec(window, limit, calls + [c]) == Next(window, limit, Exec(window, limit, calls), c)
    ensures AdmittedIn(window, limit, calls + [c], from, length)
         == AdmittedIn(window, limit, calls, from, length)
            + if Admits(window, limit, Exec(window, limit, calls), c) && from <= c.clock < from + length
              then {c.id} else {}
  {
    assert (calls + [c])[..|calls|] == calls;
  }

  // `limit` late requests, and one more from a caller whose clock is ahead by `skew`, as
  // soon as the window of that clock has passed the late timestamps.
  function OneMore(window: int, limit: nat, skew: nat): (calls: seq<Call>)
    ensures WellTimed(calls, skew)
  {
    var gap := if window <= 2 * skew then 0 else window - 2 * skew;
    Late(skew, limit) + [Call(skew + gap, 2 * skew + gap, limit, false)]
  }

  // The last call finds only scores that its own window has passed.
  lemma AllPruned(window: int, skew: nat, n: nat, c: Call)
    requires window <= c.now
    ensures Kept(window, AfterLate(window, skew, n), c) == map[]
  {
  }

  lemma OneMoreAdmitted(window: int, limit: nat, skew: nat, length: int)
    requires 0 < limit && 0 < length && window - 2 * skew < length
    ensures |AdmittedIn(window, limit, OneMore(window, limit, skew), skew, length)| == limit + 1
  {
    var calls := OneMore(window, limit, skew);
    var last := calls[limit];
    assert calls == Late(skew, limit) + [last];
    hide Late, Zeros, Kept, AfterLate, AdmittedIn, Exec;
    AllLateAdmitted(window, limit, skew, limit, length);
    AllPruned(window, skew, limit, last);
    AppendCall(window, limit, Late(skew, limit), last, skew, length);
    assert AdmittedIn(window, limit, calls, skew, length) == Zeros(limit).Keys + {limit};
    assert |Zeros(limit).Keys| == |Zeros(limit)|;
  }

  // No run whatever admits more than `limit` requests in a time window of this length.
  ghost predicate Limited(window: int, limit: nat, skew: nat, length: int) {
    forall calls, from | WellTimed(calls, skew) :: |AdmittedIn(window, limit, calls, from, length)| <= limit
  }

  // With clocks off by at most `skew`, the limit holds for time windows of a length if and
  // only if that length is at most window - 2 * skew (or nothing can be admitted in it at
  // all). If the window is no longer than 2 * skew it holds for none.
  lemma LimitIff(window: int, limit: nat, skew: nat, length: int)
    ensures Limited(window, limit, skew, length)
       <==> limit == 0 || length <= 0 || length <= window - 2 * skew
  {
    if limit == 0 || length <= 0 || length <= window - 2 * skew {
      forall calls, from | WellTimed(calls, skew)
        ensures |AdmittedIn(window, limit, calls, from, length)| <= limit
      {
        if length <= window - 2 * skew {
          AtMostLimit(window, limit, calls, from, length, skew);
        } else {
          NoneAdmitted(window, limit, calls, from, length);
        }
      }
    } else {
      OneMoreAdmitted(window, limit, skew, length);
    }
  }

  lemma {:induction false} NoneAdmitted(window: int, limit: nat, calls: seq<Call>, from: int, length: int)
    requires limit == 0 || length <= 0
    ensures AdmittedIn(window, limit, calls, from, length) == {}
  {
    if calls != [] {
      NoneAdmitted(window, limit, calls[..|calls| - 1], from, length);
    }
  }

  // ---------- refinement of a log that never forgets ----------

  // Every admitted request with its timestamp, kept for ever.
  type Log = map<RequestId, int>

  function Recent(log: Log, after: int): set<RequestId> {
    set id | id in log && after < log[id]
  }

  // Admit iff fewer than `limit` requests were admitted since now - window.
  predicate LogAdmits(window: int, limit: int, log: Log, c: Call) {
    |Recent(log, c.now - window)| < limit
  }

  function LogAfter(window: int, limit: int, calls: seq<Call>): Log {
    if calls == [] then map[]
    else
      var log, last := LogAfter(window, limit, calls[..|calls| - 1]), calls[|calls| - 1];
      if LogAdmits(window, limit, log, last) then log[last.id := last.now] else log
  }

  // One clock, never negative.
  predicate OneClock(calls: seq<Call>) {
    && WellTimed(calls, 0)
    && forall i :: 0 <= i < |calls| ==> 0 <= calls[i].now
  }

  // What the bucket has forgotten at time `t` is too old to matter from `t` on.
  predicate Abstracts(window: int, b: Bucket, log: Log, t: int) {
    && (forall id :: id in log ==> 0 <= log[id] <= t)
    && (forall id :: id in b.scores ==> id in log && b.scores[id] == log[id])
    && (forall id :: id in log && id !in b.scores ==> log[id] <= t - window)
    && (b.expires.Some? ==> forall id :: id in log ==> log[id] <= b.expires.value - window)
  }

  lemma KeptIsRecent(window: int, b: Bucket, log: Log, t: int, c: Call)
    requires Abstracts(window, b, log, t) && t <= c.now == c.clock
    ensures Kept(window, b, c).Keys == Recent(log, c.now - window)
    ensures |Kept(window, b, c)| == |Recent(log, c.now - window)|
  {
    assert |Kept(window, b, c).Keys| == |Kept(window, b, c)|;
  }

  lemma LogStep(window: int, limit: int, b: Bucket, log: Log, t: int, c: Call)
    requires Abstracts(window, b, log, t) && t <= c.now == c.clock && 0 <= c.now && c.id !in log
    ensures Admits(window, limit, b, c) == LogAdmits(window, limit, log, c)
    ensures Abstracts(window, Next(window, limit, b, c),
                      if LogAdmits(window, limit, log, c) then log[c.id := c.now] else log, c.now)
  {
    KeptIsRecent(window, b, log, t, c);
  }

  lemma {:induction false} LogIds(window: int, limit: int, calls: seq<Call>, id: RequestId)
    requires id in LogAfter(window, limit, calls)
    ensures exists i :: 0 <= i < |calls| && calls[i].id == id
  {
    var prefix, last := calls[..|calls| - 1], calls[|calls| - 1];
    if id in LogAfter(window, limit, prefix) {
      LogIds(window, limit, prefix, id);
      var i :| 0 <= i < |prefix| && prefix[i].id == id;
      assert calls[i].id == id;
    } else {
      assert calls[|calls| - 1].id == id;
    }
  }

  lemma {:induction false} BucketAbstractsLog(window: int, limit: int, calls: seq<Call>)
    requires OneClock(calls)
    ensures Abstracts(window, Exec(window, limit, calls), LogAfter(window, limit, calls),
                      if calls == [] then 0 else calls[|calls| - 1].now)
  {
    if calls != [] {
      var prefix, last := calls[..|calls| - 1], calls[|calls| - 1];
      BucketAbstractsLog(window, limit, prefix);
      if last.id in LogAfter(window, limit, prefix) {
        LogIds(window, limit, prefix, last.id);
        assert false;
      }
      LogStep(window, limit, Exec(window, limit, prefix), LogAfter(window, limit, prefix),
              if prefix == [] then 0 else prefix[|prefix| - 1].now, last);
    }
  }

  // Pruning and expiry never change an answer: the next request is admitted exactly when a
  // log of all admitted requests holds fewer than `limit` of them within the window.
  lemma RefinesFullLog(window: int, limit: int, calls: seq<Call>, c: Call)
    requires OneClock(calls + [c])
    ensures Admits(window, limit, Exec(window, limit, calls), c)
        <==> LogAdmits(window, limit, LogAfter(window, limit, calls), c)
  {
    hide Kept, Abstracts, Exec, LogAfter, Admits, LogAdmits;
    BeforeLast(calls, c);
    BucketAbstractsLog(window, limit, calls);
    KeptIsRecent(window, Exec(window, limit, calls), LogAfter(window, limit, calls),
                 if calls == [] then 0 else calls[|calls| - 1].now, c);
    SameAnswer(window, limit, Exec(window, limit, calls), LogAfter(window, limit, calls), c);
  }

  lemma BeforeLast(calls: seq<Call>, c: Call)
    requires OneClock(calls + [c])
    ensures OneClock(calls) && c.now == c.clock && 0 <= c.now && (calls != [] ==> calls[|calls| - 1].now <= c.now)
  {
    var all := calls + [c];
    assert all[|calls|] == c;
    forall i | 0 <= i < |calls| ensures calls[i] == all[i] {}
    assert calls != [] ==> all[|calls| - 1].clock <= all[|calls|].clock;
  }

  lemma SameAnswer(window: int, limit: int, b: Bucket, log: Log, c: Call)
    requires |Kept(window, b, c)| == |Recent(log, c.now - window)|
    ensures Admits(window, limit, b, c) <==> LogAdmits(window, limit, log, c)
  {
  }
}
