// Field-level audit diffs: ComputeDiff, replaying diffs, and the diff of a cancellation.
module AuditDiff {
  import opened Schema
  import opened History
  import opened Protocol
  import opened Guarantees

  // The values of a flat JSON object.
  datatype Value = Null | Flag(on: bool) | Number(n: int) | Text(s: string)

  type Snapshot = map<string, Value>

  datatype DiffEntry = DiffEntry(before: Value, after: Value)

  type Diff = map<string, DiffEntry>

  // ---------- rendering with %v ----------

  function Digits(n: nat): string {
    (if n < 10 then [] else Digits(n / 10)) + [('0' as int + n % 10) as char]
  }

  function Decimal(n: int): string {
    if n < 0 then "-" + Digits(-n) else Digits(n)
  }

  function StripZeros(s: string): string {
    if s != "" && s[|s| - 1] == '0' then StripZeros(s[..|s| - 1]) else s
  }

  function Point(mantissa: string): string {
    if |mantissa| <= 1 then mantissa else mantissa[..1] + "." + mantissa[1..]
  }

  function TwoDigits(n: nat): string {
    if n < 10 then "0" + Digits(n) else Digits(n)
  }

  // A float64 of a million or more: shortest mantissa, and an exponent of two digits at least.
  function Exponential(n: nat): string {
    Point(StripZeros(Digits(n))) + "e" + ("+" + TwoDigits(|Digits(n)| - 1))
  }

  // JSON numbers arrive as float64.
  function NumberText(n: int): string {
    if -1_000_000 < n < 1_000_000 then Decimal(n)
    else if n < 0 then "-" + Exponential(-n)
    else Exponential(n)
  }

  function Render(v: Value): string {
    match v
    case Null => "<nil>"
    case Flag(on) => if on then "true" else "false"
    case Number(n) => NumberText(n)
    case Text(s) => s
  }

  // ---------- different numbers render differently ----------

  lemma {:induction false} DigitsInjective(m: nat, n: nat)
    requires Digits(m) == Digits(n)
    ensures m == n
    decreases m
  {
    var a, b := Digits(m), Digits(n);
    assert a[|a| - 1] == b[|b| - 1];
    assert m % 10 == n % 10;
    assert a[..|a| - 1] == if m < 10 then [] else Digits(m / 10);
    assert b[..|b| - 1] == if n < 10 then [] else Digits(n / 10);
    if 10 <= m && 10 <= n {
      DigitsInjective(m / 10, n / 10);
    }
  }

  predicate AllDigits(s: string) {
    forall i :: 0 <= i < |s| ==> '0' <= s[i] <= '9'
  }

  lemma {:induction false} OnlyDigits(n: nat)
    ensures Digits(n) != [] && AllDigits(Digits(n)) && (0 < n ==> Digits(n)[0] != '0')
  {
    if 10 <= n {
      OnlyDigits(n / 10);
    }
  }

  lemma DecimalInjective(m: int, n: int)
    ensures Decimal(m) == Decimal(n) <==> m == n
  {
    if 0 <= m { OnlyDigits(m); }
    if 0 <= n { OnlyDigits(n); }
    if Decimal(m) == Decimal(n) {
      assert Decimal(m)[0] == Decimal(n)[0];
      if m < 0 {
        assert Decimal(m)[1..] == Digits(-m) && Decimal(n)[1..] == Digits(-n);
        DigitsInjective(-m, -n);
      } else {
        DigitsInjective(m, n);
      }
    }
  }

  function Zeros(n: nat): string {
    seq(n, _ => '0')
  }

  lemma {:induction false} OnlyZerosStripped(s: string)
    ensures |StripZeros(s)| <= |s| && s == StripZeros(s) + Zeros(|s| - |StripZeros(s)|)
    ensures s != "" && s[0] != '0' ==> StripZeros(s) != ""
  {
    if s != "" && s[|s| - 1] == '0' {
      OnlyZerosStripped(s[..|s| - 1]);
    }
  }

  lemma MantissaOf(n: nat)
    requires 0 < n
    ensures var m := StripZeros(Digits(n)); m != "" && AllDigits(m) && Point(m) != "" && '0' <= Point(m)[0] <= '9'
    ensures 'e' !in Point(StripZeros(Digits(n)))
  {
    OnlyDigits(n);
    OnlyZerosStripped(Digits(n));
    var m := StripZeros(Digits(n));
    assert m == Digits(n)[..|m|];
  }

  lemma SplitAtE(a: string, b: string, a': string, b': string)
    requires 'e' !in a && 'e' !in a' && a + "e" + b == a' + "e" + b'
    ensures a == a' && b == b'
  {
    var s := a + "e" + b;
    assert forall i :: 0 <= i < |a| ==> s[i] == a[i] != 'e';
    assert forall i :: 0 <= i < |a'| ==> s[i] == a'[i] != 'e';
    assert s[|a|] == 'e' && s[|a'|] == 'e';
    assert a == s[..|a|] && a' == s[..|a'|] && b == s[|a| + 1..] && b' == s[|a'| + 1..];
  }

  lemma PointInjective(m: string, n: string)
    requires Point(m) == Point(n)
    ensures m == n
  {
    if 1 < |m| {
      assert m == Point(m)[..1] + Point(m)[2..] && n == Point(n)[..1] + Point(n)[2..];
    }
  }

  lemma TwoDigitsInjective(m: nat, n: nat)
    requires TwoDigits(m) == TwoDigits(n)
    ensures m == n
  {
    OnlyDigits(m);
    OnlyDigits(n);
    if m < 10 && n < 10 {
      assert TwoDigits(m)[1..] == Digits(m) && TwoDigits(n)[1..] == Digits(n);
    }
    if m < 10 <==> n < 10 {
      DigitsInjective(m, n);
    }
  }

  lemma Written(n: nat)
    ensures Digits(n) != []
    ensures Exponential(n) == Point(StripZeros(Digits(n))) + "e" + ("+" + TwoDigits(|Digits(n)| - 1))
  {
    OnlyDigits(n);
    hide Digits;
  }

  lemma ExponentialInjective(m: nat, n: nat)
    requires 0 < m && 0 < n && Exponential(m) == Exponential(n)
    ensures m == n
  {
    hide StripZeros, Digits, Point, TwoDigits, Exponential, AllDigits, Zeros;
    MantissaOf(m);
    MantissaOf(n);
    Written(m);
    Written(n);
    var a, b := StripZeros(Digits(m)), StripZeros(Digits(n));
    var x, y := |Digits(m)| - 1, |Digits(n)| - 1;
    SplitAtE(Point(a), "+" + TwoDigits(x), Point(b), "+" + TwoDigits(y));
    PointInjective(a, b);
    assert TwoDigits(x) == ("+" + TwoDigits(x))[1..] && TwoDigits(y) == ("+" + TwoDigits(y))[1..];
    TwoDigitsInjective(x, y);
    OnlyZerosStripped(Digits(m));
    OnlyZerosStripped(Digits(n));
    DigitsInjective(m, n);
  }

  // Small numbers have no exponent; large ones start with a digit and have one.
  lemma TextShape(n: int)
    ensures 'e' !in Decimal(n)
    ensures 0 < n ==> 'e' in Exponential(n) && Exponential(n)[0] != '-'
  {
    OnlyDigits(Abs(n));
    if 0 < n {
      MantissaOf(n);
      assert Exponential(n)[|Point(StripZeros(Digits(n)))|] == 'e';
    }
  }

  predicate Small(n: int) {
    -1_000_000 < n < 1_000_000
  }

  function Abs(n: int): nat {
    if n < 0 then -n else n
  }

  lemma HasExponent(n: int)
    ensures 'e' in NumberText(n) <==> !Small(n)
    ensures !Small(n) ==> NumberText(n) == (if n < 0 then "-" else "") + Exponential(Abs(n))
    ensures !Small(n) ==> Exponential(Abs(n)) != "" && Exponential(Abs(n))[0] != '-'
  {
    TextShape(n);
    TextShape(Abs(n));
  }

  lemma NumbersRenderApart(m: int, n: int)
    ensures NumberText(m) == NumberText(n) <==> m == n
  {
    HasExponent(m);
    HasExponent(n);
    if NumberText(m) == NumberText(n) {
      if Small(m) {
        DecimalInjective(m, n);
      } else {
        hide Exponential;
        assert NumberText(m)[0] == NumberText(n)[0];
        assert m < 0 ==> Exponential(Abs(m)) == NumberText(m)[1..] && Exponential(Abs(n)) == NumberText(n)[1..];
        ExponentialInjective(Abs(m), Abs(n));
      }
    }
  }

  // ---------- what the texts say ----------

  // The number that a text of decimal digits stands for.
  function Reads(s: string): int {
    if s == "" then 0 else Reads(s[..|s| - 1]) * 10 + (s[|s| - 1] as int - '0' as int)
  }

  lemma {:induction false} DigitsReadBack(n: nat)
    ensures Reads(Digits(n)) == n
  {
    if 10 <= n {
      DigitsReadBack(n / 10);
      assert Digits(n)[..|Digits(n)| - 1] == Digits(n / 10);
    } else {
      assert Digits(n)[..0] == "";
    }
  }

  // Small numbers are written out.
  lemma SmallNumberText(n: nat)
    requires n < 1_000_000
    ensures var s := NumberText(n);
            s != "" && AllDigits(s) && Reads(s) == n && (s[0] == '0' ==> n == 0)
  {
    OnlyDigits(n);
    DigitsReadBack(n);
  }

  // Large ones are a mantissa without trailing zeros and an exponent of two digits or more:
  // the mantissa's digits filled up with zeros to exponent + 1 digits are the number.
  lemma LargeNumberText(n: nat) returns (m: string, x: string)
    requires 1_000_000 <= n
    ensures AllDigits(m) && AllDigits(x) && m != "" && m[0] != '0' && m[|m| - 1] != '0'
    ensures 2 <= |x| && (x[0] == '0' ==> |x| == 2)
    ensures NumberText(n) == (if |m| == 1 then m else [m[0], '.'] + m[1..]) + "e+" + x
    ensures |m| <= Reads(x) + 1 && Reads(m + Zeros(Reads(x) + 1 - |m|)) == n
  {
    hide StripZeros, Digits, Reads, TwoDigits, AllDigits, Zeros, Exponential, Point;
    Written(n);
    var k := |Digits(n)| - 1;
    m, x := StripZeros(Digits(n)), TwoDigits(k);
    MantissaReads(n);
    ExponentReads(k);
    PointIs(m);
    assert Point(m) + "e" + ("+" + x) == Point(m) + "e+" + x;
  }

  lemma PointIs(m: string)
    requires m != ""
    ensures Point(m) == if |m| == 1 then m else [m[0], '.'] + m[1..]
  {
  }

  lemma MantissaReads(n: nat)
    requires 0 < n
    ensures var m := StripZeros(Digits(n));
            && AllDigits(m) && m != "" && m[0] != '0' && m[|m| - 1] != '0' && |m| <= |Digits(n)|
            && Reads(m + Zeros(|Digits(n)| - |m|)) == n
  {
    OnlyDigits(n);
    DigitsReadBack(n);
    OnlyZerosStripped(Digits(n));
    NothingToStrip(Digits(n));
    var m := StripZeros(Digits(n));
    assert m == Digits(n)[..|m|];
    hide StripZeros, Digits, Reads;
  }

  lemma ExponentReads(k: nat)
    ensures var x := TwoDigits(k);
            AllDigits(x) && 2 <= |x| && (x[0] == '0' ==> |x| == 2) && Reads(x) == k
  {
    OnlyDigits(k);
    DigitsReadBack(k);
    if k < 10 {
      var x := TwoDigits(k);
      assert Digits(k)[..0] == "" && x[..1] == "0" && "0"[..0] == "";
      assert x[1] == Digits(k)[0];
    } else {
      TwoDigitsLong(k);
    }
  }

  lemma TwoDigitsLong(k: nat)
    requires 10 <= k
    ensures 2 <= |Digits(k)|
  {
    OnlyDigits(k / 10);
  }

  lemma {:induction false} NothingToStrip(s: string)
    ensures StripZeros(s) != "" ==> StripZeros(s)[|StripZeros(s)| - 1] != '0'
  {
    if s != "" && s[|s| - 1] == '0' {
      NothingToStrip(s[..|s| - 1]);
    }
  }

  lemma NegativeNumberText(n: int)
    requires n < 0
    ensures NumberText(n) == "-" + NumberText(-n)
  {
  }

  // ---------- which values render alike ----------

  predicate SameKind(a: Value, b: Value) {
    (a.Null? && b.Null?) || (a.Flag? && b.Flag?) || (a.Number? && b.Number?) || (a.Text? && b.Text?)
  }

  // Within a kind nothing is confused.
  lemma SameKindApart(a: Value, b: Value)
    requires SameKind(a, b)
    ensures Render(a) == Render(b) <==> a == b
  {
    if a.Number? {
      NumbersRenderApart(a.n, b.n);
    } else if a.Flag? && a.on != b.on {
      assert "true"[0] != "false"[0];
    }
  }

  lemma NumberStart(n: int)
    ensures NumberText(n) != "" && (NumberText(n)[0] == '-' || '0' <= NumberText(n)[0] <= '9')
  {
    OnlyDigits(Abs(n));
    if n != 0 {
      MantissaOf(Abs(n));
      assert Exponential(Abs(n))[0] == Point(StripZeros(Digits(Abs(n))))[0];
    }
    hide Exponential, Digits, StripZeros, Point;
  }

  // Across kinds only a text can be taken for something else: exactly for the text of it.
  lemma OtherKindsApart(a: Value, b: Value)
    requires !SameKind(a, b)
    ensures Render(a) == Render(b) <==>
            || (a.Text? && b.Number? && a.s == NumberText(b.n)) || (b.Text? && a.Number? && b.s == NumberText(a.n))
            || (a.Text? && b.Flag? && a.s == if b.on then "true" else "false")
            || (b.Text? && a.Flag? && b.s == if a.on then "true" else "false")
            || (a.Text? && b.Null? && a.s == "<nil>") || (b.Text? && a.Null? && b.s == "<nil>")
  {
    if a.Number? { NumberStart(a.n); }
    if b.Number? { NumberStart(b.n); }
    assert "true"[0] == 't' && "false"[0] == 'f' && "<nil>"[0] == '<';
    hide NumberText;
  }

  // ---------- ComputeDiff ----------

  function Get(s: Snapshot, k: string): Value {
    if k in s then s[k] else Null
  }

  // In only one of the states, or rendered differently in the two.
  predicate Changed(before: Snapshot, after: Snapshot, k: string) {
    || (k in before) != (k in after)
    || (k in before && k in after && Render(before[k]) != Render(after[k]))
  }

  function DiffOf(before: Snapshot, after: Snapshot): Diff {
    map k | k in before.Keys + after.Keys && Changed(before, after, k) :: DiffEntry(Get(before, k), Get(after, k))
  }

  // The keys of a Go map are visited in no particular order. First the keys of the new
  // state that are added or changed,
  method AddChanged(oldState: Snapshot, newState: Snapshot) returns (diff: Diff)
    ensures forall k :: k in diff <==> k in newState && Changed(oldState, newState, k)
    ensures forall k :: k in diff ==> diff[k] == DiffEntry(Get(oldState, k), Get(newState, k))
  {
    hide Render;
    diff := map[];
    var todo := newState.Keys;
    while todo != {}
      invariant todo <= newState.Keys
      invariant forall k :: k in diff <==> k in newState.Keys - todo && Changed(oldState, newState, k)
      invariant forall k :: k in diff ==> diff[k] == DiffEntry(Get(oldState, k), Get(newState, k))
      decreases |todo|
    {
      var key :| key in todo;
      todo := todo - {key};
      if key !in oldState || Render(oldState[key]) != Render(newState[key]) {
        diff := diff[key := DiffEntry(Get(oldState, key), newState[key])];
      }
    }
  }

  // then the keys of the old state that are gone.
  method AddRemoved(oldState: Snapshot, newState: Snapshot, changed: Diff) returns (diff: Diff)
    requires changed.Keys <= newState.Keys
    ensures forall k :: k in diff <==> k in changed || (k in oldState && k !in newState)
    ensures forall k :: k in diff ==> diff[k] == if k in changed then changed[k] else DiffEntry(Get(oldState, k), Null)
  {
    diff := changed;
    var todo := oldState.Keys;
    while todo != {}
      invariant todo <= oldState.Keys
      invariant forall k :: k in diff <==> k in changed || (k in oldState.Keys - todo && k !in newState)
      invariant forall k :: k in diff ==>
        diff[k] == if k in changed then changed[k] else DiffEntry(Get(oldState, k), Null)
      decreases |todo|
    {
      var key :| key in todo;
      todo := todo - {key};
      if key !in newState {
        diff := diff[key := DiffEntry(oldState[key], Null)];
      }
    }
  }

  // A key of one state only is always in; one whose values have the same kind in both states
  // exactly if they differ; and every entry has the two values themselves.
  method ComputeDiff(oldState: Snapshot, newState: Snapshot) returns (diff: Diff)
    ensures diff == DiffOf(oldState, newState)
    ensures forall k :: k in diff <==> Changed(oldState, newState, k)
    ensures forall k :: k in diff ==> k in oldState || k in newState
    ensures forall k :: (k in oldState) != (k in newState) ==> k in diff
    ensures forall k :: k in oldState && k in newState && SameKind(oldState[k], newState[k]) ==>
              (k in diff <==> oldState[k] != newState[k])
    ensures forall k :: k in diff ==>
              && (k in oldState ==> diff[k].before == oldState[k]) && (k !in oldState ==> diff[k].before == Null)
              && (k in newState ==> diff[k].after == newState[k]) && (k !in newState ==> diff[k].after == Null)
  {
    diff := AddChanged(oldState, newState);
    hide Render;
    diff := AddRemoved(oldState, newState, diff);
    forall k | k in oldState && k in newState && SameKind(oldState[k], newState[k])
      ensures Changed(oldState, newState, k) <==> oldState[k] != newState[k]
    {
      SameKindApart(oldState[k], newState[k]);
    }
  }

  // ---------- replaying a diff ----------

  predicate SameRendering(a: Snapshot, b: Snapshot) {
    a.Keys == b.Keys && forall k :: k in a.Keys && k in b.Keys ==> Render(a[k]) == Render(b[k])
  }

  // Set every key to its new value; a key without one is removed.
  function Forward(s: Snapshot, d: Diff): Snapshot {
    map k | k in s.Keys + d.Keys && (k in d ==> d[k].after != Null) :: if k in d then d[k].after else s[k]
  }

  function Backward(s: Snapshot, d: Diff): Snapshot {
    map k | k in s.Keys + d.Keys && (k in d ==> d[k].before != Null) :: if k in d then d[k].before else s[k]
  }

  predicate NilFree(s: Snapshot) {
    forall k :: k in s ==> s[k] != Null
  }

  // Patching the old state forward gives the new one, as rendered, if and only if no key
  // is changed to an explicit nil: a diff cannot tell that from a removal.
  lemma ForwardReplays(before: Snapshot, after: Snapshot)
    ensures SameRendering(Forward(before, DiffOf(before, after)), after)
       <==> forall k :: k in after && after[k] == Null ==> !Changed(before, after, k)
  {
  }

  // And backward, if and only if no key is changed from an explicit nil.
  lemma BackwardReplays(before: Snapshot, after: Snapshot)
    ensures SameRendering(Backward(after, DiffOf(before, after)), before)
       <==> forall k :: k in before && before[k] == Null ==> !Changed(before, after, k)
  {
  }

  // A patch gives the recorded result from any state that renders like the recorded one.
  lemma ForwardFromSame(s: Snapshot, before: Snapshot, after: Snapshot)
    requires SameRendering(s, before) && NilFree(after)
    ensures SameRendering(Forward(s, DiffOf(before, after)), after)
  {
  }

  // No key changes the kind of its value.
  predicate SameKinds(a: Snapshot, b: Snapshot) {
    forall k :: k in a && k in b ==> SameKind(a[k], b[k])
  }

  // Then patching gives the other state itself, and not only one that renders like it, if
  // and only if no key is newly set to, or newly changed from, an explicit nil.
  lemma ForwardExact(before: Snapshot, after: Snapshot)
    requires SameKinds(before, after)
    ensures Forward(before, DiffOf(before, after)) == after
       <==> forall k :: k in after && after[k] == Null ==> k in before
  {
    KindsApart(before, after);
    hide Render;
  }

  lemma BackwardExact(before: Snapshot, after: Snapshot)
    requires SameKinds(before, after)
    ensures Backward(after, DiffOf(before, after)) == before
       <==> forall k :: k in before && before[k] == Null ==> k in after
  {
    KindsApart(before, after);
    hide Render;
  }

  lemma KindsApart(before: Snapshot, after: Snapshot)
    requires SameKinds(before, after)
    ensures forall k :: k in before && k in after ==> (Changed(before, after, k) <==> before[k] != after[k])
  {
    forall k | k in before && k in after
      ensures Changed(before, after, k) <==> before[k] != after[k]
    {
      SameKindApart(before[k], after[k]);
    }
  }

  // Apply the diffs of consecutive states one after another.
  function Replayed(states: seq<Snapshot>): Snapshot
    requires states != []
  {
    var n := |states| - 1;
    if n == 0 then states[0]
    else Forward(Replayed(states[..n]), DiffOf(states[n - 1], states[n]))
  }

  // The first state and the audit trail of diffs reproduce the last state of any chain.
  lemma {:induction false} TrailReplays(states: seq<Snapshot>)
    requires states != [] && forall i :: 0 <= i < |states| ==> NilFree(states[i])
    ensures SameRendering(Replayed(states), states[|states| - 1])
  {
    var n := |states| - 1;
    if n > 0 {
      TrailReplays(states[..n]);
      ForwardFromSame(Replayed(states[..n]), states[n - 1], states[n]);
    }
  }

  // If no key ever changes its kind, they reproduce it exactly.
  lemma {:induction false} TrailReplaysExactly(states: seq<Snapshot>)
    requires states != [] && forall i :: 0 <= i < |states| ==> NilFree(states[i])
    requires forall i :: 0 < i < |states| ==> SameKinds(states[i - 1], states[i])
    ensures Replayed(states) == states[|states| - 1]
  {
    var n := |states| - 1;
    if n > 0 {
      TrailReplaysExactly(states[..n]);
      ForwardExact(states[n - 1], states[n]);
    }
  }

  // Without that, "as rendered" cannot be strengthened to equality: a number and its text are not told apart.
  lemma DiffIsBlindToTypes()
    ensures var a, b := map["k" := Number(1)], map["k" := Text("1")];
            a != b && DiffOf(a, b) == map[]
  {
    var a, b := map["k" := Number(1)], map["k" := Text("1")];
    assert NumberText(1) == "1";
    assert a["k"] != b["k"];
  }

  // ---------- the snapshots of a booking ----------

  function StatusText(s: BookingStatus): string {
    match s
    case Pending => "pending"
    case Confirmed => "confirmed"
    case Cancelled => "cancelled"
    case Refunded => "refunded"
  }

  // Ids and times become some text that determines them; the tags are the JSON names, and
  // cancelled_at is omitted while it is not set.
  function ToMap(b: BookingId, r: BookingRow): Snapshot {
    map["id" := Text(Decimal(b)), "user_id" := Text(Decimal(r.user)), "event_id" := Text(Decimal(r.event)),
        "ticket_count" := Number(r.count), "total_price_cents" := Number(r.price),
        "status" := Text(StatusText(r.status)), "version" := Number(r.version),
        "booked_at" := Text(Decimal(r.bookedAt)), "updated_at" := Text(Decimal(r.updatedAt))]
    + if r.cancelledAt.Some? then map["cancelled_at" := Text(Decimal(r.cancelledAt.value))] else map[]
  }

  // The snapshot, key by key.
  lemma SnapshotOf(b: BookingId, r: BookingRow)
    ensures var m := ToMap(b, r);
            && m.Keys == {"id", "user_id", "event_id", "ticket_count", "total_price_cents", "status", "version",
                          "booked_at", "updated_at"} + (if r.cancelledAt.Some? then {"cancelled_at"} else {})
            && m["id"] == Text(Decimal(b)) && m["user_id"] == Text(Decimal(r.user))
            && m["event_id"] == Text(Decimal(r.event)) && m["ticket_count"] == Number(r.count)
            && m["total_price_cents"] == Number(r.price) && m["version"] == Number(r.version)
            && m["booked_at"] == Text(Decimal(r.bookedAt)) && m["updated_at"] == Text(Decimal(r.updatedAt))
            && m["status"] == Text(match r.status
                                   case Pending => "pending" case Confirmed => "confirmed"
                                   case Cancelled => "cancelled" case Refunded => "refunded")
            && (r.cancelledAt.Some? ==> m["cancelled_at"] == Text(Decimal(r.cancelledAt.value)))
  {
    hide Decimal;
  }

  lemma BookingSnapshotsKeepKinds(b: BookingId, r: BookingRow, r': BookingRow)
    ensures SameKinds(ToMap(b, r), ToMap(b, r'))
  {
    hide Decimal, StatusText;
  }

  lemma BookingSnapshotsAreNilFree(b: BookingId, r: BookingRow)
    ensures NilFree(ToMap(b, r))
  {
  }

  // Setting three keys and adding a fourth.
  lemma DiffOfFour(m: Snapshot, k1: string, v1: Value, k2: string, v2: Value, k3: string, v3: Value,
                   k4: string, v4: Value)
    requires k1 in m && k2 in m && k3 in m && k4 !in m
    requires k1 != k2 && k1 != k3 && k2 != k3
    requires Render(m[k1]) != Render(v1) && Render(m[k2]) != Render(v2)
    ensures DiffOf(m, m[k1 := v1][k2 := v2][k3 := v3][k4 := v4]).Keys
         == {k1, k2, k4} + if Render(m[k3]) == Render(v3) then {} else {k3}
  {
    hide Render;
  }

  lemma CancelledSnapshot(b: BookingId, r: BookingRow, now: int)
    requires r.status == Confirmed && r.cancelledAt == None
    ensures var m := ToMap(b, r);
            && "status" in m && "version" in m && "updated_at" in m && "cancelled_at" !in m
            && m["status"] == Text("confirmed") && m["version"] == Number(r.version)
            && m["updated_at"] == Text(Decimal(r.updatedAt))
            && ToMap(b, CancelRow(r, now))
               == m["status" := Text("cancelled")]["version" := Number(r.version + 1)]
                   ["updated_at" := Text(Decimal(now))]["cancelled_at" := Text(Decimal(now))]
  {
    hide Decimal;
  }

  // A cancellation's diff holds status, version and cancelled_at, and updated_at exactly
  // when the clock has moved since the booking; nothing else.
  lemma CancelDiffKeys(b: BookingId, before: BookingRow, now: int)
    requires before.status == Confirmed && before.cancelledAt == None
    ensures DiffOf(ToMap(b, before), ToMap(b, CancelRow(before, now))).Keys
         == {"status", "version", "cancelled_at"} + if now == before.updatedAt then {} else {"updated_at"}
  {
    NumbersRenderApart(before.version, before.version + 1);
    DecimalInjective(before.updatedAt, now);
    CancelledSnapshot(b, before, now);
    DiffOfFour(ToMap(b, before), "status", Text("cancelled"), "version", Number(before.version + 1),
               "updated_at", Text(Decimal(now)), "cancelled_at", Text(Decimal(now))) by { hide ToMap; }
    hide ToMap;
  }

  // In every run, for every logged cancellation: the logged diff has exactly these keys,
  // and it leads from the snapshot logged at creation to the booking as it now is.
  lemma CancelDiffInEveryRun(mode: Mode, run: seq<Label>, i: nat)
    requires i < |Exec(mode, run).db.audits| && Exec(mode, run).db.audits[i].BookingCancelled?
    ensures var db := Exec(mode, run).db;
            var l := db.audits[i];
            var d := DiffOf(ToMap(l.b, l.before), ToMap(l.b, l.after));
            && d.Keys == {"status", "version", "cancelled_at"}
                         + (if l.after.updatedAt == l.before.updatedAt then {} else {"updated_at"})
            && l.b in db.bookings
            && Forward(ToMap(l.b, AsInserted(db.bookings[l.b])), d) == ToMap(l.b, db.bookings[l.b])
  {
    BookingsInEveryRun(mode, run);
    var l := Exec(mode, run).db.audits[i];
    hide Exec;
    CancelDiffKeys(l.b, l.before, l.after.updatedAt);
    BookingSnapshotsAreNilFree(l.b, l.after);
    BookingSnapshotsKeepKinds(l.b, l.before, l.after);
    ForwardExact(ToMap(l.b, l.before), ToMap(l.b, l.after));
    hide ToMap, DiffOf, Forward;
  }
}
