/**
 Adjusted p-values: the step-up form of Benjamini and Hochberg, and the step-down form of Holm over
 a fixed family size, each against the sequential procedure it stands for.  P-values are exact reals.
 */
module MultipleTesting {
  import opened Prelude
  import Sorting

  datatype Scored = Scored(key: string, p: real)

  datatype Supplied = Supplied(key: string, p: Option<real>)

  const FAMILY := 168
  const ALPHA := 0.05

  function Available(values: seq<Supplied>): seq<Scored> {
    if values == [] then []
    else (if values[0].p.Some? then [Scored(values[0].key, values[0].p.value)] else []) + Available(values[1..])
  }

  function KeySet(values: seq<Supplied>): set<string> {
    set i | 0 <= i < |values| :: values[i].key
  }

  /** The keys at the sorted positions from `from` up to `to`. */
  function Keys(s: seq<Scored>, from: nat, to: nat): set<string>
    requires to <= |s|
  {
    set j | from <= j < to :: s[j].key
  }

  predicate Ascending(s: seq<Scored>) {
    forall i, j :: 0 <= i < j < |s| ==> s[i].p <= s[j].p
  }

  function ByValue(): (Scored, Scored) -> bool {
    (a: Scored, b: Scored) => a.p <= b.p
  }

  function ByValueAndKey(): (Scored, Scored) -> bool {
    (a: Scored, b: Scored) => if a.p != b.p then a.p < b.p else Sorting.TextLeq(a.key, b.key)
  }

  lemma {:induction false} ValueOrderAscends(xs: seq<Scored>)
    ensures Ascending(Sorting.Sort(ByValue(), xs))
  {
    Sorting.SortSorts(ByValue(), xs);
  }

  lemma {:induction false} ValueAndKeyOrderAscends(xs: seq<Scored>)
    ensures Ascending(Sorting.Sort(ByValueAndKey(), xs))
  {
    var leq := ByValueAndKey();
    forall a, b ensures leq(a, b) || leq(b, a) {
      Sorting.TextTotal(a.key, b.key);
    }
    forall a, b, c | leq(a, b) && leq(b, c) ensures leq(a, c) {
      if a.p == b.p == c.p {
        Sorting.TextTransitive(a.key, b.key, c.key);
      }
    }
    Sorting.SortSorts(leq, xs);
  }

  /** What a caller gets for each supplied key: its adjusted value, or nothing. */
  function LookedUp(values: seq<Supplied>, adjusted: map<string, real>): map<string, Option<real>> {
    map key | key in KeySet(values) :: if key in adjusted then Some(adjusted[key]) else None
  }

  method LookUp(values: seq<Supplied>, adjusted: map<string, real>) returns (out: map<string, Option<real>>)
    ensures out == LookedUp(values, adjusted)
  {
    out := map[];
    for i := 0 to |values|
      invariant out == LookedUp(values[..i], adjusted)
    {
      var key := values[i].key;
      KeySetGrows(values, i);
      out := out[key := if key in adjusted then Some(adjusted[key]) else None];
    }
    assert values[..|values|] == values;
  }

  lemma {:induction false} KeySetGrows(values: seq<Supplied>, i: nat)
    requires i < |values|
    ensures KeySet(values[..i + 1]) == KeySet(values[..i]) + {values[i].key}
  {
    assert values[..i + 1][i] == values[i];
    assert forall j :: 0 <= j < i ==> values[..i + 1][j] == values[..i][j];
  }

  // ---- keys -----------------------------------------------------------------------------------------

  /** A mapping supplies each key once. */
  predicate DistinctKeys(values: seq<Supplied>) {
    forall i, j :: 0 <= i < j < |values| ==> values[i].key != values[j].key
  }

  predicate DistinctScores(xs: seq<Scored>) {
    forall i, j :: 0 <= i < j < |xs| ==> xs[i].key != xs[j].key
  }

  lemma {:induction false} CountsKey(xs: seq<Scored>, key: string)
    ensures CountKey(xs, key) > 0 <==> exists i :: 0 <= i < |xs| && xs[i].key == key
  {
    if xs != [] {
      CountsKey(xs[1..], key);
      if exists i :: 0 <= i < |xs| && xs[i].key == key {
        var i :| 0 <= i < |xs| && xs[i].key == key;
        assert i > 0 ==> xs[1..][i - 1].key == key;
      }
      if CountKey(xs[1..], key) > 0 {
        var i :| 0 <= i < |xs[1..]| && xs[1..][i].key == key;
        assert xs[i + 1].key == key;
      }
    }
  }

  lemma {:induction false} DistinctCounts(xs: seq<Scored>, key: string)
    requires DistinctScores(xs)
    ensures CountKey(xs, key) <= 1
  {
    if xs != [] {
      DistinctCounts(xs[1..], key);
      CountsKey(xs[1..], key);
    }
  }

  lemma {:induction false} CountsDistinct(xs: seq<Scored>)
    requires forall key :: CountKey(xs, key) <= 1
    ensures DistinctScores(xs)
  {
    if xs != [] {
      var rest := xs[1..];
      forall key ensures CountKey(rest, key) <= 1 {
        assert CountKey(xs, key) <= 1;
      }
      CountsDistinct(rest);
      CountsKey(rest, xs[0].key);
      assert CountKey(xs, xs[0].key) <= 1;
      assert forall i :: 0 < i < |xs| ==> xs[i] == rest[i - 1];
    }
  }

  function CountKey(xs: seq<Scored>, key: string): nat {
    if xs == [] then 0 else (if xs[0].key == key then 1 else 0) + CountKey(xs[1..], key)
  }

  lemma {:induction false} InsertCounts(leq: (Scored, Scored) -> bool, x: Scored, xs: seq<Scored>, key: string)
    ensures CountKey(Sorting.Insert(leq, x, xs), key) == (if x.key == key then 1 else 0) + CountKey(xs, key)
  {
    if xs != [] && !leq(x, xs[0]) {
      InsertCounts(leq, x, xs[1..], key);
    } else {
      assert ([x] + xs)[1..] == xs;
    }
  }

  lemma {:induction false} SortCounts(leq: (Scored, Scored) -> bool, xs: seq<Scored>, key: string)
    ensures CountKey(Sorting.Sort(leq, xs), key) == CountKey(xs, key)
  {
    if xs != [] {
      SortCounts(leq, xs[1..], key);
      InsertCounts(leq, xs[0], Sorting.Sort(leq, xs[1..]), key);
    }
  }

  lemma {:induction false} SortedStaysDistinct(leq: (Scored, Scored) -> bool, values: seq<Supplied>)
    requires DistinctKeys(values)
    ensures DistinctScores(Sorting.Sort(leq, Available(values)))
  {
    AvailableDistinct(values);
    forall key ensures CountKey(Sorting.Sort(leq, Available(values)), key) <= 1 {
      SortCounts(leq, Available(values), key);
      DistinctCounts(Available(values), key);
    }
    CountsDistinct(Sorting.Sort(leq, Available(values)));
  }

  lemma {:induction false} AvailableDistinct(values: seq<Supplied>)
    requires DistinctKeys(values)
    ensures DistinctScores(Available(values))
  {
    if values != [] {
      var rest := Available(values[1..]);
      AvailableDistinct(values[1..]);
      AvailableMembers(values[1..]);
      forall i | 0 <= i < |rest| ensures rest[i].key != values[0].key {
        assert Scored(rest[i].key, rest[i].p) in rest;
        assert Supplied(rest[i].key, Some(rest[i].p)) in values[1..];
      }
    }
  }

  lemma {:induction false} SortedKeys(values: seq<Supplied>, leq: (Scored, Scored) -> bool, key: string)
    ensures var s := Sorting.Sort(leq, Available(values));
      key in Keys(s, 0, |s|) <==> exists p :: Supplied(key, Some(p)) in values
  {
    var s := Sorting.Sort(leq, Available(values));
    Sorting.SortMembers(leq, Available(values));
    AvailableMembers(values);
    if key in Keys(s, 0, |s|) {
      var j :| 0 <= j < |s| && s[j].key == key;
      assert s[j] in s;
      assert Supplied(key, Some(s[j].p)) in values;
    }
    if exists p :: Supplied(key, Some(p)) in values {
      var p :| Supplied(key, Some(p)) in values;
      assert Scored(key, p) in s;
      var j :| 0 <= j < |s| && s[j] == Scored(key, p);
    }
  }

  lemma {:induction false} AvailableMembers(values: seq<Supplied>)
    ensures forall key, p :: Scored(key, p) in Available(values) <==> Supplied(key, Some(p)) in values
  {
    if values != [] {
      AvailableMembers(values[1..]);
      assert values == [values[0]] + values[1..];
    }
  }

  lemma {:induction false} PositionOf(
    values: seq<Supplied>, leq: (Scored, Scored) -> bool, key: string, p: real) returns (k: nat)
    requires Supplied(key, Some(p)) in values
    ensures var s := Sorting.Sort(leq, Available(values)); k < |s| && s[k] == Scored(key, p)
  {
    var s := Sorting.Sort(leq, Available(values));
    AvailableMembers(values);
    Sorting.SortMembers(leq, Available(values));
    assert Scored(key, p) in s;
    k :| 0 <= k < |s| && s[k] == Scored(key, p);
  }

  // ---- step up: Benjamini and Hochberg --------------------------------------------------------------

  /** The p-value of rank `k` lies under the line through the origin at level `a`. */
  predicate UnderLine(s: seq<Scored>, a: real, k: nat)
    requires 1 <= k <= |s|
  {
    s[k - 1].p * |s| as real <= a * k as real
  }

  /** The procedure: walking down from rank `k`, the first rank under the line, or zero. */
  function LargestRank(s: seq<Scored>, a: real, k: nat): (r: nat)
    requires k <= |s|
    ensures r <= k
    ensures r > 0 ==> UnderLine(s, a, r)
    ensures forall j :: r < j <= k ==> !UnderLine(s, a, j)
  {
    if k == 0 || UnderLine(s, a, k) then k else LargestRank(s, a, k - 1)
  }

  /** The step-up procedure rejects every hypothesis up to the largest rank under the line. */
  function StepUpRejected(values: seq<Supplied>, a: real): set<string> {
    var s := Sorting.Sort(ByValue(), Available(values));
    Keys(s, 0, LargestRank(s, a, |s|))
  }

  function RawAt(s: seq<Scored>, j: nat): real
    requires j < |s|
  {
    s[j].p * |s| as real / (j + 1) as real
  }

  /** The least raw value from position `k` on, capped at one. */
  function LeastFrom(s: seq<Scored>, k: nat): real
    requires k <= |s|
    decreases |s| - k
  {
    if k == |s| then 1.0
    else if LeastFrom(s, k + 1) <= RawAt(s, k) then LeastFrom(s, k + 1) else RawAt(s, k)
  }

  lemma {:induction false} LeastFromBounds(s: seq<Scored>, k: nat)
    requires k <= |s|
    ensures LeastFrom(s, k) <= 1.0
    ensures forall j :: k <= j < |s| ==> LeastFrom(s, k) <= RawAt(s, j)
    ensures LeastFrom(s, k) == 1.0 || exists j :: k <= j < |s| && LeastFrom(s, k) == RawAt(s, j)
    decreases |s| - k
  {
    if k < |s| {
      LeastFromBounds(s, k + 1);
    }
  }

  lemma {:induction false} QuotientAtMost(x: real, c: real, a: real)
    requires c > 0.0
    ensures x / c <= a <==> x <= a * c
  {
    assert x == (x / c) * c;
    if x / c <= a {
      assert (x / c) * c <= a * c;
    }
    if x / c > a {
      assert (x / c) * c > a * c;
    }
  }

  lemma {:induction false} RawIsUnderLine(s: seq<Scored>, a: real, j: nat)
    requires j < |s|
    ensures RawAt(s, j) <= a <==> UnderLine(s, a, j + 1)
  {
    QuotientAtMost(s[j].p * |s| as real, (j + 1) as real, a);
  }

  /** A position's value is at most a level exactly when the procedure rejects beyond it. */
  lemma {:induction false} PositionDecides(s: seq<Scored>, a: real, k: nat)
    requires k < |s| && 0.0 < a < 1.0
    ensures LeastFrom(s, k) <= a <==> k < LargestRank(s, a, |s|)
  {
    LeastFromBounds(s, k);
    forall j | k <= j < |s| ensures RawAt(s, j) <= a <==> UnderLine(s, a, j + 1) {
      RawIsUnderLine(s, a, j);
    }
    var r := LargestRank(s, a, |s|);
    if k < r {
      assert RawAt(s, r - 1) <= a;
    }
  }

  /** The dictionary after the positions from `k` on, largest first; a repeated key keeps the last write. */
  function StepUpValues(s: seq<Scored>, k: nat): map<string, real>
    requires k <= |s|
    decreases |s| - k
  {
    if k == |s| then map[] else StepUpValues(s, k + 1)[s[k].key := LeastFrom(s, k)]
  }

  function Adjusted(values: seq<Supplied>): map<string, real> {
    StepUpValues(Sorting.Sort(ByValue(), Available(values)), 0)
  }

  lemma {:induction false} ValuesDecide(s: seq<Scored>, k: nat, key: string, a: real)
    requires k <= |s| && 0.0 < a < 1.0
    ensures key in StepUpValues(s, k) <==> key in Keys(s, k, |s|)
    ensures key in StepUpValues(s, k) ==>
      (StepUpValues(s, k)[key] <= a <==> key in Keys(s, k, LargestRank(s, a, |s|)))
    decreases |s| - k
  {
    if k < |s| {
      var r := LargestRank(s, a, |s|);
      ValuesDecide(s, k + 1, key, a);
      PositionDecides(s, a, k);
      KeysFrom(s, k, |s|, key);
      KeysFrom(s, k, r, key);
    }
  }

  lemma {:induction false} KeysFrom(s: seq<Scored>, k: nat, to: nat, key: string)
    requires to <= |s|
    ensures key in Keys(s, k, to) <==> (k < to && s[k].key == key) || key in Keys(s, k + 1, to)
  {
    if key in Keys(s, k, to) {
      var j :| k <= j < to && s[j].key == key;
    }
  }

  /** The adjusted value is at most a level exactly when the step-up procedure rejects the key there. */
  lemma {:induction false} StepUpValueDecides(values: seq<Supplied>, key: string, a: real)
    requires 0.0 < a < 1.0
    ensures key in Adjusted(values) <==> exists p :: Supplied(key, Some(p)) in values
    ensures key in Adjusted(values) ==> (Adjusted(values)[key] <= a <==> key in StepUpRejected(values, a))
  {
    var s := Sorting.Sort(ByValue(), Available(values));
    ValuesDecide(s, 0, key, a);
    SortedKeys(values, ByValue(), key);
  }

  lemma {:induction false} EarlierRawIsLarger(s: seq<Scored>, i: nat, k: nat)
    requires i <= k < |s| && s[i].p == s[k].p >= 0.0
    ensures RawAt(s, k) <= RawAt(s, i)
  {
    var x, b, c := s[i].p * |s| as real, (i + 1) as real, (k + 1) as real;
    var y := x / b;
    assert x >= 0.0;
    QuotientAtMost(-x, b, 0.0);
    assert -x / b == -y;
    assert x == y * b;
    assert y * b <= y * c;
    QuotientAtMost(x, c, y);
  }

  lemma {:induction false} LaterRawIsLarger(s: seq<Scored>, i: nat, k: nat)
    requires i < k < |s| && s[i].p < 0.0 && s[i].p <= s[k].p
    ensures RawAt(s, i) < RawAt(s, k)
  {
    var m, b, c := |s| as real, (i + 1) as real, (k + 1) as real;
    var x, z, y := s[i].p * m, s[k].p * m, RawAt(s, i);
    assert x < 0.0 && x <= z;
    QuotientAtMost(0.0, b, y);
    assert x == y * b;
    assert y < 0.0;
    assert y * c < y * b;
    QuotientAtMost(z, c, y);
  }

  /** At a negative p-value the least raw value is its own. */
  lemma {:induction false} NegativeKeepsRaw(s: seq<Scored>, i: nat)
    requires Ascending(s) && i < |s| && s[i].p < 0.0
    ensures LeastFrom(s, i) == RawAt(s, i)
  {
    LeastFromBounds(s, i);
    forall k | i < k < |s| ensures RawAt(s, i) < RawAt(s, k) {
      LaterRawIsLarger(s, i, k);
    }
    QuotientAtMost(s[i].p * |s| as real, (i + 1) as real, 0.0);
  }

  /** Of two equal negative p-values the earlier gets the smaller value. */
  lemma {:induction false} NegativeTiesDiffer(s: seq<Scored>, i: nat, j: nat)
    requires Ascending(s) && i < j < |s| && s[i].p == s[j].p < 0.0
    ensures LeastFrom(s, i) < LeastFrom(s, j)
  {
    NegativeKeepsRaw(s, i);
    NegativeKeepsRaw(s, j);
    LaterRawIsLarger(s, i, j);
  }

  lemma {:induction false} LeastFromMonotone(s: seq<Scored>, i: nat, j: nat)
    requires Ascending(s) && i < |s| && j < |s| && s[i].p <= s[j].p
    requires s[i].p < s[j].p || 0.0 <= s[i].p
    ensures LeastFrom(s, i) <= LeastFrom(s, j)
  {
    LeastFromBounds(s, i);
    LeastFromBounds(s, j);
    if j < i && LeastFrom(s, j) != 1.0 {
      var k :| j <= k < |s| && LeastFrom(s, j) == RawAt(s, k);
      if k < i {
        assert s[j].p <= s[k].p <= s[i].p;
        EarlierRawIsLarger(s, k, i);
      }
    }
  }

  lemma {:induction false} StepUpValueAt(s: seq<Scored>, k: nat, at: nat)
    requires DistinctScores(s) && k <= at < |s|
    ensures s[at].key in StepUpValues(s, k) && StepUpValues(s, k)[s[at].key] == LeastFrom(s, at)
    decreases at - k
  {
    if k < at {
      StepUpValueAt(s, k + 1, at);
    }
  }

  /** A smaller p-value never gets a larger adjusted value; equal ones get the same unless they are negative. */
  lemma {:induction false} StepUpValueMonotone(values: seq<Supplied>, a: string, b: string, p: real, q: real)
    requires DistinctKeys(values) && p <= q
    requires Supplied(a, Some(p)) in values && Supplied(b, Some(q)) in values
    ensures a in Adjusted(values) && b in Adjusted(values)
    ensures p < q ==> Adjusted(values)[a] <= Adjusted(values)[b]
    ensures p == q ==> (Adjusted(values)[a] == Adjusted(values)[b] <==> a == b || p >= 0.0)
  {
    var s := Sorting.Sort(ByValue(), Available(values));
    ValueOrderAscends(Available(values));
    SortedStaysDistinct(ByValue(), values);
    var i := PositionOf(values, ByValue(), a, p);
    var j := PositionOf(values, ByValue(), b, q);
    StepUpValueAt(s, 0, i);
    StepUpValueAt(s, 0, j);
    if p < q || p >= 0.0 {
      LeastFromMonotone(s, i, j);
    }
    if p == q >= 0.0 {
      LeastFromMonotone(s, j, i);
    }
    if p == q < 0.0 && a != b {
      NegativeTiesDiffer(s, if i < j then i else j, if i < j then j else i);
    }
  }

  /** Two equal p-values whose adjusted values differ. */
  lemma {:induction false} EqualNegativesDiffer()
    ensures var values := [Supplied("a", Some(-1.0)), Supplied("b", Some(-1.0))];
      && "a" in Adjusted(values) && "b" in Adjusted(values)
      && Adjusted(values)["a"] != Adjusted(values)["b"]
  {
    var values := [Supplied("a", Some(-1.0)), Supplied("b", Some(-1.0))];
    assert values[0] in values && values[1] in values;
    StepUpValueMonotone(values, "a", "b", -1.0, -1.0);
  }

  /** From the largest p-value down, keeping the least ratio so far. */
  method BenjaminiHochbergAdjust(values: seq<Supplied>) returns (out: map<string, Option<real>>)
    ensures out == LookedUp(values, Adjusted(values))
    ensures forall key :: key in out && out[key].Some? ==> out[key].value <= 1.0
  {
    var sorted := Sorting.Sort(ByValue(), Available(values));
    var adjusted: map<string, real> := map[];
    var running := 1.0;
    var idx := |sorted|;
    while idx > 0
      invariant 0 <= idx <= |sorted| && running == LeastFrom(sorted, idx)
      invariant adjusted == StepUpValues(sorted, idx)
      invariant forall key :: key in adjusted ==> adjusted[key] <= 1.0
    {
      idx := idx - 1;
      var raw := RawAt(sorted, idx);
      running := if running <= raw then running else raw;
      LeastFromBounds(sorted, idx);
      adjusted := adjusted[sorted[idx].key := if running <= 1.0 then running else 1.0];
    }
    out := LookUp(values, adjusted);
  }

  // ---- step down: Holm -----------------------------------------------------------------------------

  function Scale(p: real, family: int, rank: int): real {
    p * (family - rank) as real
  }

  /**
   The procedure: walking up from position `r`, it rejects while the p-value passes a threshold that
   loosens with every rejection, and stops at the first that fails.
   */
  function RejectedUntil(s: seq<Scored>, family: int, a: real, r: nat): (n: nat)
    requires r <= |s|
    ensures r <= n <= |s|
    ensures forall j :: r <= j < n ==> Scale(s[j].p, family, j) <= a
    ensures n < |s| ==> Scale(s[n].p, family, n) > a
    decreases |s| - r
  {
    if r == |s| || Scale(s[r].p, family, r) > a then r else RejectedUntil(s, family, a, r + 1)
  }

  function StepDownRejected(values: seq<Supplied>, family: int, a: real): set<string> {
    var s := Sorting.Sort(ByValueAndKey(), Available(values));
    Keys(s, 0, RejectedUntil(s, family, a, 0))
  }

  function Candidate(s: seq<Scored>, family: int, rank: nat): real
    requires rank < |s|
  {
    if Scale(s[rank].p, family, rank) <= 1.0 then Scale(s[rank].p, family, rank) else 1.0
  }

  /** The greatest candidate at the positions below `k`, at least zero. */
  function GreatestTo(s: seq<Scored>, family: int, k: nat): real
    requires k <= |s|
  {
    if k == 0 then 0.0
    else if GreatestTo(s, family, k - 1) >= Candidate(s, family, k - 1) then GreatestTo(s, family, k - 1)
    else Candidate(s, family, k - 1)
  }

  lemma {:induction false} GreatestToBounds(s: seq<Scored>, family: int, k: nat)
    requires k <= |s|
    ensures 0.0 <= GreatestTo(s, family, k) <= 1.0
    ensures forall j :: 0 <= j < k ==> Candidate(s, family, j) <= GreatestTo(s, family, k)
    ensures GreatestTo(s, family, k) == 0.0
      || exists j :: 0 <= j < k && GreatestTo(s, family, k) == Candidate(s, family, j)
  {
    if k > 0 {
      GreatestToBounds(s, family, k - 1);
    }
  }

  /** A position's value is at most a level exactly when the procedure has not stopped by then. */
  lemma {:induction false} PositionRejects(s: seq<Scored>, family: int, a: real, k: nat)
    requires k < |s| && 0.0 < a < 1.0
    ensures GreatestTo(s, family, k + 1) <= a <==> k < RejectedUntil(s, family, a, 0)
  {
    GreatestToBounds(s, family, k + 1);
    var n := RejectedUntil(s, family, a, 0);
    if n <= k {
      assert Candidate(s, family, n) > a;
    }
  }

  /** The dictionary after the first `k` positions. */
  function StepDownValues(s: seq<Scored>, family: int, k: nat): map<string, real>
    requires k <= |s|
  {
    if k == 0 then map[] else StepDownValues(s, family, k - 1)[s[k - 1].key := GreatestTo(s, family, k)]
  }

  function HolmValues(values: seq<Supplied>, family: int): map<string, real> {
    var s := Sorting.Sort(ByValueAndKey(), Available(values));
    StepDownValues(s, family, |s|)
  }

  lemma {:induction false} ValuesReject(s: seq<Scored>, family: int, k: nat, key: string, a: real)
    requires DistinctScores(s) && k <= |s| && 0.0 < a < 1.0
    ensures key in StepDownValues(s, family, k) <==> key in Keys(s, 0, k)
    ensures key in StepDownValues(s, family, k) ==>
      (StepDownValues(s, family, k)[key] <= a <==> key in Keys(s, 0, RejectedUntil(s, family, a, 0)))
  {
    if k > 0 {
      var n := RejectedUntil(s, family, a, 0);
      ValuesReject(s, family, k - 1, key, a);
      PositionRejects(s, family, a, k - 1);
      KeysTo(s, k, key);
      if key == s[k - 1].key {
        assert key in Keys(s, 0, n) <==> k - 1 < n;
      }
    }
  }

  lemma {:induction false} KeysTo(s: seq<Scored>, to: nat, key: string)
    requires 0 < to <= |s|
    ensures key in Keys(s, 0, to) <==> s[to - 1].key == key || key in Keys(s, 0, to - 1)
  {
    if key in Keys(s, 0, to) {
      var j :| 0 <= j < to && s[j].key == key;
    }
  }

  /** The adjusted value is at most a level exactly when the step-down procedure rejects the key there. */
  lemma {:induction false} StepDownValueDecides(values: seq<Supplied>, family: int, key: string, a: real)
    requires DistinctKeys(values) && 0.0 < a < 1.0
    ensures key in HolmValues(values, family) <==> exists p :: Supplied(key, Some(p)) in values
    ensures key in HolmValues(values, family) ==>
      (HolmValues(values, family)[key] <= a <==> key in StepDownRejected(values, family, a))
  {
    var s := Sorting.Sort(ByValueAndKey(), Available(values));
    SortedStaysDistinct(ByValueAndKey(), values);
    ValuesReject(s, family, |s|, key, a);
    SortedKeys(values, ByValueAndKey(), key);
  }

  lemma {:induction false} LaterCandidate(s: seq<Scored>, family: int, i: nat, k: nat)
    requires i <= k < |s| && s[i].p == s[k].p
    ensures Candidate(s, family, k) <= Candidate(s, family, i) || Candidate(s, family, k) <= 0.0 || family < |s|
  {
    if family >= |s| {
      var p, x, y := s[i].p, (family - k) as real, (family - i) as real;
      if p <= 0.0 {
        ProductNotPositive(p, x);
      } else {
        ProductGrows(p, x, y);
      }
    }
  }

  lemma {:induction false} ProductNotPositive(p: real, x: real)
    requires p <= 0.0 <= x
    ensures p * x <= 0.0
  {
  }

  lemma {:induction false} ProductGrows(p: real, x: real, y: real)
    requires 0.0 <= p && x <= y
    ensures p * x <= p * y
  {
    assert p * (y - x) >= 0.0;
    assert p * y == p * x + p * (y - x);
  }

  lemma {:induction false} GreatestToMonotone(s: seq<Scored>, family: int, i: nat, j: nat)
    requires Ascending(s) && |s| <= family && i < |s| && j < |s| && s[i].p <= s[j].p
    ensures GreatestTo(s, family, i + 1) <= GreatestTo(s, family, j + 1)
  {
    GreatestToBounds(s, family, i + 1);
    GreatestToBounds(s, family, j + 1);
    var h := GreatestTo(s, family, i + 1);
    if j < i && h != 0.0 {
      var k :| 0 <= k <= i && h == Candidate(s, family, k);
      if j < k {
        assert s[j].p <= s[k].p <= s[i].p;
        LaterCandidate(s, family, j, k);
      }
    }
  }

  lemma {:induction false} StepDownValueAt(s: seq<Scored>, family: int, k: nat, at: nat)
    requires DistinctScores(s) && at < k <= |s|
    ensures s[at].key in StepDownValues(s, family, k)
      && StepDownValues(s, family, k)[s[at].key] == GreatestTo(s, family, at + 1)
  {
    if at < k - 1 {
      StepDownValueAt(s, family, k - 1, at);
    }
  }

  /** Smaller p-values never get larger adjusted values, so equal ones get the same. */
  lemma {:induction false} StepDownValueMonotone(
    values: seq<Supplied>, family: int, a: string, b: string, p: real, q: real)
    requires DistinctKeys(values) && |values| <= family && p <= q
    requires Supplied(a, Some(p)) in values && Supplied(b, Some(q)) in values
    ensures a in HolmValues(values, family) && b in HolmValues(values, family)
    ensures HolmValues(values, family)[a] <= HolmValues(values, family)[b]
  {
    var leq, available := ByValueAndKey(), Available(values);
    var s := Sorting.Sort(leq, available);
    ValueAndKeyOrderAscends(available);
    Sorting.SortContents(leq, available);
    AvailableCount(values);
    SortedStaysDistinct(leq, values);
    var i := PositionOf(values, leq, a, p);
    var j := PositionOf(values, leq, b, q);
    StepDownValueAt(s, family, |s|, i);
    StepDownValueAt(s, family, |s|, j);
    GreatestToMonotone(s, family, i, j);
  }

  /** Where the raw threshold of the family is met, the procedure has not stopped. */
  lemma {:induction false} RawPassIsReached(s: seq<Scored>, k: nat)
    requires Ascending(s) && k < |s| <= FAMILY && s[k].p <= ALPHA / FAMILY as real
    ensures k < RejectedUntil(s, FAMILY, ALPHA, 0)
  {
    var n := RejectedUntil(s, FAMILY, ALPHA, 0);
    if n <= k {
      assert s[n].p <= s[k].p;
      ScaledDown(s[k].p, s[n].p, FAMILY, n, ALPHA);
      assert false;
    }
  }

  /** A raw p-value that passes the Bonferroni threshold of the family is always rejected by the procedure. */
  lemma {:induction false} BonferroniImpliesHolm(values: seq<Supplied>, key: string, p: real)
    requires DistinctKeys(values) && |values| <= 168
    requires Supplied(key, Some(p)) in values && p <= 0.05 / 168.0
    ensures key in StepDownRejected(values, 168, 0.05)
    ensures key in HolmValues(values, 168) && HolmValues(values, 168)[key] <= 0.05
  {
    var available := Available(values);
    var s := Sorting.Sort(ByValueAndKey(), available);
    ValueAndKeyOrderAscends(available);
    Sorting.SortContents(ByValueAndKey(), available);
    AvailableCount(values);
    var k := PositionOf(values, ByValueAndKey(), key, p);
    RawPassIsReached(s, k);
    StepDownValueDecides(values, FAMILY, key, ALPHA);
  }

  lemma {:induction false} AvailableCount(values: seq<Supplied>)
    ensures |Available(values)| <= |values|
  {
    if values != [] {
      AvailableCount(values[1..]);
    }
  }

  lemma {:induction false} ScaledDown(p: real, q: real, family: nat, rank: nat, a: real)
    requires q <= p && p * family as real <= a && a >= 0.0 && rank <= family
    ensures Scale(q, family, rank) <= a
  {
    var x, all := (family - rank) as real, family as real;
    assert Scale(q, family, rank) == q * x;
    assert q * x <= a by {
      if q >= 0.0 {
        ProductGrows(q, x, all);
        ProductGrows(all, q, p);
        Commutes(all, q);
        Commutes(all, p);
      } else {
        ProductNotPositive(q, x);
      }
    }
  }

  lemma {:induction false} Commutes(x: real, y: real)
    ensures x * y == y * x
  {
  }

  /** From the smallest p-value up, keeping the greatest scaled value so far. */
  method HolmAdjust(values: seq<Supplied>, family: int) returns (r: Result<map<string, Option<real>>>)
    requires DistinctKeys(values)
    ensures r.Rejected? <==> family < |values|
    ensures r.Ok? ==> r.value == LookedUp(values, HolmValues(values, family))
    ensures r.Ok? ==> forall key :: key in r.value && r.value[key].Some? ==> 0.0 <= r.value[key].value <= 1.0
  {
    if family < |values| {
      return Rejected("family_size cannot be smaller than supplied hypotheses");
    }
    var available := Sorting.Sort(ByValueAndKey(), Available(values));
    var adjusted: map<string, real> := map[];
    var running := 0.0;
    for rank := 0 to |available|
      invariant running == GreatestTo(available, family, rank)
      invariant adjusted == StepDownValues(available, family, rank)
      invariant forall key :: key in adjusted ==> 0.0 <= adjusted[key] <= 1.0
    {
      var candidate := Candidate(available, family, rank);
      running := if running >= candidate then running else candidate;
      GreatestToBounds(available, family, rank + 1);
      adjusted := adjusted[available[rank].key := running];
    }
    var out := LookUp(values, adjusted);
    return Ok(out);
  }
}
