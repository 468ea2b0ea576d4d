/**
 The two multiple-testing procedures told without sorting: which hypotheses they reject, in terms of
 how many supplied p-values lie at or below a value.
 */
module Rejections {
  import opened Prelude
  import opened MultipleTesting
  import Sorting

  /** How many of the scores the test keeps. */
  function Tally(xs: seq<Scored>, keep: real -> bool): nat {
    if xs == [] then 0 else (if keep(xs[0].p) then 1 else 0) + Tally(xs[1..], keep)
  }

  /** The number of supplied p-values, of those at most `x`, and of those below `x`. */
  function Supply(values: seq<Supplied>): nat {
    if values == [] then 0 else (if values[0].p.Some? then 1 else 0) + Supply(values[1..])
  }

  function AtMost(values: seq<Supplied>, x: real): nat {
    if values == [] then 0
    else (if values[0].p.Some? && values[0].p.value <= x then 1 else 0) + AtMost(values[1..], x)
  }

  function Below(values: seq<Supplied>, x: real): nat {
    if values == [] then 0
    else (if values[0].p.Some? && values[0].p.value < x then 1 else 0) + Below(values[1..], x)
  }

  lemma {:induction false} TalliesOf(values: seq<Supplied>, x: real)
    ensures |Available(values)| == Supply(values)
    ensures Tally(Available(values), y => y <= x) == AtMost(values, x)
    ensures Tally(Available(values), y => y < x) == Below(values, x)
  {
    if values != [] {
      TalliesOf(values[1..], x);
      var rest := Available(values[1..]);
      if values[0].p.Some? {
        var all := [Scored(values[0].key, values[0].p.value)] + rest;
        assert Available(values) == all && all[1..] == rest;
      } else {
        assert Available(values) == [] + rest == rest;
      }
    }
  }

  lemma {:induction false} InsertTally(
    leq: (Scored, Scored) -> bool, x: Scored, xs: seq<Scored>, keep: real -> bool)
    ensures Tally(Sorting.Insert(leq, x, xs), keep) == (if keep(x.p) then 1 else 0) + Tally(xs, keep)
  {
    if xs != [] && !leq(x, xs[0]) {
      InsertTally(leq, x, xs[1..], keep);
    } else {
      assert ([x] + xs)[1..] == xs;
    }
  }

  lemma {:induction false} SortTally(leq: (Scored, Scored) -> bool, xs: seq<Scored>, keep: real -> bool)
    ensures Tally(Sorting.Sort(leq, xs), keep) == Tally(xs, keep)
  {
    if xs != [] {
      SortTally(leq, xs[1..], keep);
      InsertTally(leq, xs[0], Sorting.Sort(leq, xs[1..]), keep);
    }
  }

  /** When exactly the first `n` are kept, `n` are kept. */
  lemma {:induction false} TallyOfPrefix(s: seq<Scored>, keep: real -> bool, n: nat)
    requires n <= |s| && forall i :: 0 <= i < |s| ==> (keep(s[i].p) <==> i < n)
    ensures Tally(s, keep) == n
  {
    if s != [] {
      forall i | 0 <= i < |s[1..]| ensures keep(s[1..][i].p) <==> i < n - 1 {
        assert s[1..][i] == s[i + 1];
      }
      TallyOfPrefix(s[1..], keep, if n > 0 then n - 1 else 0);
    }
  }

  /** The kept scores of an ascending sequence are its first ones, if the test keeps all smaller values too. */
  lemma {:induction false} KeptAreFirst(s: seq<Scored>, keep: real -> bool) returns (n: nat)
    requires Ascending(s) && forall x, y :: x <= y && keep(y) ==> keep(x)
    ensures n <= |s| && n == Tally(s, keep)
    ensures forall i :: 0 <= i < |s| ==> (keep(s[i].p) <==> i < n)
  {
    n := |s|;
    while n > 0 && !keep(s[n - 1].p)
      invariant n <= |s| && forall i :: n <= i < |s| ==> !keep(s[i].p)
    {
      n := n - 1;
    }
    TallyOfPrefix(s, keep, n);
  }

  // ---- step up -----------------------------------------------------------------------------------

  /** The supplied value is at most the level times the share of values it covers. */
  predicate UnderShare(values: seq<Supplied>, x: real, a: real) {
    x * Supply(values) as real <= a * AtMost(values, x) as real
  }

  /**
   Benjamini and Hochberg reject a hypothesis at a level exactly when some supplied p-value, no
   smaller than its own, times the number supplied is at most the level times the number of
   p-values that do not exceed it.
   */
  lemma {:induction false} StepUpRejectsExactlyWhen(values: seq<Supplied>, key: string, p: real, a: real)
    requires DistinctKeys(values) && Supplied(key, Some(p)) in values && a >= 0.0
    ensures key in StepUpRejected(values, a) <==>
      exists i :: 0 <= i < |values| && values[i].p.Some? && p <= values[i].p.value
        && UnderShare(values, values[i].p.value, a)
  {
    var s := Sorting.Sort(ByValue(), Available(values));
    SortedStaysDistinct(ByValue(), values);
    var k := PositionOf(values, ByValue(), key, p);
    var largest := LargestRank(s, a, |s|);
    InPrefix(s, k, largest);
    if k < largest {
      var i := ShareOfRank(values, s, a, k, largest);
    }
    forall i | 0 <= i < |values| && values[i].p.Some? && p <= values[i].p.value
      && UnderShare(values, values[i].p.value, a)
      ensures k < largest
    {
      RankOfShare(values, s, a, k, i);
    }
  }

  lemma {:induction false} InPrefix(s: seq<Scored>, k: nat, n: nat)
    requires DistinctScores(s) && k < |s| && n <= |s|
    ensures s[k].key in Keys(s, 0, n) <==> k < n
  {
  }

  lemma {:induction false} ShareOfRank(values: seq<Supplied>, s: seq<Scored>, a: real, k: nat, rank: nat)
    returns (i: nat)
    requires s == Sorting.Sort(ByValue(), Available(values)) && k < rank <= |s|
    requires UnderLine(s, a, rank) && a >= 0.0
    ensures i < |values| && values[i].p.Some? && s[k].p <= values[i].p.value && UnderShare(values, values[i].p.value, a)
  {
    var n;
    ValueOrderAscends(Available(values));
    i, n := RankedAt(values, s, rank - 1);
    UnderLineIsShare(values, s, a, rank, n);
  }

  lemma {:induction false} RankOfShare(values: seq<Supplied>, s: seq<Scored>, a: real, k: nat, i: nat)
    requires s == Sorting.Sort(ByValue(), Available(values)) && k < |s| && i < |values|
    requires values[i].p.Some? && s[k].p <= values[i].p.value && UnderShare(values, values[i].p.value, a)
    ensures k < LargestRank(s, a, |s|)
  {
    assert values[i] == Supplied(values[i].key, Some(values[i].p.value));
    var j := PositionOf(values, ByValue(), values[i].key, values[i].p.value);
    var _, n := RankedAt(values, s, j);
    ShareIsUnderLine(values, s, a, n);
    CoversRank(s, a, n);
  }

  lemma {:induction false} CoversRank(s: seq<Scored>, a: real, n: nat)
    requires 1 <= n <= |s| && UnderLine(s, a, n)
    ensures n <= LargestRank(s, a, |s|)
  {
  }

  lemma {:induction false} ShareIsUnderLine(values: seq<Supplied>, s: seq<Scored>, a: real, n: nat)
    requires 1 <= n <= |s| == Supply(values) && n == AtMost(values, s[n - 1].p)
    requires UnderShare(values, s[n - 1].p, a)
    ensures UnderLine(s, a, n)
  {
  }

  lemma {:induction false} UnderLineIsShare(values: seq<Supplied>, s: seq<Scored>, a: real, rank: nat, n: nat)
    requires 1 <= rank <= |s| == Supply(values) && UnderLine(s, a, rank)
    requires n == AtMost(values, s[rank - 1].p) && rank <= n && a >= 0.0
    ensures UnderShare(values, s[rank - 1].p, a)
  {
    ProductGrows(a, rank as real, n as real);
  }

  /** The value at a sorted position was supplied. */
  lemma {:induction false} SuppliedAt(values: seq<Supplied>, leq: (Scored, Scored) -> bool, j: nat) returns (i: nat)
    requires j < |Sorting.Sort(leq, Available(values))|
    ensures var x := Sorting.Sort(leq, Available(values))[j];
      i < |values| && values[i] == Supplied(x.key, Some(x.p))
  {
    var s := Sorting.Sort(leq, Available(values));
    Sorting.SortMembers(leq, Available(values));
    AvailableMembers(values);
    assert s[j] in s;
    assert Scored(s[j].key, s[j].p) in Available(values);
    i :| 0 <= i < |values| && values[i] == Supplied(s[j].key, Some(s[j].p));
  }

  /** The value at a sorted position was supplied; all values up to it come first and are counted. */
  lemma {:induction false} RankedAt(values: seq<Supplied>, s: seq<Scored>, j: nat) returns (i: nat, n: nat)
    requires s == Sorting.Sort(ByValue(), Available(values)) && j < |s|
    ensures i < |values| && values[i] == Supplied(s[j].key, Some(s[j].p))
    ensures n == AtMost(values, s[j].p) && j < n <= |s| == Supply(values)
    ensures s[n - 1].p == s[j].p && forall k :: 0 <= k < |s| && s[k].p <= s[j].p ==> k < n
  {
    ValueOrderAscends(Available(values));
    i := SuppliedAt(values, ByValue(), j);
    n := CountedUpTo(values, ByValue(), s, j);
  }

  lemma {:induction false} CountedUpTo(
    values: seq<Supplied>, leq: (Scored, Scored) -> bool, s: seq<Scored>, j: nat) returns (n: nat)
    requires s == Sorting.Sort(leq, Available(values)) && j < |s| && Ascending(s)
    ensures n == AtMost(values, s[j].p) && j < n <= |s| == Supply(values)
    ensures s[n - 1].p == s[j].p && forall k :: 0 <= k < |s| && s[k].p <= s[j].p ==> k < n
  {
    var x := s[j].p;
    Sorting.SortContents(leq, Available(values));
    SortTally(leq, Available(values), y => y <= x);
    TalliesOf(values, x);
    n := KeptAreFirst(s, y => y <= x);
    assert s[n - 1].p <= x;
  }

  // ---- step down ---------------------------------------------------------------------------------

  /** The supplied value times the family size less the number of smaller ones is at most the level. */
  predicate ScaledWithin(values: seq<Supplied>, family: int, x: real, a: real) {
    x * (family - Below(values, x)) as real <= a
  }

  /**
   Holm rejects a hypothesis at a level exactly when every supplied p-value that is no larger than
   its own, times the family size less the number of smaller ones, is at most the level.
   */
  lemma {:induction false} StepDownRejectsExactlyWhen(
    values: seq<Supplied>, family: int, key: string, p: real, a: real)
    requires DistinctKeys(values) && Supplied(key, Some(p)) in values && a >= 0.0 && Supply(values) <= family
    ensures key in StepDownRejected(values, family, a) <==>
      forall i :: 0 <= i < |values| && values[i].p.Some? && values[i].p.value <= p ==>
        ScaledWithin(values, family, values[i].p.value, a)
  {
    var s := Sorting.Sort(ByValueAndKey(), Available(values));
    SortedStaysDistinct(ByValueAndKey(), values);
    var k := PositionOf(values, ByValueAndKey(), key, p);
    var until := RejectedUntil(s, family, a, 0);
    InPrefix(s, k, until);
    if k < until {
      forall i | 0 <= i < |values| && values[i].p.Some? && values[i].p.value <= p
        ensures ScaledWithin(values, family, values[i].p.value, a)
      {
        PassedBefore(values, s, family, a, k, i);
      }
    } else {
      var i := FailsAt(values, s, family, a, k);
    }
  }

  lemma {:induction false} PassedBefore(
    values: seq<Supplied>, s: seq<Scored>, family: int, a: real, k: nat, i: nat)
    requires s == Sorting.Sort(ByValueAndKey(), Available(values)) && k < RejectedUntil(s, family, a, 0)
    requires i < |values| && values[i].p.Some? && values[i].p.value <= s[k].p
    ensures ScaledWithin(values, family, values[i].p.value, a)
  {
    assert values[i] == Supplied(values[i].key, Some(values[i].p.value));
    var j := PositionOf(values, ByValueAndKey(), values[i].key, values[i].p.value);
    var _, n := FirstOfTie(values, s, j);
    assert n <= k;
    assert Scale(s[n].p, family, n) <= a;
  }

  lemma {:induction false} FailsAt(values: seq<Supplied>, s: seq<Scored>, family: int, a: real, k: nat)
    returns (i: nat)
    requires s == Sorting.Sort(ByValueAndKey(), Available(values)) && RejectedUntil(s, family, a, 0) <= k < |s|
    requires a >= 0.0 && Supply(values) <= family
    ensures i < |values| && values[i].p.Some? && values[i].p.value <= s[k].p
    ensures !ScaledWithin(values, family, values[i].p.value, a)
  {
    var until, n := RejectedUntil(s, family, a, 0), 0;
    i, n := FirstOfTie(values, s, until);
    UntilFails(values, s, family, a, k);
    EarlierOfTie(values, family, s[until].p, until, a);
  }

  lemma {:induction false} UntilFails(values: seq<Supplied>, s: seq<Scored>, family: int, a: real, k: nat)
    requires s == Sorting.Sort(ByValueAndKey(), Available(values)) && RejectedUntil(s, family, a, 0) <= k < |s|
    requires Supply(values) <= family
    ensures var until := RejectedUntil(s, family, a, 0);
      until < family && s[until].p <= s[k].p && Scale(s[until].p, family, until) > a
  {
    SizeIsSupply(values, ByValueAndKey());
    ValueAndKeyOrderAscends(Available(values));
  }

  lemma {:induction false} SizeIsSupply(values: seq<Supplied>, leq: (Scored, Scored) -> bool)
    ensures |Sorting.Sort(leq, Available(values))| == Supply(values)
  {
    TalliesOf(values, 0.0);
    Sorting.SortContents(leq, Available(values));
  }

  /** The value at a sorted position was supplied; the values below it come first and are counted. */
  lemma {:induction false} FirstOfTie(values: seq<Supplied>, s: seq<Scored>, j: nat) returns (i: nat, n: nat)
    requires s == Sorting.Sort(ByValueAndKey(), Available(values)) && j < |s|
    ensures i < |values| && values[i] == Supplied(s[j].key, Some(s[j].p))
    ensures n == Below(values, s[j].p) && n <= j && s[n].p == s[j].p
    ensures forall k :: n <= k < |s| ==> s[j].p <= s[k].p
    ensures forall k :: 0 <= k < n ==> s[k].p < s[j].p
  {
    ValueAndKeyOrderAscends(Available(values));
    i := SuppliedAt(values, ByValueAndKey(), j);
    n := CountedBelow(values, ByValueAndKey(), s, j);
  }

  lemma {:induction false} CountedBelow(
    values: seq<Supplied>, leq: (Scored, Scored) -> bool, s: seq<Scored>, j: nat) returns (n: nat)
    requires s == Sorting.Sort(leq, Available(values)) && j < |s| && Ascending(s)
    ensures n == Below(values, s[j].p) && n <= j && s[n].p == s[j].p
    ensures forall k :: n <= k < |s| ==> s[j].p <= s[k].p
    ensures forall k :: 0 <= k < n ==> s[k].p < s[j].p
  {
    n := FirstFrom(s, s[j].p);
    assert s[n].p <= s[j].p;
    BelowInOrder(values, leq, s[j].p);
  }

  lemma {:induction false} BelowInOrder(values: seq<Supplied>, leq: (Scored, Scored) -> bool, x: real)
    ensures Tally(Sorting.Sort(leq, Available(values)), y => y < x) == Below(values, x)
  {
    SortTally(leq, Available(values), y => y < x);
    TalliesOf(values, x);
  }

  lemma {:induction false} FirstFrom(s: seq<Scored>, x: real) returns (n: nat)
    requires Ascending(s)
    ensures n <= |s| && n == Tally(s, y => y < x)
    ensures forall k :: n <= k < |s| ==> x <= s[k].p
    ensures forall k :: 0 <= k < n ==> s[k].p < x
  {
    n := KeptAreFirst(s, y => y < x);
  }

  lemma {:induction false} EarlierOfTie(values: seq<Supplied>, family: int, x: real, j: nat, a: real)
    requires Below(values, x) <= j < family && a >= 0.0 && Scale(x, family, j) > a
    ensures !ScaledWithin(values, family, x, a)
  {
    var n := Below(values, x);
    if x >= 0.0 {
      ProductGrows(x, (family - j) as real, (family - n) as real);
    } else {
      ProductNotPositive(x, (family - j) as real);
      assert false;
    }
  }
}
