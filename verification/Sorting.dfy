/** Stable sorting by a key order, and the lexicographic order of text. */
module Sorting {

  ghost predicate TotalPreorder<T(!new)>(leq: (T, T) -> bool) {
    && (forall x, y :: leq(x, y) || leq(y, x))
    && (forall x, y, z :: leq(x, y) && leq(y, z) ==> leq(x, z))
  }

  ghost predicate SortedBy<T>(leq: (T, T) -> bool, xs: seq<T>) {
    forall i, j :: 0 <= i < j < |xs| ==> leq(xs[i], xs[j])
  }

  function Insert<T>(leq: (T, T) -> bool, x: T, xs: seq<T>): seq<T> {
    if xs == [] then [x]
    else if leq(x, xs[0]) then [x] + xs
    else [xs[0]] + Insert(leq, x, xs[1..])
  }

  /** Equal keys keep their original order, as the source's `sorted` does. */
  function Sort<T>(leq: (T, T) -> bool, xs: seq<T>): seq<T> {
    if xs == [] then [] else Insert(leq, xs[0], Sort(leq, xs[1..]))
  }

  lemma {:induction false} CountAppends<T>(xs: seq<T>, x: T, y: T)
    ensures multiset(xs + [x])[y] == multiset(xs)[y] + if x == y then 1 else 0
  {
  }

  lemma {:induction false} InsertContents<T>(leq: (T, T) -> bool, x: T, xs: seq<T>)
    ensures multiset(Insert(leq, x, xs)) == multiset{x} + multiset(xs)
    ensures |Insert(leq, x, xs)| == |xs| + 1
  {
    if xs != [] && !leq(x, xs[0]) {
      InsertContents(leq, x, xs[1..]);
      assert xs == [xs[0]] + xs[1..];
    }
  }

  lemma {:induction false} InsertSorted<T(!new)>(leq: (T, T) -> bool, x: T, xs: seq<T>)
    requires TotalPreorder(leq) && SortedBy(leq, xs)
    ensures SortedBy(leq, Insert(leq, x, xs))
  {
    if xs != [] {
      if leq(x, xs[0]) {
        assert forall j :: 0 <= j < |xs| ==> leq(x, xs[j]);
      } else {
        var rest := Insert(leq, x, xs[1..]);
        InsertSorted(leq, x, xs[1..]);
        InsertContents(leq, x, xs[1..]);
        forall j | 0 <= j < |rest| ensures leq(xs[0], rest[j]) {
          assert rest[j] in multiset(rest);
          if rest[j] != x {
            assert rest[j] in multiset(xs[1..]);
          }
        }
      }
    }
  }

  lemma {:induction false} SortContents<T>(leq: (T, T) -> bool, xs: seq<T>)
    ensures multiset(Sort(leq, xs)) == multiset(xs)
    ensures |Sort(leq, xs)| == |xs|
  {
    if xs != [] {
      SortContents(leq, xs[1..]);
      InsertContents(leq, xs[0], Sort(leq, xs[1..]));
      assert xs == [xs[0]] + xs[1..];
    }
  }

  lemma {:induction false} SortSorts<T(!new)>(leq: (T, T) -> bool, xs: seq<T>)
    requires TotalPreorder(leq)
    ensures SortedBy(leq, Sort(leq, xs))
  {
    if xs != [] {
      SortSorts(leq, xs[1..]);
      InsertSorted(leq, xs[0], Sort(leq, xs[1..]));
    }
  }

  lemma {:induction false} SortMembers<T>(leq: (T, T) -> bool, xs: seq<T>)
    ensures forall x :: x in Sort(leq, xs) <==> x in xs
  {
    SortContents(leq, xs);
    forall x ensures x in Sort(leq, xs) <==> x in xs {
      assert x in Sort(leq, xs) <==> x in multiset(Sort(leq, xs));
      assert x in xs <==> x in multiset(xs);
    }
  }

  /** Sorting a sorted sequence changes nothing. */
  lemma {:induction false} SortKeepsSorted<T>(leq: (T, T) -> bool, xs: seq<T>)
    requires SortedBy(leq, xs)
    ensures Sort(leq, xs) == xs
  {
    if xs != [] {
      SortKeepsSorted(leq, xs[1..]);
      assert |xs| > 1 ==> leq(xs[0], xs[1]);
    }
  }

  // ---- sorted sets of integers -------------------------------------------------------

  function Earlier(): (int, int) -> bool {
    (a: int, b: int) => a <= b
  }

  function Dedup(xs: seq<int>): seq<int> {
    if |xs| <= 1 then xs else if xs[0] == xs[1] then Dedup(xs[1..]) else [xs[0]] + Dedup(xs[1..])
  }

  /** The distinct elements in increasing order. */
  function SortedSet(xs: seq<int>): seq<int> {
    Dedup(Sort(Earlier(), xs))
  }

  lemma {:induction false} DedupKeeps(xs: seq<int>)
    requires SortedBy(Earlier(), xs)
    ensures forall x :: x in Dedup(xs) <==> x in xs
    ensures xs != [] ==> Dedup(xs) != [] && Dedup(xs)[0] == xs[0]
    ensures forall i, j :: 0 <= i < j < |Dedup(xs)| ==> Dedup(xs)[i] < Dedup(xs)[j]
  {
    if |xs| > 1 {
      assert xs == [xs[0]] + xs[1..];
      DedupKeeps(xs[1..]);
      if xs[0] != xs[1] {
        forall j | 0 < j < |Dedup(xs)| ensures xs[0] < Dedup(xs)[j] {
          var y := Dedup(xs)[j];
          assert y == Dedup(xs[1..])[j - 1];
          assert y in xs[1..];
          assert Earlier()(xs[0], xs[1]);
          assert y >= xs[1] by {
            if j > 1 {
              assert Dedup(xs[1..])[0] < Dedup(xs[1..])[j - 1];
            }
          }
        }
      }
    }
  }

  lemma {:induction false} SortedSetKeeps(xs: seq<int>)
    ensures forall x :: x in SortedSet(xs) <==> x in xs
    ensures forall i, j :: 0 <= i < j < |SortedSet(xs)| ==> SortedSet(xs)[i] < SortedSet(xs)[j]
    ensures xs != [] ==> SortedSet(xs) != [] && forall x :: x in xs ==> SortedSet(xs)[0] <= x
  {
    SortSorts(Earlier(), xs);
    SortMembers(Earlier(), xs);
    DedupKeeps(Sort(Earlier(), xs));
    if xs != [] {
      assert xs[0] in Sort(Earlier(), xs);
    }
  }

  // ---- text -------------------------------------------------------------------------

  predicate TextLeq(a: string, b: string) {
    if a == [] then true
    else if b == [] then false
    else if a[0] != b[0] then a[0] < b[0]
    else TextLeq(a[1..], b[1..])
  }

  /** Text is ordered by its first difference; a prefix comes before what continues it. */
  lemma {:induction false} TextOrder(a: string, b: string)
    ensures TextLeq(a, b) <==> a <= b || exists i :: 0 <= i < |a| && i < |b| && a[..i] == b[..i] && a[i] < b[i]
  {
    if a != [] && b != [] && a[0] == b[0] {
      var x, y := a[1..], b[1..];
      TextOrder(x, y);
      if x <= y {
        assert a == b[..|a|];
      }
      if i :| 0 <= i < |x| && i < |y| && x[..i] == y[..i] && x[i] < y[i] {
        assert a[..i + 1] == [a[0]] + x[..i] == b[..i + 1] && a[i + 1] < b[i + 1];
      }
      if i :| 0 <= i < |a| && i < |b| && a[..i] == b[..i] && a[i] < b[i] {
        assert i > 0;
        assert x[..i - 1] == a[..i][1..] == b[..i][1..] == y[..i - 1] && x[i - 1] < y[i - 1];
      }
    } else if a != [] && b != [] && a[0] < b[0] {
      assert a[..0] == b[..0];
    }
  }

  lemma {:induction false} TextTotal(a: string, b: string)
    ensures TextLeq(a, b) || TextLeq(b, a)
  {
    if a != [] && b != [] && a[0] == b[0] {
      TextTotal(a[1..], b[1..]);
    }
  }

  lemma {:induction false} TextTransitive(a: string, b: string, c: string)
    requires TextLeq(a, b) && TextLeq(b, c)
    ensures TextLeq(a, c)
  {
    if a != [] && b != [] && c != [] && a[0] == b[0] == c[0] {
      TextTransitive(a[1..], b[1..], c[1..]);
    }
  }

  lemma {:induction false} TextAntisymmetric(a: string, b: string)
    requires TextLeq(a, b) && TextLeq(b, a)
    ensures a == b
  {
    if a != [] {
      TextAntisymmetric(a[1..], b[1..]);
      assert a == [a[0]] + a[1..] && b == [b[0]] + b[1..];
    }
  }
}
