/** The order that `HASH_SRT` and `HASH_ADD_INORDER` produce (lib/uthash.h):
    stable insertion, and the bottom-up merge sort that agrees with it. */
module StableSort {
  import opened Bytes
  import opened Bits

  // A comparison in the style of qsort: only the sign of the result matters.
  type Cmp<!T> = (T, T) -> int

  // cmp is a total preorder on the elements of s.
  ghost predicate PreorderOn<T>(cmp: Cmp<T>, s: seq<T>) {
    && (forall a, b {:trigger cmp(a, b)} :: a in s && b in s ==> cmp(a, b) <= 0 || cmp(b, a) <= 0)
    && (forall a, b, c {:trigger cmp(a, b), cmp(b, c)} ::
            a in s && b in s && c in s && cmp(a, b) <= 0 && cmp(b, c) <= 0 ==> cmp(a, c) <= 0)
  }

  ghost predicate Sorted<T>(cmp: Cmp<T>, s: seq<T>) {
    forall i, j :: 0 <= i < j < |s| ==> cmp(s[i], s[j]) <= 0
  }

  ghost predicate Within<T>(s: seq<T>, all: seq<T>) {
    forall i :: 0 <= i < |s| ==> s[i] in all
  }

  ghost predicate AllAbove<T>(cmp: Cmp<T>, low: T, s: seq<T>) {
    forall i :: 0 <= i < |s| ==> cmp(low, s[i]) <= 0
  }

  // Put e before the first element of s that compares greater.
  function InsertInOrder<T>(cmp: Cmp<T>, s: seq<T>, e: T): (r: seq<T>)
    ensures |r| == |s| + 1
  {
    if s == [] then [e]
    else if cmp(s[0], e) > 0 then [e] + s
    else [s[0]] + InsertInOrder(cmp, s[1..], e)
  }

  // All elements of s inserted one after the other into an empty list.
  function InsertionSort<T>(cmp: Cmp<T>, s: seq<T>): (r: seq<T>)
    ensures |r| == |s|
  {
    if s == [] then []
    else InsertInOrder(cmp, InsertionSort(cmp, s[..|s| - 1]), s[|s| - 1])
  }

  // Merge two runs; on a tie the element of the first run goes first.
  function Merge<T>(cmp: Cmp<T>, p: seq<T>, q: seq<T>): (r: seq<T>)
    ensures |r| == |p| + |q|
    decreases |p| + |q|
  {
    if p == [] then q
    else if q == [] then p
    else if cmp(p[0], q[0]) <= 0 then [p[0]] + Merge(cmp, p[1..], q)
    else [q[0]] + Merge(cmp, p, q[1..])
  }

  // How often that compares: once for each element taken while both runs last.
  function Compared<T>(cmp: Cmp<T>, p: seq<T>, q: seq<T>): nat
    decreases |p| + |q|
  {
    if p == [] || q == [] then 0
    else 1 + (if cmp(p[0], q[0]) <= 0 then Compared(cmp, p[1..], q) else Compared(cmp, p, q[1..]))
  }

  lemma {:induction false} ComparedBound<T>(cmp: Cmp<T>, p: seq<T>, q: seq<T>)
    ensures Compared(cmp, p, q) <= |p| + |q| && (p != [] && q != [] ==> Compared(cmp, p, q) < |p| + |q|)
    decreases |p| + |q|
  {
    if p != [] && q != [] {
      if cmp(p[0], q[0]) <= 0 {
        ComparedBound(cmp, p[1..], q);
      } else {
        ComparedBound(cmp, p, q[1..]);
      }
    }
  }

  function Min(a: nat, b: nat): nat {
    if a <= b then a else b
  }

  // s with each stretch of k elements sorted by itself.
  function Runs<T>(cmp: Cmp<T>, s: seq<T>, k: nat): (r: seq<T>)
    requires k > 0
    ensures |r| == |s|
    decreases |s|
  {
    if s == [] then []
    else
      var m := Min(k, |s|);
      InsertionSort(cmp, s[..m]) + Runs(cmp, s[m..], k)
  }

  // One pass of the merge sort: neighbouring runs of k elements are merged pairwise.
  function MergePass<T>(cmp: Cmp<T>, s: seq<T>, k: nat): (r: seq<T>)
    requires k > 0
    ensures |r| == |s|
    decreases |s|
  {
    if s == [] then []
    else
      var m, n := Min(k, |s|), Min(2 * k, |s|);
      Merge(cmp, s[..m], s[m..n]) + MergePass(cmp, s[n..], k)
  }

  // The comparisons of such a pass, at most one for each element.
  function PassCompares<T>(cmp: Cmp<T>, s: seq<T>, k: nat): nat
    requires k > 0
    decreases |s|
  {
    if s == [] then 0
    else
      var m, n := Min(k, |s|), Min(2 * k, |s|);
      Compared(cmp, s[..m], s[m..n]) + PassCompares(cmp, s[n..], k)
  }

  lemma {:induction false} PassComparesBound<T>(cmp: Cmp<T>, s: seq<T>, k: nat)
    requires k > 0
    ensures PassCompares(cmp, s, k) <= |s|
    decreases |s|
  {
    if s != [] {
      var m, n := Min(k, |s|), Min(2 * k, |s|);
      ComparedBound(cmp, s[..m], s[m..n]);
      PassComparesBound(cmp, s[n..], k);
    }
  }

  // The comparisons of so many passes: before each one, stretches of a power of two are sorted.
  ghost function SortCompares<T>(cmp: Cmp<T>, s: seq<T>, passes: nat): nat {
    if passes == 0 then 0
    else
      var k := Pow2(passes - 1);
      SortCompares(cmp, s, passes - 1) + PassCompares(cmp, Runs(cmp, s, k), k)
  }

  lemma {:induction false} InsertMembers<T>(cmp: Cmp<T>, s: seq<T>, e: T)
    ensures multiset(InsertInOrder(cmp, s, e)) == multiset(s) + multiset{e}
  {
    if s == [] {
    } else if cmp(s[0], e) > 0 {
      assert multiset([e] + s) == multiset{e} + multiset(s);
    } else {
      InsertMembers(cmp, s[1..], e);
      assert s == [s[0]] + s[1..];
    }
  }

  lemma {:induction false} SortIsPermutation<T>(cmp: Cmp<T>, s: seq<T>)
    ensures multiset(InsertionSort(cmp, s)) == multiset(s)
  {
    if s != [] {
      SortIsPermutation(cmp, s[..|s| - 1]);
      InsertMembers(cmp, InsertionSort(cmp, s[..|s| - 1]), s[|s| - 1]);
      assert s == s[..|s| - 1] + [s[|s| - 1]];
    }
  }

  lemma {:induction false} InsertWithin<T>(cmp: Cmp<T>, s: seq<T>, e: T, all: seq<T>)
    requires Within(s, all) && e in all
    ensures Within(InsertInOrder(cmp, s, e), all)
  {
    if s != [] && cmp(s[0], e) <= 0 {
      InsertWithin(cmp, s[1..], e, all);
    }
  }

  lemma {:induction false} SortWithin<T>(cmp: Cmp<T>, s: seq<T>, all: seq<T>)
    requires Within(s, all)
    ensures Within(InsertionSort(cmp, s), all)
  {
    if s != [] {
      SortWithin(cmp, s[..|s| - 1], all);
      InsertWithin(cmp, InsertionSort(cmp, s[..|s| - 1]), s[|s| - 1], all);
    }
  }

  lemma {:induction false} InsertSorted<T>(cmp: Cmp<T>, s: seq<T>, e: T, all: seq<T>)
    requires PreorderOn(cmp, all) && Sorted(cmp, s) && e in all
    requires Within(s, all)
    ensures Sorted(cmp, InsertInOrder(cmp, s, e))
  {
    if s != [] {
      if cmp(s[0], e) > 0 {
        forall j | 0 <= j < |s| ensures cmp(e, s[j]) <= 0 {
          Chained(cmp, e, s[0], s[j], all);
        }
        SortedCons(cmp, e, s);
      } else {
        InsertSorted(cmp, s[1..], e, all);
        InsertAbove(cmp, s[1..], e, s[0]);
        SortedCons(cmp, s[0], InsertInOrder(cmp, s[1..], e));
      }
    }
  }

  lemma SortedCons<T>(cmp: Cmp<T>, x: T, s: seq<T>)
    requires Sorted(cmp, s) && AllAbove(cmp, x, s)
    ensures Sorted(cmp, [x] + s)
  {}

  lemma Chained<T>(cmp: Cmp<T>, a: T, b: T, c: T, all: seq<T>)
    requires PreorderOn(cmp, all) && a in all && b in all && c in all
    requires cmp(b, a) > 0 && (b == c || cmp(b, c) <= 0)
    ensures cmp(a, c) <= 0
  {
    assert cmp(a, b) <= 0;
  }

  lemma {:induction false} InsertAbove<T>(cmp: Cmp<T>, s: seq<T>, e: T, low: T)
    requires cmp(low, e) <= 0 && AllAbove(cmp, low, s)
    ensures AllAbove(cmp, low, InsertInOrder(cmp, s, e))
  {
    if s == [] {
    } else if cmp(s[0], e) > 0 {
      assert InsertInOrder(cmp, s, e) == [e] + s;
    } else {
      InsertAbove(cmp, s[1..], e, low);
      assert InsertInOrder(cmp, s, e) == [s[0]] + InsertInOrder(cmp, s[1..], e);
    }
  }

  lemma {:induction false} SortSorts<T>(cmp: Cmp<T>, s: seq<T>, all: seq<T>)
    requires PreorderOn(cmp, all) && Within(s, all)
    ensures Sorted(cmp, InsertionSort(cmp, s))
  {
    if s != [] {
      var t := s[..|s| - 1];
      SortSorts(cmp, t, all);
      SortWithin(cmp, t, all);
      InsertSorted(cmp, InsertionSort(cmp, t), s[|s| - 1], all);
    }
  }

  /* Stability: elements that compare equal keep their order. */

  ghost predicate Equivalent<T>(cmp: Cmp<T>, a: T, b: T) {
    cmp(a, b) <= 0 && cmp(b, a) <= 0
  }

  // The elements of s that compare equal to x, in the order of s.
  ghost function Class<T>(cmp: Cmp<T>, s: seq<T>, x: T): seq<T> {
    if s == [] then []
    else (if Equivalent(cmp, s[0], x) then [s[0]] else []) + Class(cmp, s[1..], x)
  }

  lemma {:induction false} ClassConcat<T>(cmp: Cmp<T>, a: seq<T>, b: seq<T>, x: T)
    ensures Class(cmp, a + b, x) == Class(cmp, a, x) + Class(cmp, b, x)
  {
    if a == [] {
      assert a + b == b;
    } else {
      assert (a + b)[1..] == a[1..] + b;
      ClassConcat(cmp, a[1..], b, x);
      Assoc(if Equivalent(cmp, a[0], x) then [a[0]] else [], Class(cmp, a[1..], x), Class(cmp, b, x));
    }
  }

  lemma {:induction false} InsertStable<T>(cmp: Cmp<T>, s: seq<T>, e: T, x: T, all: seq<T>)
    requires PreorderOn(cmp, all) && Sorted(cmp, s) && e in all && x in all
    requires Within(s, all)
    ensures Class(cmp, InsertInOrder(cmp, s, e), x) == Class(cmp, s + [e], x)
  {
    if s == [] {
    } else if cmp(s[0], e) > 0 {
      ClassConcat(cmp, s, [e], x);
      ClassConcat(cmp, [e], s, x);
      if Equivalent(cmp, e, x) {
        NothingEquivalent(cmp, s, e, x, all);
      } else {
        ClassEmpty(cmp, [e], x);
      }
    } else {
      InsertStable(cmp, s[1..], e, x, all);
      assert (s + [e])[1..] == s[1..] + [e];
    }
  }

  // A sorted list that starts above e holds nothing equivalent to e.
  lemma NothingEquivalent<T>(cmp: Cmp<T>, s: seq<T>, e: T, x: T, all: seq<T>)
    requires PreorderOn(cmp, all) && Sorted(cmp, s) && e in all && x in all && Within(s, all)
    requires s != [] && cmp(s[0], e) > 0 && Equivalent(cmp, e, x)
    ensures Class(cmp, s, x) == []
  {
    forall i | 0 <= i < |s| ensures !Equivalent(cmp, s[i], x) {
      assert i > 0 ==> cmp(s[0], s[i]) <= 0;
      var y := s[i];
      assert cmp(y, x) <= 0 ==> cmp(y, e) <= 0;
    }
    ClassEmpty(cmp, s, x);
  }

  lemma {:induction false} ClassEmpty<T>(cmp: Cmp<T>, s: seq<T>, x: T)
    requires forall i :: 0 <= i < |s| ==> !Equivalent(cmp, s[i], x)
    ensures Class(cmp, s, x) == []
  {
    if s != [] {
      ClassEmpty(cmp, s[1..], x);
    }
  }

  lemma {:induction false} SortIsStable<T>(cmp: Cmp<T>, s: seq<T>, x: T, all: seq<T>)
    requires PreorderOn(cmp, all) && x in all
    requires Within(s, all)
    ensures Class(cmp, InsertionSort(cmp, s), x) == Class(cmp, s, x)
  {
    if s != [] {
      var t, e := s[..|s| - 1], s[|s| - 1];
      var r := InsertionSort(cmp, t);
      SortIsStable(cmp, t, x, all);
      SortSorts(cmp, t, all);
      SortWithin(cmp, t, all);
      InsertStable(cmp, r, e, x, all);
      ClassConcat(cmp, r, [e], x);
      ClassConcat(cmp, t, [e], x);
      assert s == t + [e];
    }
  }

  // Sortedness and stability determine the result: there is only one stable sort.
  lemma {:induction false} StableSortUnique<T>(cmp: Cmp<T>, s: seq<T>, t: seq<T>, all: seq<T>)
    requires PreorderOn(cmp, all) && Within(s, all) && Within(t, all)
    requires Sorted(cmp, s) && Sorted(cmp, t)
    requires forall x :: x in all ==> Class(cmp, s, x) == Class(cmp, t, x)
    ensures s == t
  {
    if s != [] {
      ClassNonempty(cmp, s, s[0], all);
    }
    if t != [] {
      ClassNonempty(cmp, t, t[0], all);
    }
    if s != [] && t != [] {
      FirstOfClass(cmp, s, t, all);
      forall x | x in all ensures Class(cmp, s[1..], x) == Class(cmp, t[1..], x) {
        ClassTail(cmp, s, t, x);
      }
      StableSortUnique(cmp, s[1..], t[1..], all);
    }
  }

  lemma ClassTail<T>(cmp: Cmp<T>, s: seq<T>, t: seq<T>, x: T)
    requires s != [] && t != [] && s[0] == t[0] && Class(cmp, s, x) == Class(cmp, t, x)
    ensures Class(cmp, s[1..], x) == Class(cmp, t[1..], x)
  {
    var c := if Equivalent(cmp, s[0], x) then [s[0]] else [];
    assert Class(cmp, s[1..], x) == Class(cmp, s, x)[|c|..];
    assert Class(cmp, t[1..], x) == Class(cmp, t, x)[|c|..];
  }

  lemma {:induction false} ClassNonempty<T>(cmp: Cmp<T>, s: seq<T>, x: T, all: seq<T>)
    requires PreorderOn(cmp, all) && Within(s, all) && x in s
    ensures Class(cmp, s, x) != []
  {
    if s[0] == x {
      assert cmp(x, x) <= 0;
    } else {
      ClassNonempty(cmp, s[1..], x, all);
    }
  }

  lemma {:induction false} ClassWithin<T>(cmp: Cmp<T>, s: seq<T>, x: T)
    ensures forall y :: y in Class(cmp, s, x) ==> y in s && Equivalent(cmp, y, x)
  {
    if s != [] {
      ClassWithin(cmp, s[1..], x);
    }
  }

  // Two sorted lists with the same classes start with the same element.
  lemma FirstOfClass<T>(cmp: Cmp<T>, s: seq<T>, t: seq<T>, all: seq<T>)
    requires PreorderOn(cmp, all) && Within(s, all) && Within(t, all) && s != [] && t != []
    requires Sorted(cmp, s) && Sorted(cmp, t)
    requires forall x :: x in all ==> Class(cmp, s, x) == Class(cmp, t, x)
    ensures s[0] == t[0]
  {
    var a, b := s[0], t[0];
    NotAbove(cmp, s, t, all);
    NotAbove(cmp, t, s, all);
    assert Equivalent(cmp, b, a) && Equivalent(cmp, a, a);
    assert Class(cmp, s, a)[0] == a;
    assert Class(cmp, t, a)[0] == b;
  }

  lemma NotAbove<T>(cmp: Cmp<T>, s: seq<T>, t: seq<T>, all: seq<T>)
    requires PreorderOn(cmp, all) && Within(s, all) && Within(t, all) && s != [] && t != []
    requires Sorted(cmp, t) && Class(cmp, s, s[0]) == Class(cmp, t, s[0])
    ensures cmp(t[0], s[0]) <= 0
  {
    var a := s[0];
    ClassNonempty(cmp, s, a, all);
    ClassWithin(cmp, t, a);
    var y := Class(cmp, t, a)[0];
    assert y in Class(cmp, t, a);
    var i :| 0 <= i < |t| && t[i] == y;
    assert t[0] in all && y in all && a in all;
    assert i > 0 ==> cmp(t[0], t[i]) <= 0;
    assert cmp(t[0], t[0]) <= 0;
    assert cmp(t[0], y) <= 0;
  }

  /* The merge sort computes the same sequence as the insertion sort. */

  lemma {:induction false} InsertIntoMerge<T>(cmp: Cmp<T>, p: seq<T>, q: seq<T>, e: T, all: seq<T>)
    requires PreorderOn(cmp, all) && e in all
    requires Within(p, all)
    requires Within(q, all)
    ensures InsertInOrder(cmp, Merge(cmp, p, q), e) == Merge(cmp, p, InsertInOrder(cmp, q, e))
    decreases |p| + |q|
  {
    if p == [] {
    } else if q == [] {
      if cmp(p[0], e) <= 0 {
        InsertIntoMerge(cmp, p[1..], q, e, all);
        assert Merge(cmp, p[1..], q) == p[1..];
      }
    } else if cmp(p[0], q[0]) <= 0 {
      assert p[0] in all && q[0] in all;
      InsertIntoMerge(cmp, p[1..], q, e, all);
    } else {
      assert p[0] in all && q[0] in all;
      InsertIntoMerge(cmp, p, q[1..], e, all);
    }
  }

  lemma {:induction false} MergeOfSorts<T>(cmp: Cmp<T>, a: seq<T>, b: seq<T>, all: seq<T>)
    requires PreorderOn(cmp, all) && Within(a, all) && Within(b, all)
    ensures Merge(cmp, InsertionSort(cmp, a), InsertionSort(cmp, b)) == InsertionSort(cmp, a + b)
    decreases |b|
  {
    if b == [] {
      assert a + b == a;
    } else {
      var c, e := b[..|b| - 1], b[|b| - 1];
      assert (a + b)[..|a + b| - 1] == a + c;
      MergeOfSorts(cmp, a, c, all);
      SortWithin(cmp, a, all);
      SortWithin(cmp, c, all);
      InsertIntoMerge(cmp, InsertionSort(cmp, a), InsertionSort(cmp, c), e, all);
    }
  }

  // A pass over sorted runs of k elements leaves sorted runs of 2k elements.
  lemma {:induction false} PassDoublesRuns<T>(cmp: Cmp<T>, s: seq<T>, k: nat, all: seq<T>)
    requires k > 0 && PreorderOn(cmp, all) && Within(s, all)
    ensures MergePass(cmp, Runs(cmp, s, k), k) == Runs(cmp, s, 2 * k)
    decreases |s|
  {
    if s != [] {
      var m, n := Min(k, |s|), Min(2 * k, |s|);
      var a, b, c := s[..m], s[m..n], s[n..];
      assert s == a + b + c;
      PassDoublesRuns(cmp, c, k, all);
      PassDoublesFront(cmp, a, b, c, k, all);
    }
  }

  lemma PassDoublesFront<T>(cmp: Cmp<T>, p: seq<T>, q: seq<T>, rest: seq<T>, k: nat, all: seq<T>)
    requires k > 0 && 0 < |p| <= k && |q| <= k
    requires |p| < k ==> q == [] && rest == []
    requires |q| < k ==> rest == []
    requires PreorderOn(cmp, all) && Within(p, all) && Within(q, all)
    requires MergePass(cmp, Runs(cmp, rest, k), k) == Runs(cmp, rest, 2 * k)
    ensures MergePass(cmp, Runs(cmp, p + q + rest, k), k) == Runs(cmp, p + q + rest, 2 * k)
  {
    hide InsertionSort, Runs, Merge, MergePass, PreorderOn, Within;
    RunsFront(cmp, p, q, rest, k);
    PassFront(cmp, InsertionSort(cmp, p), InsertionSort(cmp, q), Runs(cmp, rest, k), k);
    MergeOfSorts(cmp, p, q, all);
    RunsStep(cmp, p + q, rest, 2 * k);
  }

  lemma PassFront<T>(cmp: Cmp<T>, p: seq<T>, q: seq<T>, rest: seq<T>, k: nat)
    requires k > 0 && 0 < |p| <= k && |q| <= k
    requires |p| < k ==> q == [] && rest == []
    requires |q| < k ==> rest == []
    ensures MergePass(cmp, p + q + rest, k) == Merge(cmp, p, q) + MergePass(cmp, rest, k)
  {
    hide Merge;
    var s := p + q + rest;
    var m, n := Min(k, |s|), Min(2 * k, |s|);
    assert m == |p| && n == |p| + |q|;
    assert s[..m] == p && s[m..n] == q && s[n..] == rest;
  }

  lemma RunsFront<T>(cmp: Cmp<T>, p: seq<T>, q: seq<T>, rest: seq<T>, k: nat)
    requires k > 0 && 0 < |p| <= k && |q| <= k
    requires |p| < k ==> q == [] && rest == []
    requires |q| < k ==> rest == []
    ensures Runs(cmp, p + q + rest, k) == InsertionSort(cmp, p) + InsertionSort(cmp, q) + Runs(cmp, rest, k)
  {
    hide InsertionSort, Runs;
    RunsStep(cmp, p, q + rest, k);
    RunsStep(cmp, q, rest, k);
    assert p + (q + rest) == p + q + rest;
    var a, b, c := InsertionSort(cmp, p), InsertionSort(cmp, q), Runs(cmp, rest, k);
    assert a + (b + c) == a + b + c;
  }

  lemma RunsStep<T>(cmp: Cmp<T>, p: seq<T>, rest: seq<T>, k: nat)
    requires k > 0 && |p| <= k && (|p| < k ==> rest == [])
    ensures Runs(cmp, p + rest, k) == InsertionSort(cmp, p) + Runs(cmp, rest, k)
  {
    hide InsertionSort;
    var s := p + rest;
    var m := Min(k, |s|);
    assert m == |p| && s[..m] == p && s[m..] == rest;
  }

  lemma {:induction false} RunsOfOne<T>(cmp: Cmp<T>, s: seq<T>)
    ensures Runs(cmp, s, 1) == s
  {
    if s != [] {
      RunsOfOne(cmp, s[1..]);
      assert s[..1][..0] == [];
      assert InsertionSort(cmp, s[..1]) == [s[0]];
      assert Runs(cmp, s, 1) == [s[0]] + s[1..];
    }
  }

  lemma {:induction false} RunsWithin<T>(cmp: Cmp<T>, s: seq<T>, k: nat, all: seq<T>)
    requires k > 0 && Within(s, all)
    ensures Within(Runs(cmp, s, k), all)
    decreases |s|
  {
    if s != [] {
      var m := Min(k, |s|);
      SortWithin(cmp, s[..m], all);
      RunsWithin(cmp, s[m..], k, all);
    }
  }

  lemma OneRun<T>(cmp: Cmp<T>, s: seq<T>, k: nat)
    requires k > 0 && |s| <= k
    ensures Runs(cmp, s, k) == InsertionSort(cmp, s)
  {
    if s != [] {
      assert s[..|s|] == s && s[|s|..] == [];
    }
  }
}
