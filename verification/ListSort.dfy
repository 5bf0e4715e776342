/** HASH_SRT: the bottom-up merge sort of the application-order list, in place. */
module ListSort {
  import opened Sequences
  import opened Bits
  import opened StableSort
  import opened Chains

  // The list as recorded before a pass: each program with the one that follows it.
  ghost predicate FollowedBy(nx: map<Prog, Prog?>, s: seq<Prog>) {
    && (forall i :: 0 <= i < |s| ==> s[i] in nx)
    && (s != [] ==> nx[s[|s| - 1]] == null)
    && forall i, j :: 0 <= i && i + 1 == j < |s| ==> nx[s[i]] == s[j]
  }

  // A list under construction: linked both ways, its last next field not yet set.
  ghost predicate Growing(out: seq<Prog>)
    reads out`prev, out`next
  {
    && (out != [] ==> out[0].prev == null)
    && forall i, j :: 0 <= i && i + 1 == j < |out| ==> out[i].next == out[j] && out[j].prev == out[i]
  }

  function At(s: seq<Prog>, i: nat): Prog? {
    if i < |s| then s[i] else null
  }

  lemma AtWhere(s: seq<Prog>, i: nat)
    ensures At(s, i) == null <==> i >= |s|
    ensures i < |s| ==> At(s, i) == s[i]
  {}

  lemma NextAt(nx: map<Prog, Prog?>, s: seq<Prog>, i: nat)
    requires FollowedBy(nx, s) && i < |s|
    ensures s[i] in nx && nx[s[i]] == At(s, i + 1)
  {
    if i + 1 < |s| {
      assert nx[s[i]] == s[i + 1];
    }
  }

  // Append e to the list that ends in tail.
  method Emit(e: Prog, list: Prog?, tail: Prog?, ghost out: seq<Prog>) returns (list': Prog?)
    requires Growing(out) && Distinct(out) && e !in out && list == HeadOf(out) && tail == LastOf(out)
    modifies e`prev, (if tail == null then {} else {tail})`next
    ensures Growing(out + [e]) && Distinct(out + [e]) && list' == HeadOf(out + [e])
  {
    assert forall i :: 0 <= i < |out| ==> out[i] in out;
    list' := list;
    if tail != null {
      tail.next := e;
    } else {
      list' := e;
    }
    e.prev := tail;
  }

  // Step over at most insize programs from p on.
  method SkipRun(p: Prog, insize: nat, ghost s: seq<Prog>, ghost a: nat, ghost nx: map<Prog, Prog?>)
    returns (q: Prog?, psize: nat)
    requires insize > 0 && a < |s| && p == s[a] && FollowedBy(nx, s)
    requires forall i :: a <= i < |s| ==> s[i].next == nx[s[i]]
    ensures psize == Min(insize, |s| - a) && q == At(s, a + psize)
  {
    hide FollowedBy;
    q, psize := p, 0;
    var i := 0;
    while i < insize
      invariant i == psize <= insize && a + psize < |s| && q == s[a + psize]
    {
      psize := psize + 1;
      NextAt(nx, s, a + psize - 1);
      q := q.next;
      if q == null {
        break;
      }
      i := i + 1;
    }
  }

  // Choose the next program of the merge of s[i..m], from p on, and s[j..n], from q on.
  method Choose(cmp: Cmp<Prog>, p: Prog?, q: Prog?, psize: nat, qsize: nat,
                ghost s: seq<Prog>, ghost i: nat, ghost m: nat, ghost j: nat, ghost n: nat,
                ghost nx: map<Prog, Prog?>)
    returns (e: Prog, p': Prog?, q': Prog?, psize': nat, qsize': nat,
             ghost i': nat, ghost j': nat, ghost compared: nat)
    requires FollowedBy(nx, s) && Distinct(s) && i <= m <= j <= n <= |s| && (i < m || j < n)
    requires psize == m - i && (i < m ==> p == s[i]) && q == At(s, j)
    requires (qsize != 0 && q != null) <==> j < n
    requires forall t :: i <= t < m || j <= t < |s| ==> s[t] in nx && s[t].next == nx[s[t]]
    ensures i' + j' == i + j + 1 && ((i' == i + 1 <= m && e == s[i]) || (j' == j + 1 <= n && e == s[j]))
    ensures i <= i' && j <= j' && compared == (if i < m && j < n then 1 else 0)
    ensures Compared(cmp, s[i..m], s[j..n]) == compared + Compared(cmp, s[i'..m], s[j'..n])
    ensures psize' == m - i' && (i' < m ==> p' == s[i']) && q' == At(s, j') && qsize' == qsize - (j' - j)
    ensures Merge(cmp, s[i..m], s[j..n]) == [e] + Merge(cmp, s[i'..m], s[j'..n])
    ensures forall t :: i' <= t < m || j' <= t < |s| ==> s[t] != e
  {
    hide FollowedBy, Distinct, Merge, Compared;
    compared := 0;
    var takeFirst: bool;
    if psize == 0 {
      takeFirst := false;
    } else if qsize == 0 || q == null {
      takeFirst := true;
    } else {
      compared := 1;
      takeFirst := cmp(p, q) <= 0;
    }
    p', q', psize', qsize', i', j' := p, q, psize, qsize, i, j;
    if takeFirst {
      MergeP(cmp, s[i..m], s[j..n]);
      ComparedP(cmp, s[i..m], s[j..n]);
      TakeOne(nx, s, i, m);
      e, p', psize', i' := p, p.next, psize - 1, i + 1;
    } else {
      MergeQ(cmp, s[i..m], s[j..n]);
      ComparedQ(cmp, s[i..m], s[j..n]);
      TakeOne(nx, s, j, n);
      e, q', qsize', j' := q, q.next, qsize - 1, j + 1;
    }
  }

  // Merge the runs s[a..m] and s[m..n] behind out.
  method MergeRuns(cmp: Cmp<Prog>, first: Prog, second: Prog?, runs: nat, insize: nat, list0: Prog?, tail0: Prog?,
                   ghost s: seq<Prog>, ghost a: nat, ghost out0: seq<Prog>, ghost nx: map<Prog, Prog?>)
    returns (list: Prog?, tail: Prog?, q: Prog?, ghost compares: nat, ghost out: seq<Prog>)
    requires a < |s| && 0 < runs == Min(insize, |s| - a) && first == s[a] && second == At(s, a + runs)
    requires FollowedBy(nx, s) && Distinct(s)
    requires forall t :: a <= t < |s| ==> s[t] in nx && s[t].next == nx[s[t]] && s[t] !in out0
    requires Growing(out0) && Distinct(out0) && list0 == HeadOf(out0) && tail0 == LastOf(out0)
    requires forall x :: x in out0 ==> x in s
    modifies s`prev, s`next
    ensures var m, n := a + runs, Min(a + 2 * insize, |s|);
            && out == out0 + Merge(cmp, s[a..m], s[m..n]) && compares == Compared(cmp, s[a..m], s[m..n])
            && q == At(s, n) && (forall x :: x in out ==> x in s)
            && (forall t :: n <= t < |s| ==> s[t].next == nx[s[t]] && s[t] !in out)
    ensures Growing(out) && Distinct(out) && list == HeadOf(out) && tail == LastOf(out)
  {
    hide FollowedBy, Growing, Distinct, Merge, Compared;
    ghost var m, n := a + runs, Min(a + 2 * insize, |s|);
    ghost var i, j := a, m;
    var p: Prog?, psize, qsize := first, runs, insize;
    list, tail, q, compares, out := list0, tail0, second, 0, out0;
    while psize != 0 || (qsize != 0 && q != null)
      invariant a <= i <= m <= j <= n && psize == m - i && qsize == insize - (j - m)
      invariant q == At(s, j) && (i < m ==> p == s[i])
      invariant out + Merge(cmp, s[i..m], s[j..n]) == out0 + Merge(cmp, s[a..m], s[m..n])
      invariant forall t :: i <= t < m || j <= t < |s| ==> s[t].next == nx[s[t]] && s[t] !in out
      invariant Growing(out) && Distinct(out) && list == HeadOf(out) && tail == LastOf(out)
      invariant compares + Compared(cmp, s[i..m], s[j..n]) == Compared(cmp, s[a..m], s[m..n])
      invariant forall x :: x in out ==> x in s
      decreases m - i + n - j
    {
      var e;
      ghost var compared;
      e, p, q, psize, qsize, i, j, compared := Choose(cmp, p, q, psize, qsize, s, i, m, j, n, nx);
      compares := compares + compared;
      assert tail != null ==> tail in out;
      list := Emit(e, list, tail, out);
      MoveOver(out, e, Merge(cmp, s[i..m], s[j..n]));
      tail, out := e, out + [e];
    }
    MergeEmpty(cmp, s[i..m], s[j..n]);
  }

  lemma MoveOver<T>(out: seq<T>, e: T, rest: seq<T>)
    ensures out + ([e] + rest) == (out + [e]) + rest
  {}

  lemma MergeEmpty<T>(cmp: Cmp<T>, p: seq<T>, q: seq<T>)
    requires p == q == []
    ensures Merge(cmp, p, q) == [] && Compared(cmp, p, q) == 0
  {}

  lemma TakeOne(nx: map<Prog, Prog?>, s: seq<Prog>, i: nat, m: nat)
    requires FollowedBy(nx, s) && Distinct(s) && i < m <= |s|
    ensures s[i] in nx && nx[s[i]] == At(s, i + 1) && s[i..m][1..] == s[i + 1..m]
    ensures forall t :: 0 <= t < |s| && t != i ==> s[t] != s[i]
  {
    NextAt(nx, s, i);
  }

  lemma MergeP<T>(cmp: Cmp<T>, p: seq<T>, q: seq<T>)
    requires p != [] && (q == [] || cmp(p[0], q[0]) <= 0)
    ensures Merge(cmp, p, q) == [p[0]] + Merge(cmp, p[1..], q)
  {
    if q == [] {
      assert Merge(cmp, p[1..], q) == p[1..];
    }
  }

  lemma MergeQ<T>(cmp: Cmp<T>, p: seq<T>, q: seq<T>)
    requires q != [] && (p == [] || cmp(p[0], q[0]) > 0)
    ensures Merge(cmp, p, q) == [q[0]] + Merge(cmp, p, q[1..])
  {
    if p == [] {
      assert Merge(cmp, p, q[1..]) == q[1..];
    }
  }

  lemma ComparedP<T>(cmp: Cmp<T>, p: seq<T>, q: seq<T>)
    requires p != [] && (q == [] || cmp(p[0], q[0]) <= 0)
    ensures Compared(cmp, p, q) == (if q == [] then 0 else 1) + Compared(cmp, p[1..], q)
  {}

  lemma ComparedQ<T>(cmp: Cmp<T>, p: seq<T>, q: seq<T>)
    requires q != [] && (p == [] || cmp(p[0], q[0]) > 0)
    ensures Compared(cmp, p, q) == (if p == [] then 0 else 1) + Compared(cmp, p, q[1..])
  {}

  // Merge the next two runs of the list, from p on.
  method MergeNext(cmp: Cmp<Prog>, p: Prog, insize: nat, list: Prog?, tail: Prog?,
                   ghost s: seq<Prog>, ghost a: nat, ghost out: seq<Prog>, ghost nx: map<Prog, Prog?>)
    returns (list': Prog?, tail': Prog?, p': Prog?, ghost a': nat, ghost c: nat, ghost out': seq<Prog>)
    requires insize > 0 && a < |s| && p == s[a] && FollowedBy(nx, s) && Distinct(s)
    requires forall t :: a <= t < |s| ==> s[t] in nx && s[t].next == nx[s[t]] && s[t] !in out
    requires Growing(out) && Distinct(out) && list == HeadOf(out) && tail == LastOf(out)
    requires forall x :: x in out ==> x in s
    modifies s`prev, s`next
    ensures a' == Min(a + 2 * insize, |s|) && p' == At(s, a')
    ensures c + PassCompares(cmp, s[a'..], insize) == PassCompares(cmp, s[a..], insize)
    ensures out' + MergePass(cmp, s[a'..], insize) == out + MergePass(cmp, s[a..], insize)
    ensures forall t :: a' <= t < |s| ==> s[t].next == nx[s[t]] && s[t] !in out'
    ensures Growing(out') && Distinct(out') && list' == HeadOf(out') && tail' == LastOf(out')
    ensures forall x :: x in out' ==> x in s
  {
    hide FollowedBy, Growing, Distinct, Merge, MergePass, AppLinked, Compared, PassCompares;
    var q, psize := SkipRun(p, insize, s, a, nx);
    PassStep(cmp, s, a, insize, out);
    PassComparesStep(cmp, s, a, insize);
    list', tail', p', c, out' := MergeRuns(cmp, p, q, psize, insize, list, tail, s, a, out, nx);
    a' := Min(a + 2 * insize, |s|);
  }

  // One pass over the list that starts at first: merge neighbouring runs of insize programs.
  method Pass(cmp: Cmp<Prog>, first: Prog, insize: nat, ghost s: seq<Prog>)
    returns (list: Prog?, tail: Prog?, nmerges: nat, ghost compares: nat)
    requires insize > 0 && s != [] && first == s[0] && AppLinked(s) && Distinct(s)
    modifies s`prev, s`next
    ensures var r := MergePass(cmp, s, insize);
            AppLinked(r) && Distinct(r) && list == HeadOf(r) && tail == LastOf(r)
    ensures (nmerges <= 1 <==> |s| <= 2 * insize) && compares == PassCompares(cmp, s, insize) <= |s|
  {
    hide FollowedBy, Growing, Distinct, MergePass, AppLinked, Counted, PassCompares;
    PassComparesBound(cmp, s, insize);
    ghost var nx := Follow(s);
    ghost var out;
    list, tail, nmerges, compares, out := MergeAll(cmp, first, insize, s, nx);
    MergesCounted(nmerges, insize, |s|, |s|);
    assert tail in out;
    Close(tail, out);
  }

  // The loop of a pass: everything is merged behind an empty list.
  method MergeAll(cmp: Cmp<Prog>, first: Prog, insize: nat, ghost s: seq<Prog>, ghost nx: map<Prog, Prog?>)
    returns (list: Prog?, tail: Prog?, nmerges: nat, ghost compares: nat, ghost out: seq<Prog>)
    requires insize > 0 && s != [] && first == s[0] && Distinct(s) && FollowedBy(nx, s)
    requires forall t :: 0 <= t < |s| ==> s[t] in nx && s[t].next == nx[s[t]]
    modifies s`prev, s`next
    ensures out == MergePass(cmp, s, insize) && Counted(nmerges, insize, |s|, |s|)
    ensures compares == PassCompares(cmp, s, insize)
    ensures Growing(out) && Distinct(out) && list == HeadOf(out) && tail == LastOf(out)
    ensures forall x :: x in out ==> x in s
  {
    hide FollowedBy, Growing, Distinct, MergePass, Counted, Min, At, HeadOf, LastOf, PassCompares;
    ghost var a;
    a, out := 0, [];
    AtWhere(s, 0);
    var p: Prog? := first;
    list, tail, nmerges, compares := null, null, 0, 0;
    StartGrowing(cmp, insize, s);
    while p != null
      invariant a <= |s| && p == At(s, a)
      invariant compares + PassCompares(cmp, s[a..], insize) == PassCompares(cmp, s, insize)
      invariant out + MergePass(cmp, s[a..], insize) == MergePass(cmp, s, insize)
      invariant forall t :: a <= t < |s| ==> s[t].next == nx[s[t]] && s[t] !in out
      invariant Growing(out) && Distinct(out) && list == HeadOf(out) && tail == LastOf(out)
      invariant Counted(nmerges, insize, a, |s|) && forall x :: x in out ==> x in s
      decreases |s| - a
    {
      AtWhere(s, a);
      CountMerge(nmerges, insize, a, |s|);
      nmerges := nmerges + 1;
      ghost var c;
      list, tail, p, a, c, out := MergeNext(cmp, p, insize, list, tail, s, a, out, nx);
      compares := compares + c;
    }
    AtWhere(s, a);
    PassDone(cmp, s, a, insize, out);
  }

  // After nmerges merges of two runs of at most k programs, a of n programs are merged.
  ghost predicate Counted(nmerges: nat, k: nat, a: nat, n: nat) {
    && (nmerges == 0 <==> a == 0)
    && (nmerges == 1 ==> a == Min(2 * k, n))
    && (nmerges > 1 ==> n > 2 * k)
  }

  lemma CountMerge(nmerges: nat, k: nat, a: nat, n: nat)
    requires Counted(nmerges, k, a, n) && a < n && k > 0
    ensures Counted(nmerges + 1, k, Min(a + 2 * k, n), n) && a < Min(a + 2 * k, n) <= n
  {}

  lemma MergesCounted(nmerges: nat, k: nat, a: nat, n: nat)
    requires Counted(nmerges, k, a, n) && a == n > 0
    ensures nmerges <= 1 <==> n <= 2 * k
  {}

  lemma Follow(s: seq<Prog>) returns (nx: map<Prog, Prog?>)
    requires AppLinked(s)
    ensures FollowedBy(nx, s) && forall t :: 0 <= t < |s| ==> s[t] in nx && nx[s[t]] == s[t].next
  {
    nx := map p | p in s :: p.next;
    assert forall t :: 0 <= t < |s| ==> s[t] in s;
  }

  lemma StartGrowing(cmp: Cmp<Prog>, k: nat, s: seq<Prog>)
    requires k > 0
    ensures Growing([]) && Distinct<Prog>([]) && HeadOf([]) == null == LastOf([]) && Counted(0, k, 0, |s|)
    ensures [] + MergePass(cmp, s[0..], k) == MergePass(cmp, s, k) && PassCompares(cmp, s[0..], k) == PassCompares(cmp, s, k)
  {
    assert s[0..] == s;
  }

  lemma PassStep(cmp: Cmp<Prog>, s: seq<Prog>, a: nat, k: nat, out: seq<Prog>)
    requires k > 0 && a < |s|
    ensures var m, n := a + Min(k, |s| - a), Min(a + 2 * k, |s|);
            out + MergePass(cmp, s[a..], k) == (out + Merge(cmp, s[a..m], s[m..n])) + MergePass(cmp, s[n..], k)
  {
    hide Merge, MergePass;
    var m, n := a + Min(k, |s| - a), Min(a + 2 * k, |s|);
    assert s[a..] == s[a..m] + s[m..n] + s[n..];
    PassFront(cmp, s[a..m], s[m..n], s[n..], k);
    var x, y := Merge(cmp, s[a..m], s[m..n]), MergePass(cmp, s[n..], k);
    assert out + (x + y) == (out + x) + y;
  }

  lemma PassComparesStep(cmp: Cmp<Prog>, s: seq<Prog>, a: nat, k: nat)
    requires k > 0 && a < |s|
    ensures var m, n := a + Min(k, |s| - a), Min(a + 2 * k, |s|);
            PassCompares(cmp, s[a..], k) == Compared(cmp, s[a..m], s[m..n]) + PassCompares(cmp, s[n..], k)
  {
    hide Compared;
    var m, n, t := a + Min(k, |s| - a), Min(a + 2 * k, |s|), s[a..];
    assert t[..m - a] == s[a..m] && t[m - a..n - a] == s[m..n] && t[n - a..] == s[n..];
  }

  lemma PassDone(cmp: Cmp<Prog>, s: seq<Prog>, a: nat, k: nat, out: seq<Prog>)
    requires k > 0 && a == |s| && out + MergePass(cmp, s[a..], k) == MergePass(cmp, s, k)
    ensures out == MergePass(cmp, s, k) && |out| == |s| && PassCompares(cmp, s[a..], k) == 0
  {
    assert s[a..] == [];
  }

  method Close(tail: Prog, ghost out: seq<Prog>)
    requires Growing(out) && Distinct(out) && tail == LastOf(out)
    modifies tail`next
    ensures AppLinked(out)
  {
    tail.next := null;
  }

  // Sorting n programs takes max(1, ceil(log2 n)) passes of at most n comparisons each.
  ghost predicate SortCost(n: nat, passes: nat, compares: nat) {
    if n == 0 then passes == compares == 0
    else
      && passes > 0 && n <= Pow2(passes) && (passes > 1 ==> n > Pow2(passes - 1))
      && compares <= passes * n
  }

  // HASH_SRT on a non-empty list.
  method SortLinked(cmp: Cmp<Prog>, first: Prog, ghost s: seq<Prog>)
    returns (head: Prog?, tail: Prog?, ghost passes: nat, ghost compares: nat)
    requires s != [] && first == s[0] && AppLinked(s) && Distinct(s) && PreorderOn(cmp, s)
    modifies s`prev, s`next
    ensures var r := InsertionSort(cmp, s);
            AppLinked(r) && Distinct(r) && head == HeadOf(r) && tail == LastOf(r)
    ensures SortCost(|s|, passes, compares) && compares == SortCompares(cmp, s, passes)
  {
    hide PassCompares, SortCompares;
    NoCompares(cmp, s);
    hide Growing, Distinct, Merge, MergePass, AppLinked, InsertionSort, Runs, PreorderOn;
    head, tail, passes, compares := first, null, 0, 0;
    var insize, looping := 1, true;
    ghost var cur := s;
    RunsOfOne(cmp, s);
    WithinItself(s);
    while looping
      invariant insize == Pow2(passes) && cur == Runs(cmp, s, insize)
      invariant AppLinked(cur) && Distinct(cur) && head == HeadOf(cur) && Within(cur, s)
      invariant looping && passes > 0 ==> |s| > Pow2(passes)
      invariant !looping ==> passes > 0 && |s| <= Pow2(passes) && (passes > 1 ==> |s| > Pow2(passes - 1))
      invariant !looping ==> tail == LastOf(cur)
      invariant compares <= passes * |s| && compares == SortCompares(cmp, s, passes)
      decreases looping, |s| - insize
    {
      assert forall x :: x in cur ==> x in s;
      var nmerges;
      ghost var c;
      head, tail, nmerges, c := Pass(cmp, head, insize, cur);
      PassDoublesRuns(cmp, s, insize, s);
      RunsWithin(cmp, s, 2 * insize, s);
      cur := Runs(cmp, s, 2 * insize);
      if nmerges <= 1 {
        looping := false;
      }
      MorePasses(passes, |s|, compares, c);
      MoreCompares(cmp, s, passes);
      passes, compares := passes + 1, compares + c;
      insize := insize * 2;
    }
    OneRun(cmp, s, insize);
  }

  lemma MorePasses(passes: nat, n: nat, compares: nat, c: nat)
    requires compares <= passes * n && c <= n
    ensures compares + c <= (passes + 1) * n && Pow2(passes + 1) == 2 * Pow2(passes)
  {}

  lemma NoCompares(cmp: Cmp<Prog>, s: seq<Prog>)
    ensures SortCompares(cmp, s, 0) == 0
  {}

  lemma MoreCompares(cmp: Cmp<Prog>, s: seq<Prog>, passes: nat)
    ensures SortCompares(cmp, s, passes + 1) ==
            SortCompares(cmp, s, passes) + PassCompares(cmp, Runs(cmp, s, Pow2(passes)), Pow2(passes))
  {}

  lemma WithinItself<T>(s: seq<T>)
    ensures Within(s, s)
  {}
}
