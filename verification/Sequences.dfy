/** Sequences without repetition: the abstract value of a linked list. */
module Sequences {
  import opened Bytes

  ghost predicate Distinct<T>(s: seq<T>) {
    forall i, j :: 0 <= i < j < |s| ==> s[i] != s[j]
  }

  // s with its first occurrence of x taken out.
  function Without<T(==)>(s: seq<T>, x: T): seq<T> {
    if s == [] then []
    else if s[0] == x then s[1..]
    else [s[0]] + Without(s[1..], x)
  }

  lemma {:induction false} WithoutAt<T>(s: seq<T>, i: nat)
    requires Distinct(s) && i < |s|
    ensures Without(s, s[i]) == s[..i] + s[i + 1..]
  {
    if i > 0 {
      var t := s[1..];
      WithoutAt(t, i - 1);
      assert s[..i] == [s[0]] + t[..i - 1] && s[i + 1..] == t[i..];
      Assoc([s[0]], t[..i - 1], t[i..]);
    }
  }

  lemma {:induction false} WithoutMembers<T>(s: seq<T>, x: T, y: T)
    requires Distinct(s)
    ensures y in Without(s, x) <==> y in s && y != x
  {
    if s != [] && s[0] != x {
      WithoutMembers(s[1..], x, y);
    }
  }

  lemma WithoutStays<T>(s: seq<T>, x: T)
    requires Distinct(s)
    ensures forall y :: y in Without(s, x) <==> y in s && y != x
  {
    forall y ensures y in Without(s, x) <==> y in s && y != x {
      WithoutMembers(s, x, y);
    }
  }

  lemma WithoutDistinct<T>(s: seq<T>, x: T)
    requires Distinct(s) && x in s
    ensures Distinct(Without(s, x)) && |Without(s, x)| == |s| - 1
  {
    var i :| 0 <= i < |s| && s[i] == x;
    WithoutAt(s, i);
  }

  // Two repetition-free sequences over the same elements are equally long.
  lemma {:induction false} SameMembersSameLength<T>(s: seq<T>, t: seq<T>)
    requires Distinct(s) && Distinct(t)
    requires forall x :: x in s <==> x in t
    ensures |s| == |t|
  {
    assert s != [] ==> s[0] in t;
    assert t != [] ==> t[0] in s;
    if s != [] {
      var t' := Without(t, s[0]);
      WithoutDistinct(t, s[0]);
      forall x ensures x in s[1..] <==> x in t' {
        WithoutMembers(t, s[0], x);
        assert x in s[1..] <==> x in s && x != s[0];
      }
      SameMembersSameLength(s[1..], t');
    }
  }
}
