/** The relinking of the application-order list by lib/uthash.h: append, insert, delete. */
module AppList {
  import opened Sequences
  import opened StableSort
  import opened Chains

  // HASH_APPEND_LIST
  method LinkLast(p: Prog, tail: Prog, ghost s: seq<Prog>)
    requires AppLinked(s) && Distinct(s) && s != [] && tail == LastOf(s) && p !in s
    modifies p`prev, p`next, tail`next
    ensures AppLinked(s + [p]) && Distinct(s + [p])
  {
    assert forall i :: 0 <= i < |s| ==> s[i] in s;
    p.next := null;
    p.prev := tail;
    tail.next := p;
  }

  // The relinking of HASH_ADD_KEYPTR_INORDER before the program at index i.
  method LinkBefore(p: Prog, iter: Prog, head: Prog, ghost s: seq<Prog>, ghost i: nat) returns (head': Prog)
    requires AppLinked(s) && Distinct(s) && i < |s| && iter == s[i] && head == s[0] && p !in s
    modifies p`prev, p`next, s`prev, s`next
    ensures var r := s[..i] + [p] + s[i..]; AppLinked(r) && Distinct(r) && head' == r[0]
  {
    assert forall j :: 0 <= j < |s| ==> s[j] in s;
    head' := head;
    p.next := iter;
    p.prev := iter.prev;
    assert p.prev == if i == 0 then null else s[i - 1];
    if p.prev != null {
      p.prev.next := p;
    } else {
      head' := p;
    }
    iter.prev := p;
    AppInserted(s, i, p);
    InsertedDistinct(s, i, p);
  }

  lemma InsertedDistinct(s: seq<Prog>, i: nat, p: Prog)
    requires Distinct(s) && i <= |s| && p !in s
    ensures Distinct(s[..i] + [p] + s[i..])
  {
    var r := s[..i] + [p] + s[i..];
    forall j, k | 0 <= j < k < |r| ensures r[j] != r[k] {
      assert r[j] == if j < i then s[j] else if j == i then p else s[j - 1];
      assert r[k] == if k < i then s[k] else if k == i then p else s[k - 1];
    }
  }

  lemma AppInserted(s: seq<Prog>, i: nat, p: Prog)
    requires i < |s|
    requires forall j, k :: 0 <= j && j + 1 == k < |s| && k != i ==> s[j].next == s[k] && s[k].prev == s[j]
    requires p.next == s[i] && s[i].prev == p && s[|s| - 1].next == null
    requires if i == 0 then p.prev == null else s[i - 1].next == p && p.prev == s[i - 1] && s[0].prev == null
    ensures AppLinked(s[..i] + [p] + s[i..])
  {
    var r := s[..i] + [p] + s[i..];
    forall j, k | 0 <= j && j + 1 == k < |r| ensures r[j].next == r[k] && r[k].prev == r[j] {
      assert r[j] == if j < i then s[j] else if j == i then p else s[j - 1];
      assert r[k] == if k < i then s[k] else if k == i then p else s[k - 1];
    }
  }

  // The relinking of HASH_DELETE_HH in a list of several programs.
  method Unlink(p: Prog, head: Prog, tail: Prog, ghost s: seq<Prog>, ghost i: nat)
    returns (head': Prog, tail': Prog)
    requires AppLinked(s) && Distinct(s) && i < |s| && |s| > 1 && p == s[i]
    requires head == s[0] && tail == s[|s| - 1]
    modifies s`prev, s`next
    ensures var r := s[..i] + s[i + 1..]; AppLinked(r) && head' == HeadOf(r) && tail' == LastOf(r)
  {
    assert forall j :: 0 <= j < |s| ==> s[j] in s;
    head', tail' := head, tail;
    assert p.prev == if i == 0 then null else s[i - 1];
    assert p.next == if i == |s| - 1 then null else s[i + 1];
    if p == tail {
      tail' := p.prev;
    }
    if p.prev != null {
      p.prev.next := p.next;
    } else {
      head' := p.next;
    }
    if p.next != null {
      p.next.prev := p.prev;
    }
    AppSpliced(s, i);
  }

  lemma AppSpliced(s: seq<Prog>, i: nat)
    requires i < |s| && |s| > 1
    requires forall j, k :: 0 <= j && j + 1 == k < |s| && j != i && k != i ==> s[j].next == s[k] && s[k].prev == s[j]
    requires 0 < i && i + 1 < |s| ==> s[i - 1].next == s[i + 1] && s[i + 1].prev == s[i - 1]
    requires s[if i == 0 then 1 else 0].prev == null
    requires s[if i == |s| - 1 then i - 1 else |s| - 1].next == null
    ensures AppLinked(s[..i] + s[i + 1..])
  {
    var r := s[..i] + s[i + 1..];
    forall j, k | 0 <= j && j + 1 == k < |r| ensures r[j].next == r[k] && r[k].prev == r[j] {
      assert r[j] == s[if j < i then j else j + 1];
      assert r[k] == s[if k < i then k else k + 1];
    }
  }

  // HASH_AKBI_INNER_LOOP: the first program that compares greater than p.
  method FindSlot(cmp: Cmp<Prog>, head: Prog, p: Prog, ghost s: seq<Prog>) returns (iter: Prog?, ghost i: nat)
    requires AppLinked(s) && s != [] && head == s[0]
    ensures i <= |s| && iter == (if i < |s| then s[i] else null)
    ensures InsertInOrder(cmp, s, p) == s[..i] + [p] + s[i..]
  {
    hide InsertInOrder, AppLinked;
    iter, i := head, 0;
    assert s[..0] + InsertInOrder(cmp, s[0..], p) == InsertInOrder(cmp, s, p) by {
      assert s[0..] == s && s[..0] == [];
    }
    while iter != null
      invariant i <= |s| && iter == (if i < |s| then s[i] else null)
      invariant s[..i] + InsertInOrder(cmp, s[i..], p) == InsertInOrder(cmp, s, p)
      decreases |s| - i
    {
      if cmp(iter, p) > 0 {
        break;
      }
      PassOver(cmp, s, i, p);
      iter := iter.next;
      i := i + 1;
    }
    StopAt(cmp, s, i, p);
  }

  lemma PassOver(cmp: Cmp<Prog>, s: seq<Prog>, i: nat, p: Prog)
    requires AppLinked(s) && i < |s| && cmp(s[i], p) <= 0
    ensures s[i].next == (if i + 1 < |s| then s[i + 1] else null)
    ensures s[..i] + InsertInOrder(cmp, s[i..], p) == s[..i + 1] + InsertInOrder(cmp, s[i + 1..], p)
  {
    assert i + 1 < |s| ==> s[i].next == s[i + 1];
    assert s[i..][1..] == s[i + 1..];
    assert s[..i] + [s[i]] == s[..i + 1];
    var r := InsertInOrder(cmp, s[i + 1..], p);
    assert s[..i] + ([s[i]] + r) == s[..i] + [s[i]] + r;
  }

  lemma StopAt(cmp: Cmp<Prog>, s: seq<Prog>, i: nat, p: Prog)
    requires i <= |s| && (i < |s| ==> cmp(s[i], p) > 0)
    ensures s[..i] + InsertInOrder(cmp, s[i..], p) == s[..i] + [p] + s[i..]
  {
    assert InsertInOrder(cmp, s[i..], p) == [p] + s[i..];
  }
}
