/** The two linked structures of lib/uthash.h seen as sequences: a program
    (`struct multty_prog`, the only element the repository hashes) lies in the
    application-order list by prev/next and in one bucket by hhPrev/hhNext. */
module Chains {
  import opened Bytes
  import opened Sequences
  import opened Bits

  class Prog {
    const idUs: Key
    var descr: Option<seq<byte>>
    var prev: Prog?
    var next: Prog?
    var hhPrev: Prog?
    var hhNext: Prog?
    var hashv: nat

    constructor (idUs: Key, descr: Option<seq<byte>>)
      ensures this.idUs == idUs && this.descr == descr && prev == null && next == null
    {
      this.idUs, this.descr := idUs, descr;
      prev, next, hhPrev, hhNext, hashv := null, null, null, null, 0;
    }
  }

  datatype Bucket = Bucket(hhHead: Prog?, count: nat, expandMult: nat)

  function HeadOf(s: seq<Prog>): Prog? {
    if s == [] then null else s[0]
  }

  function LastOf(s: seq<Prog>): Prog? {
    if s == [] then null else s[|s| - 1]
  }

  // The programs of s are linked to each other in the order of s, both ways.
  ghost predicate AppLinked(s: seq<Prog>)
    reads s`prev, s`next
  {
    && (s != [] ==> s[0].prev == null && s[|s| - 1].next == null)
    && forall i, j :: 0 <= i && i + 1 == j < |s| ==> s[i].next == s[j] && s[j].prev == s[i]
  }

  ghost predicate ChainLinked(c: seq<Prog>)
    reads c`hhPrev, c`hhNext
  {
    && (c != [] ==> c[0].hhPrev == null && c[|c| - 1].hhNext == null)
    && forall i, j :: 0 <= i && i + 1 == j < |c| ==> c[i].hhNext == c[j] && c[j].hhPrev == c[i]
  }

  // The same for a recorded state of the hhNext fields.
  ghost predicate NextBy(nx: map<Prog, Prog?>, c: seq<Prog>) {
    && (forall i :: 0 <= i < |c| ==> c[i] in nx)
    && (c != [] ==> nx[c[|c| - 1]] == null)
    && forall i, j :: 0 <= i && i + 1 == j < |c| ==> nx[c[i]] == c[j]
  }

  ghost predicate BucketOk(bk: Bucket, c: seq<Prog>)
    reads c`hhPrev, c`hhNext
  {
    bk.count == |c| && bk.hhHead == HeadOf(c) && ChainLinked(c) && Distinct(c)
  }

  // HASH_TO_BKT
  function ToBkt(hashv: nat, n: nat): (b: nat)
    requires n > 0
    ensures b < n
  {
    AndBound(hashv, n - 1);
    And(hashv, n - 1)
  }

  // With a power of two of buckets, that is the remainder.
  lemma ToBktIsMod(hashv: nat, k: nat)
    ensures ToBkt(hashv, Pow2(k)) == hashv % Pow2(k)
  {
    MaskIsMod(hashv, k);
  }

  // Every program of the list lies in the chain that bkt assigns it and nowhere else,
  // except for those in left, which lie in no chain yet.
  ghost predicate Placed(order: seq<Prog>, chains: seq<seq<Prog>>, left: set<Prog>, bkt: Prog -> nat) {
    && (forall b, k :: 0 <= b < |chains| && 0 <= k < |chains[b]| ==>
          var p := chains[b][k]; p in order && p !in left && bkt(p) == b)
    && (forall p :: p in order && p !in left ==> bkt(p) < |chains| && p in chains[bkt(p)])
  }

  lemma PlacedPush(order: seq<Prog>, chains: seq<seq<Prog>>, left: set<Prog>, bkt: Prog -> nat, p: Prog)
    requires Placed(order, chains, left, bkt) && p in order && p in left && bkt(p) < |chains|
    ensures var b := bkt(p);
            p !in chains[b] && Placed(order, chains[b := [p] + chains[b]], left - {p}, bkt)
  {
    var b := bkt(p);
    var cs := chains[b := [p] + chains[b]];
    forall q | q in order && q !in left - {p} ensures bkt(q) < |cs| && q in cs[bkt(q)] {
      if q == p {
        assert cs[b][0] == p;
      } else {
        var k :| 0 <= k < |chains[bkt(q)]| && chains[bkt(q)][k] == q;
        assert bkt(q) == b ==> cs[b][k + 1] == q;
      }
    }
  }

  lemma PlacedGrow(order: seq<Prog>, order': seq<Prog>, chains: seq<seq<Prog>>, bkt: Prog -> nat, p: Prog)
    requires Placed(order, chains, {}, bkt) && p !in order
    requires forall q :: q in order' <==> q in order || q == p
    ensures Placed(order', chains, {p}, bkt)
  {}

  lemma PlacedShrink(order: seq<Prog>, order': seq<Prog>, chains: seq<seq<Prog>>, bkt: Prog -> nat,
                     b: nat, k: nat)
    requires Placed(order, chains, {}, bkt) && b < |chains| && k < |chains[b]| && Distinct(chains[b])
    requires forall q :: q in order' <==> q in order && q != chains[b][k]
    ensures Placed(order', chains[b := chains[b][..k] + chains[b][k + 1..]], {}, bkt)
  {
    var c := chains[b][..k] + chains[b][k + 1..];
    var cs := chains[b := c];
    forall q | q in order' ensures bkt(q) < |cs| && q in cs[bkt(q)] {
      var d := bkt(q);
      var i :| 0 <= i < |chains[d]| && chains[d][i] == q;
      if d == b {
        assert c[if i < k then i else i - 1] == q;
      }
    }
    forall d, i | 0 <= d < |cs| && 0 <= i < |cs[d]| ensures cs[d][i] in order' && bkt(cs[d][i]) == d {
      if d == b {
        assert c[i] == chains[b][if i < k then i else i + 1];
      }
    }
  }

  // No program lies in two chains, and the chains together hold as many programs as the list.
  lemma {:induction false} FlatChains(chains: seq<seq<Prog>>, base: nat, bkt: Prog -> nat)
    requires forall b, k :: 0 <= b < |chains| && 0 <= k < |chains[b]| ==> bkt(chains[b][k]) == base + b
    requires forall b :: 0 <= b < |chains| ==> Distinct(chains[b])
    ensures Distinct(Flatten(chains))
    ensures forall p :: p in Flatten(chains) ==> bkt(p) >= base
    ensures forall b, p :: 0 <= b < |chains| && p in chains[b] ==> p in Flatten(chains)
    ensures forall p :: p in Flatten(chains) ==> exists b :: 0 <= b < |chains| && p in chains[b]
  {
    if chains != [] {
      FlatChains(chains[1..], base + 1, bkt);
      var c, f := chains[0], Flatten(chains[1..]);
      forall b, p | 0 <= b < |chains| && p in chains[b] ensures p in c + f {
        if b > 0 {
          assert p in chains[1..][b - 1];
        }
      }
      forall p | p in c + f ensures exists b :: 0 <= b < |chains| && p in chains[b] {
        if p in c {
          assert p in chains[0];
        } else {
          var b :| 0 <= b < |chains[1..]| && p in chains[1..][b];
          assert p in chains[b + 1];
        }
      }
    }
  }

  lemma ChainsTotal(order: seq<Prog>, chains: seq<seq<Prog>>, bkt: Prog -> nat)
    requires Placed(order, chains, {}, bkt) && Distinct(order)
    requires forall b :: 0 <= b < |chains| ==> Distinct(chains[b])
    ensures |Flatten(chains)| == |order|
  {
    FlatChains(chains, 0, bkt);
    forall p ensures p in Flatten(chains) <==> p in order {
      if p in order {
        assert p in chains[bkt(p)];
      }
      if p in Flatten(chains) {
        var b :| 0 <= b < |chains| && p in chains[b];
        var k :| 0 <= k < |chains[b]| && chains[b][k] == p;
      }
    }
    SameMembersSameLength(Flatten(chains), order);
  }

  ghost predicate KeysDistinct(s: seq<Prog>) {
    forall i, j :: 0 <= i < j < |s| ==> s[i].idUs != s[j].idUs
  }

  // The first program of s with the given key.
  function Lookup(s: seq<Prog>, key: Key): (r: Prog?)
    ensures r == null ==> forall p :: p in s ==> p.idUs != key
    ensures r != null ==> r in s && r.idUs == key
  {
    if s == [] then null else if s[0].idUs == key then s[0] else Lookup(s[1..], key)
  }

  // s without the program that has the given key.
  function WithoutKey(s: seq<Prog>, key: Key): seq<Prog> {
    var r := Lookup(s, key);
    if r == null then s else Without<Prog>(s, r)
  }

  lemma WithoutKeyMembers(s: seq<Prog>, p: Prog)
    requires KeysDistinct(s)
    ensures p !in WithoutKey(s, p.idUs)
    ensures forall q :: q in WithoutKey(s, p.idUs) <==> q in s && q.idUs != p.idUs
  {
    var r := Lookup(s, p.idUs);
    if r != null {
      WithoutStays<Prog>(s, r);
      forall q | q in s && q.idUs == p.idUs ensures q == r {
        LookupUnique(s, p.idUs, q);
      }
    }
  }

  lemma LookupUnique(s: seq<Prog>, key: Key, p: Prog)
    requires KeysDistinct(s) && p in s && p.idUs == key
    ensures Lookup(s, key) == p
  {
    var i :| 0 <= i < |s| && s[i] == p;
    var r := Lookup(s, key);
    var j :| 0 <= j < |s| && s[j] == r;
  }

  // Put p at the front of bucket b: the relinking shared by HASH_ADD_TO_BKT and HASH_EXPAND_BUCKETS.
  method LinkFirst(bs: array<Bucket>, b: nat, p: Prog, ghost chain: seq<Prog>)
    requires b < bs.Length && bs[b].hhHead == HeadOf(chain) && ChainLinked(chain)
    requires Distinct(chain) && p !in chain
    modifies bs, p`hhPrev, p`hhNext, chain`hhPrev
    ensures bs[..] == old(bs[..])[b := old(bs[b]).(hhHead := p)]
    ensures ChainLinked([p] + chain)
  {
    assert forall i :: 0 <= i < |chain| ==> chain[i] in chain;
    p.hhNext := bs[b].hhHead;
    p.hhPrev := null;
    if bs[b].hhHead != null {
      bs[b].hhHead.hhPrev := p;
    }
    bs[b] := bs[b].(hhHead := p);
  }

  // HASH_DEL_IN_BKT, for the program at index i of the chain
  method DelInBkt(bs: array<Bucket>, b: nat, p: Prog, ghost chain: seq<Prog>, ghost i: nat)
    requires b < bs.Length && BucketOk(bs[b], chain) && i < |chain| && chain[i] == p
    modifies bs, chain`hhPrev, chain`hhNext
    ensures bs[..] == old(bs[..])[b := bs[b]] && bs[b].expandMult == old(bs[b].expandMult)
    ensures BucketOk(bs[b], chain[..i] + chain[i + 1..])
  {
    assert p.hhPrev == if i == 0 then null else chain[i - 1];
    assert p.hhNext == if i == |chain| - 1 then null else chain[i + 1];
    bs[b] := bs[b].(count := bs[b].count - 1);
    if bs[b].hhHead == p {
      bs[b] := bs[b].(hhHead := p.hhNext);
    }
    if p.hhPrev != null {
      p.hhPrev.hhNext := p.hhNext;
    }
    if p.hhNext != null {
      p.hhNext.hhPrev := p.hhPrev;
    }
    assert bs[b].hhHead == if i > 0 then chain[0] else if |chain| > 1 then chain[1] else null;
    ChainSpliced(chain, i);
  }

  // A chain in which the neighbours of c[i] point past it is linked without c[i].
  lemma ChainSpliced(c: seq<Prog>, i: nat)
    requires i < |c|
    requires forall j, k :: 0 <= j && j + 1 == k < |c| && j != i && k != i ==>
               c[j].hhNext == c[k] && c[k].hhPrev == c[j]
    requires 0 < i && i + 1 < |c| ==> c[i - 1].hhNext == c[i + 1] && c[i + 1].hhPrev == c[i - 1]
    requires |c| > 1 ==> c[if i == 0 then 1 else 0].hhPrev == null
    requires |c| > 1 ==> c[if i == |c| - 1 then i - 1 else |c| - 1].hhNext == null
    ensures ChainLinked(c[..i] + c[i + 1..])
  {
    var d := c[..i] + c[i + 1..];
    forall j, k | 0 <= j && j + 1 == k < |d| ensures d[j].hhNext == d[k] && d[k].hhPrev == d[j] {
      assert d[j] == c[if j < i then j else j + 1];
      assert d[k] == c[if k < i then k else k + 1];
    }
  }
}
