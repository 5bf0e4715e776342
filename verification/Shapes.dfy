/** The bookkeeping of the hash table, besides its elements, as a function of the hash values of the
    elements: how many buckets there are, what an expansion records, which filter bits are set
    (lib/uthash.h). */
module Shapes {
  import opened Bytes
  import opened Sequences
  import opened Bits
  import opened Chains
  import opened Expansion

  // marked holds the bits that are set in the Bloom filter.
  datatype Shape = Shape(numBuckets: nat, log2NumBuckets: nat, idealChainMaxlen: nat, nonidealItems: nat,
                         ineffExpands: nat, noexpand: bool, mults: seq<nat>, marked: set<nat>)

  // No table has been made yet.
  ghost const NO_TABLE := Shape(0, 0, 0, 0, 0, false, [], {})

  // HASH_MAKE_TABLE
  ghost const FIRST_TABLE := Shape(32, 5, 0, 0, 0, false, Zeros(32), {})

  function Zeros(n: nat): (ms: seq<nat>)
    ensures |ms| == n && forall i :: 0 <= i < n ==> ms[i] == 0
  {
    seq(n, _ => 0)
  }

  // How many of the hash values belong in bucket b of n.
  function InBucket(hs: seq<nat>, n: nat, b: nat): nat
    requires n > 0
  {
    if hs == [] then 0 else (if hs[0] % n == b then 1 else 0) + InBucket(hs[1..], n, b)
  }

  // How many lie beyond the ideal length in the buckets from b on.
  function Beyond(hs: seq<nat>, n: nat, ideal: nat, b: nat): nat
    requires 0 <= b <= n && n > 0
    decreases n - b
  {
    if b == n then 0
    else (if InBucket(hs, n, b) > ideal then InBucket(hs, n, b) - ideal else 0) + Beyond(hs, n, ideal, b + 1)
  }

  // HASH_EXPAND_BUCKETS, for a table of elements with these hash values.
  function Expanded(s: Shape, hs: seq<nat>): Shape
    requires s.numBuckets > 0
  {
    var n := 2 * s.numBuckets;
    var ideal := CeilDiv(|hs|, n);
    var nonideal := Beyond(hs, n, ideal, 0);
    var ineff := if nonideal > |hs| / 2 then s.ineffExpands + 1 else 0;
    Shape(n, s.log2NumBuckets + 1, ideal, nonideal, ineff, s.noexpand || ineff > 1,
          seq(n, b requires 0 <= b < n => ExpandMult(InBucket(hs, n, b), ideal)), s.marked)
  }

  predicate Wide(s: Shape) {
    s.numBuckets == |s.mults| > 0
  }

  // HASH_ADD_TO_BKT of an element with hash value h; hs are the hash values with h among them.
  function Regrown(s: Shape, hs: seq<nat>, h: nat): Shape
    requires Wide(s)
  {
    var b := h % s.numBuckets;
    if InBucket(hs, s.numBuckets, b) >= (s.mults[b] + 1) * 10 && !s.noexpand then Expanded(s, hs) else s
  }

  // HASH_ADD_TO_TABLE
  function AfterAdd(nbits: Option<nat>, s: Shape, hs: seq<nat>, h: nat): Shape
    requires Wide(s)
  {
    Regrown(s, hs, h).(marked := s.marked + Mark(nbits, h))
  }

  // HASH_ADD, also when the list is empty, for which a new table is made.
  ghost function Grown(nbits: Option<nat>, empty: bool, s: Shape, hs: seq<nat>, h: nat): Shape {
    AfterAdd(nbits, if Wide(s) && !empty then s else FIRST_TABLE, hs, h)
  }

  lemma AddedShape(nbits: Option<nat>, s: Shape, hs: seq<nat>, h: nat)
    requires Wide(s)
    ensures Regrown(s, hs, h).marked == s.marked
    ensures AfterAdd(nbits, s, hs, h) == Regrown(s, hs, h).(marked := s.marked + Mark(nbits, h))
  {}

  lemma GrownIs(nbits: Option<nat>, empty: bool, s: Shape, hs: seq<nat>, h: nat)
    requires empty || Wide(s)
    ensures Wide(FIRST_TABLE)
    ensures Grown(nbits, empty, s, hs, h) == AfterAdd(nbits, if empty then FIRST_TABLE else s, hs, h)
  {}

  function Mark(nbits: Option<nat>, h: nat): set<nat> {
    if nbits.None? then {} else {h % Pow2(nbits.value)}
  }

  // Every hash value belongs in exactly one bucket.
  lemma {:induction false} BucketsShare(hs: seq<nat>, n: nat)
    requires n > 0
    ensures Beyond(hs, n, 0, 0) == |hs|
  {
    if hs == [] {
      NoneBeyond(n, 0);
    } else {
      BucketsShare(hs[1..], n);
      OneMore(hs, n, 0);
    }
  }

  lemma {:induction false} NoneBeyond(n: nat, b: nat)
    requires 0 <= b <= n && n > 0
    ensures Beyond([], n, 0, b) == 0
    decreases n - b
  {
    if b < n {
      NoneBeyond(n, b + 1);
    }
  }

  lemma {:induction false} OneMore(hs: seq<nat>, n: nat, b: nat)
    requires hs != [] && 0 <= b <= n && n > 0
    ensures Beyond(hs, n, 0, b) == Beyond(hs[1..], n, 0, b) + (if hs[0] % n >= b then 1 else 0)
    decreases n - b
  {
    if b < n {
      OneMore(hs, n, b + 1);
    }
  }

  lemma {:induction false} AllInOne(hs: seq<nat>, n: nat, b: nat)
    requires n > 0 && forall i :: 0 <= i < |hs| ==> hs[i] % n == b
    ensures InBucket(hs, n, b) == |hs|
  {
    if hs != [] {
      AllInOne(hs[1..], n, b);
    }
  }

  // The first table expands at the tenth element of one bucket, and to 64 buckets.
  lemma TenthExpands(nbits: Option<nat>, marked: set<nat>, hs: seq<nat>, h: nat, b: nat)
    requires h % 32 == b && forall i :: 0 <= i < |hs| ==> hs[i] % 32 == b
    ensures var r := AfterAdd(nbits, FIRST_TABLE.(marked := marked), hs, h);
            if |hs| < 10 then r == FIRST_TABLE.(marked := marked + Mark(nbits, h)) else r.numBuckets == 64
  {
    AllInOne(hs, 32, b);
  }

  /* The chains and the hash values */

  function Hashes(fcn: Key -> nat, s: seq<Prog>): (hs: seq<nat>)
    ensures |hs| == |s|
  {
    seq(|s|, i requires 0 <= i < |s| => fcn(s[i].idUs))
  }

  function MultsOf(bs: seq<Bucket>): (ms: seq<nat>)
    ensures |ms| == |bs|
  {
    seq(|bs|, i requires 0 <= i < |bs| => bs[i].expandMult)
  }

  // Every program of the list is in the bucket of its hash value, by remainder, and in no other.
  ghost predicate ByHash(fcn: Key -> nat, order: seq<Prog>, chains: seq<seq<Prog>>) {
    && |chains| > 0
    && (forall i :: 0 <= i < |order| ==> order[i] in chains[fcn(order[i].idUs) % |chains|])
    && forall b, k :: 0 <= b < |chains| && 0 <= k < |chains[b]| ==> fcn(chains[b][k].idUs) % |chains| == b
  }

  // The programs of s that belong in bucket b of n.
  function Chosen(fcn: Key -> nat, s: seq<Prog>, n: nat, b: nat): seq<Prog>
    requires n > 0
  {
    if s == [] then [] else (if fcn(s[0].idUs) % n == b then [s[0]] else []) + Chosen(fcn, s[1..], n, b)
  }

  lemma {:induction false} ChosenCount(fcn: Key -> nat, s: seq<Prog>, n: nat, b: nat)
    requires n > 0
    ensures |Chosen(fcn, s, n, b)| == InBucket(Hashes(fcn, s), n, b)
  {
    if s != [] {
      assert Hashes(fcn, s)[1..] == Hashes(fcn, s[1..]);
      ChosenCount(fcn, s[1..], n, b);
    }
  }

  lemma {:induction false} ChosenMembers(fcn: Key -> nat, s: seq<Prog>, n: nat, b: nat, p: Prog)
    requires n > 0
    ensures p in Chosen(fcn, s, n, b) <==> p in s && fcn(p.idUs) % n == b
  {
    if s != [] {
      ChosenMembers(fcn, s[1..], n, b, p);
    }
  }

  lemma {:induction false} ChosenDistinct(fcn: Key -> nat, s: seq<Prog>, n: nat, b: nat)
    requires n > 0 && Distinct(s)
    ensures Distinct(Chosen(fcn, s, n, b))
  {
    if s != [] {
      ChosenDistinct(fcn, s[1..], n, b);
      ChosenMembers(fcn, s[1..], n, b, s[0]);
      assert s[0] !in s[1..];
    }
  }

  // In a table whose programs lie where their hash values say, a chain is as long as its bucket should be.
  lemma ChainLength(order: seq<Prog>, chains: seq<seq<Prog>>, bkt: Prog -> nat, fcn: Key -> nat, b: nat)
    requires Placed(order, chains, {}, bkt) && Distinct(order) && b < |chains| && Distinct(chains[b])
    requires forall p :: p in order ==> bkt(p) == fcn(p.idUs) % |chains|
    ensures |chains[b]| == InBucket(Hashes(fcn, order), |chains|, b)
  {
    var c := Chosen(fcn, order, |chains|, b);
    ChosenCount(fcn, order, |chains|, b);
    ChosenDistinct(fcn, order, |chains|, b);
    forall p ensures p in c <==> p in chains[b] {
      ChosenMembers(fcn, order, |chains|, b, p);
      if p in chains[b] {
        var k :| 0 <= k < |chains[b]| && chains[b][k] == p;
      }
    }
    SameMembersSameLength(c, chains[b]);
  }

  lemma {:induction false} ExcessIsBeyond(chains: seq<seq<Prog>>, hs: seq<nat>, ideal: nat, b: nat)
    requires 0 <= b <= |chains| && |chains| > 0
    requires forall d :: 0 <= d < |chains| ==> |chains[d]| == InBucket(hs, |chains|, d)
    ensures Excess(chains[b..], ideal) == Beyond(hs, |chains|, ideal, b)
    decreases |chains| - b
  {
    if b < |chains| {
      assert chains[b..][1..] == chains[b + 1..];
      ExcessIsBeyond(chains, hs, ideal, b + 1);
    }
  }
}
