/** The intrusive hash table of lib/uthash.h, as the program set uses it. The caller's
    head pointer and the `UT_hash_table` it leads to are one object here. */
module UtHash {
  import opened Bytes
  import opened Sequences
  import opened Bits
  import opened StableSort
  import opened Chains
  import opened Expansion
  import opened Shapes
  import opened Bloom
  import opened AppList
  import opened ListSort

  const INITIAL_NUM_BUCKETS := 32
  const INITIAL_NUM_BUCKETS_LOG2 := 5
  const BKT_CAPACITY_THRESH := 10

  class ProgTable {
    const fcn: Key -> nat // HASH_FCN, arbitrary

    var head: Prog?
    var tail: Prog?
    var numItems: nat
    var buckets: array<Bucket>
    var numBuckets: nat
    var log2NumBuckets: nat
    var idealChainMaxlen: nat
    var nonidealItems: nat
    var ineffExpands: nat
    var noexpand: bool
    const bloomNbits: Option<nat> // None: compiled without HASH_BLOOM
    var bloomBv: array<byte>

    ghost var order: seq<Prog>        // the application order
    ghost var chains: seq<seq<Prog>>  // the bucket chains, by bucket number
    ghost var marked: set<nat>        // the bits set in the Bloom filter

    // What HASH_FSCK checks, and besides: the tail is the last element, and
    // every element is in the bucket of its hash and in the Bloom filter.
    ghost predicate Valid()
      reads this, order, buckets, bloomBv
    {
      if head == null then order == []
      else
        && ListOk() && numItems == |order|
        && Hashed() && BucketsOk() && numBuckets == Pow2(log2NumBuckets)
        && Placed(order, chains, {}, InBkt(numBuckets))
        && BloomOk()
    }

    ghost predicate ListOk()
      reads `head, `tail, `order, order`prev, order`next
    {
      && order != [] && head == HeadOf(order) && tail == LastOf(order)
      && Distinct(order) && AppLinked(order)
    }

    ghost predicate BloomOk()
      reads `buckets, `order, `marked, `bloomBv, bloomBv
    {
      && (buckets as object) != bloomBv
      && BloomHolds(order) && MarksOk()
    }

    // The bits set are those recorded, and no others.
    ghost predicate MarksOk()
      reads `marked, `bloomBv, bloomBv
    {
      bloomNbits.Some? ==>
        && bloomBv.Length == ByteLen(bloomNbits.value)
        && forall j: nat :: BitTest(bloomBv[..], j) <==> j in marked
    }

    ghost function ShapeNow(): Shape
      reads `buckets, `numBuckets, `log2NumBuckets, `idealChainMaxlen, `nonidealItems, `ineffExpands, `noexpand, `marked
      reads buckets
    {
      Shape(numBuckets, log2NumBuckets, idealChainMaxlen, nonidealItems, ineffExpands, noexpand,
            MultsOf(buckets[..]), marked)
    }

    // Every program of the list is in the bucket of its hash value, by remainder, and in no other.
    lemma ByRemainder()
      requires BucketsOk() && numBuckets == Pow2(log2NumBuckets) && Placed(order, chains, {}, InBkt(numBuckets))
      ensures numBuckets == |chains| && ByHash(fcn, order, chains)
    {
      hide Pow2, ToBkt, BucketOk;
      RemainderBkt();
    }

    lemma RemainderBkt()
      requires numBuckets == Pow2(log2NumBuckets)
      ensures forall p :: InBkt(numBuckets)(p) == fcn(p.idUs) % numBuckets
    {
      hide Pow2, ToBkt;
      forall p ensures InBkt(numBuckets)(p) == fcn(p.idUs) % numBuckets {
        ToBktIsMod(fcn(p.idUs), log2NumBuckets);
      }
    }

    // What an expansion records, in terms of the hash values.
    lemma ShapeExpanded(s: Shape)
      requires BucketsOk() && Placed(order, chains, {}, InBkt(numBuckets)) && Distinct(order)
      requires s.numBuckets > 0 && numBuckets == 2 * s.numBuckets == Pow2(log2NumBuckets)
      requires log2NumBuckets == s.log2NumBuckets + 1 && numItems == |order|
      requires idealChainMaxlen == CeilDiv(numItems, numBuckets) && nonidealItems == Excess(chains, idealChainMaxlen)
      requires forall b :: 0 <= b < numBuckets ==> buckets[b].expandMult == ExpandMult(|chains[b]|, idealChainMaxlen)
      requires ineffExpands == (if nonidealItems > numItems / 2 then s.ineffExpands + 1 else 0)
      requires noexpand == (s.noexpand || ineffExpands > 1) && marked == s.marked
      ensures ShapeNow() == Expanded(s, Hashes(fcn, order))
    {
      hide Pow2, ToBkt, Excess, CeilDiv, ExpandMult, InBucket, Hashes, Beyond;
      var hs := Hashes(fcn, order);
      CountsAreHashes();
      ExcessIsBeyond(chains, hs, idealChainMaxlen, 0);
      assert chains[0..] == chains;
      assert MultsOf(buckets[..]) == Expanded(s, hs).mults;
    }

    lemma CountsAreHashes()
      requires BucketsOk() && Placed(order, chains, {}, InBkt(numBuckets)) && Distinct(order)
      requires numBuckets == Pow2(log2NumBuckets)
      ensures forall b :: 0 <= b < numBuckets ==> buckets[b].count == |chains[b]| == InBucket(Hashes(fcn, order), numBuckets, b)
    {
      hide Pow2, ToBkt, InBucket, Hashes, Placed;
      RemainderBkt();
      forall b | 0 <= b < numBuckets
        ensures buckets[b].count == |chains[b]| == InBucket(Hashes(fcn, order), numBuckets, b)
      {
        assert BucketOk(buckets[b], chains[b]);
        ChainLength(order, chains, InBkt(numBuckets), fcn, b);
      }
    }

    // No false negative on the programs of s.
    ghost predicate BloomHolds(s: seq<Prog>)
      reads `bloomBv, bloomBv
    {
      bloomNbits.Some? ==>
        && bloomBv.Length == ByteLen(bloomNbits.value)
        && forall p :: p in s ==> BitTest(bloomBv[..], BitOf(bloomNbits.value, fcn(p.idUs)))
    }

    ghost predicate BucketsOk()
      reads `buckets, `numBuckets, `chains, `order, buckets, order`hhPrev, order`hhNext
    {
      && numBuckets == buckets.Length == |chains| > 0
      && (forall b, k :: 0 <= b < |chains| && 0 <= k < |chains[b]| ==> chains[b][k] in order)
      && forall b :: 0 <= b < |chains| ==> BucketOk(buckets[b], chains[b])
    }

    // The bucket of a program when there are n buckets.
    ghost function InBkt(n: nat): Prog -> nat
      requires n > 0
    {
      (p: Prog) => ToBkt(fcn(p.idUs), n)
    }

    ghost predicate Hashed()
      reads `order, order`hashv
    {
      forall p :: p in order ==> p.hashv == fcn(p.idUs)
    }

    // HASH_EXPAND_BUCKETS
    method ExpandBuckets()
      requires BucketsOk() && Hashed() && Placed(order, chains, {}, InBkt(numBuckets))
      requires numBuckets == Pow2(log2NumBuckets)
      modifies `buckets, `numBuckets, `log2NumBuckets, `chains
      modifies `idealChainMaxlen, `nonidealItems, `ineffExpands, `noexpand
      modifies order`hhPrev, order`hhNext
      ensures BucketsOk() && Placed(order, chains, {}, InBkt(numBuckets))
      ensures fresh(buckets) && numBuckets == 2 * old(numBuckets) && log2NumBuckets == old(log2NumBuckets) + 1
      ensures idealChainMaxlen == CeilDiv(numItems, numBuckets)
      ensures nonidealItems == Excess(chains, idealChainMaxlen)
      ensures forall b :: 0 <= b < numBuckets ==>
                buckets[b].expandMult == ExpandMult(|chains[b]|, idealChainMaxlen)
      ensures ineffExpands == if nonidealItems > numItems / 2 then old(ineffExpands) + 1 else 0
      ensures noexpand == (old(noexpand) || ineffExpands > 1)
      ensures numBuckets == Pow2(log2NumBuckets)
      ensures numBuckets == |chains| && ByHash(fcn, order, chains)
    {
      hide BucketOk, Excess, ToBkt, Placed, CeilDiv, ExpandMult, Pow2, Multiplies;
      idealChainMaxlen := ComputeIdeal(numItems, log2NumBuckets, numBuckets);
      log2NumBuckets := log2NumBuckets + 1;
      ghost var mult := MultFor(idealChainMaxlen);
      DoubleBuckets(mult, InBkt(numBuckets), InBkt(2 * numBuckets));
      Judge();
      DoublePow2(log2NumBuckets - 1);
      ByRemainder();
    }

    // The end of HASH_EXPAND_BUCKETS: was this expansion worth its while?
    method Judge()
      modifies `ineffExpands, `noexpand
      ensures ineffExpands == if nonidealItems > numItems / 2 then old(ineffExpands) + 1 else 0
      ensures noexpand == (old(noexpand) || ineffExpands > 1)
    {
      HalfIsShift(numItems);
      ineffExpands := if nonidealItems > Shr(numItems, 1) then ineffExpands + 1 else 0;
      if ineffExpands > 1 {
        noexpand := true;
      }
    }

    // HASH_EXPAND_BUCKETS, the move to twice as many buckets.
    method DoubleBuckets(ghost mult: nat -> nat, ghost bkt: Prog -> nat, ghost bkt2: Prog -> nat)
      requires BucketsOk() && Placed(order, chains, {}, bkt) && Multiplies(mult, idealChainMaxlen)
      requires forall p :: p in order ==> bkt2(p) == ToBkt(p.hashv, 2 * numBuckets)
      modifies `buckets, `numBuckets, `chains, `nonidealItems, order`hhPrev, order`hhNext
      ensures BucketsOk() && Placed(order, chains, {}, bkt2)
      ensures fresh(buckets) && numBuckets == 2 * old(numBuckets)
      ensures nonidealItems == Excess(chains, idealChainMaxlen)
      ensures forall b :: 0 <= b < numBuckets ==> buckets[b].expandMult == mult(|chains[b]|)
    {
      hide Redistributed, BucketOk, Excess, ToBkt, Placed;
      var newBuckets := new Bucket[2 * numBuckets](_ => Bucket(null, 0, 0));
      var nonideal, cs := Redistribute(newBuckets, idealChainMaxlen, bkt, bkt2, mult);
      Install(newBuckets, nonideal, cs, mult, bkt2);
    }

    method Install(bs: array<Bucket>, nonideal: nat, ghost cs: seq<seq<Prog>>,
                   ghost mult: nat -> nat, ghost bkt: Prog -> nat)
      requires |cs| == bs.Length > 0 && Placed(order, cs, {}, bkt)
      requires forall b :: 0 <= b < bs.Length ==> Redistributed(bs[b], cs[b], mult)
      modifies `buckets, `numBuckets, `chains, `nonidealItems
      ensures buckets == bs && numBuckets == bs.Length && chains == cs && nonidealItems == nonideal
      ensures BucketsOk()
      ensures forall b :: 0 <= b < numBuckets ==> buckets[b].expandMult == mult(|chains[b]|)
    {
      buckets, numBuckets, chains, nonidealItems := bs, bs.Length, cs, nonideal;
      forall b | 0 <= b < |cs| ensures BucketOk(bs[b], cs[b]) {
        assert old(Redistributed(bs[b], cs[b], mult));
      }
    }

    // The loop of HASH_EXPAND_BUCKETS over the old buckets.
    method Redistribute(bs: array<Bucket>, ideal: nat, ghost bkt: Prog -> nat, ghost bkt2: Prog -> nat,
                        ghost mult: nat -> nat)
      returns (nonideal: nat, ghost cs: seq<seq<Prog>>)
      requires BucketsOk() && Placed(order, chains, {}, bkt) && bs != buckets && bs.Length > 0
      requires Multiplies(mult, ideal)
      requires forall d :: 0 <= d < bs.Length ==> bs[d] == Bucket(null, 0, 0)
      requires forall p :: p in order ==> bkt2(p) == ToBkt(p.hashv, bs.Length)
      modifies bs, order`hhPrev, order`hhNext
      ensures |cs| == bs.Length && Placed(order, cs, {}, bkt2) && nonideal == Excess(cs, ideal)
      ensures forall d :: 0 <= d < bs.Length ==> Redistributed(bs[d], cs[d], mult)
    {
      hide Redistributed, BucketOk, Excess, ToBkt, Multiplies, NextBy, Distinct;
      nonideal, cs := 0, EmptyChains<Prog>(bs.Length);
      ExcessOfNothing<Prog>(bs.Length, ideal);
      ghost var left := set p | p in order;
      ghost var nx := Snapshot();
      forall d | 0 <= d < bs.Length ensures Redistributed(bs[d], cs[d], mult) {
        EmptyBucket(ideal, mult);
      }
      var i := 0;
      while i < numBuckets
        invariant i <= numBuckets && |cs| == bs.Length
        invariant forall p :: p in left <==> p in order && bkt(p) >= i
        invariant forall p :: p in left ==> p.hhNext == nx[p]
        invariant Placed(order, cs, left, bkt2) && nonideal == Excess(cs, ideal)
        invariant forall d :: 0 <= d < bs.Length ==> Redistributed(bs[d], cs[d], mult)
      {
        nonideal, cs, left := MoveChain(bs, i, ideal, nonideal, cs, left, bkt, bkt2, nx, mult);
        i := i + 1;
      }
      assert left == {};
    }

    // The bucket chains, read off the hhNext fields as they are now.
    lemma Snapshot() returns (nx: map<Prog, Prog?>)
      requires BucketsOk()
      ensures nx.Keys == (set p | p in order) && forall p :: p in order ==> nx[p] == p.hhNext
      ensures forall b :: 0 <= b < |chains| ==>
                buckets[b].hhHead == HeadOf(chains[b]) && Distinct(chains[b]) && NextBy(nx, chains[b])
    {
      nx := map p | p in order :: p.hhNext;
      forall b | 0 <= b < |chains|
        ensures buckets[b].hhHead == HeadOf(chains[b]) && Distinct(chains[b]) && NextBy(nx, chains[b])
      {
        assert BucketOk(buckets[b], chains[b]);
      }
    }

    // The inner loop of HASH_EXPAND_BUCKETS: empty bucket i into the new buckets. The programs
    // in left have not been moved yet, and their hhNext fields are those recorded in nx.
    method MoveChain(bs: array<Bucket>, i: nat, ideal: nat, count: nat, ghost cs: seq<seq<Prog>>,
                     ghost left: set<Prog>, ghost bkt: Prog -> nat, ghost bkt2: Prog -> nat,
                     ghost nx: map<Prog, Prog?>, ghost mult: nat -> nat)
      returns (nonideal: nat, ghost cs': seq<seq<Prog>>, ghost left': set<Prog>)
      requires i < |chains| == buckets.Length && 0 < bs.Length == |cs| && bs != buckets
      requires Multiplies(mult, ideal)
      requires buckets[i].hhHead == HeadOf(chains[i]) && NextBy(nx, chains[i]) && Distinct(chains[i])
      requires forall p :: p in order ==> bkt2(p) == ToBkt(p.hashv, bs.Length)
      requires forall p :: p in chains[i] <==> p in order && bkt(p) == i
      requires forall p :: p in left <==> p in order && bkt(p) >= i
      requires forall p :: p in left ==> p in nx && p.hhNext == nx[p]
      requires Placed(order, cs, left, bkt2) && count == Excess(cs, ideal)
      requires forall d :: 0 <= d < bs.Length ==> Redistributed(bs[d], cs[d], mult)
      modifies bs, order`hhPrev, order`hhNext
      ensures |cs'| == |cs| && Placed(order, cs', left', bkt2) && nonideal == Excess(cs', ideal)
      ensures forall p :: p in left' <==> p in order && bkt(p) > i
      ensures forall p :: p in left' ==> p.hhNext == nx[p]
      ensures forall d :: 0 <= d < bs.Length ==> Redistributed(bs[d], cs'[d], mult)
    {
      hide Excess, ToBkt, Redistributed, Multiplies;
      nonideal, cs', left' := count, cs, left;
      var thh := buckets[i].hhHead;
      ghost var rest := chains[i];
      while thh != null
        invariant thh == HeadOf(rest) && NextBy(nx, rest) && Distinct(rest)
        invariant forall p :: p in rest ==> p in order && bkt(p) == i
        invariant forall p :: p in left' <==> p in order && (bkt(p) > i || p in rest)
        invariant forall p :: p in left' ==> p in nx && p.hhNext == nx[p]
        invariant |cs'| == |cs| && Placed(order, cs', left', bkt2) && nonideal == Excess(cs', ideal)
        invariant forall d :: 0 <= d < bs.Length ==> Redistributed(bs[d], cs'[d], mult)
        decreases |rest|
      {
        assert forall p :: p in rest <==> p == thh || p in rest[1..];
        var nxt := thh.hhNext;
        PlacedPush(order, cs', left', bkt2, thh);
        nonideal, cs' := MoveToBucket(bs, thh, ideal, nonideal, cs', bkt2, mult);
        left' := left' - {thh};
        rest := rest[1..];
        thh := nxt;
      }
    }

    constructor (fcn: Key -> nat, bloomNbits: Option<nat>)
      ensures Valid() && order == [] && this.fcn == fcn && this.bloomNbits == bloomNbits && ShapeNow() == NO_TABLE
      ensures fresh(buckets) && fresh(bloomBv)
    {
      this.fcn, this.bloomNbits := fcn, bloomNbits;
      head, tail, order, chains, marked := null, null, [], [], {};
      numItems, numBuckets, log2NumBuckets := 0, 0, 0;
      idealChainMaxlen, nonidealItems, ineffExpands, noexpand := 0, 0, 0, false;
      buckets := new Bucket[0];
      bloomBv := new byte[0];
    }

    // HASH_MAKE_TABLE
    method MakeTable(p: Prog)
      modifies this
      ensures tail == p && numItems == 0 && chains == EmptyChains(INITIAL_NUM_BUCKETS)
      ensures !noexpand && ineffExpands == 0
      ensures numBuckets == INITIAL_NUM_BUCKETS == Pow2(log2NumBuckets) && BucketsOk()
      ensures fresh(buckets) && fresh(bloomBv) && head == old(head) && order == old(order)
      ensures (buckets as object) != bloomBv && BloomHolds([]) && MarksOk() && ShapeNow() == FIRST_TABLE
      ensures buckets.Length == 32 && forall b :: 0 <= b < 32 ==> buckets[b] == Bucket(null, 0, 0)
    {
      hide Pow2, ByteLen, BucketOk, BitTest, BucketsOk, MarksOk, BloomHolds, ShapeNow;
      ClearCounts(p);
      buckets := new Bucket[INITIAL_NUM_BUCKETS](_ => Bucket(null, 0, 0));
      bloomBv := new byte[if bloomNbits.None? then 0 else ByteLen(bloomNbits.value)](_ => 0);
      chains := EmptyChains(INITIAL_NUM_BUCKETS);
      marked := {};
      InitialIsPow2();
      BucketsMade();
      FilterMade();
    }

    lemma BucketsMade()
      requires numBuckets == 32 == buckets.Length && chains == EmptyChains(32)
      requires forall b :: 0 <= b < 32 ==> buckets[b] == Bucket(null, 0, 0)
      requires log2NumBuckets == 5 && idealChainMaxlen == nonidealItems == ineffExpands == 0 && !noexpand && marked == {}
      ensures BucketsOk() && ShapeNow() == FIRST_TABLE
    {
      hide BucketOk;
      EmptyBucketOk();
      assert MultsOf(buckets[..]) == FIRST_TABLE.mults;
    }

    lemma FilterMade()
      requires bloomBv.Length == if bloomNbits.None? then 0 else ByteLen(bloomNbits.value)
      requires (forall i :: 0 <= i < bloomBv.Length ==> bloomBv[i] == 0) && marked == {}
      ensures BloomHolds([]) && MarksOk()
    {
      hide BitTest, ByteLen;
      NothingSet(bloomBv[..]);
    }

    method ClearCounts(p: Prog)
      modifies `tail, `numItems, `numBuckets, `log2NumBuckets
      modifies `idealChainMaxlen, `nonidealItems, `ineffExpands, `noexpand
      ensures tail == p && numItems == 0 && !noexpand && ineffExpands == 0
      ensures idealChainMaxlen == 0 && nonidealItems == 0
      ensures numBuckets == INITIAL_NUM_BUCKETS && log2NumBuckets == INITIAL_NUM_BUCKETS_LOG2
    {
      tail, numItems := p, 0;
      numBuckets, log2NumBuckets := INITIAL_NUM_BUCKETS, INITIAL_NUM_BUCKETS_LOG2;
      idealChainMaxlen, nonidealItems, ineffExpands, noexpand := 0, 0, 0, false;
    }

    // HASH_ADD_TO_BKT up to the question whether to expand.
    method PushToBkt(p: Prog, b: nat, ghost bkt: Prog -> nat)
      requires BucketsOk() && p in order && Placed(order, chains, {p}, bkt) && b == bkt(p) < numBuckets
      modifies buckets, `chains, order`hhPrev, order`hhNext
      ensures BucketsOk() && Placed(order, chains, {}, bkt)
      ensures buckets[b].count == old(buckets[b].count) + 1 && MultsOf(buckets[..]) == old(MultsOf(buckets[..]))
    {
      PlacedPush(order, chains, {p}, bkt, p);
      assert {p} - {p} == {};
      assert BucketOk(buckets[b], chains[b]);
      ghost var was := buckets[..];
      buckets[b] := buckets[b].(count := buckets[b].count + 1);
      assert buckets[..] == was[b := was[b].(count := was[b].count + 1)];
      SameMults(was, b, was[b].(count := was[b].count + 1));
      PushOthers(p, b, bkt);
    }

    method PushOthers(p: Prog, b: nat, ghost bkt: Prog -> nat)
      requires numBuckets == buckets.Length == |chains| && p in order && b < numBuckets && p !in chains[b]
      requires forall d, k :: 0 <= d < |chains| && 0 <= k < |chains[d]| ==>
                 chains[d][k] in order && bkt(chains[d][k]) == d && bkt(p) == b
      requires forall d :: 0 <= d < |chains| ==>
                 BucketOk(if d == b then buckets[d].(count := |chains[d]|) else buckets[d], chains[d])
      requires buckets[b].count == |chains[b]| + 1
      modifies buckets, `chains, order`hhPrev, order`hhNext
      ensures chains == old(chains)[b := [p] + old(chains)[b]] && BucketsOk()
      ensures buckets[b].count == old(buckets[b].count) && MultsOf(buckets[..]) == old(MultsOf(buckets[..]))
    {
      SameMults(buckets[..], b, buckets[b].(hhHead := p));
      LinkFirst(buckets, b, p, chains[b]);
      forall d | 0 <= d < |chains| && d != b ensures BucketOk(buckets[d], chains[d]) {
        assert buckets[..][d] == old(buckets[..])[d];
        assert old(BucketOk(buckets[d], chains[d]));
      }
      chains := chains[b := [p] + chains[b]];
    }

    // HASH_ADD_TO_BKT
    method AddToBkt(p: Prog)
      requires BucketsOk() && Hashed() && p in order && numBuckets == Pow2(log2NumBuckets)
      requires Placed(order, chains, {p}, InBkt(numBuckets)) && Distinct(order) && numItems == |order|
      modifies buckets, `buckets, `numBuckets, `log2NumBuckets, `chains
      modifies `idealChainMaxlen, `nonidealItems, `ineffExpands, `noexpand
      modifies order`hhPrev, order`hhNext
      ensures BucketsOk() && Placed(order, chains, {}, InBkt(numBuckets)) && numBuckets == Pow2(log2NumBuckets)
      ensures buckets == old(buckets) || fresh(buckets)
      ensures var bk := old(buckets[fcn(p.idUs) % numBuckets]);
              numBuckets == if bk.count >= (bk.expandMult + 1) * 10 - 1 && !old(noexpand)
                            then 2 * old(numBuckets) else old(numBuckets)
      ensures ShapeNow() == Regrown(old(ShapeNow()), Hashes(fcn, order), fcn(p.idUs))
    {
      hide BucketOk, Placed, CeilDiv, Excess, ExpandMult, Pow2, ToBkt, Expanded, Hashes, InBucket, Distinct;
      ghost var s := ShapeNow();
      var b := ToBkt(p.hashv, numBuckets);
      RemainderBkt();
      assert InBkt(numBuckets)(p) == b == fcn(p.idUs) % numBuckets;
      PushToBkt(p, b, InBkt(numBuckets));
      CountsAreHashes();
      assert ShapeNow() == s && s.mults[b] == buckets[b].expandMult;
      if buckets[b].count >= (buckets[b].expandMult + 1) * BKT_CAPACITY_THRESH && !noexpand {
        ExpandBuckets();
        ShapeExpanded(s);
      }
    }

    // p is in the application-order list, beside the programs of was, and in no bucket yet.
    ghost predicate Awaiting(p: Prog, was: seq<Prog>)
      reads this, order, buckets, bloomBv
    {
      && ListOk() && p in order && numItems == |order| - 1 && Hashed()
      && BucketsOk() && numBuckets == Pow2(log2NumBuckets) && Placed(order, chains, {p}, InBkt(numBuckets))
      && (buckets as object) != bloomBv && BloomHolds(was) && MarksOk()
      && forall i :: 0 <= i < |order| ==> order[i] in was || order[i] == p
    }

    // HASH_ADD_TO_TABLE
    method AddToTable(p: Prog, ghost was: seq<Prog>)
      requires Awaiting(p, was)
      modifies this, buckets, bloomBv, order`hhPrev, order`hhNext
      ensures Valid() && order == old(order) && head == old(head) && bloomBv == old(bloomBv)
      ensures buckets == old(buckets) || fresh(buckets)
      ensures old(0 < numBuckets == buckets.Length) &&
              var bk := old(buckets[fcn(p.idUs) % numBuckets]);
              numBuckets == if bk.count >= (bk.expandMult + 1) * 10 - 1 && !old(noexpand)
                            then 2 * old(numBuckets) else old(numBuckets)
      ensures ShapeNow() == AfterAdd(bloomNbits, old(ShapeNow()), Hashes(fcn, order), fcn(p.idUs))
      ensures numBuckets == |chains| && ByHash(fcn, order, chains)
    {
      hide *;
      AwaitingParts(p, was);
      numItems := numItems + 1;
      AddToBkt(p);
      ByRemainder();
      BloomAdd(p, was);
      AddedShape(bloomNbits, old(ShapeNow()), Hashes(fcn, order), fcn(p.idUs));
      TableReady();
    }

    lemma AwaitingParts(p: Prog, was: seq<Prog>)
      requires Awaiting(p, was)
      ensures ListOk() && p in order && numItems == |order| - 1 && Hashed() && p.hashv == fcn(p.idUs) && Distinct(order)
      ensures BucketsOk() && numBuckets == Pow2(log2NumBuckets) && Placed(order, chains, {p}, InBkt(numBuckets))
      ensures Wide(ShapeNow()) && 0 < numBuckets == buckets.Length
      ensures (buckets as object) != bloomBv && BloomHolds(was) && MarksOk()
      ensures forall i :: 0 <= i < |order| ==> order[i] in was || order[i] == p
    {
      hide Pow2, Placed, MarksOk, BloomHolds, Distinct, BucketOk, AppLinked;
    }

    // All parts of the table are in order again.
    lemma TableReady()
      requires ListOk() && numItems == |order| && Hashed()
      requires BucketsOk() && numBuckets == Pow2(log2NumBuckets) && Placed(order, chains, {}, InBkt(numBuckets))
      requires BloomOk()
      ensures Valid()
    {
      hide Pow2, Placed, MarksOk, BloomHolds, Distinct, BucketOk, AppLinked;
    }

    // HASH_BLOOM_ADD
    method BloomAdd(p: Prog, ghost was: seq<Prog>)
      requires BucketsOk() && (buckets as object) != bloomBv && BloomHolds(was)
      requires p.hashv == fcn(p.idUs) && forall q :: q in order ==> q in was || q == p
      requires MarksOk()
      modifies bloomBv, `marked
      ensures BloomOk() && BucketsOk()
      ensures ShapeNow() == old(ShapeNow()).(marked := old(ShapeNow()).marked + Mark(bloomNbits, fcn(p.idUs)))
    {
      hide BitTest, BitOf, ByteLen, Distinct, BucketOk, Pow2;
      if bloomNbits.Some? {
        FilterSize(bloomNbits.value, p.hashv);
        BitSet(bloomBv, BitOf(bloomNbits.value, p.hashv));
        marked := marked + {BitOf(bloomNbits.value, p.hashv)};
      }
    }

    lemma WideNow()
      requires Valid()
      ensures head != null ==> Wide(ShapeNow()) && 0 < numBuckets == buckets.Length
    {
      hide Pow2, Placed, BloomOk, BucketOk, ListOk, Hashed;
    }

    lemma HeadTells()
      requires Valid()
      ensures head == null <==> order == []
    {}

    // HASH_ADD_KEYPTR: p goes to the end of the application order. Nothing is asked of its key.
    method AddKeyptr(p: Prog)
      requires Valid() && p !in order
      modifies this, buckets, bloomBv, p`hashv, p`prev, p`next, p`hhPrev, p`hhNext
      modifies order`prev, order`next, order`hhPrev, order`hhNext
      ensures Valid() && order == old(order) + [p]
      ensures buckets == old(buckets) || fresh(buckets)
      ensures bloomBv == old(bloomBv) || fresh(bloomBv)
      ensures old(order) == [] ==> numBuckets == 32
      ensures old(order) != [] ==>
                old(0 < numBuckets == buckets.Length) &&
                var bk := old(buckets[fcn(p.idUs) % numBuckets]);
                numBuckets == if bk.count >= (bk.expandMult + 1) * 10 - 1 && !old(noexpand)
                              then 2 * old(numBuckets) else old(numBuckets)
      ensures ShapeNow() == Grown(bloomNbits, old(order) == [], old(ShapeNow()), Hashes(fcn, order), fcn(p.idUs))
      ensures numBuckets == |chains| && ByHash(fcn, order, chains)
    {
      hide *;
      HeadTells();
      WideNow();
      if head == null {
        p.hashv := fcn(p.idUs);
        StartTable(p);
      } else {
        AppendList(p);
      }
      AwaitingParts(p, old(order));
      AddToTable(p, old(order));
      GrownIs(bloomNbits, old(order) == [], old(ShapeNow()), Hashes(fcn, order), fcn(p.idUs));
    }

    // HASH_APPEND_LIST, with the hash value of p already recorded.
    method AppendList(p: Prog)
      requires Valid() && head != null && p !in order
      modifies `head, `tail, `order, p`hashv, p`prev, p`next, order`next
      ensures order == old(order) + [p] && Awaiting(p, old(order))
    {
      hide BucketOk, Placed, Pow2, ToBkt, MarksOk, BitTest, BitOf, ByteLen;
      PlacedGrow(order, order + [p], chains, InBkt(numBuckets), p);
      p.hashv := fcn(p.idUs);
      LinkLast(p, tail, order);
      Extend(head, p, order + [p], p);
    }

    // The list is now s: the order so far and p.
    method Extend(h: Prog, t: Prog, ghost s: seq<Prog>, ghost p: Prog)
      requires BucketsOk() && Hashed() && p.hashv == fcn(p.idUs)
      requires s != [] && h == HeadOf(s) && t == LastOf(s) && Distinct(s) && AppLinked(s)
      requires forall q :: q in s <==> q in order || q == p
      modifies `head, `tail, `order
      ensures order == s && ListOk() && Hashed() && BucketsOk()
    {
      hide BucketOk, Distinct, AppLinked;
      head, tail, order := h, t, s;
    }

    // The first program of a table: HASH_MAKE_TABLE, and p becomes the head.
    method StartTable(p: Prog)
      requires head == null && order == [] && p.hashv == fcn(p.idUs)
      modifies this, p`prev, p`next
      ensures Awaiting(p, []) && order == [p] && ShapeNow() == FIRST_TABLE
      ensures fresh(buckets) && fresh(bloomBv)
      ensures numBuckets == buckets.Length == 32 && forall b :: 0 <= b < 32 ==> buckets[b] == Bucket(null, 0, 0)
    {
      hide Pow2, ToBkt, ByteLen, MarksOk, BitTest, ShapeNow, BucketOk;
      p.next := null;
      p.prev := null;
      MakeTable(p);
      head := p;
      order := [p];
    }

    // HASH_ADD_KEYPTR_INORDER: p goes before the first program that compares greater.
    method AddKeyptrInorder(p: Prog, cmp: Cmp<Prog>)
      requires Valid() && p !in order
      modifies this, buckets, bloomBv, p`hashv, p`prev, p`next, p`hhPrev, p`hhNext
      modifies order`prev, order`next, order`hhPrev, order`hhNext
      ensures Valid() && order == InsertInOrder<Prog>(cmp, old(order), p)
      ensures buckets == old(buckets) || fresh(buckets)
      ensures bloomBv == old(bloomBv) || fresh(bloomBv)
      ensures old(order) == [] ==> numBuckets == 32
      ensures old(order) != [] ==>
                old(0 < numBuckets == buckets.Length) &&
                var bk := old(buckets[fcn(p.idUs) % numBuckets]);
                numBuckets == if bk.count >= (bk.expandMult + 1) * 10 - 1 && !old(noexpand)
                              then 2 * old(numBuckets) else old(numBuckets)
      ensures ShapeNow() == Grown(bloomNbits, old(order) == [], old(ShapeNow()), Hashes(fcn, order), fcn(p.idUs))
      ensures numBuckets == |chains| && ByHash(fcn, order, chains)
    {
      hide *;
      HeadTells();
      WideNow();
      if head == null {
        p.hashv := fcn(p.idUs);
        StartTable(p);
      } else {
        InsertList(p, cmp);
      }
      assert order == InsertInOrder<Prog>(cmp, old(order), p) by {
        IntoEmpty(cmp, p);
      }
      AwaitingParts(p, old(order));
      AddToTable(p, old(order));
      GrownIs(bloomNbits, old(order) == [], old(ShapeNow()), Hashes(fcn, order), fcn(p.idUs));
    }

    // HASH_AKBI_INNER_LOOP and the relinking after it.
    method InsertList(p: Prog, cmp: Cmp<Prog>)
      requires Valid() && head != null && p !in order
      modifies `head, `tail, `order, p`hashv, p`prev, p`next, order`prev, order`next
      ensures order == InsertInOrder<Prog>(cmp, old(order), p) && Awaiting(p, old(order))
    {
      hide *;
      ValidParts();
      InsertInOrderMembers(cmp, order, p);
      PlacedGrow(order, InsertInOrder<Prog>(cmp, order, p), chains, InBkt(numBuckets), p);
      p.hashv := fcn(p.idUs);
      var iter, i := FindSlot(cmp, head, p, order);
      SlotEnd(order, i, p);
      var h, t := head, tail;
      if iter != null {
        h := LinkBefore(p, iter, head, order, i);
      } else {
        LinkLast(p, tail, order);
        t := p;
      }
      Extend(h, t, InsertInOrder<Prog>(cmp, order, p), p);
      NowAwaiting(p, old(order));
    }

    lemma ValidParts()
      requires Valid() && head != null
      ensures order != [] && head == order[0] && tail == order[|order| - 1] && Distinct(order) && AppLinked(order)
      ensures LastOf(order) == tail
      ensures numItems == |order| && Hashed() && BucketsOk() && numBuckets == Pow2(log2NumBuckets)
      ensures Placed(order, chains, {}, InBkt(numBuckets))
      ensures (buckets as object) != bloomBv && BloomHolds(order) && MarksOk() && BloomOk()
    {
      hide Pow2, Placed, MarksOk, BloomHolds, Distinct, BucketOk, AppLinked;
    }

    lemma NowAwaiting(p: Prog, was: seq<Prog>)
      requires ListOk() && numItems == |order| - 1 && Hashed()
      requires BucketsOk() && numBuckets == Pow2(log2NumBuckets) && Placed(order, chains, {p}, InBkt(numBuckets))
      requires (buckets as object) != bloomBv && BloomHolds(was) && MarksOk()
      requires forall q :: q in order <==> q in was || q == p
      ensures Awaiting(p, was)
    {
      hide Pow2, Placed, MarksOk, BloomHolds, Distinct, BucketOk, AppLinked;
    }

    // The bucket part of HASH_DELETE_HH; rest is the order without p.
    method DeleteFromBkt(p: Prog, ghost rest: seq<Prog>)
      requires BucketsOk() && Hashed() && p in order && Placed(order, chains, {}, InBkt(numBuckets))
      requires numBuckets == Pow2(log2NumBuckets)
      requires forall q :: q in rest <==> q in order && q != p
      modifies buckets, `chains, order`hhPrev, order`hhNext
      ensures |chains| == numBuckets == buckets.Length && Placed(rest, chains, {}, InBkt(numBuckets))
      ensures forall b, k :: 0 <= b < |chains| && 0 <= k < |chains[b]| ==> chains[b][k] in rest
      ensures forall b :: 0 <= b < |chains| ==> BucketOk(buckets[b], chains[b])
      ensures forall d :: 0 <= d < buckets.Length ==>
                && buckets[d].expandMult == old(buckets[d].expandMult)
                && buckets[d].count == old(buckets[d].count) - (if d == fcn(p.idUs) % numBuckets then 1 else 0)
      ensures ShapeNow() == old(ShapeNow())
    {
      hide ToBkt, Pow2, BucketOk, Distinct, MultsOf;
      ghost var bkt := InBkt(numBuckets);
      var b := ToBkt(p.hashv, numBuckets);
      RemainderBkt();
      assert bkt(p) == b;
      ghost var k :| 0 <= k < |chains[b]| && chains[b][k] == p;
      DistinctChain(b);
      PlacedShrink(order, rest, chains, bkt, b, k);
      ghost var was := buckets[..];
      RemoveFromBkt(p, b, k, bkt);
      EqualMults(was, buckets[..]);
    }

    lemma DistinctChain(b: nat)
      requires BucketsOk() && b < numBuckets
      ensures Distinct(chains[b])
    {
      assert BucketOk(buckets[b], chains[b]);
    }

    method RemoveFromBkt(p: Prog, b: nat, ghost k: nat, ghost bkt: Prog -> nat)
      requires BucketsOk() && Placed(order, chains, {}, bkt)
      requires b < numBuckets && k < |chains[b]| && p == chains[b][k]
      modifies buckets, `chains, order`hhPrev, order`hhNext
      ensures chains == old(chains)[b := old(chains)[b][..k] + old(chains)[b][k + 1..]]
      ensures forall d :: 0 <= d < |chains| ==> BucketOk(buckets[d], chains[d])
      ensures forall d :: 0 <= d < buckets.Length ==>
                && buckets[d].expandMult == old(buckets[d].expandMult)
                && buckets[d].count == old(buckets[d].count) - (if d == b then 1 else 0)
    {
      ghost var rest := chains[b][..k] + chains[b][k + 1..];
      DelInBkt(buckets, b, p, chains[b], k);
      forall d | 0 <= d < |chains| && d != b ensures BucketOk(buckets[d], chains[d]) {
        assert buckets[..][d] == old(buckets[..])[d];
        assert old(BucketOk(buckets[d], chains[d]));
      }
      chains := chains[b := rest];
    }

    // HASH_DELETE_HH. It never looks whether p is in the table: a program linked to no other is taken
    // for the only one, and the table goes. So only p goes if and only if p is in the table.
    method Delete(p: Prog)
      requires Valid() && order != [] && (p in order || (p.prev == null && p.next == null))
      modifies this, buckets, order`prev, order`next, order`hhPrev, order`hhNext
      ensures Valid() && order == if p in old(order) then Without<Prog>(old(order), p) else []
      ensures order == Without<Prog>(old(order), p) <==> p in old(order)
      ensures buckets == old(buckets) && bloomBv == old(bloomBv)
      ensures p in old(order) && order != [] ==>
                forall b :: 0 <= b < numBuckets ==>
                  && buckets[b].expandMult == old(buckets[b].expandMult)
                  && buckets[b].count == old(buckets[b].count) - (if b == fcn(p.idUs) % numBuckets then 1 else 0)
      ensures ShapeNow() == old(ShapeNow()) && numBuckets == old(numBuckets) && noexpand == old(noexpand)
    {
      hide BucketOk, Placed, Pow2, BitTest, BitOf, ByteLen, ToBkt, Without, AppLinked, Distinct;
      WithoutAbsent(order, p);
      ghost var i := 0;
      if p in order {
        i :| 0 <= i < |order| && order[i] == p;
        WithoutAt<Prog>(order, i);
        OnlyElement(order, i);
      }
      if p.prev == null && p.next == null {
        head := null;
        order := [];
      } else {
        DeleteSeveral(p, i);
      }
    }

    // HASH_DELETE_HH when other programs remain.
    method DeleteSeveral(p: Prog, ghost i: nat)
      requires Valid() && |order| > 1 && i < |order| && order[i] == p
      requires Without<Prog>(order, p) == order[..i] + order[i + 1..]
      modifies this, buckets, order`prev, order`next, order`hhPrev, order`hhNext
      ensures Valid() && order == Without<Prog>(old(order), p)
      ensures buckets == old(buckets) && bloomBv == old(bloomBv)
      ensures forall b :: 0 <= b < numBuckets ==>
                && buckets[b].expandMult == old(buckets[b].expandMult)
                && buckets[b].count == old(buckets[b].count) - (if b == fcn(p.idUs) % numBuckets then 1 else 0)
      ensures ShapeNow() == old(ShapeNow()) && numBuckets == old(numBuckets) && noexpand == old(noexpand)
    {
      hide *;
      HeadTells();
      ValidParts();
      WithoutDistinct<Prog>(order, p);
      WithoutStays<Prog>(order, p);
      var h, t := Unlink(p, head, tail, order, i);
      DeleteFromBkt(p, Without<Prog>(order, p));
      Relist(h, t, Without<Prog>(order, p));
    }

    // HASH_DELETE_HH is done: the list is now rest.
    method Relist(h: Prog, t: Prog, ghost rest: seq<Prog>)
      requires rest != [] && h == HeadOf(rest) && t == LastOf(rest) && Distinct(rest) && AppLinked(rest)
      requires numItems == |rest| + 1 && |chains| == numBuckets == buckets.Length == Pow2(log2NumBuckets)
      requires Placed(rest, chains, {}, InBkt(numBuckets))
      requires forall b, k :: 0 <= b < |chains| && 0 <= k < |chains[b]| ==> chains[b][k] in rest
      requires forall b :: 0 <= b < |chains| ==> BucketOk(buckets[b], chains[b])
      requires Hashed() && BloomOk() && forall q :: q in rest ==> q in order
      modifies `head, `tail, `order, `numItems
      ensures Valid() && order == rest
    {
      hide Placed, Pow2, BitTest, BitOf, ByteLen, ToBkt, Distinct, BucketOk;
      head, tail, order := h, t, rest;
      numItems := numItems - 1;
    }

    // HASH_FIND_IN_BKT: the first program of the chain with the given hash value and key.
    method FindInBkt(b: nat, key: Key, hashv: nat) returns (out: Prog?)
      requires BucketsOk() && b < numBuckets && hashv == fcn(key) && Hashed()
      ensures out == null ==> forall p :: p in chains[b] ==> p.idUs != key
      ensures out != null ==> out in order && out.idUs == key
    {
      assert BucketOk(buckets[b], chains[b]);
      ghost var c, i := chains[b], 0;
      out := buckets[b].hhHead;
      while out != null
        invariant i <= |c| && out == (if i < |c| then c[i] else null)
        invariant forall k :: 0 <= k < i ==> c[k].idUs != key
        decreases |c| - i
      {
        if out.hashv == hashv && out.idUs == key {
          break;
        }
        assert i + 1 < |c| ==> c[i].hhNext == c[i + 1];
        out := out.hhNext;
        i := i + 1;
      }
    }

    // HASH_FIND, with or without the Bloom filter.
    method Find(key: Key) returns (out: Prog?)
      requires Valid()
      ensures out == null ==> forall p :: p in order ==> p.idUs != key
      ensures out != null ==> out in order && out.idUs == key
      ensures KeysDistinct(order) ==> out == Lookup(order, key)
    {
      hide BucketOk, Pow2, BitTest, BitOf, ByteLen, ToBkt, Distinct, AppLinked, KeysDistinct, Lookup;
      out := null;
      if head != null {
        var hashv := fcn(key);
        var b := ToBkt(hashv, numBuckets);
        if bloomNbits.None? || BitTest(bloomBv[..], BitOf(bloomNbits.value, hashv)) {
          out := FindInBkt(b, key, hashv);
        }
        SameBkt(key, b);
      }
      if out != null && KeysDistinct(order) {
        LookupUnique(order, key, out);
      }
    }

    // A program with this key can only be in the bucket of the key.
    lemma SameBkt(key: Key, b: nat)
      requires numBuckets > 0 && Placed(order, chains, {}, InBkt(numBuckets)) && b == ToBkt(fcn(key), numBuckets)
      ensures forall p :: p in order && p.idUs == key ==> b < |chains| && p in chains[b]
    {}

    // The first half of HASH_REPLACE: find a program with the key of p, and delete it.
    method MakeWay(p: Prog) returns (replaced: Prog?)
      requires Valid() && (KeysDistinct(order) || p !in order)
      modifies this, buckets, order`prev, order`next, order`hhPrev, order`hhNext
      ensures Valid() && p !in order && buckets == old(buckets) && bloomBv == old(bloomBv)
      ensures replaced == null ==> (forall q :: q in old(order) ==> q.idUs != p.idUs)
      ensures replaced != null ==> replaced in old(order) && replaced.idUs == p.idUs
      ensures order == if replaced == null then old(order) else Without<Prog>(old(order), replaced)
      ensures forall q :: q in order ==> q in old(order)
      ensures KeysDistinct(old(order)) ==>
                replaced == Lookup(old(order), p.idUs) && order == WithoutKey(old(order), p.idUs)
      ensures order != [] ==>
                forall b :: 0 <= b < numBuckets ==>
                  && buckets[b].expandMult == old(buckets[b].expandMult)
                  && buckets[b].count ==
                     old(buckets[b].count) - (if replaced != null && b == fcn(p.idUs) % numBuckets then 1 else 0)
      ensures ShapeNow() == old(ShapeNow()) && numBuckets == old(numBuckets) && noexpand == old(noexpand)
    {
      OrderDistinct();
      hide *;
      replaced := Find(p.idUs);
      WayMade(order, p, replaced);
      if replaced != null {
        Delete(replaced);
      }
    }

    lemma OrderDistinct()
      requires Valid()
      ensures Distinct(order)
    {}

    lemma BucketHere(p: Prog)
      requires Valid()
      ensures order != [] ==> 0 < numBuckets == buckets.Length && fcn(p.idUs) % numBuckets < numBuckets
    {
      hide Pow2, Placed, BloomOk, BucketOk, ListOk, Hashed;
    }

    // HASH_REPLACE: a program with the key of p, if there is one, makes way for p. The table may hold
    // the key more than once, unless p itself is in it.
    method Replace(p: Prog) returns (replaced: Prog?)
      requires Valid() && (KeysDistinct(order) || p !in order)
      modifies this, buckets, bloomBv, p`hashv, p`prev, p`next, p`hhPrev, p`hhNext
      modifies order`prev, order`next, order`hhPrev, order`hhNext
      ensures Valid() && (replaced == null ==> forall q :: q in old(order) ==> q.idUs != p.idUs)
      ensures replaced != null ==> replaced in old(order) && replaced.idUs == p.idUs
      ensures order == (if replaced == null then old(order) else Without<Prog>(old(order), replaced)) + [p]
      ensures KeysDistinct(old(order)) ==>
                replaced == Lookup(old(order), p.idUs) && order == WithoutKey(old(order), p.idUs) + [p]
      ensures buckets == old(buckets) || fresh(buckets)
      ensures bloomBv == old(bloomBv) || fresh(bloomBv)
      ensures order == [p] ==> numBuckets == 32
      ensures |order| > 1 ==>
                old(0 < numBuckets == buckets.Length) &&
                var bk := old(buckets[fcn(p.idUs) % numBuckets]);
                numBuckets == if bk.count - (if replaced == null then 0 else 1) >= (bk.expandMult + 1) * 10 - 1
                                 && !old(noexpand)
                              then 2 * old(numBuckets) else old(numBuckets)
      ensures ShapeNow() == Grown(bloomNbits, |order| == 1, old(ShapeNow()), Hashes(fcn, order), fcn(p.idUs))
    {
      hide *;
      replaced := MakeWay(p);
      assert forall k :: 0 <= k < |order| ==> order[k] in order;
      BucketHere(p);
      AddKeyptr(p);
    }

    // HASH_REPLACE_INORDER
    method ReplaceInorder(p: Prog, cmp: Cmp<Prog>) returns (replaced: Prog?)
      requires Valid() && (KeysDistinct(order) || p !in order)
      modifies this, buckets, bloomBv, p`hashv, p`prev, p`next, p`hhPrev, p`hhNext
      modifies order`prev, order`next, order`hhPrev, order`hhNext
      ensures Valid() && (replaced == null ==> forall q :: q in old(order) ==> q.idUs != p.idUs)
      ensures replaced != null ==> replaced in old(order) && replaced.idUs == p.idUs
      ensures order == InsertInOrder<Prog>(cmp, if replaced == null then old(order) else Without<Prog>(old(order), replaced), p)
      ensures KeysDistinct(old(order)) ==>
                replaced == Lookup(old(order), p.idUs)
                && order == InsertInOrder<Prog>(cmp, WithoutKey(old(order), p.idUs), p)
      ensures buckets == old(buckets) || fresh(buckets)
      ensures bloomBv == old(bloomBv) || fresh(bloomBv)
      ensures order == [p] ==> numBuckets == 32
      ensures |order| > 1 ==>
                old(0 < numBuckets == buckets.Length) &&
                var bk := old(buckets[fcn(p.idUs) % numBuckets]);
                numBuckets == if bk.count - (if replaced == null then 0 else 1) >= (bk.expandMult + 1) * 10 - 1
                                 && !old(noexpand)
                              then 2 * old(numBuckets) else old(numBuckets)
      ensures ShapeNow() == Grown(bloomNbits, |order| == 1, old(ShapeNow()), Hashes(fcn, order), fcn(p.idUs))
    {
      hide *;
      replaced := MakeWay(p);
      assert forall k :: 0 <= k < |order| ==> order[k] in order;
      BucketHere(p);
      AddKeyptrInorder(p, cmp);
    }

    // HASH_SRT
    method Sort(cmp: Cmp<Prog>) returns (ghost passes: nat, ghost compares: nat)
      requires Valid() && PreorderOn(cmp, order)
      modifies `head, `tail, `order, order`prev, order`next
      ensures Valid() && order == InsertionSort<Prog>(cmp, old(order)) && chains == old(chains)
      ensures ShapeNow() == old(ShapeNow())
      ensures SortCost(|old(order)|, passes, compares) && compares == SortCompares<Prog>(cmp, old(order), passes)
    {
      hide *;
      HeadTells();
      if head == null {
        passes, compares := 0, 0;
        NothingToSort(cmp);
      } else {
        var h, t;
        ValidParts();
        SortMembers(cmp, order);
        Ends(InsertionSort<Prog>(cmp, order));
        h, t, passes, compares := SortLinked(cmp, head, order);
        Resort(h, t, InsertionSort<Prog>(cmp, order));
      }
    }

    // HASH_SRT is done: the same programs, in the order of sorted.
    method Resort(h: Prog, t: Prog, ghost sorted: seq<Prog>)
      requires sorted != [] && h == HeadOf(sorted) && t == LastOf(sorted) && Distinct(sorted) && AppLinked(sorted)
      requires numItems == |sorted| && Hashed() && BucketsOk() && numBuckets == Pow2(log2NumBuckets)
      requires Placed(order, chains, {}, InBkt(numBuckets)) && BloomOk()
      requires Within(sorted, order) && Within(order, sorted)
      modifies `head, `tail, `order
      ensures Valid() && order == sorted
    {
      hide Pow2, BitTest, BitOf, ByteLen, ToBkt, Distinct, BucketOk, AppLinked;
      head, tail, order := h, t, sorted;
    }

    // What HASH_FSCK relies on: the heads and the next links lead through order and through chains.
    ghost predicate Walkable()
      reads `head, `order, `buckets, `numBuckets, `chains, buckets, order`next, order`hhNext
    {
      head == null ||
      (&& order != [] && head == order[0]
       && (forall i :: 0 <= i < |order| ==> LeadsOn(order, i))
       && numBuckets == buckets.Length == |chains|
       && (forall b, k :: 0 <= b < |chains| && 0 <= k < |chains[b]| ==> chains[b][k] in order)
       && (forall b :: 0 <= b < |chains| ==> buckets[b].hhHead == HeadOf(chains[b]))
       && (forall b, k :: 0 <= b < |chains| && 0 <= k < |chains[b]| ==> HhLeadsOn(chains[b], k)))
    }

    ghost predicate SoundList()
      reads `order, order`prev
    {
      forall i :: 0 <= i < |order| ==> LeadsBack(order, i)
    }

    // What it is to find.
    ghost predicate Sound()
      requires Walkable()
      reads `head, `order, `buckets, `numBuckets, `chains, `numItems, buckets
      reads order`prev, order`next, order`hhNext, order`hhPrev
    {
      head == null ||
      (&& (forall b :: 0 <= b < |chains| ==> SoundBucket(buckets[b], chains[b])) && SoundList()
       && |Flatten(chains)| == numItems == |order|)
    }

    // Every table that satisfies the invariant can be walked and is sound.
    lemma ValidIsSound()
      requires Valid()
      ensures Walkable() && Sound() && (head != null ==> |Flatten(chains)| == |order|)
    {
      if head != null {
        hide Pow2, BloomOk, Hashed, Placed, Flatten;
        forall b | 0 <= b < |chains|
          ensures buckets[b].hhHead == HeadOf(chains[b]) && buckets[b].count == |chains[b]| && Distinct(chains[b])
          ensures forall k :: 0 <= k < |chains[b]| ==> HhLeadsOn(chains[b], k) && HhLeadsBack(chains[b], k)
        {
          assert BucketOk(buckets[b], chains[b]);
          ChainEnds(chains[b]);
        }
        ListEnds(order);
        ChainsTotal(order, chains, InBkt(numBuckets));
      }
    }

    // HASH_FSCK, as HASH_DEBUG compiles it in: on a table that can be walked it finds nothing wrong if
    // and only if all back links, counts and totals are right. It finds nothing wrong on a valid table.
    method Fsck() returns (ok: bool, inBuckets: nat, inOrder: nat)
      requires Walkable()
      ensures ok <==> Sound()
      ensures head != null ==> inBuckets == |Flatten(chains)| && inOrder == |order|
      ensures Valid() ==> ok && (head != null ==> inBuckets == inOrder == |order|)
    {
      ok, inBuckets, inOrder := true, 0, 0;
      if head != null {
        hide SoundBucket, SoundList, Flatten, Valid;
        var i := 0;
        FlattenNone(chains);
        while i < numBuckets
          invariant i <= numBuckets && inBuckets == |Flatten(chains[..i])|
          invariant ok <==> forall b :: 0 <= b < i ==> SoundBucket(buckets[b], chains[b])
        {
          var n, linked := FsckBucket(i);
          FlattenNext(chains, i);
          inBuckets := inBuckets + n;
          ok := ok && linked && buckets[i].count == n;
          i := i + 1;
        }
        assert chains[..i] == chains;
        ok := ok && inBuckets == numItems;
        var linked;
        inOrder, linked := FsckList();
        ok := ok && linked && inOrder == numItems;
      }
      FoundSound(ok);
    }

    lemma FoundSound(ok: bool)
      requires Walkable() && (ok <==> Sound())
      ensures Valid() ==> ok && (head != null ==> |Flatten(chains)| == |order|)
    {
      hide Walkable, Sound, Valid;
      if Valid() {
        ValidIsSound();
      }
    }

    // Walk one bucket and compare each hhPrev with the element before.
    method FsckBucket(b: nat) returns (n: nat, linked: bool)
      requires Walkable() && head != null && b < numBuckets
      ensures n == |chains[b]| && (SoundBucket(buckets[b], chains[b]) <==> linked && buckets[b].count == n)
    {
      ghost var c := chains[b];
      n, linked := 0, true;
      var thh, prev: Prog? := buckets[b].hhHead, null;
      while thh != null
        invariant n <= |c| && thh == (if n < |c| then c[n] else null)
        invariant prev == (if n == 0 then null else c[n - 1])
        invariant linked <==> forall k :: 0 <= k < n ==> HhLeadsBack(c, k)
        decreases |c| - n
      {
        assert HhLeadsOn(chains[b], n);
        assert (prev == thh.hhPrev) == HhLeadsBack(c, n);
        linked := linked && prev == thh.hhPrev;
        n, prev, thh := n + 1, thh, thh.hhNext;
      }
    }

    // Walk the application-order list in the same way.
    method FsckList() returns (n: nat, linked: bool)
      requires Walkable() && head != null
      ensures n == |order| && (linked <==> SoundList())
    {
      n, linked := 0, true;
      var thh, prev: Prog? := head, null;
      while thh != null
        invariant n <= |order| && thh == (if n < |order| then order[n] else null)
        invariant prev == (if n == 0 then null else order[n - 1])
        invariant linked <==> forall k :: 0 <= k < n ==> LeadsBack(order, k)
        decreases |order| - n
      {
        assert LeadsOn(order, n);
        assert (prev == thh.prev) == LeadsBack(order, n);
        linked := linked && prev == thh.prev;
        n, prev, thh := n + 1, thh, thh.next;
      }
    }
  }

  // The links of a bucket lead back in the same way, and its count is right.
  ghost predicate SoundBucket(bk: Bucket, c: seq<Prog>)
    reads c`hhPrev
  {
    bk.count == |c| && forall k :: 0 <= k < |c| ==> HhLeadsBack(c, k)
  }

  ghost predicate LeadsOn(s: seq<Prog>, i: nat)
    requires i < |s|
    reads s`next
  {
    s[i].next == if i + 1 < |s| then s[i + 1] else null
  }

  ghost predicate LeadsBack(s: seq<Prog>, i: nat)
    requires i < |s|
    reads s`prev
  {
    s[i].prev == if i > 0 then s[i - 1] else null
  }

  ghost predicate HhLeadsOn(c: seq<Prog>, k: nat)
    requires k < |c|
    reads c`hhNext
  {
    c[k].hhNext == if k + 1 < |c| then c[k + 1] else null
  }

  ghost predicate HhLeadsBack(c: seq<Prog>, k: nat)
    requires k < |c|
    reads c`hhPrev
  {
    c[k].hhPrev == if k > 0 then c[k - 1] else null
  }

  lemma ChainEnds(c: seq<Prog>)
    requires ChainLinked(c)
    ensures forall k :: 0 <= k < |c| ==> HhLeadsOn(c, k) && HhLeadsBack(c, k)
  {
    forall k | 0 <= k < |c| ensures HhLeadsOn(c, k) && HhLeadsBack(c, k) {
      assert k > 0 ==> c[k].hhPrev == c[k - 1];
      assert k + 1 < |c| ==> c[k].hhNext == c[k + 1];
    }
  }

  lemma ListEnds(s: seq<Prog>)
    requires AppLinked(s)
    ensures forall i :: 0 <= i < |s| ==> LeadsOn(s, i) && LeadsBack(s, i)
  {
    forall i | 0 <= i < |s| ensures LeadsOn(s, i) && LeadsBack(s, i) {
      assert i > 0 ==> s[i].prev == s[i - 1];
      assert i + 1 < |s| ==> s[i].next == s[i + 1];
    }
  }

  lemma FlattenNone<T>(parts: seq<seq<T>>)
    ensures Flatten(parts[..0]) == []
  {}

  lemma NothingToSort(cmp: Cmp<Prog>)
    ensures InsertionSort<Prog>(cmp, []) == [] && SortCost(0, 0, 0) && SortCompares<Prog>(cmp, [], 0) == 0
  {}

  lemma SortMembers(cmp: Cmp<Prog>, s: seq<Prog>)
    ensures Within(InsertionSort<Prog>(cmp, s), s) && Within(s, InsertionSort<Prog>(cmp, s))
  {
    var r := InsertionSort<Prog>(cmp, s);
    SortIsPermutation<Prog>(cmp, s);
    forall i | 0 <= i < |r| ensures r[i] in s {
      assert r[i] in multiset(r);
    }
    forall i | 0 <= i < |s| ensures s[i] in r {
      assert s[i] in multiset(s);
    }
  }

  lemma FlattenNext<T>(parts: seq<seq<T>>, i: nat)
    requires i < |parts|
    ensures Flatten(parts[..i + 1]) == Flatten(parts[..i]) + parts[i]
  {
    assert parts[..i + 1] == parts[..i] + [parts[i]];
    FlattenConcat(parts[..i], [parts[i]]);
    assert [parts[i]][1..] == [];
    assert Flatten([parts[i]]) == parts[i] + [];
  }

  lemma SlotEnd(s: seq<Prog>, i: nat, p: Prog)
    requires s != [] && i <= |s|
    ensures s[..i] + [p] + s[i..] != [] && LastOf(s[..i] + [p] + s[i..]) == if i < |s| then LastOf(s) else p
    ensures i == |s| ==> s[..i] + [p] + s[i..] == s + [p]
    ensures HeadOf(s[..i] + [p] + s[i..]) == (s[..i] + [p] + s[i..])[0] == if i == 0 then p else s[0]
  {}

  lemma WayMade(s: seq<Prog>, p: Prog, r: Prog?)
    requires Distinct(s) && (KeysDistinct(s) || p !in s)
    requires r == null ==> forall q :: q in s ==> q.idUs != p.idUs
    requires r != null ==> r in s && r.idUs == p.idUs
    requires KeysDistinct(s) ==> r == Lookup(s, p.idUs)
    ensures var t := if r == null then s else Without<Prog>(s, r);
            && p !in t && (forall q :: q in t ==> q in s)
            && (KeysDistinct(s) ==> t == WithoutKey(s, p.idUs))
  {
    hide Without, Lookup, KeysDistinct;
    if KeysDistinct(s) {
      WithoutKeyMembers(s, p);
    }
    if r != null {
      WithoutStays<Prog>(s, r);
      forall q: Prog | q in Without<Prog>(s, r) ensures q in s {
        WithoutMembers<Prog>(s, r, q);
      }
    }
  }

  lemma {:induction false} WithoutAbsent(s: seq<Prog>, p: Prog)
    ensures p !in s ==> Without<Prog>(s, p) == s
  {
    if s != [] {
      WithoutAbsent(s[1..], p);
    }
  }

  lemma OnlyElement(s: seq<Prog>, i: nat)
    requires AppLinked(s) && i < |s|
    ensures s[i].prev == null && s[i].next == null <==> |s| == 1
  {
    assert i > 0 ==> s[i].prev == s[i - 1];
    assert i + 1 < |s| ==> s[i].next == s[i + 1];
  }

  lemma {:induction false} InsertInOrderMembers(cmp: Cmp<Prog>, s: seq<Prog>, p: Prog)
    ensures forall q :: q in InsertInOrder<Prog>(cmp, s, p) <==> q in s || q == p
  {
    if s != [] && cmp(s[0], p) <= 0 {
      InsertInOrderMembers(cmp, s[1..], p);
    }
  }

  lemma EmptyBucketOk()
    ensures BucketOk(Bucket(null, 0, 0), [])
  {}

  lemma InitialIsPow2()
    ensures INITIAL_NUM_BUCKETS == Pow2(INITIAL_NUM_BUCKETS_LOG2)
  {
    assert Pow2(3) == 8;
  }

  lemma DoublePow2(k: nat)
    ensures Pow2(k + 1) == 2 * Pow2(k)
  {}

  lemma Ends(s: seq<Prog>)
    ensures s != [] ==> HeadOf(s) == s[0] && LastOf(s) == s[|s| - 1]
  {}

  lemma IntoEmpty(cmp: Cmp<Prog>, p: Prog)
    ensures InsertInOrder<Prog>(cmp, [], p) == [p]
  {}

  lemma SameMults(bs: seq<Bucket>, b: nat, bk: Bucket)
    requires b < |bs| && bk.expandMult == bs[b].expandMult
    ensures MultsOf(bs[b := bk]) == MultsOf(bs)
  {}

  lemma EqualMults(a: seq<Bucket>, b: seq<Bucket>)
    requires |a| == |b| && forall i :: 0 <= i < |a| ==> a[i].expandMult == b[i].expandMult
    ensures MultsOf(a) == MultsOf(b)
  {}

  lemma NothingSet(bv: seq<byte>)
    requires forall i :: 0 <= i < |bv| ==> bv[i] == 0
    ensures forall j: nat :: !BitTest(bv, j)
  {}
}
