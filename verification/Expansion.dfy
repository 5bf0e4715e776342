/** HASH_EXPAND_BUCKETS: what doubling the bucket array records, and one step of it. */
module Expansion {
  import opened Bits
  import opened Chains

  // ceil(n / 2^(log2 + 1)), as the macro computes it from the bucket count nb == 2^log2.
  function IdealChainMaxlen(n: nat, log2: nat, nb: nat): (r: nat)
    requires nb > 0
  {
    Shr(n, log2 + 1) + (if And(n, nb * 2 - 1) != 0 then 1 else 0)
  }

  lemma IdealIsCeiling(n: nat, log2: nat, nb: nat)
    requires nb == Pow2(log2)
    ensures IdealChainMaxlen(n, log2, nb) == CeilDiv(n, 2 * nb)
    ensures n > 0 ==> IdealChainMaxlen(n, log2, nb) > 0
  {
    assert Pow2(log2 + 1) == 2 * nb;
    ShiftIsDiv(n, log2 + 1);
    MaskIsMod(n, log2 + 1);
    if n > 0 && n % (2 * nb) == 0 {
      assert n == (n / (2 * nb)) * (2 * nb);
    }
  }

  lemma HalfIsShift(n: nat)
    ensures Shr(n, 1) == n / 2
  {
    assert Shr(n, 1) == Shr(n / 2, 0);
  }

  method ComputeIdeal(n: nat, log2: nat, nb: nat) returns (ideal: nat)
    requires nb == Pow2(log2)
    ensures ideal == CeilDiv(n, 2 * nb) && (n > 0 ==> ideal > 0)
  {
    ideal := Shr(n, log2 + 1) + (if And(n, nb * 2 - 1) != 0 then 1 else 0);
    IdealIsCeiling(n, log2, nb);
  }

  // expand_mult of a new bucket after count programs were pushed into it.
  function ExpandMult(count: nat, ideal: nat): nat {
    if count == 0 then 0
    else
      var m := ExpandMult(count - 1, ideal);
      if count > ideal && count > m * ideal then m + 1 else m
  }

  // It stays 0 up to the ideal length; beyond, it is ceil(count/ideal) or one less.
  lemma {:induction false} ExpandMultBounds(count: nat, ideal: nat)
    requires ideal > 0
    ensures var m := ExpandMult(count, ideal);
            && (count <= ideal <==> m == 0)
            && (m > 0 ==> CeilDiv(count, ideal) - 1 <= m <= CeilDiv(count, ideal))
  {
    ExpandMultWindow(count, ideal);
    var m := ExpandMult(count, ideal);
    CeilWindow(count, ideal, m);
  }

  // Exactly: it falls one short of ceil(count/ideal) right beyond the ideal length, and always when
  // the ideal length is 1.
  lemma {:induction false} ExpandMultExactly(count: nat, ideal: nat)
    requires ideal > 0
    ensures ExpandMult(count, ideal) ==
            if count <= ideal then 0
            else if ideal == 1 || count == ideal + 1 then CeilDiv(count, ideal) - 1
            else CeilDiv(count, ideal)
    decreases count
  {
    hide CeilDiv;
    if count > ideal {
      ExpandMultExactly(count - 1, ideal);
      CeilStep(count - 1, ideal);
      CeilOfItself(ideal);
      var m := ExpandMult(count - 1, ideal);
      if count == ideal + 1 {
        assert m == 0 && m * ideal == 0;
      } else if ideal == 1 {
        CeilOfOne(count);
        CeilOfOne(count - 1);
        assert m * ideal == m;
      } else if count == ideal + 2 {
        assert m == 1 && m * ideal == ideal && CeilDiv(count - 1, ideal) == 2 && 2 * ideal == ideal + ideal;
      } else {
        assert m == CeilDiv(count - 1, ideal);
      }
    } else if count > 0 {
      ExpandMultExactly(count - 1, ideal);
    }
  }

  lemma CeilOfOne(c: nat)
    ensures CeilDiv(c, 1) == c
  {}

  // The ceiling grows by one exactly past a multiple.
  lemma CeilStep(c: nat, d: nat)
    requires d > 0
    ensures var q := CeilDiv(c, d);
            c <= q * d && (q > 0 ==> (q - 1) * d < c) && CeilDiv(c + 1, d) == if c + 1 > q * d then q + 1 else q
  {
    CeilWithin(c, d);
    CeilWithin(c + 1, d);
    var q, r := CeilDiv(c, d), CeilDiv(c + 1, d);
    CeilUnique(c + 1, d, r, if c + 1 > q * d then q + 1 else q);
  }

  lemma CeilWithin(c: nat, d: nat)
    requires d > 0
    ensures var q := CeilDiv(c, d); c <= q * d && (q > 0 ==> (q - 1) * d < c) && (q == 0 ==> c == 0)
  {
    var q, r := c / d, c % d;
    assert c == q * d + r;
    assert (q + 1) * d == q * d + d;
    if q > 0 {
      assert (q - 1) * d == q * d - d;
    }
  }

  lemma CeilUnique(c: nat, d: nat, q: nat, r: nat)
    requires d > 0 && c <= q * d && (q > 0 ==> (q - 1) * d < c) && c <= r * d && (r > 0 ==> (r - 1) * d < c)
    ensures q == r
  {
    if q > r {
      assert (q - 1) * d == (q - 1 - r) * d + r * d;
      if q - 1 > r {
        MulAtLeast(q - 1 - r, d);
      }
    } else if r > q {
      assert (r - 1) * d == (r - 1 - q) * d + q * d;
      if r - 1 > q {
        MulAtLeast(r - 1 - q, d);
      }
    }
  }

  lemma CeilOfItself(d: nat)
    requires d > 0
    ensures CeilDiv(d, d) == 1 && CeilDiv(d + 1, d) == 2
  {
    CeilUnique(d, d, CeilDiv(d, d), 1);
    CeilStep(d, d);
  }

  lemma {:induction false} ExpandMultWindow(count: nat, ideal: nat)
    requires ideal > 0
    ensures var m := ExpandMult(count, ideal);
            && (count <= ideal <==> m == 0)
            && count <= (m + 1) * ideal
            && (m > 0 ==> (m - 1) * ideal < count)
  {
    if count > 0 {
      ExpandMultWindow(count - 1, ideal);
      var m := ExpandMult(count - 1, ideal);
      assert (m + 1) * ideal == m * ideal + ideal && (m + 2) * ideal == (m + 1) * ideal + ideal;
    }
  }

  lemma CeilWindow(c: nat, d: nat, m: nat)
    requires d > 0 && c <= (m + 1) * d && (m > 0 ==> (m - 1) * d < c)
    ensures m > 0 ==> CeilDiv(c, d) - 1 <= m <= CeilDiv(c, d)
  {
    var q, r := c / d, c % d;
    assert c == q * d + r;
    if m > 0 {
      if q > m {
        assert (q - m - 1) * d == q * d - (m + 1) * d;
        if q > m + 1 {
          MulAtLeast(q - m - 1, d);
        }
      } else if m > q + 1 {
        assert (m - 1) * d == (m - 1 - q) * d + q * d;
        MulAtLeast(m - 1 - q, d);
      } else if m == q + 1 {
        assert (m - 1) * d == q * d;
      }
    }
  }

  // The number of programs that lie beyond the ideal length of their chain.
  ghost function Excess<T>(chains: seq<seq<T>>, ideal: nat): nat {
    if chains == [] then 0
    else (if |chains[0]| > ideal then |chains[0]| - ideal else 0) + Excess(chains[1..], ideal)
  }

  lemma {:induction false} ExcessPush<T>(chains: seq<seq<T>>, ideal: nat, b: nat, x: T)
    requires b < |chains|
    ensures Excess(chains[b := [x] + chains[b]], ideal) ==
            Excess(chains, ideal) + (if |chains[b]| >= ideal then 1 else 0)
  {
    if b > 0 {
      assert chains[b := [x] + chains[b]][1..] == chains[1..][b - 1 := [x] + chains[b]];
      ExcessPush(chains[1..], ideal, b - 1, x);
    } else {
      assert chains[b := [x] + chains[b]][1..] == chains[1..];
    }
  }

  ghost function EmptyChains<T>(n: nat): (r: seq<seq<T>>)
    ensures |r| == n && forall b :: 0 <= b < n ==> r[b] == []
  {
    seq(n, _ => [])
  }

  lemma {:induction false} ExcessOfNothing<T>(n: nat, ideal: nat)
    ensures Excess(EmptyChains<T>(n), ideal) == 0
  {
    if n > 0 {
      assert EmptyChains<T>(n)[1..] == EmptyChains<T>(n - 1);
      ExcessOfNothing<T>(n - 1, ideal);
    }
  }

  // mult gives the multiplier of a bucket by its count. Naming it keeps the product in
  // ExpandMult out of the proofs about linking.
  ghost predicate MultStep(mult: nat -> nat, ideal: nat, count: nat) {
    mult(count + 1) == if count + 1 > ideal && count + 1 > mult(count) * ideal then mult(count) + 1 else mult(count)
  }

  ghost predicate Multiplies(mult: nat -> nat, ideal: nat) {
    mult(0) == 0 && forall count: nat :: MultStep(mult, ideal, count)
  }

  ghost function MultFor(ideal: nat): (mult: nat -> nat)
    ensures Multiplies(mult, ideal) && forall count :: mult(count) == ExpandMult(count, ideal)
  {
    var mult := (count: nat) => ExpandMult(count, ideal);
    assert forall count: nat :: MultStep(mult, ideal, count);
    mult
  }

  // bk represents the chain c, and its multiplier is that of a fresh expansion.
  ghost predicate Redistributed(bk: Bucket, c: seq<Prog>, mult: nat -> nat)
    reads c`hhPrev, c`hhNext
  {
    BucketOk(bk, c) && bk.expandMult == mult(|c|)
  }

  lemma EmptyBucket(ideal: nat, mult: nat -> nat)
    requires Multiplies(mult, ideal)
    ensures Redistributed(Bucket(null, 0, 0), [], mult)
  {}

  // Count one more program in bucket b, and note whether it lies beyond the ideal length.
  method CountIn(bs: array<Bucket>, b: nat, ideal: nat, nonideal: nat, ghost mult: nat -> nat)
    returns (nonideal': nat)
    requires b < bs.Length && bs[b].expandMult == mult(bs[b].count) && MultStep(mult, ideal, bs[b].count)
    modifies bs
    ensures bs[..] == old(bs[..])[b := Bucket(old(bs[b]).hhHead, old(bs[b]).count + 1, mult(old(bs[b]).count + 1))]
    ensures nonideal' == nonideal + (if old(bs[b]).count >= ideal then 1 else 0)
  {
    nonideal' := nonideal;
    bs[b] := bs[b].(count := bs[b].count + 1);
    if bs[b].count > ideal {
      nonideal' := nonideal' + 1;
      if bs[b].count > bs[b].expandMult * ideal {
        bs[b] := bs[b].(expandMult := bs[b].expandMult + 1);
      }
    }
  }

  // The body of the inner loop: count p in its new bucket and put it in front of the chain there.
  method MoveToBucket(bs: array<Bucket>, p: Prog, ideal: nat, nonideal: nat,
                      ghost chains: seq<seq<Prog>>, ghost bkt: Prog -> nat, ghost mult: nat -> nat)
    returns (nonideal': nat, ghost chains': seq<seq<Prog>>)
    requires 0 < bs.Length == |chains| && bkt(p) == ToBkt(p.hashv, bs.Length) && p !in chains[bkt(p)]
    requires forall d, k :: 0 <= d < bs.Length && 0 <= k < |chains[d]| ==> bkt(chains[d][k]) == d
    requires forall d :: 0 <= d < bs.Length ==> Redistributed(bs[d], chains[d], mult)
    requires nonideal == Excess(chains, ideal) && Multiplies(mult, ideal)
    modifies bs, p`hhPrev, p`hhNext, chains[bkt(p)]`hhPrev
    ensures chains' == chains[bkt(p) := [p] + chains[bkt(p)]]
    ensures forall d :: 0 <= d < bs.Length ==> Redistributed(bs[d], chains'[d], mult)
    ensures nonideal' == Excess(chains', ideal)
  {
    var b := ToBkt(p.hashv, bs.Length);
    assert Redistributed(bs[b], chains[b], mult) && MultStep(mult, ideal, bs[b].count);
    nonideal' := CountIn(bs, b, ideal, nonideal, mult);
    LinkFirst(bs, b, p, chains[b]);
    chains' := chains[b := [p] + chains[b]];
    ExcessPush(chains, ideal, b, p);
    forall d | 0 <= d < bs.Length && d != b ensures Redistributed(bs[d], chains[d], mult) {
      assert bs[..][d] == old(bs[..])[d];
      assert old(Redistributed(bs[d], chains[d], mult));
    }
  }
}
