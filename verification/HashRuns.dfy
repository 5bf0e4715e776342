/** Whole runs of table operations: the table against a plain sequence and a plain map. */
module HashRuns {
  import opened Bytes
  import opened Sequences
  import opened StableSort
  import opened Chains
  import opened ListSort
  import opened Bits
  import opened Shapes
  import opened UtHash

  datatype Op =
    | Add(p: Prog)
    | AddInorder(p: Prog, cmp: Cmp<Prog>)
    | Replace(p: Prog)
    | ReplaceInorder(p: Prog, cmp: Cmp<Prog>)
    | Delete(p: Prog)
    | Find(key: Key)
    | Sort(cmp: Cmp<Prog>)

  /* The application order as a plain sequence */

  ghost function SeqStep(s: seq<Prog>, op: Op): seq<Prog> {
    match op
    case Add(p) => s + [p]
    case AddInorder(p, cmp) => InsertInOrder<Prog>(cmp, s, p)
    case Replace(p) => WithoutKey(s, p.idUs) + [p]
    case ReplaceInorder(p, cmp) => InsertInOrder<Prog>(cmp, WithoutKey(s, p.idUs), p)
    case Delete(p) => Without<Prog>(s, p)
    case Find(_) => s
    case Sort(cmp) => InsertionSort<Prog>(cmp, s)
  }

  ghost function SeqReply(s: seq<Prog>, op: Op): Prog? {
    match op
    case Replace(p) => Lookup(s, p.idUs)
    case ReplaceInorder(p, _) => Lookup(s, p.idUs)
    case Find(key) => Lookup(s, key)
    case _ => null
  }

  // HASH_ADD is for absent keys, HASH_DELETE for programs that are in the table.
  ghost predicate Allowed(s: seq<Prog>, op: Op) {
    match op
    case Add(p) => Lookup(s, p.idUs) == null
    case AddInorder(p, _) => Lookup(s, p.idUs) == null
    case Delete(p) => p in s
    case Sort(cmp) => PreorderOn(cmp, s)
    case _ => true
  }

  ghost predicate Legal(s: seq<Prog>, ops: seq<Op>)
    decreases ops
  {
    ops == [] || (Allowed(s, ops[0]) && Legal(SeqStep(s, ops[0]), ops[1..]))
  }

  ghost function SeqRun(s: seq<Prog>, ops: seq<Op>): seq<Prog>
    decreases ops
  {
    if ops == [] then s else SeqRun(SeqStep(s, ops[0]), ops[1..])
  }

  ghost function SeqReplies(s: seq<Prog>, ops: seq<Op>): seq<Prog?>
    decreases ops
  {
    if ops == [] then []
    else [SeqReply(s, ops[0])] + SeqReplies(SeqStep(s, ops[0]), ops[1..])
  }

  /* The bookkeeping besides: buckets, expansions, filter bits */

  ghost function ShapeStep(fcn: Key -> nat, nbits: Option<nat>, s: seq<Prog>, shape: Shape, op: Op): Shape {
    if op.Delete? || op.Find? || op.Sort? then shape
    else
      var t := SeqStep(s, op);
      Grown(nbits, |t| == 1, shape, Hashes(fcn, t), fcn(op.p.idUs))
  }

  ghost function ShapeRun(fcn: Key -> nat, nbits: Option<nat>, s: seq<Prog>, shape: Shape, ops: seq<Op>): Shape
    decreases ops
  {
    if ops == [] then shape
    else ShapeRun(fcn, nbits, SeqStep(s, ops[0]), ShapeStep(fcn, nbits, s, shape, ops[0]), ops[1..])
  }

  // The filter bits come from programs that were added, and from nothing else.
  lemma {:induction false} MarksAreAdded(fcn: Key -> nat, nbits: Option<nat>, s: seq<Prog>, shape: Shape, ops: seq<Op>,
                                         bit: nat)
    requires bit in ShapeRun(fcn, nbits, s, shape, ops).marked
    ensures bit in shape.marked
            || (nbits.Some? && exists i :: 0 <= i < |ops| && !ops[i].Delete? && !ops[i].Find? && !ops[i].Sort?
                                           && bit == fcn(ops[i].p.idUs) % Pow2(nbits.value))
    decreases ops
  {
    hide SeqStep, Regrown, Pow2;
    if ops != [] {
      var op, shape1 := ops[0], ShapeStep(fcn, nbits, s, shape, ops[0]);
      MarksAreAdded(fcn, nbits, SeqStep(s, op), shape1, ops[1..], bit);
      if bit in shape1.marked && bit !in shape.marked {
        MarkOfStep(fcn, nbits, s, shape, op, bit);
        assert ops[0] == op;
      } else if bit !in shape1.marked {
        var i :| 0 <= i < |ops[1..]| && !ops[1..][i].Delete? && !ops[1..][i].Find? && !ops[1..][i].Sort?
                 && bit == fcn(ops[1..][i].p.idUs) % Pow2(nbits.value);
        assert ops[i + 1] == ops[1..][i];
      }
    }
  }

  lemma MarkOfStep(fcn: Key -> nat, nbits: Option<nat>, s: seq<Prog>, shape: Shape, op: Op, bit: nat)
    requires bit in ShapeStep(fcn, nbits, s, shape, op).marked && bit !in shape.marked
    ensures !op.Delete? && !op.Find? && !op.Sort? && nbits.Some? && bit == fcn(op.p.idUs) % Pow2(nbits.value)
  {
    hide SeqStep, Expanded, InBucket, Pow2;
  }

  // Programs that all belong in one bucket: the tenth doubles the table, and none before.
  lemma {:induction false} TenthAddExpands(fcn: Key -> nat, nbits: Option<nat>, s: seq<Prog>, shape: Shape,
                                           rest: seq<Prog>, b: nat)
    requires rest != [] && |s| + |rest| <= 10
    requires forall i :: 0 <= i < |s + rest| ==> fcn((s + rest)[i].idUs) % 32 == b
    requires s != [] ==> shape == FIRST_TABLE.(marked := shape.marked)
    ensures ShapeRun(fcn, nbits, s, shape, AddAll(rest)).numBuckets == if |s| + |rest| < 10 then 32 else 64
    decreases rest
  {
    hide Expanded, InBucket, AfterAdd, Mark;
    var p, t, ops := rest[0], s + [rest[0]], AddAll(rest);
    assert ops[0] == Add(p) && ops[1..] == AddAll(rest[1..]) && t + rest[1..] == s + rest;
    assert (s + rest)[|s|] == p;
    var hs, m := Hashes(fcn, t), if s == [] then {} else shape.marked;
    forall i | 0 <= i < |hs| ensures hs[i] % 32 == b {
      assert t[i] == (s + rest)[i];
    }
    TenthExpands(nbits, m, hs, fcn(p.idUs), b);
    var shape1 := ShapeStep(fcn, nbits, s, shape, ops[0]);
    assert shape1 == AfterAdd(nbits, FIRST_TABLE.(marked := m), hs, fcn(p.idUs));
    if rest[1..] != [] {
      TenthAddExpands(fcn, nbits, t, shape1, rest[1..], b);
    } else {
      assert ops[1..] == [];
    }
  }

  /* The table as a plain map from keys to programs */

  ghost function MapStep(m: map<Key, Prog>, op: Op): map<Key, Prog> {
    match op
    case Delete(p) => m - {p.idUs}
    case Find(_) => m
    case Sort(_) => m
    case _ => m[op.p.idUs := op.p]
  }

  function MapGet(m: map<Key, Prog>, key: Key): Prog? {
    if key in m then m[key] else null
  }

  ghost function MapReply(m: map<Key, Prog>, op: Op): Prog? {
    match op
    case Replace(p) => MapGet(m, p.idUs)
    case ReplaceInorder(p, _) => MapGet(m, p.idUs)
    case Find(key) => MapGet(m, key)
    case _ => null
  }

  ghost function MapRun(m: map<Key, Prog>, ops: seq<Op>): map<Key, Prog>
    decreases ops
  {
    if ops == [] then m else MapRun(MapStep(m, ops[0]), ops[1..])
  }

  ghost function MapReplies(m: map<Key, Prog>, ops: seq<Op>): seq<Prog?>
    decreases ops
  {
    if ops == [] then [] else [MapReply(m, ops[0])] + MapReplies(MapStep(m, ops[0]), ops[1..])
  }

  // m holds exactly the programs of s, each under its own key.
  ghost predicate Represents(m: map<Key, Prog>, s: seq<Prog>) {
    && (forall p :: p in s ==> p.idUs in m && m[p.idUs] == p)
    && (forall k :: k in m ==> m[k] in s && m[k].idUs == k)
  }

  lemma RepresentedKeys(m: map<Key, Prog>, s: seq<Prog>)
    requires Distinct(s) && Represents(m, s)
    ensures KeysDistinct(s)
  {
    forall i, j | 0 <= i < j < |s| ensures s[i].idUs != s[j].idUs {
      assert m[s[i].idUs] == s[i] && m[s[j].idUs] == s[j];
    }
  }

  // The map that a table of distinct keys stands for.
  ghost function AsMap(s: seq<Prog>): (m: map<Key, Prog>)
    requires KeysDistinct(s)
    ensures Represents(m, s)
  {
    var m := map p | p in s :: p.idUs := p;
    m
  }

  lemma {:induction false} InsertDistinct(cmp: Cmp<Prog>, s: seq<Prog>, p: Prog)
    requires Distinct(s) && p !in s
    ensures Distinct(InsertInOrder<Prog>(cmp, s, p))
  {
    if s != [] && cmp(s[0], p) <= 0 {
      InsertDistinct(cmp, s[1..], p);
      InsertInOrderMembers(cmp, s[1..], p);
      assert s[0] !in s[1..];
    }
  }

  lemma {:induction false} SortDistinct(cmp: Cmp<Prog>, s: seq<Prog>)
    requires Distinct(s)
    ensures Distinct(InsertionSort<Prog>(cmp, s)) && forall q :: q in InsertionSort<Prog>(cmp, s) <==> q in s
  {
    if s != [] {
      var t, p := s[..|s| - 1], s[|s| - 1];
      SortDistinct(cmp, t);
      InsertDistinct(cmp, InsertionSort<Prog>(cmp, t), p);
      InsertInOrderMembers(cmp, InsertionSort<Prog>(cmp, t), p);
      assert s == t + [p];
    }
  }

  // One operation on the sequence is that operation on the map.
  lemma StepRefinesMap(s: seq<Prog>, m: map<Key, Prog>, op: Op)
    requires Distinct(s) && Represents(m, s) && Allowed(s, op)
    ensures Distinct(SeqStep(s, op)) && Represents(MapStep(m, op), SeqStep(s, op))
    ensures SeqReply(s, op) == MapReply(m, op)
  {
    hide Represents, Distinct, Without, InsertInOrder, InsertionSort, WithoutKey;
    RepliesAgree(s, m, op);
    match op
    case Add(p) =>
      Grows(s, s + [p], m, p);
    case AddInorder(p, cmp) =>
      GrowsInorder(cmp, s, m, p);
    case Replace(p) =>
      Clears(s, m, p);
      Grows(WithoutKey(s, p.idUs), WithoutKey(s, p.idUs) + [p], m - {p.idUs}, p);
      assert (m - {p.idUs})[p.idUs := p] == m[p.idUs := p];
    case ReplaceInorder(p, cmp) =>
      Clears(s, m, p);
      GrowsInorder(cmp, WithoutKey(s, p.idUs), m - {p.idUs}, p);
      assert (m - {p.idUs})[p.idUs := p] == m[p.idUs := p];
    case Delete(p) =>
      Shrinks(s, m, p);
    case Find(key) =>
    case Sort(cmp) =>
      Reorders(cmp, s, m);
  }

  lemma RepliesAgree(s: seq<Prog>, m: map<Key, Prog>, op: Op)
    requires Distinct(s) && Represents(m, s)
    ensures SeqReply(s, op) == MapReply(m, op)
  {}

  lemma Grows(s: seq<Prog>, t: seq<Prog>, m: map<Key, Prog>, p: Prog)
    requires Distinct(s) && Represents(m, s) && Lookup(s, p.idUs) == null
    requires t == s + [p] || (Distinct(t) && forall q :: q in t <==> q in s || q == p)
    ensures Distinct(t) && Represents(m[p.idUs := p], t)
  {}

  lemma GrowsInorder(cmp: Cmp<Prog>, s: seq<Prog>, m: map<Key, Prog>, p: Prog)
    requires Distinct(s) && Represents(m, s) && Lookup(s, p.idUs) == null
    ensures var t := InsertInOrder<Prog>(cmp, s, p); Distinct(t) && Represents(m[p.idUs := p], t)
  {
    InsertDistinct(cmp, s, p);
    InsertInOrderMembers(cmp, s, p);
    Grows(s, InsertInOrder<Prog>(cmp, s, p), m, p);
  }

  lemma Shrinks(s: seq<Prog>, m: map<Key, Prog>, p: Prog)
    requires Distinct(s) && Represents(m, s) && p in s
    ensures Distinct(Without<Prog>(s, p)) && Represents(m - {p.idUs}, Without<Prog>(s, p))
  {
    WithoutStays<Prog>(s, p);
    WithoutDistinct<Prog>(s, p);
    var t := Without<Prog>(s, p);
    forall q | q in t ensures q.idUs in m - {p.idUs} && m[q.idUs] == q {
      WithoutMembers<Prog>(s, p, q);
      assert m[p.idUs] == p;
    }
  }

  lemma Clears(s: seq<Prog>, m: map<Key, Prog>, p: Prog)
    requires Distinct(s) && Represents(m, s)
    ensures var t := WithoutKey(s, p.idUs);
            Distinct(t) && Represents(m - {p.idUs}, t) && Lookup(t, p.idUs) == null
  {
    RepresentedKeys(m, s);
    WithoutKeyMembers(s, p);
    var r := Lookup(s, p.idUs);
    if r == null {
      assert m - {p.idUs} == m;
    } else {
      Shrinks(s, m, r);
    }
  }

  lemma Reorders(cmp: Cmp<Prog>, s: seq<Prog>, m: map<Key, Prog>)
    requires Distinct(s) && Represents(m, s)
    ensures Distinct(InsertionSort<Prog>(cmp, s)) && Represents(m, InsertionSort<Prog>(cmp, s))
  {
    hide InsertionSort;
    SortDistinct(cmp, s);
    SortMembers(cmp, s);
    var t := InsertionSort<Prog>(cmp, s);
    forall q | q in t ensures q.idUs in m && m[q.idUs] == q {
      var i :| 0 <= i < |t| && t[i] == q;
    }
    forall k | k in m ensures m[k] in t {
      var i :| 0 <= i < |s| && s[i] == m[k];
    }
  }

  // The order and the answers of any run are those of the map.
  lemma {:induction false} RunRefinesMap(s: seq<Prog>, m: map<Key, Prog>, ops: seq<Op>)
    requires Distinct(s) && Represents(m, s) && Legal(s, ops)
    ensures Distinct(SeqRun(s, ops)) && Represents(MapRun(m, ops), SeqRun(s, ops))
    ensures SeqReplies(s, ops) == MapReplies(m, ops)
    decreases ops
  {
    if ops != [] {
      StepRefinesMap(s, m, ops[0]);
      RunRefinesMap(SeqStep(s, ops[0]), MapStep(m, ops[0]), ops[1..]);
    }
  }

  /* In-order insertion against adding and sorting */

  function AddAll(s: seq<Prog>): (ops: seq<Op>)
    ensures |ops| == |s|
  {
    seq(|s|, i requires 0 <= i < |s| => Add(s[i]))
  }

  function AddAllInorder(s: seq<Prog>, cmp: Cmp<Prog>): (ops: seq<Op>)
    ensures |ops| == |s|
  {
    seq(|s|, i requires 0 <= i < |s| => AddInorder(s[i], cmp))
  }

  lemma AbsentKey(s: seq<Prog>, p: Prog)
    requires KeysDistinct(s + [p])
    ensures Lookup(s, p.idUs) == null
  {
    forall i | 0 <= i < |s| ensures s[i].idUs != p.idUs {
      assert (s + [p])[i].idUs != (s + [p])[|s|].idUs;
    }
  }

  // Adding the programs of rest to those of s, and then sorting, is a legal run.
  lemma {:induction false} AddThenSort(s: seq<Prog>, rest: seq<Prog>, cmp: Cmp<Prog>)
    requires KeysDistinct(s + rest) && PreorderOn(cmp, s + rest)
    ensures Legal(s, AddAll(rest) + [Sort(cmp)])
    ensures SeqRun(s, AddAll(rest) + [Sort(cmp)]) == InsertionSort<Prog>(cmp, s + rest)
    decreases rest
  {
    hide PreorderOn, KeysDistinct, Lookup;
    var ops := AddAll(rest) + [Sort(cmp)];
    if rest == [] {
      assert s + rest == s && ops == [Sort(cmp)] && ops[1..] == [];
    } else {
      var p := rest[0];
      assert ops[1..] == AddAll(rest[1..]) + [Sort(cmp)];
      assert s + rest == s + [p] + rest[1..];
      KeysFront(s + [p], rest[1..]);
      AbsentKey(s, p);
      AddThenSort(s + [p], rest[1..], cmp);
    }
  }

  lemma KeysFront(a: seq<Prog>, b: seq<Prog>)
    requires KeysDistinct(a + b)
    ensures KeysDistinct(a)
  {
    forall i, j | 0 <= i < j < |a| ensures a[i].idUs != a[j].idUs {
      assert (a + b)[i].idUs != (a + b)[j].idUs;
    }
  }

  lemma {:induction false} AddInorderRun(s: seq<Prog>, rest: seq<Prog>, cmp: Cmp<Prog>)
    requires KeysDistinct(s + rest)
    ensures Legal(InsertionSort<Prog>(cmp, s), AddAllInorder(rest, cmp))
    ensures SeqRun(InsertionSort<Prog>(cmp, s), AddAllInorder(rest, cmp)) == InsertionSort<Prog>(cmp, s + rest)
    decreases rest
  {
    hide KeysDistinct, Lookup;
    var ops := AddAllInorder(rest, cmp);
    if rest == [] {
      assert s + rest == s;
    } else {
      var p := rest[0];
      assert ops[1..] == AddAllInorder(rest[1..], cmp);
      assert s + rest == s + [p] + rest[1..] && (s + [p])[..|s|] == s;
      KeysFront(s + [p], rest[1..]);
      AbsentKey(s, p);
      SortedLookup(cmp, s, p.idUs);
      AddInorderRun(s + [p], rest[1..], cmp);
    }
  }

  lemma SortedLookup(cmp: Cmp<Prog>, s: seq<Prog>, key: Key)
    requires Lookup(s, key) == null
    ensures Lookup(InsertionSort<Prog>(cmp, s), key) == null
  {
    SortMembers(cmp, s);
    var t := InsertionSort<Prog>(cmp, s);
    forall i | 0 <= i < |t| ensures t[i].idUs != key {
      assert t[i] in s;
    }
  }

  // Both are legal runs of the table, for programs of distinct keys, and give one order.
  lemma InorderIsAddThenSort(cmp: Cmp<Prog>, s: seq<Prog>)
    requires KeysDistinct(s) && PreorderOn(cmp, s)
    ensures Legal([], AddAll(s) + [Sort(cmp)]) && Legal([], AddAllInorder(s, cmp))
    ensures SeqRun([], AddAllInorder(s, cmp)) == SeqRun([], AddAll(s) + [Sort(cmp)])
  {
    assert [] + s == s;
    AddThenSort([], s, cmp);
    AddInorderRun([], s, cmp);
  }

  // The programs in application order, read off the next fields.
  method Listing(t: ProgTable) returns (s: seq<Prog>)
    requires t.Valid()
    ensures s == t.order
  {
    s := [];
    var p := t.head;
    while p != null
      invariant |s| <= |t.order| && s == t.order[..|s|] && p == (if |s| < |t.order| then t.order[|s|] else null)
      decreases |t.order| - |s|
    {
      assert |s| + 1 < |t.order| ==> t.order[|s|].next == t.order[|s| + 1];
      s := s + [p];
      p := p.next;
    }
  }

  // One table filled by HASH_ADD_INORDER, and afterwards another one filled by HASH_ADD and then
  // sorted: walking the links gives the same list. It is sorted, it has the same programs, and those
  // that compare equal are in the order they came in.
  method SortedEitherWay(fcn: Key -> nat, bloomNbits: Option<nat>, cmp: Cmp<Prog>, ps: seq<Prog>)
    returns (inorder: seq<Prog>, sorted: seq<Prog>)
    requires Distinct(ps) && PreorderOn(cmp, ps)
    modifies ps`hashv, ps`prev, ps`next, ps`hhPrev, ps`hhNext
    ensures inorder == sorted && Sorted(cmp, sorted) && multiset(sorted) == multiset(ps)
    ensures forall x :: x in ps ==> Class(cmp, sorted, x) == Class(cmp, ps, x)
  {
    hide ProgTable.Valid, InsertionSort, InsertInOrder, PreorderOn, Distinct, Sorted, SortCost, Class;
    var t1 := InorderTable(fcn, bloomNbits, cmp, ps);
    inorder := Listing(t1);
    var t2 := AddedTable(fcn, bloomNbits, ps);
    ghost var passes, compares := t2.Sort(cmp);
    sorted := Listing(t2);
    AllWithin(ps);
    SortSorts<Prog>(cmp, ps, ps);
    SortIsPermutation<Prog>(cmp, ps);
    forall x | x in ps ensures Class(cmp, sorted, x) == Class(cmp, ps, x) {
      SortIsStable<Prog>(cmp, ps, x, ps);
    }
  }

  lemma AllWithin(s: seq<Prog>)
    ensures Within(s, s)
  {}

  method InorderTable(fcn: Key -> nat, bloomNbits: Option<nat>, cmp: Cmp<Prog>, ps: seq<Prog>) returns (t: ProgTable)
    requires Distinct(ps)
    modifies ps`hashv, ps`prev, ps`next, ps`hhPrev, ps`hhNext
    ensures t.Valid() && t.order == InsertionSort<Prog>(cmp, ps) && fresh(t) && fresh(t.buckets) && fresh(t.bloomBv)
  {
    hide ProgTable.Valid, Distinct, InsertInOrder;
    t := new ProgTable(fcn, bloomNbits);
    var i := 0;
    while i < |ps|
      invariant i <= |ps| && t.Valid() && t.order == InsertionSort<Prog>(cmp, ps[..i])
      invariant fresh(t.buckets) && fresh(t.bloomBv) && Within(t.order, ps)
    {
      SortMembers(cmp, ps[..i]);
      FrontWithin(ps, i, t.order);
      InsertWithin<Prog>(cmp, t.order, ps[i], ps);
      t.AddKeyptrInorder(ps[i], cmp);
      assert ps[..i + 1][..i] == ps[..i];
      i := i + 1;
    }
    assert ps[..i] == ps;
  }

  method AddedTable(fcn: Key -> nat, bloomNbits: Option<nat>, ps: seq<Prog>) returns (t: ProgTable)
    requires Distinct(ps)
    modifies ps`hashv, ps`prev, ps`next, ps`hhPrev, ps`hhNext
    ensures t.Valid() && t.order == ps && fresh(t) && fresh(t.buckets) && fresh(t.bloomBv)
  {
    hide ProgTable.Valid, Distinct;
    t := new ProgTable(fcn, bloomNbits);
    var i := 0;
    while i < |ps|
      invariant i <= |ps| && t.Valid() && t.order == ps[..i] && fresh(t.buckets) && fresh(t.bloomBv)
    {
      AllWithin(ps[..i]);
      FrontWithin(ps, i, ps[..i]);
      t.AddKeyptr(ps[i]);
      i := i + 1;
    }
  }

  // The next program is not among those already added.
  lemma FrontWithin(ps: seq<Prog>, i: nat, s: seq<Prog>)
    requires Distinct(ps) && i < |ps| && Within(s, ps[..i])
    ensures ps[i] !in s && Within(s, ps) && ps[..i + 1] == ps[..i] + [ps[i]]
  {
    forall j | 0 <= j < |s| ensures s[j] != ps[i] && s[j] in ps {
      assert s[j] in ps[..i];
    }
  }

  // Every operation goes through here: the table follows the sequence, whatever expansions occur.
  method Perform(t: ProgTable, op: Op) returns (reply: Prog?)
    requires t.Valid() && KeysDistinct(t.order) && Allowed(t.order, op)
    modifies t, t.buckets, t.bloomBv, t.order`prev, t.order`next, t.order`hhPrev, t.order`hhNext
    modifies (if op.Find? || op.Sort? || op.Delete? then {} else {op.p})`hashv
    modifies (if op.Find? || op.Sort? || op.Delete? then {} else {op.p})`prev
    modifies (if op.Find? || op.Sort? || op.Delete? then {} else {op.p})`next
    modifies (if op.Find? || op.Sort? || op.Delete? then {} else {op.p})`hhPrev
    modifies (if op.Find? || op.Sort? || op.Delete? then {} else {op.p})`hhNext
    ensures t.Valid() && t.order == SeqStep(old(t.order), op) && reply == SeqReply(old(t.order), op)
    ensures t.ShapeNow() == ShapeStep(t.fcn, t.bloomNbits, old(t.order), old(t.ShapeNow()), op)
    ensures t.buckets == old(t.buckets) || fresh(t.buckets)
    ensures t.bloomBv == old(t.bloomBv) || fresh(t.bloomBv)
  {
    hide KeysDistinct, Lookup, WithoutKey, Without, InsertInOrder, InsertionSort, ProgTable.Valid, PreorderOn, SortCost, Distinct,
         Grown, Hashes, ProgTable.ShapeNow;
    reply := null;
    match op
    case Add(p) => t.AddKeyptr(p);
    case AddInorder(p, cmp) => t.AddKeyptrInorder(p, cmp);
    case Replace(p) => reply := t.Replace(p);
    case ReplaceInorder(p, cmp) => reply := t.ReplaceInorder(p, cmp);
    case Delete(p) => t.Delete(p);
    case Find(key) => reply := t.Find(key);
    case Sort(cmp) =>
      ghost var passes, compares := t.Sort(cmp);
  }

  // The programs that the operations may put into the table.
  ghost function Universe(s: seq<Prog>, ops: seq<Op>): seq<Prog>
    decreases ops
  {
    if ops == [] then s
    else Universe(s, ops[1..]) + (if ops[0].Find? || ops[0].Sort? || ops[0].Delete? then [] else [ops[0].p])
  }

  // Any run, from any table: the order and the answers are those of the sequence.
  method PerformAll(t: ProgTable, ops: seq<Op>) returns (replies: seq<Prog?>)
    requires t.Valid() && KeysDistinct(t.order) && Legal(t.order, ops)
    modifies t, t.buckets, t.bloomBv, Universe(t.order, ops)
    ensures t.Valid() && t.order == SeqRun(old(t.order), ops)
    ensures replies == SeqReplies(old(t.order), ops)
    ensures t.ShapeNow() == ShapeRun(t.fcn, t.bloomNbits, old(t.order), old(t.ShapeNow()), ops)
  {
    hide KeysDistinct, ProgTable.Valid, SeqStep, SeqReply, PreorderOn, Universe, SeqRun, SeqReplies, Legal, Allowed,
         ShapeRun, ShapeStep, ProgTable.ShapeNow;
    replies := [];
    var i := 0;
    ghost var s0, all, h0 := t.order, Universe(t.order, ops), t.ShapeNow();
    assert ops[0..] == ops;
    UniverseHas(s0, ops);
    while i < |ops|
      invariant i <= |ops| && t.Valid() && KeysDistinct(t.order) && Legal(t.order, ops[i..])
      invariant SeqRun(s0, ops) == SeqRun(t.order, ops[i..])
      invariant SeqReplies(s0, ops) == replies + SeqReplies(t.order, ops[i..])
      invariant ShapeRun(t.fcn, t.bloomNbits, s0, h0, ops) == ShapeRun(t.fcn, t.bloomNbits, t.order, t.ShapeNow(), ops[i..])
      invariant Within(t.order, all)
      invariant t.buckets == old(t.buckets) || fresh(t.buckets)
      invariant t.bloomBv == old(t.bloomBv) || fresh(t.bloomBv)
    {
      RunStep(t.order, ops, i, replies);
      ShapeRunStep(t.fcn, t.bloomNbits, t.order, t.ShapeNow(), ops, i);
      StepKeeps(t.order, ops[i], all);
      var reply := Perform(t, ops[i]);
      replies := replies + [reply];
      i := i + 1;
    }
    RunOver(t.order, ops[i..]);
    NoOps(t.fcn, t.bloomNbits, t.order, t.ShapeNow());
  }

  lemma ShapeRunStep(fcn: Key -> nat, nbits: Option<nat>, s: seq<Prog>, shape: Shape, ops: seq<Op>, i: nat)
    requires i < |ops|
    ensures ShapeRun(fcn, nbits, s, shape, ops[i..]) ==
            ShapeRun(fcn, nbits, SeqStep(s, ops[i]), ShapeStep(fcn, nbits, s, shape, ops[i]), ops[i + 1..])
  {
    hide SeqStep, ShapeStep;
    assert ops[i..][1..] == ops[i + 1..];
  }

  lemma NoOps(fcn: Key -> nat, nbits: Option<nat>, s: seq<Prog>, shape: Shape)
    ensures ShapeRun(fcn, nbits, s, shape, []) == shape
  {}

  // From the empty table: whatever the hash function, with or without a Bloom filter, across all
  // expansions, the answers are those of a map, and the order is that of the sequence.
  method FromScratch(fcn: Key -> nat, bloomNbits: Option<nat>, ops: seq<Op>)
    returns (t: ProgTable, replies: seq<Prog?>)
    requires Legal([], ops)
    modifies Universe([], ops)
    ensures t.Valid() && replies == MapReplies(map[], ops)
    ensures t.order == SeqRun([], ops) && Represents(MapRun(map[], ops), t.order)
    ensures t.fcn == fcn && t.bloomNbits == bloomNbits
    ensures t.ShapeNow() == ShapeRun(fcn, bloomNbits, [], NO_TABLE, ops)
  {
    t := new ProgTable(fcn, bloomNbits);
    hide ProgTable.Valid, SeqRun, SeqReplies, MapRun, MapReplies, Universe, PreorderOn, Legal;
    RunRefinesMap([], map[], ops);
    replies := PerformAll(t, ops);
  }

  lemma RunStep(s: seq<Prog>, ops: seq<Op>, i: nat, replies: seq<Prog?>)
    requires i < |ops| && Legal(s, ops[i..])
    ensures Allowed(s, ops[i]) && Legal(SeqStep(s, ops[i]), ops[i + 1..])
    ensures SeqRun(s, ops[i..]) == SeqRun(SeqStep(s, ops[i]), ops[i + 1..])
    ensures replies + SeqReplies(s, ops[i..]) ==
            (replies + [SeqReply(s, ops[i])]) + SeqReplies(SeqStep(s, ops[i]), ops[i + 1..])
  {
    hide SeqStep, SeqReply, Allowed;
    assert ops[i..][1..] == ops[i + 1..];
  }

  lemma RunOver(s: seq<Prog>, ops: seq<Op>)
    requires ops == []
    ensures SeqRun(s, ops) == s && SeqReplies(s, ops) == []
  {}

  lemma {:induction false} UniverseHas(s: seq<Prog>, ops: seq<Op>)
    ensures Within(s, Universe(s, ops))
    ensures forall i :: 0 <= i < |ops| && !ops[i].Find? && !ops[i].Sort? && !ops[i].Delete? ==>
                          ops[i].p in Universe(s, ops)
    decreases ops
  {
    if ops != [] {
      UniverseHas(s, ops[1..]);
      forall i | 0 <= i < |ops| && !ops[i].Find? && !ops[i].Sort? && !ops[i].Delete?
        ensures ops[i].p in Universe(s, ops)
      {
        assert i > 0 ==> ops[1..][i - 1] == ops[i];
      }
    }
  }

  lemma StepKeeps(s: seq<Prog>, op: Op, all: seq<Prog>)
    requires KeysDistinct(s) && Allowed(s, op) && Within(s, all)
    requires op.Find? || op.Sort? || op.Delete? || op.p in all
    ensures KeysDistinct(SeqStep(s, op)) && Within(SeqStep(s, op), all)
  {
    var m := AsMap(s);
    StepRefinesMap(s, m, op);
    RepresentedKeys(MapStep(m, op), SeqStep(s, op));
    StepWithin(s, op, all);
  }

  lemma StepWithin(s: seq<Prog>, op: Op, all: seq<Prog>)
    requires KeysDistinct(s) && Within(s, all)
    requires op.Find? || op.Sort? || op.Delete? || op.p in all
    ensures Within(SeqStep(s, op), all)
  {
    match op
    case Add(p) =>
    case AddInorder(p, cmp) => InsertWithin<Prog>(cmp, s, p, all);
    case Replace(p) => WithoutKeyWithin(s, p, all);
    case ReplaceInorder(p, cmp) =>
      WithoutKeyWithin(s, p, all);
      InsertWithin<Prog>(cmp, WithoutKey(s, p.idUs), p, all);
    case Delete(p) => WithoutWithin(s, p, all);
    case Find(key) =>
    case Sort(cmp) => SortWithin<Prog>(cmp, s, all);
  }

  lemma {:induction false} WithoutWithin(s: seq<Prog>, p: Prog, all: seq<Prog>)
    requires Within(s, all)
    ensures Within(Without<Prog>(s, p), all)
  {
    if s != [] && s[0] != p {
      WithoutWithin(s[1..], p, all);
    }
  }

  lemma WithoutKeyWithin(s: seq<Prog>, p: Prog, all: seq<Prog>)
    requires Within(s, all)
    ensures Within(WithoutKey(s, p.idUs), all)
  {
    var r := Lookup(s, p.idUs);
    if r != null {
      WithoutWithin(s, r, all);
    }
  }
}
