/** From writer to reader: several handles share the line, any of their calls may fail, and every
    byte that is sent comes out at the other end in the channel of the handle it was written to. */
module Session {
  import opened Bytes
  import opened EscapeCodec
  import opened Wire
  import opened Receiver
  import opened Switching
  import opened Demux
  import opened Programs
  import opened Streams
  import opened Accounting
  import opened Names

  // What a program may do with a handle: mtywrite, mtyputstrbuf or mtyflush.
  datatype Call = Write(data: seq<byte>) | Puts(text: seq<byte>) | FlushNow

  function StyleOf(c: Call): bv32 {
    if c.Puts? then ESC_MIXED else ESC_BINARY
  }

  function DataOf(c: Call): seq<byte> {
    match c
    case Write(data) => data
    case Puts(text) => text
    case FlushNow => []
  }

  // What a call did: the frames that went out, the one that failed, and how many bytes of its data it
  // took in. before and after are what was pending in the handle.
  datatype Report = Report(prog: Option<Target>, stream: Option<Name>, style: bv32, data: seq<byte>,
                           before: seq<byte>, after: seq<byte>,
                           done: seq<Flush>, failed: Option<Flush>, taken: nat)

  function FlushesOf(r: Report): seq<Flush> {
    r.done + Opt(r.failed)
  }

  function ChanOf(r: Report): Channel {
    OwnChannel(r.prog, r.stream)
  }

  // The books of one call balance: nothing is lost, and nothing is sent that was not taken in.
  ghost predicate Honest(r: Report) {
    && OwnSent(r.done, r.prog, r.stream)
    && (r.failed.Some? ==> r.failed.value.prog == r.prog && r.failed.value.stream == r.stream && !r.failed.value.sent)
    && r.taken <= |r.data| && Payloads(r.done) + r.after == r.before + Escape(r.style, r.data[..r.taken])
    && (r.failed.None? ==> r.taken == |r.data| && (r.data != [] || r.before == [] ==> r.after == []))
  }

  // One call, with any outcome.
  method Issue(h: Multty, call: Call, out: Stdout, progset: ProgSet) returns (ok: bool, ghost r: Report)
    requires h.Valid() && out.Valid() && progset.Coherent() && (h.prog != null ==> h.prog in progset.programs.order)
    modifies h.buf, h`fill, out, progset`current, progset`previous
    ensures h.Valid() && out.Valid() && progset.Coherent() && Extends(old(out.traffic), out.traffic)
    ensures Ran(old(progset.View()), old(out.traffic), FlushesOf(r), progset.View(), out.traffic)
    ensures Honest(r) && (ok <==> r.failed.None?)
    ensures r.prog == TargetOf(h.prog) && r.stream == h.stream && r.style == StyleOf(call) && r.data == DataOf(call)
    ensures r.before == old(h.Pending()) && r.after == h.Pending()
  {
    hide Ran, OwnSent, AtLeast, Extends, Payloads, Escape, Accounts, NoRoom, AllWhole, Whole, Encode, LineOk;
    hide Multty.Valid, Stdout.Valid, ProgSet.Coherent, FlushView, FlushSent, FlushAttempted;
    ghost var p0, v0, t0 := h.Pending(), progset.View(), out.traffic;
    ghost var held, done, failed;
    match call {
      case Write(data) =>
        var count;
        count, held, done, failed := h.MtyWrite(data, out, progset);
        ok := count == |data|;
        r := Report(TargetOf(h.prog), h.stream, ESC_BINARY, data, p0, h.Pending(), done, failed, count + held);
        AccountsHonest(r, count, held);
      case Puts(text) =>
        ghost var carried;
        ok, carried, held, done, failed := h.MtyPutstrbuf(text, out, progset);
        r := Report(TargetOf(h.prog), h.stream, ESC_MIXED, text, p0, h.Pending(), done, failed, carried + held);
        AccountsHonest(r, carried, held);
      case FlushNow =>
        ghost var f;
        ok, f := h.MtyFlush(out, progset);
        done, failed := if ok then [f] else [], if ok then None else Some(f);
        r := Report(TargetOf(h.prog), h.stream, ESC_BINARY, [], p0, h.Pending(), done, failed, 0);
        NoFlushes(v0, t0, None, None);
        AddFlush(v0, t0, [], v0, t0, f, out.traffic);
        FlushHonest(r, f, ok);
    }
  }

  lemma AccountsHonest(r: Report, carried: nat, held: nat)
    requires Accounts(r.style, r.data, r.before, carried, held, r.done, r.failed, r.after)
    requires OwnSent(r.done, r.prog, r.stream) && r.taken == carried + held
    requires r.failed.Some? ==> r.failed.value.prog == r.prog && r.failed.value.stream == r.stream && !r.failed.value.sent
    ensures Honest(r) && (carried == |r.data| <==> r.failed.None?)
  {
    hide Escape, Payloads, OwnSent;
    Conserved(r.style, r.data, r.before, carried, held, r.done, r.failed, r.after);
    if r.data == [] && r.done == [] {
      NothingEscaped(r.style, r.data);
      assert [] + Escape(r.style, r.data[..0]) == [];
    }
  }

  lemma FlushHonest(r: Report, f: Flush, ok: bool)
    requires f.prog == r.prog && f.stream == r.stream && f.sent == ok && f.payload == r.before
    requires r.after == (if ok then [] else r.before) && r.data == [] && r.taken == 0
    requires if ok then r.done == [f] && r.failed == None else r.done == [] && r.failed == Some(f)
    ensures Honest(r) && FlushesOf(r) == [] + [f]
  {
    NothingEscaped(r.style, r.data);
    PayloadsConcat([], f);
    assert [] + [f] == [f] && [] + f.payload == f.payload;
  }

  /* Calls on many handles */

  // The parts with label k, joined in order.
  function Joined<K(==)>(labels: seq<K>, parts: seq<seq<byte>>, k: K): seq<byte>
    requires |labels| == |parts|
  {
    if labels == [] then []
    else (if labels[0] == k then parts[0] else []) + Joined(labels[1..], parts[1..], k)
  }

  // Two labellings that agree on where k is.
  lemma {:induction false} JoinedRelabel<K, L>(labels: seq<K>, labels': seq<L>, parts: seq<seq<byte>>, k: K, k': L)
    requires |labels| == |labels'| == |parts| && forall i :: 0 <= i < |labels| ==> (labels[i] == k <==> labels'[i] == k')
    ensures Joined(labels, parts, k) == Joined(labels', parts, k')
  {
    if labels != [] {
      JoinedRelabel(labels[1..], labels'[1..], parts[1..], k, k');
    }
  }

  ghost function ChansOf(rs: seq<Report>): (r: seq<Channel>)
    ensures |r| == |rs|
  {
    seq(|rs|, i requires 0 <= i < |rs| => ChanOf(rs[i]))
  }

  // What each call sent, what it took in as it goes on the wire, and as it was given.
  ghost function SentParts(rs: seq<Report>): (r: seq<seq<byte>>)
    ensures |r| == |rs|
  {
    seq(|rs|, i requires 0 <= i < |rs| => Payloads(rs[i].done))
  }

  ghost function TakenParts(rs: seq<Report>): (r: seq<seq<byte>>)
    ensures |r| == |rs|
  {
    seq(|rs|, i requires 0 <= i < |rs| => Escape(rs[i].style, Taken(rs[i])))
  }

  ghost function DataParts(rs: seq<Report>): (r: seq<seq<byte>>)
    ensures |r| == |rs|
  {
    seq(|rs|, i requires 0 <= i < |rs| => Taken(rs[i]))
  }

  function Taken(r: Report): seq<byte> {
    if r.taken <= |r.data| then r.data[..r.taken] else r.data
  }

  lemma PartsTail(rs: seq<Report>)
    requires rs != []
    ensures ChansOf(rs)[1..] == ChansOf(rs[1..]) && SentParts(rs)[1..] == SentParts(rs[1..])
    ensures TakenParts(rs)[1..] == TakenParts(rs[1..]) && DataParts(rs)[1..] == DataParts(rs[1..])
  {
    hide Payloads, Escape, Taken, ChanOf;
  }

  function AllFlushes(rs: seq<Report>): seq<Flush> {
    if rs == [] then [] else FlushesOf(rs[0]) + AllFlushes(rs[1..])
  }

  lemma {:induction false} AllFlushesMore(rs: seq<Report>, r: Report)
    ensures AllFlushes(rs + [r]) == AllFlushes(rs) + FlushesOf(r)
  {
    hide FlushesOf;
    if rs == [] {
      assert rs + [r] == [r] && [r][1..] == [];
      assert FlushesOf(r) + [] == FlushesOf(r) == [] + FlushesOf(r);
    } else {
      assert (rs + [r])[1..] == rs[1..] + [r];
      AllFlushesMore(rs[1..], r);
      Assoc(FlushesOf(rs[0]), AllFlushes(rs[1..]), FlushesOf(r));
    }
  }

  // Each call finds pending in its handle what the last call on that handle left there; m0 and m say
  // what is pending in the handles at the start and at the end.
  ghost predicate Chained(labels: seq<Multty>, rs: seq<Report>, m0: map<Multty, seq<byte>>, m: map<Multty, seq<byte>>)
    decreases rs
  {
    |labels| == |rs| &&
    if rs == [] then m == m0
    else labels[0] in m0 && m0[labels[0]] == rs[0].before
         && Chained(labels[1..], rs[1..], m0[labels[0] := rs[0].after], m)
  }

  lemma {:induction false} ChainedMore(labels: seq<Multty>, rs: seq<Report>, m0: map<Multty, seq<byte>>,
                                       m: map<Multty, seq<byte>>, l: Multty, r: Report)
    requires Chained(labels, rs, m0, m) && l in m && m[l] == r.before
    ensures Chained(labels + [l], rs + [r], m0, m[l := r.after])
    decreases rs
  {
    if rs == [] {
      assert labels + [l] == [l] && rs + [r] == [r] && [l][1..] == [] && [r][1..] == [];
    } else {
      assert (labels + [l])[1..] == labels[1..] + [l] && (rs + [r])[1..] == rs[1..] + [r];
      ChainedMore(labels[1..], rs[1..], m0[labels[0] := rs[0].after], m, l, r);
    }
  }

  ghost predicate AllHonest(rs: seq<Report>) {
    forall i :: 0 <= i < |rs| ==> Honest(rs[i])
  }

  // The books of one handle balance over the whole run, whatever failed: what it sent and what is
  // pending in it are what was pending before and what its calls took in.
  lemma {:induction false} HandleBalances(labels: seq<Multty>, rs: seq<Report>, m0: map<Multty, seq<byte>>,
                                          m: map<Multty, seq<byte>>, h: Multty)
    requires Chained(labels, rs, m0, m) && AllHonest(rs) && h in m0
    ensures h in m
    ensures Joined<Multty>(labels, SentParts(rs), h) + m[h] == m0[h] + Joined<Multty>(labels, TakenParts(rs), h)
    decreases rs
  {
    hide Honest, Payloads, Escape;
    if rs == [] {
      assert [] + m[h] == m0[h] + [];
    } else {
      PartsTail(rs);
      var r, m1 := rs[0], m0[labels[0] := rs[0].after];
      assert Honest(r);
      HandleBalances(labels[1..], rs[1..], m1, m, h);
      var a, t := Joined<Multty>(labels[1..], SentParts(rs)[1..], h), Joined<Multty>(labels[1..], TakenParts(rs)[1..], h);
      if labels[0] == h {
        HonestBooks(r);
        Assoc(Payloads(r.done), a, m[h]);
        Assoc(Payloads(r.done), r.after, t);
        Assoc(r.before, Escape(r.style, Taken(r)), t);
      } else {
        assert [] + a == a && [] + t == t;
      }
    }
  }

  lemma HonestBooks(r: Report)
    requires Honest(r)
    ensures Payloads(r.done) + r.after == r.before + Escape(r.style, Taken(r))
  {}

  // If nothing was pending and every call worked, nothing was ever pending between calls.
  lemma {:induction false} NothingPends(labels: seq<Multty>, rs: seq<Report>, m0: map<Multty, seq<byte>>,
                                        m: map<Multty, seq<byte>>)
    requires Chained(labels, rs, m0, m) && AllHonest(rs) && (forall h :: h in m0 ==> m0[h] == [])
    requires forall i :: 0 <= i < |rs| ==> rs[i].failed.None?
    ensures forall i :: 0 <= i < |rs| ==> rs[i].before == [] && rs[i].after == []
    decreases rs
  {
    hide Payloads, Escape, OwnSent;
    if rs != [] {
      assert Honest(rs[0]);
      NothingPends(labels[1..], rs[1..], m0[labels[0] := rs[0].after], m);
      forall i | 0 <= i < |rs| ensures rs[i].before == [] && rs[i].after == [] {
        assert i > 0 ==> rs[i] == rs[1..][i - 1];
      }
    }
  }

  // Data that the receiver can tell from mulTTY codes once it is escaped.
  ghost predicate Safe(r: Report) {
    r.style == ESC_BINARY || (r.style == ESC_MIXED && NoShift(r.data))
  }

  ghost predicate PlainFrames(fs: seq<Flush>) {
    forall i :: 0 <= i < |fs| ==> Plain(fs[i].payload)
  }

  lemma {:induction false} AllPlain(labels: seq<Multty>, rs: seq<Report>, m0: map<Multty, seq<byte>>,
                                    m: map<Multty, seq<byte>>)
    requires Chained(labels, rs, m0, m) && AllHonest(rs) && (forall h :: h in m0 ==> Plain(m0[h]))
    requires forall i :: 0 <= i < |rs| ==> Safe(rs[i])
    ensures forall i :: 0 <= i < |rs| ==> PlainFrames(rs[i].done)
    decreases rs
  {
    hide Honest, Safe, PlainFrames, Plain;
    if rs != [] {
      assert Honest(rs[0]) && Safe(rs[0]);
      PlainCall(rs[0]);
      AllPlain(labels[1..], rs[1..], m0[labels[0] := rs[0].after], m);
      forall i | 0 <= i < |rs| ensures PlainFrames(rs[i].done) {
        assert i > 0 ==> rs[i] == rs[1..][i - 1];
      }
    }
  }

  lemma PlainCall(r: Report)
    requires Honest(r) && Safe(r) && Plain(r.before)
    ensures PlainFrames(r.done) && Plain(r.after)
  {
    hide Escape, Payloads, OwnSent, NoShift;
    EscapedIsPlain(r.style, r.data, r.taken);
    var e, s := Escape(r.style, r.data[..r.taken]), Payloads(r.done);
    PlainJoin(r.before, e);
    PlainJoin(s, r.after);
    PartsPlain(r.done);
  }

  lemma PlainJoin(a: seq<byte>, b: seq<byte>)
    ensures Plain(a + b) <==> Plain(a) && Plain(b)
  {
    if Plain(a + b) {
      assert forall i :: 0 <= i < |a| ==> (a + b)[i] == a[i];
      assert forall i :: 0 <= i < |b| ==> (a + b)[|a| + i] == b[i];
    }
  }

  // Binary escaping keeps every code that steers the receiver out of the payload; so does MIXED, if
  // the text holds neither SO nor SI.
  lemma EscapedIsPlain(style: bv32, s: seq<byte>, n: nat)
    requires style == ESC_BINARY || (style == ESC_MIXED && NoShift(s))
    requires n <= |s|
    ensures Plain(Escape(style, s[..n]))
  {
    hide Escape;
    var t := s[..n];
    if style == ESC_BINARY {
      var e := Escape(ESC_BINARY, t);
      forall k | 0 <= k < |e| ensures e[k] != SOH && e[k] != SO && e[k] != SI && e[k] != PSW {
        EscapedBinaryIsClean(t, k);
        BinaryWish(e[k]);
      }
    } else {
      assert forall b :: b in t ==> b in s;
      MixedIsSafe(t);
      PlainText(Escape(ESC_MIXED, t));
    }
  }

  lemma {:induction false} PartsPlain(fs: seq<Flush>)
    requires Plain(Payloads(fs))
    ensures PlainFrames(fs)
  {
    hide Plain;
    if fs != [] {
      PlainJoin(fs[0].payload, Payloads(fs[1..]));
      PartsPlain(fs[1..]);
      assert forall i :: 1 <= i < |fs| ==> fs[i] == fs[1..][i - 1];
    }
  }

  // Handles do not share a buffer with one another.
  ghost predicate Apart(handles: seq<Multty>) {
    forall i, j :: 0 <= i < |handles| && 0 <= j < |handles| ==>
      handles[i] == handles[j] || handles[i].buf != handles[j].buf
  }

  ghost predicate Usable(h: Multty, progset: ProgSet)
    reads h, h.buf, progset.programs`order
  {
    h.Valid() && (h.prog != null ==> h.prog in progset.programs.order)
  }

  ghost predicate AllUsable(handles: seq<Multty>, progset: ProgSet)
    reads handles, set h | h in handles :: h.buf, progset.programs`order
  {
    forall j :: 0 <= j < |handles| ==> Usable(handles[j], progset)
  }

  // The report is about this call on this handle.
  ghost predicate About(r: Report, h: Multty, call: Call)
    reads h`prog, h`stream, h.prog
  {
    && r.prog == TargetOf(h.prog) && r.stream == h.stream && r.data == DataOf(call)
    && r.style == if call.Puts? then ESC_MIXED else ESC_BINARY
  }

  ghost function PendingIn(handles: seq<Multty>, progset: ProgSet): (m: map<Multty, seq<byte>>)
    requires AllUsable(handles, progset)
    reads handles, set h | h in handles :: h.buf, progset.programs`order
    ensures forall j :: 0 <= j < |handles| ==> handles[j] in m && m[handles[j]] == handles[j].Pending()
  {
    map h | h in handles :: h.Pending()
  }

  // One call. The other handles stay as they are.
  method IssueOne(handles: seq<Multty>, i: nat, call: Call, out: Stdout, progset: ProgSet)
    returns (ok: bool, ghost r: Report)
    requires i < |handles| && Apart(handles) && AllUsable(handles, progset) && out.Valid() && progset.Coherent()
    modifies handles[i].buf, {handles[i]}`fill, out, progset`current, progset`previous
    ensures out.Valid() && progset.Coherent() && AllUsable(handles, progset) && Extends(old(out.traffic), out.traffic)
    ensures Ran(old(progset.View()), old(out.traffic), FlushesOf(r), progset.View(), out.traffic)
    ensures Honest(r) && (ok <==> r.failed.None?) && About(r, handles[i], call)
    ensures r.before == old(PendingIn(handles, progset))[handles[i]]
    ensures PendingIn(handles, progset) == old(PendingIn(handles, progset))[handles[i] := r.after]
  {
    hide Ran, Honest, Extends, LineOk, Multty.Valid, Multty.Pending, Stdout.Valid, ProgSet.Coherent, FlushesOf;
    assert Usable(handles[i], progset);
    ghost var m0 := PendingIn(handles, progset);
    ok, r := Issue(handles[i], call, out, progset);
    forall j | 0 <= j < |handles| ensures Usable(handles[j], progset) {
      assert old(Usable(handles[j], progset));
    }
    ghost var m := PendingIn(handles, progset);
    forall h | h in handles ensures m[h] == m0[handles[i] := r.after][h] {
      ghost var j :| 0 <= j < |handles| && handles[j] == h;
    }
  }

  // The reports so far are about the calls, one by one, and oks are the return values.
  ghost predicate Answered(handles: seq<Multty>, calls: seq<Call>, oks: seq<bool>, rs: seq<Report>)
    reads handles`prog, handles`stream, set h | h in handles :: h.prog
  {
    && |oks| == |rs| <= |handles| == |calls|
    && forall i :: 0 <= i < |rs| ==> About(rs[i], handles[i], calls[i]) && (oks[i] <==> rs[i].failed.None?)
  }

  // Any calls on any handles, each with any outcome.
  method IssueAll(handles: seq<Multty>, calls: seq<Call>, out: Stdout, progset: ProgSet)
    returns (oks: seq<bool>, ghost rs: seq<Report>)
    requires |handles| == |calls| && Apart(handles) && AllUsable(handles, progset)
    requires out.Valid() && progset.Coherent()
    modifies out, progset`current, progset`previous, handles`fill, set h | h in handles :: h.buf
    ensures out.Valid() && progset.Coherent() && AllUsable(handles, progset) && Extends(old(out.traffic), out.traffic)
    ensures Ran(old(progset.View()), old(out.traffic), AllFlushes(rs), progset.View(), out.traffic)
    ensures |oks| == |rs| == |calls| && AllHonest(rs)
    ensures old(out.open) ==> LineStory(old(out.bytes), out.bytes, out.open, out.traffic.cut,
                                        RunAttempted(old(progset.View()), AllFlushes(rs)),
                                        out.traffic.oks[|old(out.traffic.oks)|..])
    ensures !old(out.open) ==> !out.open && out.bytes == old(out.bytes)
    ensures Answered(handles, calls, oks, rs)
    ensures Chained(handles, rs, old(PendingIn(handles, progset)), PendingIn(handles, progset))
  {
    hide Ran, Honest, Extends, LineOk, Multty.Valid, Multty.Pending, Stdout.Valid, ProgSet.Coherent, FlushesOf, AllFlushes, Chained;
    hide PendingIn, Apart, AllUsable, AllHonest, Answered, About;
    oks, rs := [], [];
    ghost var v0, t0, m0 := progset.View(), out.traffic, PendingIn(handles, progset);
    out.Holds();
    NoFlushes(v0, t0, None, None);
    NoReports(handles, calls, m0);
    Upto(handles, 0);
    ExtendsHere(t0);
    var i := 0;
    while i < |handles|
      invariant i <= |handles| && |oks| == |rs| == i && AllHonest(rs)
      invariant out.Valid() && progset.Coherent() && AllUsable(handles, progset) && Extends(t0, out.traffic)
      invariant Ran(v0, t0, AllFlushes(rs), progset.View(), out.traffic)
      invariant Answered(handles, calls, oks, rs)
      invariant Chained(handles[..i], rs, m0, PendingIn(handles, progset))
    {
      ghost var t, v, m := out.traffic, progset.View(), PendingIn(handles, progset);
      var ok;
      ghost var r;
      ok, r := IssueOne(handles, i, calls[i], out, progset);
      ExtendsOn(t0, t, out.traffic);
      RanConcat(v0, t0, AllFlushes(rs), v, t, FlushesOf(r), progset.View(), out.traffic);
      AllFlushesMore(rs, r);
      AnsweredMore(handles, calls, oks, rs, ok, r);
      Upto(handles, i);
      ChainedMore(handles[..i], rs, m0, m, handles[i], r);
      oks, rs := oks + [ok], rs + [r];
      i := i + 1;
    }
    Upto(handles, i);
    out.Holds();
    WholeStory(t0, old(out.bytes), out.traffic, out.bytes, v0, AllFlushes(rs), progset.View());
  }

  lemma WholeStory(t0: Traffic, bytes0: seq<byte>, t: Traffic, bytes: seq<byte>, v0: View, fs: seq<Flush>, v: View)
    requires LineOk(t0) && bytes0 == EncodeAll(t0.log) + t0.cut && LineOk(t) && bytes == EncodeAll(t.log) + t.cut
    requires Extends(t0, t) && Ran(v0, t0, fs, v, t)
    ensures |t0.oks| <= |t.oks|
    ensures t0.open ==> LineStory(bytes0, bytes, t.open, t.cut, RunAttempted(v0, fs), t.oks[|t0.oks|..])
    ensures !t0.open ==> !t.open && bytes == bytes0
  {
    hide Encode, EncodeAll, RunView, RunSent, RunAttempted, LineStory;
    if t0.open {
      LineTold(t0, bytes0, t, bytes, RunAttempted(v0, fs));
    }
  }

  lemma NoReports(handles: seq<Multty>, calls: seq<Call>, m: map<Multty, seq<byte>>)
    ensures Chained([], [], m, m) && AllFlushes([]) == [] && AllHonest([])
    ensures |calls| == |handles| ==> Answered(handles, calls, [], [])
  {}

  lemma AnsweredMore(handles: seq<Multty>, calls: seq<Call>, oks: seq<bool>, rs: seq<Report>, ok: bool, r: Report)
    requires Answered(handles, calls, oks, rs) && AllHonest(rs) && |rs| < |handles|
    requires Honest(r) && About(r, handles[|rs|], calls[|rs|]) && (ok <==> r.failed.None?)
    ensures Answered(handles, calls, oks + [ok], rs + [r]) && AllHonest(rs + [r])
  {
    hide Honest, About;
  }

  lemma Upto(handles: seq<Multty>, i: nat)
    requires i <= |handles|
    ensures handles[..0] == [] && handles[..|handles|] == handles
    ensures i < |handles| ==> handles[..i + 1] == handles[..i] + [handles[i]]
  {}

  lemma RanConcat(v0: View, t0: Traffic, fs: seq<Flush>, v: View, t: Traffic,
                  more: seq<Flush>, v': View, t': Traffic)
    requires Ran(v0, t0, fs, v, t) && Ran(v, t, more, v', t')
    ensures Ran(v0, t0, fs + more, v', t')
  {
    hide RunView, RunSent, RunAttempted;
    RunConcat(v0, fs, more);
    Assoc(t0.log, RunSent(v0, fs), RunSent(v, more));
    Assoc(t0.attempted, RunAttempted(v0, fs), RunAttempted(v, more));
  }

  /* Delivery */

  // A stream name without control codes, and a program that the receiver can be told of.
  ghost predicate Sendable(target: Option<Target>, stream: Option<Name>) {
    && (stream.Some? ==> EscapeFree(ESC_BINARY, stream.value))
    && (target.Some? ==> Known(target.value.id, target.value.descr))
  }

  // Either all of the calls are on handles with a program, or none is.
  ghost predicate OneKind(v: View, rs: seq<Report>) {
    || (forall i :: 0 <= i < |rs| ==> rs[i].prog.Some?)
    || (v.cur == None && forall i :: 0 <= i < |rs| ==> rs[i].prog.None?)
  }

  ghost predicate NoSwitchLost(rs: seq<Report>) {
    forall j :: 0 <= j < |AllFlushes(rs)| ==> AllFlushes(rs)[j].switched
  }

  lemma {:induction false} OwnOfOne(fs: seq<Flush>, target: Option<Target>, stream: Option<Name>, chan: Channel)
    requires OwnSent(fs, target, stream)
    ensures OwnPayloads(fs, chan) == if chan == OwnChannel(target, stream) then Payloads(fs) else []
  {
    if fs != [] {
      OwnOfOne(fs[1..], target, stream, chan);
    }
  }

  // A channel gets the frames of the calls on it, and nothing of a frame that failed.
  lemma {:induction false} SentPerChannel(rs: seq<Report>, chan: Channel)
    requires AllHonest(rs)
    ensures OwnPayloads(AllFlushes(rs), chan) == Joined(ChansOf(rs), SentParts(rs), chan)
    decreases rs
  {
    hide OwnChannel, OwnPayloads, Payloads;
    if rs == [] {
      NothingOwn(chan);
    } else {
      PartsTail(rs);
      var r := rs[0];
      assert Honest(r);
      OwnConcat(FlushesOf(r), AllFlushes(rs[1..]), chan);
      OwnConcat(r.done, Opt(r.failed), chan);
      OwnOfOne(r.done, r.prog, r.stream, chan);
      NothingOfFailed(r.failed, chan);
      var own := if chan == ChanOf(r) then Payloads(r.done) else [];
      assert own + [] == own;
      SentPerChannel(rs[1..], chan);
    }
  }

  lemma NothingOwn(chan: Channel)
    ensures OwnPayloads([], chan) == []
  {}

  lemma NothingOfFailed(failed: Option<Flush>, chan: Channel)
    requires failed.Some? ==> !failed.value.sent
    ensures OwnPayloads(Opt(failed), chan) == []
  {}

  lemma {:induction false} FlushesReceivable(rs: seq<Report>)
    requires AllHonest(rs) && forall i :: 0 <= i < |rs| ==> PlainFrames(rs[i].done) && Sendable(rs[i].prog, rs[i].stream)
    ensures forall j :: 0 <= j < |AllFlushes(rs)| ==> Receivable(AllFlushes(rs)[j].(switched := true))
    ensures NoSwitchLost(rs) ==> AllReceivable(AllFlushes(rs))
    decreases rs
  {
    hide Plain, Sendable, Receivable;
    if rs != [] {
      var r := rs[0];
      assert Honest(r) && PlainFrames(r.done) && Sendable(r.prog, r.stream);
      CallReceivable(r);
      FlushesReceivable(rs[1..]);
    }
    var fs := AllFlushes(rs);
    assert forall j :: 0 <= j < |fs| && fs[j].switched ==> fs[j].(switched := true) == fs[j];
  }

  lemma CallReceivable(r: Report)
    requires Honest(r) && PlainFrames(r.done) && Sendable(r.prog, r.stream)
    ensures forall j :: 0 <= j < |FlushesOf(r)| ==> Receivable(FlushesOf(r)[j].(switched := true))
  {
    hide Plain, Sendable, Escape, Payloads;
    SendableMeans(r.prog, r.stream);
  }

  lemma SendableMeans(target: Option<Target>, stream: Option<Name>)
    requires Sendable(target, stream)
    ensures stream.Some? ==> EscapeFree(ESC_BINARY, stream.value)
    ensures target.Some? ==> Known(target.value.id, target.value.descr)
  {}

  lemma {:induction false} FlushesUniform(v: View, rs: seq<Report>)
    requires AllHonest(rs) && OneKind(v, rs)
    ensures Uniform(v, AllFlushes(rs))
    decreases rs
  {
    if rs != [] {
      assert Honest(rs[0]);
      var some := rs[0].prog.Some?;
      FlushesAlike(rs, some);
    }
  }

  lemma {:induction false} FlushesAlike(rs: seq<Report>, some: bool)
    requires AllHonest(rs) && forall i :: 0 <= i < |rs| ==> rs[i].prog.Some? == some
    ensures forall j :: 0 <= j < |AllFlushes(rs)| ==> AllFlushes(rs)[j].prog.Some? == some
    decreases rs
  {
    hide Payloads, Escape;
    if rs != [] {
      assert Honest(rs[0]);
      FlushesAlike(rs[1..], some);
    }
  }

  // What was sent is received: each channel gets, after what it had, exactly the frames of its calls.
  lemma SentIsReceived(v: View, rx: Rx, rs: seq<Report>, chan: Channel)
    requires Synced(v, rx) && AllHonest(rs) && OneKind(v, rs) && NoSwitchLost(rs)
    requires forall i :: 0 <= i < |rs| ==> PlainFrames(rs[i].done) && Sendable(rs[i].prog, rs[i].stream)
    ensures Received(Parse(rx, EncodeAll(RunSent(v, AllFlushes(rs)))).trace, chan) ==
            Received(rx.trace, chan) + Joined(ChansOf(rs), SentParts(rs), chan)
  {
    hide Parse, Received, EncodeAll, RunSent, Synced, Uniform, OneKind, NoSwitchLost, AllReceivable, AllFlushes,
         PlainFrames, Sendable, Honest, ChansOf, SentParts, Joined, OwnPayloads, Flushed;
    FlushesReceivable(rs);
    FlushesUniform(v, rs);
    Demultiplexed(v, rx, AllFlushes(rs), chan);
    FlushedByHandle(v, AllFlushes(rs), chan);
    SentPerChannel(rs, chan);
  }

  // What was taken in is what the reader gets, for any calls of mtywrite and mtyputstrbuf.
  lemma {:induction false} TakenUnescapes<K>(labels: seq<K>, rs: seq<Report>, k: K)
    requires |labels| == |rs| && forall i :: 0 <= i < |rs| ==> rs[i].style == ESC_BINARY || rs[i].style == ESC_MIXED
    ensures Unescape(false, Joined(labels, TakenParts(rs), k)) == (Joined(labels, DataParts(rs), k), false)
    decreases rs
  {
    hide Escape, Unescape, Taken;
    if rs == [] {
      DecodeEmpty();
    } else {
      PartsTail(rs);
      TakenUnescapes(labels[1..], rs[1..], k);
      var e, d := Escape(rs[0].style, Taken(rs[0])), Taken(rs[0]);
      DleIsEscaped();
      RoundTrip(rs[0].style, d);
      DecodeEmpty();
      UnescapeConcat(false, if labels[0] == k then e else [], Joined(labels[1..], TakenParts(rs[1..]), k));
    }
  }

  lemma DecodeEmpty()
    ensures Unescape(false, []) == ([], false)
  {}

  lemma DleIsEscaped()
    ensures EscapeWish(ESC_BINARY, DLE) && EscapeWish(ESC_MIXED, DLE)
  {
    BinaryWish(DLE);
    MixedWish(DLE);
  }

  ghost predicate OurStyles(rs: seq<Report>) {
    forall i :: 0 <= i < |rs| ==> rs[i].style == ESC_BINARY || rs[i].style == ESC_MIXED
  }

  // A handle that has its channel to itself: what its channel got and what is pending in it decode to
  // what its calls took in, whatever failed on the way.
  lemma AloneBalances(handles: seq<Multty>, rs: seq<Report>, m0: map<Multty, seq<byte>>, m: map<Multty, seq<byte>>, i: nat)
    requires Chained(handles, rs, m0, m) && AllHonest(rs) && OurStyles(rs)
    requires i < |handles| == |rs| && handles[i] in m0 && m0[handles[i]] == []
    requires forall j :: 0 <= j < |rs| ==> (ChanOf(rs[j]) == ChanOf(rs[i]) <==> handles[j] == handles[i])
    ensures handles[i] in m
    ensures Unescape(false, Joined(ChansOf(rs), SentParts(rs), ChanOf(rs[i])) + m[handles[i]]) ==
            (Joined<Multty>(handles, DataParts(rs), handles[i]), false)
  {
    hide Joined, Unescape, Chained, AllHonest, SentParts, TakenParts, DataParts, ChanOf;
    var h := handles[i];
    HandleBalances(handles, rs, m0, m, h);
    JoinedRelabel<Channel, Multty>(ChansOf(rs), handles, SentParts(rs), ChanOf(rs[i]), h);
    TakenUnescapes<Multty>(handles, rs, h);
    var t := Joined<Multty>(handles, TakenParts(rs), h);
    assert [] + t == t;
  }

  // If all calls worked and nothing was pending at first, every channel got the data of its calls in full.
  lemma AllArrives(handles: seq<Multty>, rs: seq<Report>, m0: map<Multty, seq<byte>>, m: map<Multty, seq<byte>>,
                   chan: Channel)
    requires Chained(handles, rs, m0, m) && AllHonest(rs) && OurStyles(rs)
    requires (forall h :: h in m0 ==> m0[h] == []) && forall i :: 0 <= i < |rs| ==> rs[i].failed.None?
    ensures Unescape(false, Joined(ChansOf(rs), SentParts(rs), chan)) ==
            (Joined(ChansOf(rs), Datas(rs), chan), false)
  {
    hide Joined, Unescape, Chained, Payloads, Escape, ChansOf;
    NothingPends(handles, rs, m0, m);
    TakenUnescapes<Channel>(ChansOf(rs), rs, chan);
    forall i | 0 <= i < |rs| ensures SentParts(rs)[i] == TakenParts(rs)[i] && DataParts(rs)[i] == Datas(rs)[i] {
      assert Honest(rs[i]);
      WholeCall(rs[i]);
    }
    assert SentParts(rs) == TakenParts(rs) && DataParts(rs) == Datas(rs);
  }

  // The data of each call, in full.
  ghost function Datas(rs: seq<Report>): (r: seq<seq<byte>>)
    ensures |r| == |rs|
  {
    seq(|rs|, i requires 0 <= i < |rs| => rs[i].data)
  }

  lemma WholeCall(r: Report)
    requires Honest(r) && r.before == [] && r.after == [] && r.failed.None?
    ensures Payloads(r.done) == Escape(r.style, Taken(r)) && Taken(r) == r.data
  {
    hide Payloads, Escape;
    var p, e := Payloads(r.done), Escape(r.style, Taken(r));
    assert p + [] == p && [] + e == e;
  }

  // The program and the stream of the handle can be told to the receiver.
  ghost predicate Named(h: Multty)
    reads h`prog, h`stream, h.prog
  {
    Sendable(TargetOf(h.prog), h.stream)
  }

  // All handles have a program, or none has and none is current.
  ghost predicate Alike(v: View, handles: seq<Multty>)
    reads handles`prog
  {
    || (forall i :: 0 <= i < |handles| ==> handles[i].prog != null)
    || (v.cur == None && forall i :: 0 <= i < |handles| ==> handles[i].prog == null)
  }

  // No text holds SO or SI.
  ghost predicate PlainTexts(calls: seq<Call>) {
    forall i :: 0 <= i < |calls| && calls[i].Puts? ==> NoShift(calls[i].text)
  }

  lemma WhatIsReported(v: View, handles: seq<Multty>, calls: seq<Call>, oks: seq<bool>, rs: seq<Report>)
    requires Answered(handles, calls, oks, rs) && |rs| == |handles|
    requires Alike(v, handles) && (forall i :: 0 <= i < |handles| ==> Named(handles[i])) && PlainTexts(calls)
    ensures OneKind(v, rs) && OurStyles(rs)
    ensures forall i :: 0 <= i < |rs| ==> Sendable(rs[i].prog, rs[i].stream) && Safe(rs[i])
  {
    hide Sendable, NoShift;
    forall i | 0 <= i < |rs| ensures Sendable(rs[i].prog, rs[i].stream) && Safe(rs[i])
                                     && (rs[i].prog.Some? <==> handles[i].prog != null) {
      assert About(rs[i], handles[i], calls[i]) && Named(handles[i]);
    }
  }

  // Every channel got the frames that were sent for it, and nothing else.
  ghost predicate Delivers(rx0: Rx, rx: Rx, rs: seq<Report>) {
    forall chan :: Received(rx.trace, chan) == Received(rx0.trace, chan) + Joined(ChansOf(rs), SentParts(rs), chan)
  }

  lemma LineDelivers(v0: View, t0: Traffic, b0: seq<byte>, rs: seq<Report>, v: View, t: Traffic, b: seq<byte>)
    requires LineOk(t0) && b0 == EncodeAll(t0.log) + t0.cut && LineOk(t) && b == EncodeAll(t.log) + t.cut && t.open
    requires Extends(t0, t) && Ran(v0, t0, AllFlushes(rs), v, t) && Synced(v0, Parse(START, b0))
    requires AllHonest(rs) && OneKind(v0, rs) && NoSwitchLost(rs)
    requires forall i :: 0 <= i < |rs| ==> PlainFrames(rs[i].done) && Sendable(rs[i].prog, rs[i].stream)
    ensures Synced(v, Parse(START, b)) && Delivers(Parse(START, b0), Parse(START, b), rs)
  {
    hide Parse, Received, EncodeAll, RunSent, RunView, RunAttempted, Synced, OneKind, NoSwitchLost, AllReceivable, AllFlushes,
         PlainFrames, Sendable, AllHonest, ChansOf, SentParts, Joined, LineOk, Extends;
    WhatIsRead(t0, b0, t, b, RunSent(v0, AllFlushes(rs)));
    FlushesReceivable(rs);
    RunDelivers(v0, Parse(START, b0), AllFlushes(rs));
    forall chan
      ensures Received(Parse(START, b).trace, chan) ==
              Received(Parse(START, b0).trace, chan) + Joined(ChansOf(rs), SentParts(rs), chan)
    {
      SentIsReceived(v0, Parse(START, b0), rs, chan);
    }
  }

  // With switches lost, each frame lands on the program that the receiver is on.
  lemma LineLands(v0: View, w: View, t0: Traffic, b0: seq<byte>, rs: seq<Report>, v: View, t: Traffic, b: seq<byte>)
    requires LineOk(t0) && b0 == EncodeAll(t0.log) + t0.cut && LineOk(t) && b == EncodeAll(t.log) + t.cut && t.open
    requires Extends(t0, t) && Ran(v0, t0, AllFlushes(rs), v, t) && Hears(w, Parse(START, b0)) && AllHonest(rs)
    requires forall i :: 0 <= i < |rs| ==> PlainFrames(rs[i].done) && Sendable(rs[i].prog, rs[i].stream)
    ensures Parse(START, b).trace == Parse(START, b0).trace + Landings(v0, w, AllFlushes(rs))
  {
    hide Parse, EncodeAll, RunSent, RunView, RunAttempted, Hears, AllFlushes, PlainFrames, Sendable, AllHonest, LineOk, Extends,
         Landings, Receivable;
    WhatIsRead(t0, b0, t, b, RunSent(v0, AllFlushes(rs)));
    FlushesReceivable(rs);
    AnyRunLands(v0, w, Parse(START, b0), AllFlushes(rs));
  }

  // Call i is on a handle that shares its channel with no other.
  ghost predicate Alone(handles: seq<Multty>, rs: seq<Report>, i: nat)
    requires i < |rs| == |handles|
  {
    forall j :: 0 <= j < |rs| ==> (ChanOf(rs[j]) == ChanOf(rs[i]) <==> handles[j] == handles[i])
  }

  // What such a handle's channel got and what is pending in it decode to what its calls took in.
  ghost predicate Accounted(handles: seq<Multty>, rs: seq<Report>, m0: map<Multty, seq<byte>>, m: map<Multty, seq<byte>>)
    requires |rs| == |handles|
  {
    forall i :: 0 <= i < |rs| && Alone(handles, rs, i) && handles[i] in m0 && m0[handles[i]] == [] ==>
      && handles[i] in m
      && Unescape(false, Joined(ChansOf(rs), SentParts(rs), ChanOf(rs[i])) + m[handles[i]]) ==
         (Joined<Multty>(handles, DataParts(rs), handles[i]), false)
  }

  // What every channel got decodes to the data of the calls on it.
  ghost predicate Arrived(rs: seq<Report>) {
    forall chan :: Unescape(false, Joined(ChansOf(rs), SentParts(rs), chan)) == (Joined(ChansOf(rs), Datas(rs), chan), false)
  }

  lemma BooksClose(handles: seq<Multty>, calls: seq<Call>, oks: seq<bool>, rs: seq<Report>,
                   m0: map<Multty, seq<byte>>, m: map<Multty, seq<byte>>)
    requires Answered(handles, calls, oks, rs) && |rs| == |handles| && AllHonest(rs) && OurStyles(rs)
    requires Chained(handles, rs, m0, m)
    ensures Accounted(handles, rs, m0, m)
    ensures (forall h :: h in m0 ==> m0[h] == []) && (forall i :: 0 <= i < |oks| ==> oks[i]) ==> Arrived(rs)
  {
    hide Chained, AllHonest, Joined, Unescape, ChansOf, SentParts, DataParts, Datas, ChanOf, About, OurStyles;
    forall i | 0 <= i < |rs| && Alone(handles, rs, i) && handles[i] in m0 && m0[handles[i]] == []
      ensures handles[i] in m
              && Unescape(false, Joined(ChansOf(rs), SentParts(rs), ChanOf(rs[i])) + m[handles[i]]) ==
                 (Joined<Multty>(handles, DataParts(rs), handles[i]), false)
    {
      AloneBalances(handles, rs, m0, m, i);
    }
    if (forall h :: h in m0 ==> m0[h] == []) && (forall i :: 0 <= i < |oks| ==> oks[i]) {
      forall chan
        ensures Unescape(false, Joined(ChansOf(rs), SentParts(rs), chan)) == (Joined(ChansOf(rs), Datas(rs), chan), false)
      {
        AllArrives(handles, rs, m0, m, chan);
      }
    }
  }

  // Any calls on any handles, with any outcomes, from a line on which the receiver is in step; w is what
  // its current and previous program are.
  // - While the line is open, exactly the frames that were sent arrive, in order, each on the program
  //   that the receiver is on by then.
  // - If besides no program switch was lost, every channel gets exactly the frames that
  //   were sent for it, in order, and no other byte arrives.
  // - For a handle that has its channel to itself these are, but for what is still pending, what its
  //   calls took in, also when some of them failed.
  // - If no call failed, every channel gets the data of the calls on it, in full and in order.
  method Multiplex(handles: seq<Multty>, calls: seq<Call>, out: Stdout, progset: ProgSet, ghost w: View)
    returns (oks: seq<bool>, ghost rs: seq<Report>)
    requires |handles| == |calls| && Apart(handles) && AllUsable(handles, progset)
    requires out.Valid() && progset.Coherent() && Synced(progset.View(), Parse(START, out.bytes))
    requires Hears(w, Parse(START, out.bytes))
    requires forall i :: 0 <= i < |handles| ==> Named(handles[i]) && Plain(handles[i].Pending())
    requires PlainTexts(calls) && Alike(progset.View(), handles)
    modifies out, progset`current, progset`previous, handles`fill, set h | h in handles :: h.buf
    ensures out.Valid() && progset.Coherent() && AllUsable(handles, progset)
    ensures Answered(handles, calls, oks, rs) && |rs| == |handles| && AllHonest(rs)
    ensures out.open ==> Parse(START, out.bytes).trace ==
                         Parse(START, old(out.bytes)).trace + Landings(old(progset.View()), w, AllFlushes(rs))
    ensures out.open && NoSwitchLost(rs) ==>
              && Synced(progset.View(), Parse(START, out.bytes))
              && Delivers(Parse(START, old(out.bytes)), Parse(START, out.bytes), rs)
    ensures Accounted(handles, rs, old(PendingIn(handles, progset)), PendingIn(handles, progset))
    ensures (forall i :: 0 <= i < |handles| ==> old(handles[i].Pending()) == [] && oks[i]) ==> Arrived(rs)
  {
    hide Ran, AllHonest, Extends, LineOk, LineStory, Multty.Valid, Multty.Pending, Stdout.Valid, ProgSet.Coherent, AllFlushes;
    hide Chained, Parse, Synced, NoSwitchLost, Apart, EncodeAll, Alike, Named, PlainTexts, Answered, Accounted, Delivers, Arrived;
    hide OneKind, OurStyles, Sendable, Safe, Plain, PlainFrames, PendingIn, Landings, Hears;
    out.Holds();
    ghost var v0, t0, b0, m0 := progset.View(), out.traffic, out.bytes, PendingIn(handles, progset);
    AsMapped(handles, progset);
    oks, rs := IssueAll(handles, calls, out, progset);
    out.Holds();
    WhatIsReported(v0, handles, calls, oks, rs);
    AllPlain(handles, rs, m0, PendingIn(handles, progset));
    if out.open {
      LineLands(v0, w, t0, b0, rs, progset.View(), out.traffic, out.bytes);
    }
    if out.open && NoSwitchLost(rs) {
      LineDelivers(v0, t0, b0, rs, progset.View(), out.traffic, out.bytes);
    }
    BooksClose(handles, calls, oks, rs, m0, PendingIn(handles, progset));
    AnsweredLengths(handles, calls, oks, rs);
  }

  lemma AnsweredLengths(handles: seq<Multty>, calls: seq<Call>, oks: seq<bool>, rs: seq<Report>)
    requires Answered(handles, calls, oks, rs)
    ensures |oks| == |rs|
  {}

  lemma AsMapped(handles: seq<Multty>, progset: ProgSet)
    requires AllUsable(handles, progset)
    ensures forall j :: 0 <= j < |handles| ==> Usable(handles[j], progset)
    ensures (forall i :: 0 <= i < |handles| ==> Plain(handles[i].Pending())) ==>
              forall h :: h in PendingIn(handles, progset) ==> Plain(PendingIn(handles, progset)[h])
    ensures (forall i :: 0 <= i < |handles| ==> handles[i].Pending() == []) ==>
              forall h :: h in PendingIn(handles, progset) ==> PendingIn(handles, progset)[h] == []
  {
    hide Plain, Multty.Valid, Multty.Pending;
    var m := PendingIn(handles, progset);
    forall h | h in m ensures exists i :: 0 <= i < |handles| && handles[i] == h && m[h] == handles[i].Pending() {
      var i :| 0 <= i < |handles| && handles[i] == h;
    }
  }
}
