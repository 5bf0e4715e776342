/** Where the wire format depends on what the caller passes in: stream names at `mtyopen`
    (lib/open.c) and text under the MIXED style at `mtyputstrbuf` (lib/puts.c). */
module Names {
  import opened Bytes
  import opened EscapeCodec
  import opened Chains
  import opened Wire
  import opened Receiver
  import opened Identity
  import opened Switching
  import opened Demux
  import opened Programs
  import opened Streams

  // Every name the receiver holds is free of control codes.
  predicate CleanRx(rx: Rx) {
    && (forall p :: p in rx.streams ==> EscapeFree(ESC_BINARY, rx.streams[p]))
    && (rx.naming.Some? ==> !rx.naming.value.us && EscapeFree(ESC_BINARY, rx.naming.value.acc))
  }

  lemma StepClean(rx: Rx, b: byte)
    requires CleanRx(rx) && b != US
    ensures CleanRx(Step(rx, b))
  {}

  lemma {:induction false} ParseClean(rx: Rx, s: seq<byte>)
    requires CleanRx(rx) && US !in s
    ensures CleanRx(Parse(rx, s))
    decreases s
  {
    hide CleanRx, Step;
    if s != [] {
      assert s[0] in s;
      StepClean(rx, s[0]);
      ParseClean(Step(rx, s[0]), s[1..]);
    }
  }

  lemma {:induction false} NoBareUS(s: seq<byte>)
    ensures US !in Escape(ESC_ASCII, s)
  {
    if s != [] {
      NoBareUS(s[1..]);
      AsciiWish(s[0]);
      if EscapeWish(ESC_ASCII, s[0]) {
        WishIsBinary(ESC_ASCII, s[0]);
        BinaryWish(s[0] ^ 0x40);
      }
    }
  }

  // mtyopen takes any name, but the prefix it builds selects the stream of that name if and only if
  // the name holds no control code, which mtyoutstream checks and mtyopen does not.
  lemma PrefixSelects(name: Name)
    ensures Here(Parse(START, Prefix(Some(Escape(ESC_ASCII, name))))).stream == Some(name)
            <==> EscapeFree(ESC_BINARY, name)
  {
    if EscapeFree(ESC_BINARY, name) {
      BinaryFreeIsFree(ESC_ASCII, name);
      EscapeFreeIsFixed(ESC_ASCII, name);
      ParsePrefix(START, name);
    } else {
      NoBareUS(name);
      ParseClean(START, Prefix(Some(Escape(ESC_ASCII, name))));
    }
  }

  /* Text */

  predicate NoShift(s: seq<byte>) {
    SO !in s && SI !in s
  }

  // Outside a name, every byte but SO and SI is delivered, given that none starts a name or a switch.
  function Unshifted(s: seq<byte>): nat {
    if s == [] then 0 else (if s[0] == SO || s[0] == SI then 0 else 1) + Unshifted(s[1..])
  }

  lemma {:induction false} UnshiftedBound(s: seq<byte>)
    ensures Unshifted(s) <= |s| && (Unshifted(s) == |s| <==> NoShift(s))
  {
    if s != [] {
      UnshiftedBound(s[1..]);
      assert s == [s[0]] + s[1..];
    }
  }

  // Such bytes switch no program, and at most take the current program off its named stream.
  lemma {:induction false} ParseShifting(rx: Rx, s: seq<byte>)
    requires rx.naming == None && SOH !in s && PSW !in s
    ensures var r := Parse(rx, s);
            && r.naming == None && r.cur == rx.cur && r.prev == rx.prev
            && r.streams - {rx.cur} == rx.streams - {rx.cur} && (rx.cur !in rx.streams ==> r.streams == rx.streams)
            && |r.trace| == |rx.trace| + Unshifted(s)
    decreases s
  {
    if s != [] {
      assert s[0] in s;
      StepShifting(rx, s[0]);
      ParseShifting(Step(rx, s[0]), s[1..]);
    }
  }

  lemma StepShifting(rx: Rx, b: byte)
    requires rx.naming == None && b != SOH && b != PSW
    ensures var r := Step(rx, b);
            && r.naming == None && r.cur == rx.cur && r.prev == rx.prev
            && r.streams - {rx.cur} == rx.streams - {rx.cur} && (rx.cur !in rx.streams ==> r.streams == rx.streams)
            && |r.trace| == |rx.trace| + (if b == SO || b == SI then 0 else 1)
  {
    assert rx.cur !in rx.streams ==> rx.streams - {rx.cur} == rx.streams;
    assert rx.streams - {rx.cur} - {rx.cur} == rx.streams - {rx.cur};
  }

  lemma MixedIsSafe(s: seq<byte>)
    ensures var e := Escape(ESC_MIXED, s); SOH !in e && PSW !in e && (NoShift(e) <==> NoShift(s))
  {
    var e := Escape(ESC_MIXED, s);
    forall k | 0 <= k < |e| ensures e[k] != SOH && e[k] != PSW && (e[k] == SO || e[k] == SI ==> e[k] in s) {
      EscapedMixedIsClean(s, k);
      MixedWish(e[k]);
    }
    ShiftsStay(s);
  }

  lemma {:induction false} ShiftsStay(s: seq<byte>)
    ensures SO in s ==> SO in Escape(ESC_MIXED, s)
    ensures SI in s ==> SI in Escape(ESC_MIXED, s)
  {
    if s != [] {
      MixedWish(s[0]);
      ShiftsStay(s[1..]);
    }
  }

  lemma PlainText(e: seq<byte>)
    requires SOH !in e && PSW !in e && NoShift(e)
    ensures Plain(e)
  {
    assert forall i :: 0 <= i < |e| ==> e[i] in e;
  }

  // A frame of such bytes, on any stream: the receiver comes to rest on the same program, and every
  // SO and SI is missing from what it delivers.
  lemma FrameShifts(rx: Rx, stream: Option<Name>, e: seq<byte>)
    requires AtRest(rx) && (stream.Some? ==> EscapeFree(ESC_BINARY, stream.value)) && SOH !in e && PSW !in e
    ensures var r := Parse(rx, Encode(Data(stream, e)));
            AtRest(r) && r.cur == rx.cur && r.prev == rx.prev && |r.trace| == |rx.trace| + Unshifted(e)
  {
    hide Parse, EscapeFree, Unshifted, Step;
    if stream.None? {
      ParseShifting(rx, e);
    } else {
      var n := stream.value;
      var on := rx.(streams := map[rx.cur := n]);
      assert Prefix(stream) + (e + [SO]) == Encode(Data(stream, e));
      ParseConcat(rx, Prefix(stream), e + [SO]);
      ParsePrefix(rx, n);
      ParseConcat(on, e, [SO]);
      ParseShifting(on, e);
      ParseOne(Parse(on, e), SO);
      assert on.streams - {rx.cur} == map[];
      ShiftOut(Parse(on, e));
    }
  }

  lemma ShiftOut(rx: Rx)
    requires rx.naming == None
    ensures Step(rx, SO) == rx.(streams := rx.streams - {rx.cur})
  {}

  // A frame of MIXED text delivers exactly that text to its stream, a named one or stdout, if and only
  // if the text holds neither SO nor SI, the codes that MIXED leaves alone.
  lemma TextDelivered(rx: Rx, stream: Option<Name>, text: seq<byte>)
    requires AtRest(rx) && (stream.Some? ==> EscapeFree(ESC_BINARY, stream.value))
    ensures var e := Escape(ESC_MIXED, text);
            Parse(rx, Encode(Data(stream, e))).trace == rx.trace + Tag(Channel(rx.cur, stream), e)
            <==> NoShift(text)
  {
    hide Parse, EscapeFree, Encode, NoShift;
    var e := Escape(ESC_MIXED, text);
    MixedIsSafe(text);
    if NoShift(text) {
      PlainText(e);
      ParseFrame(rx, stream, e);
    } else {
      FrameShifts(rx, stream, e);
      UnshiftedBound(e);
      assert |rx.trace + Tag(Channel(rx.cur, stream), e)| == |rx.trace| + |e|;
    }
  }

  /* Text in several frames */

  lemma {:induction false} UnshiftedConcat(a: seq<byte>, b: seq<byte>)
    ensures Unshifted(a + b) == Unshifted(a) + Unshifted(b)
  {
    if a == [] {
      assert a + b == b;
    } else {
      assert (a + b)[1..] == a[1..] + b;
      UnshiftedConcat(a[1..], b);
    }
  }

  // A frame that went out, on a name and for a program that the receiver can be told of, and that
  // holds neither SOH nor PSW.
  ghost predicate Shifting(f: Flush) {
    && f.switched && f.sent && SOH !in f.payload && PSW !in f.payload
    && (f.stream.Some? ==> EscapeFree(ESC_BINARY, f.stream.value))
    && (f.prog.Some? ==> Known(f.prog.value.id, f.prog.value.descr))
  }

  lemma FlushShifts(v: View, rx: Rx, f: Flush)
    requires Synced(v, rx) && Shifting(f)
    ensures var r := Parse(rx, EncodeAll(FlushSent(v, f)));
            Synced(FlushView(v, f), r) && |r.trace| == |rx.trace| + Unshifted(f.payload)
  {
    hide Parse, Encode, EncodeAll, Known, Trim, EscapeFree, AfterSwitch, SwitchMessage, Unshifted;
    var ms := if f.prog.Some? then SwitchMessage(v, f.prog.value.id, f.prog.value.descr) else [];
    if f.prog.Some? {
      SwitchSyncs(v, rx, f.prog.value.id, f.prog.value.descr);
    } else {
      ParseNothing(rx);
    }
    var data := Data(f.stream, f.payload);
    EncodeConcat(ms, [data]);
    EncodeOne(data);
    ParseConcat(rx, EncodeAll(ms), Encode(data));
    FrameShifts(Parse(rx, EncodeAll(ms)), f.stream, f.payload);
  }

  lemma {:induction false} RunShifts(v: View, rx: Rx, fs: seq<Flush>)
    requires Synced(v, rx) && forall i :: 0 <= i < |fs| ==> Shifting(fs[i])
    ensures |Parse(rx, EncodeAll(RunSent(v, fs))).trace| == |rx.trace| + Unshifted(Payloads(fs))
    decreases fs
  {
    hide Parse, Synced, Shifting, FlushView, FlushSent, EncodeAll;
    if fs == [] {
      ParseNothing(rx);
    } else {
      var v1, ms := FlushView(v, fs[0]), FlushSent(v, fs[0]);
      FlushShifts(v, rx, fs[0]);
      EncodeConcat(ms, RunSent(v1, fs[1..]));
      ParseConcat(rx, EncodeAll(ms), EncodeAll(RunSent(v1, fs[1..])));
      RunShifts(v1, Parse(rx, EncodeAll(ms)), fs[1..]);
      UnshiftedConcat(fs[0].payload, Payloads(fs[1..]));
    }
  }

  // The channel of a handle when it is flushed in view v.
  function ChannelIn(v: View, target: Option<Target>, stream: Option<Name>): Channel {
    Channel(if target.Some? then Some(Trim(target.value.id)) else Shown(v.cur), stream)
  }

  lemma {:induction false} OneChannel(v: View, fs: seq<Flush>, target: Option<Target>, stream: Option<Name>)
    requires OwnSent(fs, target, stream)
    ensures Deliveries(v, fs) == Tag(ChannelIn(v, target, stream), Payloads(fs))
    decreases fs
  {
    hide Trim, AfterSwitch;
    if fs != [] {
      SwitchedTo(v, fs[0]);
      OneChannel(FlushView(v, fs[0]), fs[1..], target, stream);
      var c := ChannelIn(v, target, stream);
      assert Tag(c, fs[0].payload) + Tag(c, Payloads(fs[1..])) == Tag(c, fs[0].payload + Payloads(fs[1..]));
    }
  }

  lemma SwitchedTo(v: View, f: Flush)
    ensures ChannelOf(v, f) == ChannelIn(v, f.prog, f.stream)
    ensures ChannelIn(FlushView(v, f), f.prog, f.stream) == ChannelIn(v, f.prog, f.stream)
  {}

  // The same for text in any number of frames: all of it is delivered, to its own stream and program,
  // if and only if it holds neither SO nor SI.
  lemma TextRunDelivered(v: View, rx: Rx, fs: seq<Flush>, target: Option<Target>, stream: Option<Name>, text: seq<byte>)
    requires Synced(v, rx) && OwnSent(fs, target, stream) && Payloads(fs) == Escape(ESC_MIXED, text)
    requires forall i :: 0 <= i < |fs| ==> fs[i].switched
    requires stream.Some? ==> EscapeFree(ESC_BINARY, stream.value)
    requires target.Some? ==> Known(target.value.id, target.value.descr)
    ensures Parse(rx, EncodeAll(RunSent(v, fs))).trace ==
            rx.trace + Tag(ChannelIn(v, target, stream), Escape(ESC_MIXED, text))
            <==> NoShift(text)
  {
    hide Parse, Synced, EncodeAll, RunSent, Known, EscapeFree, NoShift, Escape;
    var e := Escape(ESC_MIXED, text);
    MixedIsSafe(text);
    PartsClean(fs);
    if NoShift(text) {
      NoShiftParts(fs);
      RunDelivers(v, rx, fs);
      OneChannel(v, fs, target, stream);
    } else {
      RunShifts(v, rx, fs);
      UnshiftedBound(e);
      assert |rx.trace + Tag(ChannelIn(v, target, stream), e)| == |rx.trace| + |e|;
    }
  }

  lemma {:induction false} PartsClean(fs: seq<Flush>)
    requires SOH !in Payloads(fs) && PSW !in Payloads(fs)
    ensures forall i :: 0 <= i < |fs| ==> SOH !in fs[i].payload && PSW !in fs[i].payload
  {
    if fs != [] {
      PartsClean(fs[1..]);
    }
  }

  lemma {:induction false} NoShiftParts(fs: seq<Flush>)
    requires SOH !in Payloads(fs) && PSW !in Payloads(fs) && NoShift(Payloads(fs))
    ensures forall i :: 0 <= i < |fs| ==> Plain(fs[i].payload)
  {
    if fs != [] {
      PlainText(fs[0].payload);
      NoShiftParts(fs[1..]);
    }
  }

  // mtyputstrbuf of text to a handle with nothing pending, in as many frames as it takes.
  method PutText(h: Multty, text: seq<byte>, out: Stdout, progset: ProgSet)
    returns (ok: bool, ghost fs: seq<Flush>)
    requires h.Valid() && h.Pending() == [] && out.Valid() && out.open && progset.Coherent()
    requires h.prog != null ==> h.prog in progset.programs.order && Known(h.prog.idUs, DescrOf(h.prog))
    requires h.stream.Some? ==> EscapeFree(ESC_BINARY, h.stream.value)
    requires Synced(progset.View(), Parse(START, out.bytes))
    modifies h.buf, h`fill, out, progset`current, progset`previous
    ensures h.Valid() && out.Valid() && progset.Coherent()
    ensures OwnSent(fs, TargetOf(h.prog), h.stream)
    ensures ok && (forall i :: 0 <= i < |fs| ==> fs[i].switched) ==>
              (Parse(START, out.bytes).trace ==
               Parse(START, old(out.bytes)).trace
               + Tag(ChannelIn(old(progset.View()), TargetOf(h.prog), h.stream), Escape(ESC_MIXED, text))
               <==> NoShift(text))
  {
    hide Ran, OwnSent, AtLeast, Extends, Payloads, Escape, Accounts, NoRoom, AllWhole, Whole, Encode, EncodeAll, LineOk;
    hide Multty.Valid, Stdout.Valid, ProgSet.Coherent, FlushView, FlushSent, FlushAttempted, Parse, Synced, NoShift, ChannelIn, Known, EscapeFree;
    ghost var v0, t0, b0 := progset.View(), out.traffic, out.bytes;
    out.Holds();
    ghost var carried, held, failed;
    ok, carried, held, fs, failed := h.MtyPutstrbuf(text, out, progset);
    out.Holds();
    if ok && forall i :: 0 <= i < |fs| ==> fs[i].switched {
      TextSent(text, carried, held, fs, failed, h.Pending());
      AllRan(v0, t0, fs, progset.View(), out.traffic);
      WhatIsRead(t0, b0, out.traffic, out.bytes, RunSent(v0, fs));
      TextRunDelivered(v0, Parse(START, b0), fs, TargetOf(h.prog), h.stream, text);
    }
  }

  lemma TextSent(text: seq<byte>, carried: nat, held: nat, done: seq<Flush>, failed: Option<Flush>, pending: seq<byte>)
    requires Accounts(ESC_MIXED, text, [], carried, held, done, failed, pending) && failed.None?
    ensures Payloads(done) == Escape(ESC_MIXED, text) && done + Opt(failed) == done
  {
    assert text[..|text|] == text;
    var e := Escape(ESC_MIXED, text);
    assert [] + e == e;
  }

  lemma AllRan(v0: View, t0: Traffic, fs: seq<Flush>, v: View, t: Traffic)
    requires Ran(v0, t0, fs, v, t)
    ensures t.log == t0.log + RunSent(v0, fs)
  {}
}
