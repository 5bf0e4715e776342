/** Runs of flushes and their demultiplexing: which bytes each channel receives. */
module Demux {
  import opened Bytes
  import opened EscapeCodec
  import opened Wire
  import opened Receiver
  import opened Identity
  import opened Switching

  datatype Target = Target(id: Key, descr: seq<byte>)

  // One mtyflush: the program and stream of the handle, its pending bytes, whether the program
  // switch it needed arrived in full, and whether its frame did.
  datatype Flush = Flush(prog: Option<Target>, stream: Option<Name>, payload: seq<byte>, switched: bool, sent: bool)

  function FlushView(v: View, f: Flush): View {
    if f.prog.None? then v else AfterSwitch(v, f.prog.value.id)
  }

  // The messages that went out in full.
  function FlushSent(v: View, f: Flush): seq<Message> {
    (if f.prog.Some? && f.switched then SwitchMessage(v, f.prog.value.id, f.prog.value.descr) else [])
    + (if f.sent then [Data(f.stream, f.payload)] else [])
  }

  // All messages it tried to send.
  function FlushAttempted(v: View, f: Flush): seq<Message> {
    (if f.prog.Some? then SwitchMessage(v, f.prog.value.id, f.prog.value.descr) else [])
    + [Data(f.stream, f.payload)]
  }

  function RunView(v: View, fs: seq<Flush>): View
    decreases fs
  {
    if fs == [] then v else RunView(FlushView(v, fs[0]), fs[1..])
  }

  function RunSent(v: View, fs: seq<Flush>): seq<Message>
    decreases fs
  {
    if fs == [] then [] else FlushSent(v, fs[0]) + RunSent(FlushView(v, fs[0]), fs[1..])
  }

  function RunAttempted(v: View, fs: seq<Flush>): seq<Message>
    decreases fs
  {
    if fs == [] then [] else FlushAttempted(v, fs[0]) + RunAttempted(FlushView(v, fs[0]), fs[1..])
  }

  lemma {:induction false} RunConcat(v: View, a: seq<Flush>, b: seq<Flush>)
    ensures RunView(v, a + b) == RunView(RunView(v, a), b)
    ensures RunSent(v, a + b) == RunSent(v, a) + RunSent(RunView(v, a), b)
    ensures RunAttempted(v, a + b) == RunAttempted(v, a) + RunAttempted(RunView(v, a), b)
    decreases a
  {
    hide FlushView, FlushSent, FlushAttempted;
    if a == [] {
      assert a + b == b;
    } else {
      assert (a + b)[1..] == a[1..] + b;
      RunConcat(FlushView(v, a[0]), a[1..], b);
      var w := FlushView(v, a[0]);
      Assoc(FlushSent(v, a[0]), RunSent(w, a[1..]), RunSent(RunView(v, a), b));
      Assoc(FlushAttempted(v, a[0]), RunAttempted(w, a[1..]), RunAttempted(RunView(v, a), b));
    }
  }

  lemma RunOne(v: View, f: Flush)
    ensures RunView(v, [f]) == FlushView(v, f) && RunSent(v, [f]) == FlushSent(v, f)
    ensures RunAttempted(v, [f]) == FlushAttempted(v, f)
  {
    hide FlushView, FlushSent, FlushAttempted;
    assert [f][1..] == [];
    assert FlushSent(v, f) + [] == FlushSent(v, f);
    assert FlushAttempted(v, f) + [] == FlushAttempted(v, f);
  }

  // The switch arrived, and if the frame did too, it holds data that the receiver can tell from
  // mulTTY codes.
  ghost predicate Receivable(f: Flush) {
    && f.switched && (f.sent ==> Plain(f.payload))
    && (f.stream.Some? ==> EscapeFree(ESC_BINARY, f.stream.value))
    && (f.prog.Some? ==> Known(f.prog.value.id, f.prog.value.descr))
  }

  ghost predicate AllReceivable(fs: seq<Flush>) {
    forall i :: 0 <= i < |fs| ==> Receivable(fs[i])
  }

  // Where the data of a flush belongs: to the handle's program, or else to the one that is current.
  function ChannelOf(v: View, f: Flush): Channel {
    Channel(Shown(FlushView(v, f).cur), f.stream)
  }

  function Deliveries(v: View, fs: seq<Flush>): seq<Delivery>
    decreases fs
  {
    if fs == [] then [] else Delivered(v, fs[0]) + Deliveries(FlushView(v, fs[0]), fs[1..])
  }

  function Delivered(v: View, f: Flush): seq<Delivery> {
    if f.sent then Tag(ChannelOf(v, f), f.payload) else []
  }

  lemma FlushDelivers(v: View, rx: Rx, f: Flush)
    requires Synced(v, rx) && Receivable(f)
    ensures var r := Parse(rx, EncodeAll(FlushSent(v, f)));
            Synced(FlushView(v, f), r) && r.trace == rx.trace + Delivered(v, f)
  {
    hide Parse, Encode, EncodeAll, Known, Trim, EscapeFree, Plain, AfterSwitch, SwitchMessage, Tag;
    var ms := if f.prog.Some? then SwitchMessage(v, f.prog.value.id, f.prog.value.descr) else [];
    if f.prog.Some? {
      SwitchSyncs(v, rx, f.prog.value.id, f.prog.value.descr);
    } else {
      ParseNothing(rx);
    }
    if f.sent {
      var data := Data(f.stream, f.payload);
      EncodeConcat(ms, [data]);
      EncodeOne(data);
      ParseConcat(rx, EncodeAll(ms), Encode(data));
      ParseFrame(Parse(rx, EncodeAll(ms)), f.stream, f.payload);
    } else {
      assert ms + [] == ms && rx.trace + [] == rx.trace;
    }
  }

  // Two-level demultiplexing: every byte of every frame that was sent arrives, in order, tagged with
  // the program and the stream of the handle that was flushed, and nothing else arrives.
  lemma {:induction false} RunDelivers(v: View, rx: Rx, fs: seq<Flush>)
    requires Synced(v, rx) && AllReceivable(fs)
    ensures var r := Parse(rx, EncodeAll(RunSent(v, fs)));
            Synced(RunView(v, fs), r) && r.trace == rx.trace + Deliveries(v, fs)
    decreases fs
  {
    hide Parse, Synced, Receivable, FlushView, FlushSent, Delivered, EncodeAll;
    if fs == [] {
      ParseNothing(rx);
      assert rx.trace + [] == rx.trace;
    } else {
      var v1 := FlushView(v, fs[0]);
      var r1 := Parse(rx, EncodeAll(FlushSent(v, fs[0])));
      FlushDelivers(v, rx, fs[0]);
      RunDelivers(v1, r1, fs[1..]);
      EncodeConcat(FlushSent(v, fs[0]), RunSent(v1, fs[1..]));
      ParseConcat(rx, EncodeAll(FlushSent(v, fs[0])), EncodeAll(RunSent(v1, fs[1..])));
      Assoc(rx.trace, Delivered(v, fs[0]), Deliveries(v1, fs[1..]));
    }
  }

  /* Channel by channel */

  // The bytes that one channel received.
  function Received(trace: seq<Delivery>, chan: Channel): seq<byte> {
    if trace == [] then []
    else (if trace[0].chan == chan then [trace[0].b] else []) + Received(trace[1..], chan)
  }

  // The payloads sent to one channel.
  function Flushed(v: View, fs: seq<Flush>, chan: Channel): seq<byte>
    decreases fs
  {
    if fs == [] then []
    else (if fs[0].sent && ChannelOf(v, fs[0]) == chan then fs[0].payload else []) + Flushed(FlushView(v, fs[0]), fs[1..], chan)
  }

  lemma {:induction false} ReceivedConcat(a: seq<Delivery>, b: seq<Delivery>, chan: Channel)
    ensures Received(a + b, chan) == Received(a, chan) + Received(b, chan)
  {
    if a == [] {
      assert a + b == b;
    } else {
      assert (a + b)[1..] == a[1..] + b;
      ReceivedConcat(a[1..], b, chan);
      Assoc(if a[0].chan == chan then [a[0].b] else [], Received(a[1..], chan), Received(b, chan));
    }
  }

  lemma {:induction false} ReceivedTag(c: Channel, s: seq<byte>, chan: Channel)
    ensures Received(Tag(c, s), chan) == if c == chan then s else []
  {
    if s != [] {
      assert Tag(c, s)[1..] == Tag(c, s[1..]);
      ReceivedTag(c, s[1..], chan);
      assert [s[0]] + s[1..] == s;
    }
  }

  lemma {:induction false} ReceivedIsFlushed(v: View, fs: seq<Flush>, chan: Channel)
    ensures Received(Deliveries(v, fs), chan) == Flushed(v, fs, chan)
    decreases fs
  {
    if fs != [] {
      ReceivedConcat(Delivered(v, fs[0]), Deliveries(FlushView(v, fs[0]), fs[1..]), chan);
      ReceivedTag(ChannelOf(v, fs[0]), fs[0].payload, chan);
      ReceivedIsFlushed(FlushView(v, fs[0]), fs[1..], chan);
    }
  }

  // Each program and stream receives exactly what was sent to it, in order.
  lemma Demultiplexed(v: View, rx: Rx, fs: seq<Flush>, chan: Channel)
    requires Synced(v, rx) && AllReceivable(fs)
    ensures Received(Parse(rx, EncodeAll(RunSent(v, fs))).trace, chan) == Received(rx.trace, chan) + Flushed(v, fs, chan)
  {
    hide Parse, Synced, Receivable, EncodeAll;
    RunDelivers(v, rx, fs);
    ReceivedConcat(rx.trace, Deliveries(v, fs), chan);
    ReceivedIsFlushed(v, fs, chan);
  }

  // The channel of a handle, from its own program and stream.
  function OwnChannel(prog: Option<Target>, stream: Option<Name>): Channel {
    Channel(if prog.None? then None else Some(Trim(prog.value.id)), stream)
  }

  function OwnPayloads(fs: seq<Flush>, chan: Channel): seq<byte> {
    if fs == [] then []
    else (if fs[0].sent && OwnChannel(fs[0].prog, fs[0].stream) == chan then fs[0].payload else []) + OwnPayloads(fs[1..], chan)
  }

  // Either every handle has a program, or none has.
  ghost predicate Uniform(v: View, fs: seq<Flush>) {
    || (forall i :: 0 <= i < |fs| ==> fs[i].prog.Some?)
    || (v.cur == None && forall i :: 0 <= i < |fs| ==> fs[i].prog.None?)
  }

  // Then a channel is named by the handle alone, whatever was flushed before.
  lemma {:induction false} FlushedByHandle(v: View, fs: seq<Flush>, chan: Channel)
    requires Uniform(v, fs)
    ensures Flushed(v, fs, chan) == OwnPayloads(fs, chan)
    decreases fs
  {
    if fs != [] {
      assert Uniform(FlushView(v, fs[0]), fs[1..]);
      FlushedByHandle(FlushView(v, fs[0]), fs[1..], chan);
    }
  }

  lemma {:induction false} OwnConcat(a: seq<Flush>, b: seq<Flush>, chan: Channel)
    ensures OwnPayloads(a + b, chan) == OwnPayloads(a, chan) + OwnPayloads(b, chan)
  {
    if a == [] {
      assert a + b == b;
    } else {
      assert (a + b)[1..] == a[1..] + b;
      OwnConcat(a[1..], b, chan);
      Assoc(if a[0].sent && OwnChannel(a[0].prog, a[0].stream) == chan then a[0].payload else [],
            OwnPayloads(a[1..], chan), OwnPayloads(b, chan));
    }
  }

  // mtyflush ignores what became of the switch. If its message is lost and the frame is not,
  // the frame lands on the program that was current: on the wrong one, unless none was needed.
  lemma LostSwitchMisdelivers(v: View, rx: Rx, f: Flush)
    requires Synced(v, rx) && KnownView(v) && Receivable(f.(switched := true)) && !f.switched && f.sent && f.payload != []
    requires f.prog.Some? && IsProgId(f.prog.value.id)
    ensures Parse(rx, EncodeAll(FlushSent(v, f))).trace == rx.trace + Tag(ChannelOf(v, f), f.payload)
            <==> SwitchMessage(v, f.prog.value.id, f.prog.value.descr) == []
  {
    hide Parse, Encode, EncodeAll, Trim, EscapeFree, Plain;
    var data := Data(f.stream, f.payload);
    assert FlushSent(v, f) == [data];
    EncodeOne(data);
    ParseFrame(rx, f.stream, f.payload);
    var here, there := Channel(rx.cur, f.stream), ChannelOf(v, f);
    LostSwitch(v, rx, f.prog.value.id, f.prog.value.descr);
    assert Tag(here, f.payload)[0].chan == here && Tag(there, f.payload)[0].chan == there;
    assert (rx.trace + Tag(here, f.payload))[|rx.trace|].chan == here;
    assert (rx.trace + Tag(there, f.payload))[|rx.trace|].chan == there;
    if v.cur.Some? && Trim(v.cur.value) == Trim(f.prog.value.id) {
      ShownDistinct(v.cur.value, f.prog.value.id);
    }
  }

  /* Runs in which program switches may be lost */

  // The receiver's view w after the switch of a flush, by identity, while the sender's view is v.
  function Heard(v: View, w: View, f: Flush): View {
    if f.prog.None? || !f.switched || v.cur == Some(f.prog.value.id) then w
    else if v.prev == Some(f.prog.value.id) then View(w.prev, w.cur)
    else View(Some(f.prog.value.id), w.cur)
  }

  function HeardAll(v: View, w: View, fs: seq<Flush>): View
    decreases fs
  {
    if fs == [] then w else HeardAll(FlushView(v, fs[0]), Heard(v, w, fs[0]), fs[1..])
  }

  // Where the data goes: to the program that the receiver is on when the frame comes in.
  function Landings(v: View, w: View, fs: seq<Flush>): seq<Delivery>
    decreases fs
  {
    if fs == [] then []
    else
      var w1 := Heard(v, w, fs[0]);
      (if fs[0].sent then Tag(Channel(Shown(w1.cur), fs[0].stream), fs[0].payload) else [])
      + Landings(FlushView(v, fs[0]), w1, fs[1..])
  }

  predicate Hears(w: View, rx: Rx) {
    AtRest(rx) && rx.cur == Shown(w.cur) && rx.prev == Shown(w.prev)
  }

  lemma FlushLands(v: View, w: View, rx: Rx, f: Flush)
    requires Hears(w, rx) && Receivable(f.(switched := true))
    ensures var r := Parse(rx, EncodeAll(FlushSent(v, f)));
            var w1 := Heard(v, w, f);
            && Hears(w1, r)
            && r.trace == rx.trace + (if f.sent then Tag(Channel(Shown(w1.cur), f.stream), f.payload) else [])
  {
    hide Parse, Encode, EncodeAll, Known, Trim, EscapeFree, Plain, Tag;
    var w1 := Heard(v, w, f);
    var ms := if f.prog.Some? && f.switched then SwitchMessage(v, f.prog.value.id, f.prog.value.descr) else [];
    ParseNothing(rx);
    SwapLands(rx);
    if f.prog.Some? {
      NamedLands(rx, f.prog.value.id, f.prog.value.descr);
    }
    var r1 := Parse(rx, EncodeAll(ms));
    assert Hears(w1, r1) && r1.trace == rx.trace;
    if f.sent {
      var data := Data(f.stream, f.payload);
      EncodeConcat(ms, [data]);
      EncodeOne(data);
      ParseConcat(rx, EncodeAll(ms), Encode(data));
      ParseFrame(r1, f.stream, f.payload);
    } else {
      assert ms + [] == ms && rx.trace + [] == rx.trace;
    }
  }

  // For any run of flushes, with any switches and any frames lost: exactly the frames that were sent
  // arrive, in order, each on the program that the receiver is on. The sender's view plays no part
  // in that but to choose the switches.
  lemma {:induction false} AnyRunLands(v: View, w: View, rx: Rx, fs: seq<Flush>)
    requires Hears(w, rx) && forall i :: 0 <= i < |fs| ==> Receivable(fs[i].(switched := true))
    ensures var r := Parse(rx, EncodeAll(RunSent(v, fs)));
            Hears(HeardAll(v, w, fs), r) && r.trace == rx.trace + Landings(v, w, fs)
    decreases fs
  {
    hide Parse, Hears, Receivable, FlushView, FlushSent, Heard, Tag, EncodeAll;
    if fs == [] {
      ParseNothing(rx);
      assert rx.trace + [] == rx.trace;
    } else {
      var v1, w1, ms := FlushView(v, fs[0]), Heard(v, w, fs[0]), FlushSent(v, fs[0]);
      FlushLands(v, w, rx, fs[0]);
      var r1 := Parse(rx, EncodeAll(ms));
      AnyRunLands(v1, w1, r1, fs[1..]);
      EncodeConcat(ms, RunSent(v1, fs[1..]));
      ParseConcat(rx, EncodeAll(ms), EncodeAll(RunSent(v1, fs[1..])));
      Assoc(rx.trace, if fs[0].sent then Tag(Channel(Shown(w1.cur), fs[0].stream), fs[0].payload) else [],
            Landings(v1, w1, fs[1..]));
    }
  }

  // So each frame lands where it belongs if and only if the two views name the same program then.
  lemma LandsRight(v: View, w: View, f: Flush)
    requires KnownView(v) && KnownView(w) && (f.prog.Some? ==> IsProgId(f.prog.value.id)) && f.payload != []
    ensures Tag(Channel(Shown(Heard(v, w, f).cur), f.stream), f.payload) == Tag(ChannelOf(v, f), f.payload)
            <==> Heard(v, w, f).cur == FlushView(v, f).cur
  {
    hide Trim, IsProgId;
    var here, there := Channel(Shown(Heard(v, w, f).cur), f.stream), ChannelOf(v, f);
    assert Tag(here, f.payload)[0].chan == here && Tag(there, f.payload)[0].chan == there;
    ShownApart(Heard(v, w, f).cur, FlushView(v, f).cur);
  }
}
