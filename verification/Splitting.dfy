/** The repository's own reading of a stream, test/verify.py: cut the bytes of fd 1 at 0x01 and
    0x0e, and take the pieces for stream names and data. */
module Splitting {
  import opened Bytes
  import opened Wire
  import opened Receiver
  import opened Switching
  import opened Demux

  // s cut at every c, as Python's split does: there is always one piece more than there are cuts.
  function Split(s: seq<byte>, c: byte): (r: seq<seq<byte>>)
    ensures |r| >= 1
  {
    if s == [] then [[]]
    else
      var r := Split(s[1..], c);
      if s[0] == c then [[]] + r else [[s[0]] + r[0]] + r[1..]
  }

  // A piece of output, under the name of a stream or under none.
  datatype Piece = Piece(name: Option<Name>, text: seq<byte>)

  function Unnamed(texts: seq<seq<byte>>): (r: seq<Piece>)
    ensures |r| == |texts|
  {
    seq(|texts|, i requires 0 <= i < |texts| => Piece(None, texts[i]))
  }

  // After a name its first piece is named; a name that nothing follows is kept for later pieces,
  // of which there are none in this chunk.
  function Chunk(s: seq<byte>): seq<Piece> {
    Named(Split(s, 0x0e))
  }

  function Named(parts: seq<seq<byte>>): seq<Piece>
    requires |parts| >= 1
  {
    if |parts| == 1 then [] else [Piece(Some(parts[0]), parts[1])] + Unnamed(parts[2..])
  }

  function Chunks(ss: seq<seq<byte>>): seq<Piece> {
    if ss == [] then [] else Chunk(ss[0]) + Chunks(ss[1..])
  }

  // test/verify.py
  function Pieces(data: seq<byte>): seq<Piece> {
    var chunks := Split(data, 0x01);
    Unnamed(Split(chunks[0], 0x0e)) + Chunks(chunks[1..])
  }

  /* Cutting */

  lemma {:induction false} SplitNone(s: seq<byte>, c: byte)
    requires c !in s
    ensures Split(s, c) == [s]
  {
    if s != [] {
      SplitNone(s[1..], c);
      assert [s[0]] + s[1..] == s;
    }
  }

  lemma {:induction false} SplitAt(a: seq<byte>, c: byte, b: seq<byte>)
    ensures Split(a + [c] + b, c) == Split(a, c) + Split(b, c)
  {
    var s := a + [c] + b;
    if a == [] {
      assert s[0] == c && s[1..] == b;
    } else {
      assert s[0] == a[0] && s[1..] == a[1..] + [c] + b;
      SplitAt(a[1..], c, b);
    }
  }

  // One byte in front of s: a new part, or the first part grows.
  function Front(x: byte, c: byte, r: seq<seq<byte>>): seq<seq<byte>>
    requires |r| >= 1
  {
    if x == c then [[]] + r else [[x] + r[0]] + r[1..]
  }

  function GrowLast(r: seq<seq<byte>>, b: seq<byte>): seq<seq<byte>>
    requires |r| >= 1
  {
    r[|r| - 1 := r[|r| - 1] + b]
  }

  lemma FrontOfGrown(x: byte, c: byte, r: seq<seq<byte>>, b: seq<byte>)
    requires |r| >= 1
    ensures Front(x, c, GrowLast(r, b)) == GrowLast(Front(x, c, r), b)
  {
    if |r| == 1 {
      Assoc([x], r[0], b);
    }
  }

  // Without a cut, the last part grows.
  lemma {:induction false} SplitMore(a: seq<byte>, b: seq<byte>, c: byte)
    requires c !in b
    ensures Split(a + b, c) == GrowLast(Split(a, c), b)
  {
    hide GrowLast;
    if a == [] {
      assert a + b == b;
      SplitNone(b, c);
      GrowEmpty(b);
    } else {
      assert (a + b)[0] == a[0] && (a + b)[1..] == a[1..] + b;
      SplitMore(a[1..], b, c);
      FrontOfGrown(a[0], c, Split(a[1..], c), b);
    }
  }

  lemma GrowEmpty(b: seq<byte>)
    ensures GrowLast([[]], b) == [b]
  {
    assert [] + b == b;
  }

  lemma {:induction false} ChunksMore(ss: seq<seq<byte>>, s: seq<byte>)
    ensures Chunks(ss + [s]) == Chunks(ss) + Chunk(s)
  {
    hide Chunk;
    if ss == [] {
      assert ss + [s] == [s] && [s][1..] == [] && Chunk(s) + [] == Chunk(s) == [] + Chunk(s);
    } else {
      assert (ss + [s])[1..] == ss[1..] + [s];
      ChunksMore(ss[1..], s);
      Assoc(Chunk(ss[0]), Chunks(ss[1..]), Chunk(s));
    }
  }

  /* What the pieces of a log of frames are */

  // A frame gives a piece under its name, and after it a piece of the default stream begins; what
  // goes to stdout goes on with that.
  function Told(ms: seq<Message>): (r: seq<Piece>)
    ensures |r| >= 1 && r[|r| - 1].name == None
  {
    if ms == [] then [Piece(None, [])]
    else
      var r := Told(ms[..|ms| - 1]);
      match ms[|ms| - 1]
      case Data(None, p) => r[|r| - 1 := Piece(None, r[|r| - 1].text + p)]
      case Data(Some(n), p) => r + [Piece(Some(n), p), Piece(None, [])]
      case _ => r
  }

  predicate Uncut(s: seq<byte>) {
    0x01 !in s && 0x0e !in s
  }

  // A frame whose name and payload hold neither code.
  predicate FrameOnly(m: Message) {
    m.Data? && Uncut(m.payload) && (m.stream.Some? ==> Uncut(m.stream.value))
  }

  // The data does not end within a name or a named piece.
  predicate AtDefault(data: seq<byte>) {
    var chunks := Split(data, 0x01);
    |chunks| > 1 ==> |Split(chunks[|chunks| - 1], 0x0e)| >= 3
  }

  lemma FrameCuts(n: Name, p: seq<byte>)
    requires Uncut(n) && Uncut(p)
    ensures var x := n + [0x0e] + p + [0x0e]; Split(x, 0x0e) == [n, p, []] && 0x01 !in x
  {
    SplitNone(n, 0x0e);
    SplitNone(p, 0x0e);
    SplitAt(n, 0x0e, p);
    SplitAt(n + [0x0e] + p, 0x0e, []);
    assert n + [0x0e] + p + [0x0e] + [] == n + [0x0e] + p + [0x0e];
  }

  lemma NamedFrame(data: seq<byte>, n: Name, p: seq<byte>)
    requires Uncut(n) && Uncut(p)
    ensures var d := data + ([0x01] + n + [0x0e] + p + [0x0e]);
            Pieces(d) == Pieces(data) + [Piece(Some(n), p), Piece(None, [])] && AtDefault(d)
  {
    hide Split, Chunks;
    var x := n + [0x0e] + p + [0x0e];
    FrameCuts(n, p);
    SplitNone(x, 0x01);
    SplitAt(data, 0x01, x);
    assert data + [0x01] + x == data + ([0x01] + n + [0x0e] + p + [0x0e]);
    var chunks := Split(data, 0x01);
    assert (chunks + [x])[1..] == chunks[1..] + [x] && (chunks + [x])[0] == chunks[0];
    ChunksMore(chunks[1..], x);
    assert [n, p, []][2..] == [[]];
    assert Unnamed([[]]) == [Piece(None, [])];
    assert Chunk(x) == [Piece(Some(n), p)] + [Piece(None, [])];
    Assoc(Unnamed(Split(chunks[0], 0x0e)), Chunks(chunks[1..]), Chunk(x));
  }

  lemma DefaultText(data: seq<byte>, p: seq<byte>)
    requires Uncut(p) && AtDefault(data) && Pieces(data) != []
    ensures var r := Pieces(data);
            r[|r| - 1].name == None && Pieces(data + p) == GrowText(r, p)
    ensures AtDefault(data + p)
  {
    hide Split, Chunks, Chunk;
    var chunks := Split(data, 0x01);
    var last := chunks[|chunks| - 1];
    SplitMore(data, p, 0x01);
    SplitMore(last, p, 0x0e);
    if |chunks| == 1 {
      assert chunks[1..] == [] && Split(data + p, 0x01)[1..] == [];
      NoChunks();
      UnnamedGrows(Split(last, 0x0e), p);
    } else {
      var front := chunks[1..|chunks| - 1];
      assert chunks[1..] == front + [last] && Split(data + p, 0x01)[1..] == front + [last + p];
      ChunksMore(front, last);
      ChunksMore(front, last + p);
      ChunkGrows(last, p);
      var a, b := Unnamed(Split(chunks[0], 0x0e)), Chunks(front);
      Assoc(a, b, Chunk(last));
      Assoc(a, b, Chunk(last + p));
    }
  }

  lemma NoChunks()
    ensures Chunks([]) == []
  {}

  // The text of the last piece grows.
  function GrowText(r: seq<Piece>, p: seq<byte>): seq<Piece>
    requires |r| >= 1
  {
    r[|r| - 1 := Piece(None, r[|r| - 1].text + p)]
  }

  lemma UnnamedGrows(texts: seq<seq<byte>>, p: seq<byte>)
    requires texts != []
    ensures Unnamed(GrowLast(texts, p)) == GrowText(Unnamed(texts), p)
  {}

  lemma ChunkGrows(s: seq<byte>, p: seq<byte>)
    requires Uncut(p) && |Split(s, 0x0e)| >= 3
    ensures var r := Chunk(s);
            r != [] && r[|r| - 1].name == None && Chunk(s + p) == GrowText(r, p)
  {
    hide Split, Unnamed, GrowLast, GrowText;
    SplitMore(s, p, 0x0e);
    var parts := Split(s, 0x0e);
    LastOnly(parts, p);
    UnnamedGrows(parts[2..], p);
    UnnamedLast(parts[2..]);
    TextAfter(Piece(Some(parts[0]), parts[1]), Unnamed(parts[2..]), p);
  }

  lemma LastOnly(parts: seq<seq<byte>>, p: seq<byte>)
    requires |parts| >= 3
    ensures var q := GrowLast(parts, p);
            |q| == |parts| && q[0] == parts[0] && q[1] == parts[1] && q[2..] == GrowLast(parts[2..], p)
  {}

  lemma UnnamedLast(texts: seq<seq<byte>>)
    requires texts != []
    ensures Unnamed(texts)[|texts| - 1].name == None
  {}

  lemma TextAfter(x: Piece, r: seq<Piece>, p: seq<byte>)
    requires |r| >= 1
    ensures GrowText([x] + r, p) == [x] + GrowText(r, p)
  {}

  // Cutting up a log of frames gives back every name and every payload, in order.
  lemma {:induction false} LogIsTold(ms: seq<Message>)
    requires forall i :: 0 <= i < |ms| ==> FrameOnly(ms[i])
    ensures Pieces(EncodeAll(ms)) == Told(ms) && AtDefault(EncodeAll(ms))
  {
    if ms == [] {
      assert Split([], 0x01) == [[]] == Split([], 0x0e) && Split([], 0x01)[1..] == [];
      NoChunks();
      assert Unnamed([[]]) + [] == [Piece(None, [])];
    } else {
      hide Split, Chunks, Chunk, Pieces, AtDefault;
      var front, m := ms[..|ms| - 1], ms[|ms| - 1];
      assert ms == front + [m];
      assert FrameOnly(m);
      LogIsTold(front);
      EncodeConcat(front, [m]);
      EncodeOne(m);
      if m.stream.Some? {
        NamedFrame(EncodeAll(front), m.stream.value, m.payload);
      } else {
        DefaultText(EncodeAll(front), m.payload);
      }
    }
  }

  /* Stream by stream */

  function TextOn(ps: seq<Piece>, name: Option<Name>): seq<byte> {
    if ps == [] then []
    else
      var p := ps[|ps| - 1];
      TextOn(ps[..|ps| - 1], name) + (if p.name == name then p.text else [])
  }

  function PayloadsOn(ms: seq<Message>, name: Option<Name>): seq<byte> {
    if ms == [] then []
    else (if ms[0].Data? && ms[0].stream == name then ms[0].payload else []) + PayloadsOn(ms[1..], name)
  }

  lemma {:induction false} PayloadsOnMore(ms: seq<Message>, m: Message, name: Option<Name>)
    ensures PayloadsOn(ms + [m], name) ==
            PayloadsOn(ms, name) + (if m.Data? && m.stream == name then m.payload else [])
  {
    var more := if m.Data? && m.stream == name then m.payload else [];
    if ms == [] {
      assert ms + [m] == [m] && [m][1..] == [] && more + [] == more == [] + more;
    } else {
      assert (ms + [m])[1..] == ms[1..] + [m];
      PayloadsOnMore(ms[1..], m, name);
      Assoc(if ms[0].Data? && ms[0].stream == name then ms[0].payload else [], PayloadsOn(ms[1..], name), more);
    }
  }

  lemma {:induction false} ToldText(ms: seq<Message>, name: Option<Name>)
    ensures TextOn(Told(ms), name) == PayloadsOn(ms, name)
  {
    if ms == [] {
      assert [Piece(None, [])][..0] == [];
    } else {
      var front, m := ms[..|ms| - 1], ms[|ms| - 1];
      assert ms == front + [m];
      ToldText(front, name);
      PayloadsOnMore(front, m, name);
      if m.Data? {
        TextGrows(Told(front), m, name);
      } else {
        assert PayloadsOn(front, name) + [] == PayloadsOn(front, name);
      }
    }
  }

  lemma TextGrows(r: seq<Piece>, m: Message, name: Option<Name>)
    requires |r| >= 1 && r[|r| - 1].name == None && m.Data?
    ensures var r' := if m.stream.None? then r[|r| - 1 := Piece(None, r[|r| - 1].text + m.payload)]
                      else r + [Piece(m.stream, m.payload), Piece(None, [])];
            TextOn(r', name) == TextOn(r, name) + (if m.stream == name then m.payload else [])
  {
    if m.stream.None? {
      var last := r[|r| - 1];
      var r' := r[|r| - 1 := Piece(None, last.text + m.payload)];
      assert r'[..|r| - 1] == r[..|r| - 1];
      if name == None {
        Assoc(TextOn(r[..|r| - 1], name), last.text, m.payload);
      } else {
        assert TextOn(r, name) + [] == TextOn(r, name);
      }
    } else {
      var a := r + [Piece(m.stream, m.payload)];
      assert (a + [Piece(None, [])])[..|a|] == a && a[..|r|] == r;
      assert r + [Piece(m.stream, m.payload), Piece(None, [])] == a + [Piece(None, [])];
      assert TextOn(a, name) + [] == TextOn(a, name);
    }
  }

  // Without program mixing, for any run of flushes with any frames lost: cut up in this way, the line
  // gives each stream exactly what was sent to it.
  lemma RunSplits(v: View, fs: seq<Flush>, name: Option<Name>)
    requires forall i :: 0 <= i < |fs| ==> fs[i].prog == None && FrameOnly(Data(fs[i].stream, fs[i].payload))
    ensures TextOn(Pieces(EncodeAll(RunSent(v, fs))), name) == OwnPayloads(fs, Channel(None, name))
  {
    hide Pieces, TextOn, Told, EncodeAll;
    FramesSent(v, fs, name);
    LogIsTold(RunSent(v, fs));
    ToldText(RunSent(v, fs), name);
  }

  lemma {:induction false} FramesSent(v: View, fs: seq<Flush>, name: Option<Name>)
    requires forall i :: 0 <= i < |fs| ==> fs[i].prog == None && FrameOnly(Data(fs[i].stream, fs[i].payload))
    ensures forall i :: 0 <= i < |RunSent(v, fs)| ==> FrameOnly(RunSent(v, fs)[i])
    ensures PayloadsOn(RunSent(v, fs), name) == OwnPayloads(fs, Channel(None, name))
    decreases fs
  {
    if fs != [] {
      FramesSent(v, fs[1..], name);
      var rest := RunSent(v, fs[1..]);
      assert FlushSent(v, fs[0]) == if fs[0].sent then [Data(fs[0].stream, fs[0].payload)] else [];
      if fs[0].sent {
        assert ([Data(fs[0].stream, fs[0].payload)] + rest)[1..] == rest;
      } else {
        assert [] + rest == rest;
      }
    }
  }
}
