/** Escaping and unescaping of bytes as values: what `mtyescapewish`,
    `mtyescape` and `mtyunescape` compute (lib/escape.c, lib/unescape.c). */
module EscapeCodec {
  import opened Bytes

  // Is byte c escaped under the given style?
  predicate EscapeWish(style: bv32, c: byte) {
    var ch := if c == 0x7f then 0x08 else if c == 0xff then 0x00 else c;
    if ch >= 0x20 then false else style & ((1 as bv32) << ch) != 0
  }

  predicate EscapeFree(style: bv32, s: seq<byte>) {
    forall i :: 0 <= i < |s| ==> !EscapeWish(style, s[i])
  }

  // The one or two bytes that stand for c on the wire.
  function EscapeByte(style: bv32, c: byte): (r: seq<byte>)
    ensures 1 <= |r| <= 2
  {
    if EscapeWish(style, c) then [DLE, c ^ 0x40] else [c]
  }

  function Escape(style: bv32, s: seq<byte>): (r: seq<byte>)
    ensures |s| <= |r| <= 2 * |s|
  {
    if s == [] then [] else EscapeByte(style, s[0]) + Escape(style, s[1..])
  }

  // What one received byte yields, and whether a DLE is pending after it.
  function Emit(dle: bool, c: byte): (r: seq<byte>)
    ensures |r| <= 1
  {
    if dle then [c ^ 0x40] else if c == DLE then [] else [c]
  }

  predicate Pends(dle: bool, c: byte) {
    !dle && c == DLE
  }

  // Decoding may stop and resume anywhere: dle tells that the last byte read was a DLE.
  function Unescape(dle: bool, s: seq<byte>): (r: (seq<byte>, bool))
    ensures |r.0| <= |s|
    decreases s
  {
    if s == [] then ([], dle)
    else
      var (t, d) := Unescape(Pends(dle, s[0]), s[1..]);
      (Emit(dle, s[0]) + t, d)
  }

  /* Facts about single bytes */

  lemma BinaryWish(c: byte)
    ensures EscapeWish(ESC_BINARY, c) <==> c < 0x20 || c == 0x7f || c == 0xff
  {
    var ch := if c == 0x7f then 0x08 else if c == 0xff then 0x00 else c;
    if ch < 0x20 {
      assert (1 as bv32) << ch != 0;
    }
  }

  lemma MixedWish(c: byte)
    ensures EscapeWish(ESC_MIXED, c) <==>
            c <= 0x06 || 0x10 <= c <= 0x19 || 0x1c <= c <= 0x1f || c == 0xff
  {}

  lemma AsciiWish(c: byte)
    ensures EscapeWish(ESC_ASCII, c) <==> 0x01 <= c <= 0x06 || 0x10 <= c <= 0x19 || 0x1c <= c <= 0x1f
  {}

  // An escaped byte goes after DLE with one bit flipped.
  lemma EscapedForm(style: bv32, c: byte)
    ensures EscapeByte(style, c) == if EscapeWish(style, c) then [0x10, c ^ 0x40] else [c]
    ensures Emit(true, c) == [c ^ 0x40] && Emit(false, c) == (if c == 0x10 then [] else [c])
    ensures !Pends(true, c) && (Pends(false, c) <==> c == 0x10)
  {}

  // BINARY is the strictest style, and no escaped form is itself in need of escaping.
  lemma WishIsBinary(style: bv32, c: byte)
    requires EscapeWish(style, c)
    ensures EscapeWish(ESC_BINARY, c)
    ensures !EscapeWish(ESC_BINARY, c ^ 0x40)
    ensures (c ^ 0x40) ^ 0x40 == c
  {
    BinaryWish(c);
    BinaryWish(c ^ 0x40);
  }

  /* Facts about whole strings */

  lemma {:induction false} EscapeConcat(style: bv32, a: seq<byte>, b: seq<byte>)
    ensures Escape(style, a + b) == Escape(style, a) + Escape(style, b)
  {
    if a == [] {
      assert a + b == b;
    } else {
      assert (a + b)[1..] == a[1..] + b;
      EscapeConcat(style, a[1..], b);
      Assoc(EscapeByte(style, a[0]), Escape(style, a[1..]), Escape(style, b));
    }
  }

  lemma {:induction false} UnescapeConcat(dle: bool, a: seq<byte>, b: seq<byte>)
    ensures var (x, d) := Unescape(dle, a);
            var (y, e) := Unescape(d, b);
            Unescape(dle, a + b) == (x + y, e)
    decreases a
  {
    if a == [] {
      assert a + b == b;
      assert [] + Unescape(dle, b).0 == Unescape(dle, b).0;
    } else {
      assert (a + b)[1..] == a[1..] + b;
      UnescapeConcat(Pends(dle, a[0]), a[1..], b);
      var (x, d) := Unescape(Pends(dle, a[0]), a[1..]);
      Assoc(Emit(dle, a[0]), x, Unescape(d, b).0);
    }
  }

  lemma UnescapeOne(dle: bool, c: byte)
    ensures Unescape(dle, [c]) == (Emit(dle, c), Pends(dle, c))
  {
    assert [c][1..] == [];
    assert Emit(dle, c) + [] == Emit(dle, c);
  }

  // One byte at a time, escaping is undone, provided DLE itself is escaped.
  lemma UnescapeByte(style: bv32, c: byte)
    requires EscapeWish(style, DLE)
    ensures Unescape(false, EscapeByte(style, c)) == ([c], false)
  {
    UnescapeOne(false, c);
    if EscapeWish(style, c) {
      WishIsBinary(style, c);
      UnescapeOne(true, c ^ 0x40);
      assert EscapeByte(style, c)[1..] == [c ^ 0x40];
      assert [] + [c] == [c];
    }
  }

  lemma {:induction false} RoundTrip(style: bv32, s: seq<byte>)
    requires EscapeWish(style, DLE)
    ensures Unescape(false, Escape(style, s)) == (s, false)
  {
    if s != [] {
      UnescapeByte(style, s[0]);
      UnescapeConcat(false, EscapeByte(style, s[0]), Escape(style, s[1..]));
      RoundTrip(style, s[1..]);
      assert [s[0]] + s[1..] == s;
    }
  }

  // The DLE bit of the style is all that the round trip needs, and it is needed.
  lemma RoundTripExactly(style: bv32)
    ensures (forall s :: Unescape(false, Escape(style, s)) == (s, false)) <==> EscapeWish(style, DLE)
  {
    if EscapeWish(style, DLE) {
      forall s ensures Unescape(false, Escape(style, s)) == (s, false) {
        RoundTrip(style, s);
      }
    } else {
      var s := [DLE];
      assert Escape(style, s) == [DLE] + Escape(style, []) == [DLE];
      UnescapeOne(false, DLE);
      assert Unescape(false, Escape(style, s)) != (s, false);
    }
  }

  // Binary escaping leaves no control code on the wire other than DLE.
  lemma {:induction false} EscapedBinaryIsClean(s: seq<byte>, k: nat)
    requires k < |Escape(ESC_BINARY, s)|
    ensures var c := Escape(ESC_BINARY, s)[k]; c == DLE || !EscapeWish(ESC_BINARY, c)
  {
    var head := EscapeByte(ESC_BINARY, s[0]);
    if k >= |head| {
      EscapedBinaryIsClean(s[1..], k - |head|);
    } else if EscapeWish(ESC_BINARY, s[0]) {
      WishIsBinary(ESC_BINARY, s[0]);
    }
  }

  // Mixed escaping lets SO and SI through, and no other mulTTY code besides DLE.
  lemma {:induction false} EscapedMixedIsClean(s: seq<byte>, k: nat)
    requires k < |Escape(ESC_MIXED, s)|
    ensures var c := Escape(ESC_MIXED, s)[k]; c == DLE || !EscapeWish(ESC_MIXED, c)
    ensures var c := Escape(ESC_MIXED, s)[k]; c == SO || c == SI ==> c in s
  {
    var head := EscapeByte(ESC_MIXED, s[0]);
    if k >= |head| {
      EscapedMixedIsClean(s[1..], k - |head|);
    } else if EscapeWish(ESC_MIXED, s[0]) {
      WishIsBinary(ESC_MIXED, s[0]);
      MixedWish(s[0] ^ 0x40);
      BinaryWish(s[0] ^ 0x40);
    }
  }

  lemma {:induction false} EscapeFreeIsFixed(style: bv32, s: seq<byte>)
    requires EscapeFree(style, s)
    ensures Escape(style, s) == s
  {
    if s != [] {
      EscapeFreeIsFixed(style, s[1..]);
    }
  }

  // A name acceptable to BINARY is acceptable to every style.
  lemma BinaryFreeIsFree(style: bv32, s: seq<byte>)
    requires EscapeFree(ESC_BINARY, s)
    ensures EscapeFree(style, s)
  {
    forall i | 0 <= i < |s| ensures !EscapeWish(style, s[i]) {
      if EscapeWish(style, s[i]) {
        WishIsBinary(style, s[i]);
      }
    }
  }
}
