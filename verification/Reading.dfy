/** Reading a stream back: refills of the handle's buffer and calls of `mtyunescape`, of any size. */
module Reading {
  import opened Bytes
  import opened EscapeCodec
  import opened Streams

  // Put the next k bytes of the wire into the buffer.
  method Refill(mty: Multty, wire: seq<byte>, pos: nat, k: nat)
    requires pos + k <= |wire| && k <= mty.buf.Length
    modifies mty`fill, mty`rdofs, mty.buf
    ensures mty.rdofs == 0 && mty.fill == k && mty.buf[..k] == wire[pos..pos + k]
  {
    forall i | 0 <= i < k {
      mty.buf[i] := wire[pos + i];
    }
    mty.fill, mty.rdofs := k, 0;
  }

  // Wherever the refills and the reads are cut, also between DLE and the byte it escapes,
  // the data is that of the whole wire decoded at once.
  method ReadAll(mty: Multty, wire: seq<byte>) returns (data: seq<byte>)
    requires mty.buf.Length == PIPE_BUF && !mty.gotDle
    modifies mty`fill, mty`rdofs, mty`gotDle, mty.buf
    ensures (data, mty.gotDle) == Unescape(false, wire)
  {
    hide Unescape;
    data := [];
    var pos := 0;
    DecodeNone(wire);
    while pos < |wire|
      invariant pos <= |wire| && (data, mty.gotDle) == Unescape(false, wire[..pos])
    {
      var k :| 1 <= k <= PIPE_BUF && pos + k <= |wire|;
      Refill(mty, wire, pos, k);
      data := Drain(mty, wire, pos, data);
      pos := pos + k;
    }
    assert wire[..pos] == wire;
  }

  // Read until the buffer is used up, with destinations of any size.
  method Drain(mty: Multty, ghost wire: seq<byte>, ghost pos: nat, data0: seq<byte>) returns (data: seq<byte>)
    requires mty.rdofs == 0 && mty.fill <= mty.buf.Length && pos + mty.fill <= |wire|
    requires mty.buf[..mty.fill] == wire[pos..pos + mty.fill]
    requires (data0, mty.gotDle) == Unescape(false, wire[..pos])
    modifies mty`rdofs, mty`gotDle
    ensures (data, mty.gotDle) == Unescape(false, wire[..pos + mty.fill])
  {
    hide Unescape;
    data := data0;
    while mty.rdofs < mty.fill
      invariant mty.rdofs <= mty.fill
      invariant (data, mty.gotDle) == Unescape(false, wire[..pos + mty.rdofs])
      decreases mty.fill - mty.rdofs
    {
      var destlen: nat :| destlen > 0;
      var dest := new byte[destlen](_ => 0);
      ghost var from, d := mty.rdofs, mty.gotDle;
      var n := mty.MtyUnescape(dest, destlen);
      SameStretch(mty.buf[..], mty.fill, wire, pos, from, mty.rdofs);
      DecodeMore(wire, pos + from, pos + mty.rdofs);
      data := data + dest[..n];
    }
  }

  lemma SameStretch(buf: seq<byte>, fill: nat, wire: seq<byte>, pos: nat, a: nat, b: nat)
    requires a <= b <= fill <= |buf| && pos + fill <= |wire| && buf[..fill] == wire[pos..pos + fill]
    ensures buf[a..b] == wire[pos + a..pos + b]
  {
    forall k | a <= k < b ensures buf[k] == wire[pos + k] {
      assert buf[..fill][k] == wire[pos..pos + fill][k];
    }
  }

  lemma DecodeNone(wire: seq<byte>)
    ensures Unescape(false, wire[..0]) == ([], false)
  {}

  lemma DecodeMore(wire: seq<byte>, a: nat, b: nat)
    requires a <= b <= |wire|
    ensures var (x, d) := Unescape(false, wire[..a]);
            var (y, e) := Unescape(d, wire[a..b]);
            Unescape(false, wire[..b]) == (x + y, e)
  {
    assert wire[..b] == wire[..a] + wire[a..b];
    UnescapeConcat(false, wire[..a], wire[a..b]);
  }

  // For every style that escapes DLE, what was escaped is read back unchanged.
  method ReadBack(style: bv32, mty: Multty, data: seq<byte>) returns (read: seq<byte>)
    requires EscapeWish(style, DLE) && mty.buf.Length == PIPE_BUF && !mty.gotDle
    modifies mty`fill, mty`rdofs, mty`gotDle, mty.buf
    ensures read == data && !mty.gotDle
  {
    read := ReadAll(mty, Escape(style, data));
    RoundTrip(style, data);
  }
}
