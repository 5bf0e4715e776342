/** The stream handle `MULTTY` with its fixed buffer: opening, escaping into it, flushing,
    writing, and unescaping out of it (lib/open.c, escape.c, flush.c, write.c, puts.c, unescape.c). */
module Streams {
  import opened Bytes
  import opened EscapeCodec
  import opened Chains
  import opened Wire
  import opened Identity
  import opened Switching
  import opened Demux
  import opened Programs

  const MODE_WRITE: byte := 0x77 // 'w'

  function TargetOf(p: Prog?): Option<Target>
    reads p
  {
    if p == null then None else Some(Target(p.idUs, DescrOf(p)))
  }

  // The payloads of a run of flushes, joined.
  function Payloads(fs: seq<Flush>): seq<byte> {
    if fs == [] then [] else fs[0].payload + Payloads(fs[1..])
  }

  function Opt<T>(x: Option<T>): seq<T> {
    if x.None? then [] else [x.value]
  }

  // The flushes of one handle, all of them successful.
  ghost predicate OwnSent(fs: seq<Flush>, target: Option<Target>, stream: Option<Name>) {
    forall i :: 0 <= i < |fs| ==> fs[i].prog == target && fs[i].stream == stream && fs[i].sent
  }

  // No escape pair is cut: the bytes do not end in a DLE that still waits for its partner.
  ghost predicate Whole(s: seq<byte>) {
    !Unescape(false, s).1
  }

  ghost predicate AllWhole(fs: seq<Flush>) {
    forall i :: 0 <= i < |fs| ==> Whole(fs[i].payload)
  }

  // Escaping onto a whole payload leaves it whole, if the style escapes DLE.
  lemma WholeMore(style: bv32, p: seq<byte>, s: seq<byte>)
    requires Whole(p) && EscapeWish(style, DLE)
    ensures Whole(p + Escape(style, s))
  {
    UnescapeConcat(false, p, Escape(style, s));
    RoundTrip(style, s);
  }

  // At this fill position mtyescape does not take even the byte c: a buffer opened by mtyopen or
  // just flushed is never that full.
  predicate NoRoom(style: bv32, c: byte, fill: nat) {
    fill + |EscapeByte(style, c)| >= PIPE_BUF - 1
  }

  lemma Room(style: bv32, c: byte, fill: nat)
    ensures NoRoom(style, c, fill) <==> fill + (if EscapeWish(style, c) then 2 else 1) >= PIPE_BUF - 1
  {}

  ghost predicate AtLeast(fs: seq<Flush>, size: int) {
    forall i :: 0 <= i < |fs| ==> |fs[i].payload| >= size
  }

  class Multty {
    var prog: Prog?
    var shift: nat
    var fill: nat
    var rdofs: nat
    const buf: array<byte>
    var gotDle: bool
    ghost var stream: Option<Name> // the name in the shift prefix; None on stdout

    // The prefix is in place, and a closing SO will fit.
    ghost predicate Valid()
      reads this, buf
    {
      && buf.Length == PIPE_BUF
      && shift == |Prefix(stream)| <= PIPE_BUF / 2 && shift <= fill <= PIPE_BUF - 2
      && buf[..shift] == Prefix(stream)
    }

    // The escaped bytes that wait for a flush.
    ghost function Pending(): seq<byte>
      reads this, buf
      requires Valid()
    {
      buf[shift..fill]
    }

    // multty_stdout: no prefix, nothing pending.
    constructor ()
      ensures Valid() && stream == None && Pending() == [] && prog == null && fresh(buf)
      ensures rdofs == 0 && !gotDle
    {
      prog, shift, fill, rdofs, gotDle, stream := null, 0, 0, 0, false, None;
      buf := new byte[PIPE_BUF](_ => 0);
    }

    // mtyopen. Name and mode are C strings; allocation succeeds.
    static method MtyOpen(streamname: seq<byte>, mode: seq<byte>) returns (r: Multty?)
      requires NUL !in streamname && NUL !in mode
      ensures r == null <==> 2 + |streamname| >= PIPE_BUF / 4 || 0x77 !in mode
      ensures r != null ==>
                && fresh(r) && fresh(r.buf) && r.Valid() && r.Pending() == [] && r.prog == null
                && r.rdofs == 0 && !r.gotDle
                && r.buf[..r.fill] == [0x01] + Escape(ESC_ASCII, streamname) + [0x0e] && r.shift == r.fill
                && (EscapeFree(ESC_BINARY, streamname) ==> r.buf[..r.fill] == [0x01] + streamname + [0x0e])
                && r.stream == Some(Escape(ESC_ASCII, streamname))
                && (EscapeFree(ESC_BINARY, streamname) ==> r.stream == Some(streamname))
    {
      hide EscapeWish, Escape, EscapeByte, EscapeFree;
      if 2 + |streamname| >= PIPE_BUF / 4 || MODE_WRITE !in mode {
        return null;
      }
      r := new Multty();
      r.buf[0] := SOH;
      r.fill := 1;
      var done := r.MtyEscape(ESC_ASCII, streamname);
      assert done == |streamname| && streamname[..done] == streamname;
      assert r.buf[..r.fill] == [SOH] + Escape(ESC_ASCII, streamname);
      r.ClosePrefix(Escape(ESC_ASCII, streamname));
      if EscapeFree(ESC_BINARY, streamname) {
        BinaryFreeIsFree(ESC_ASCII, streamname);
        EscapeFreeIsFixed(ESC_ASCII, streamname);
      }
    }

    // The end of mtyopen: the buffer so far, and a SO, becomes the prefix.
    method ClosePrefix(ghost name: Name)
      requires Valid() && |name| < PIPE_BUF / 2 - 2 && buf[..fill] == [SOH] + name
      modifies buf, `fill, `shift, `stream
      ensures Valid() && stream == Some(name) && Pending() == [] && fill == shift
      ensures buf[..fill] == [0x01] + name + [0x0e]
    {
      buf[fill] := SO;
      fill := fill + 1;
      shift := fill;
      stream := Some(name);
      assert buf[..fill] == ([SOH] + name) + [SO];
    }

    // A handle with nothing pending has room for any byte.
    lemma RoomWhenClean(style: bv32, data: seq<byte>)
      requires Valid()
      ensures Pending() == [] ==> fill == shift
      ensures forall i :: 0 <= i < |data| ==> !NoRoom(style, data[i], shift)
    {}

    // mtyescape: as much of the data as fits, leaving room for the closing SO.
    method MtyEscape(style: bv32, data: seq<byte>) returns (done: nat)
      requires Valid()
      modifies buf, `fill
      ensures Valid() && done <= |data|
      ensures buf[..fill] == old(buf[..fill]) + Escape(style, data[..done])
      ensures Pending() == old(Pending()) + Escape(style, data[..done])
      ensures done < |data| ==> fill + |EscapeByte(style, data[done])| >= PIPE_BUF - 1
      ensures data != [] ==> (done == 0 <==> NoRoom(style, data[0], old(fill)))
    {
      hide EscapeWish, Escape, Prefix, EscapeByte, NoRoom;
      NothingEscaped(style, data);
      done := 0;
      while done < |data|
        invariant done <= |data| && old(fill) <= fill <= PIPE_BUF - 2
        invariant buf[..fill] == old(buf[..fill]) + Escape(style, data[..done])
        invariant done == 0 ==> fill == old(fill)
        invariant done > 0 ==> !NoRoom(style, data[0], old(fill))
      {
        var c := data[done];
        var esc := EscapeWish(style, c);
        EscapeNext(style, data, done);
        Room(style, c, fill);
        if fill + (if esc then 2 else 1) >= buf.Length - 1 {
          break;
        }
        Put(EscapeByte(style, c));
        done := done + 1;
      }
      Appended(buf[..fill], old(buf[..fill]), Escape(style, data[..done]), shift);
    }

    // Store one or two bytes at the fill position.
    method Put(bytes: seq<byte>)
      requires 1 <= |bytes| <= 2 && fill + |bytes| <= buf.Length
      modifies buf, `fill
      ensures fill == old(fill) + |bytes| && buf[..fill] == old(buf[..fill]) + bytes
    {
      buf[fill] := bytes[0];
      if |bytes| == 2 {
        buf[fill + 1] := bytes[1];
      }
      fill := fill + |bytes|;
    }

    // The frame of mtyflush: add the closing SO if there is a prefix, send, and go back to the prefix.
    method SendFrame(out: Stdout) returns (ok: bool)
      requires Valid() && out.Valid()
      modifies buf, `fill, out
      ensures Valid() && out.Valid()
      ensures Attempt(old(out.traffic), Data(stream, old(Pending())), out.traffic, ok)
      ensures |Encode(Data(stream, old(Pending())))| < PIPE_BUF
      ensures Pending() == (if ok then [] else old(Pending())) && fill == (if ok then shift else old(fill))
      ensures (ok ==> out.open) && Extends(old(out.traffic), out.traffic)
      ensures ok ==> out.bytes == old(out.bytes) + (old(buf[..fill]) + (if shift > 0 then [0x0e] else []))
    {
      hide Encode, Prefix, Extends, LineOk, CutFrom, Stdout.Valid;
      ghost var m := Data(stream, Pending());
      assert buf[..fill] == Prefix(stream) + Pending();
      FrameLayout(stream, Pending());
      var len := fill;
      if shift > 0 {
        buf[len] := SO;
        len := len + 1;
      }
      assert buf[..fill] == old(buf[..fill]);
      assert buf[..len] == Encode(m);
      ok := out.MtyvOut(buf[..len], m);
      out.Holds();
      assert buf[..shift] == buf[..old(fill)][..shift];
      assert buf[shift..old(fill)] == buf[..old(fill)][shift..];
      if ok {
        fill := shift;
      }
    }

    // mtyflush, in the build with program mixing. A handle without a program switches nothing.
    method MtyFlush(out: Stdout, progset: ProgSet) returns (ok: bool, ghost f: Flush)
      requires Valid() && out.Valid() && progset.Coherent() && (prog != null ==> prog in progset.programs.order)
      modifies buf, `fill, out, progset`current, progset`previous
      ensures Valid() && out.Valid() && progset.Coherent()
      ensures f == Flush(TargetOf(prog), stream, old(Pending()), f.switched, ok) && (prog == null ==> f.switched)
      ensures progset.View() == FlushView(old(progset.View()), f)
      ensures out.traffic.log == old(out.traffic.log) + FlushSent(old(progset.View()), f)
      ensures out.traffic.attempted == old(out.traffic.attempted) + FlushAttempted(old(progset.View()), f)
      ensures |Encode(Data(stream, old(Pending())))| < PIPE_BUF
      ensures Pending() == (if ok then [] else old(Pending())) && fill == (if ok then shift else old(fill))
      ensures (ok ==> out.open) && Extends(old(out.traffic), out.traffic)
      ensures var descr := if prog != null && prog.descr.Some? then prog.descr.value else [];
              var bytes := if prog == null || old(progset.current) == prog then []
                           else if old(progset.previous) == prog then [0x14]
                           else [0x01] + Trim(prog.idUs) + descr + [0x14];
              ok && f.switched ==>
                out.bytes == old(out.bytes) + bytes + (old(buf[..fill]) + (if shift > 0 then [0x0e] else []))
    {
      hide AfterSwitch, Encode, Multty.Valid, Trim, SwitchMessage, Extends, LineOk, CutFrom;
      ghost var switched := ClaimLine(out, progset);
      ghost var t := out.traffic;
      ok := SendFrame(out);
      ExtendsOn(old(out.traffic), t, out.traffic);
      f := Flush(TargetOf(prog), stream, old(Pending()), switched, ok);
      SplitSent(old(progset.View()), f, old(out.traffic));
    }

    // The first half of mtyflush: switch to the program of the handle, if it has one.
    method ClaimLine(out: Stdout, progset: ProgSet) returns (ghost switched: bool)
      requires out.Valid() && progset.Coherent() && (prog != null ==> prog in progset.programs.order)
      modifies out, progset`current, progset`previous
      ensures out.Valid() && progset.Coherent() && (prog == null ==> switched)
      ensures progset.View() == (if prog == null then old(progset.View()) else AfterSwitch(old(progset.View()), prog.idUs))
      ensures out.traffic.log == old(out.traffic.log) + ClaimSent(old(progset.View()), TargetOf(prog), switched)
      ensures out.traffic.attempted == old(out.traffic.attempted) + ClaimSent(old(progset.View()), TargetOf(prog), true)
      ensures Extends(old(out.traffic), out.traffic)
      ensures var descr := if prog != null && prog.descr.Some? then prog.descr.value else [];
              var bytes := if prog == null || old(progset.current) == prog then []
                           else if old(progset.previous) == prog then [0x14]
                           else [0x01] + Trim(prog.idUs) + descr + [0x14];
              switched ==> out.bytes == old(out.bytes) + bytes
    {
      hide AfterSwitch, Encode, Trim, Extends, LineOk, CutFrom;
      ExtendsHere(out.traffic);
      assert out.bytes + [] == out.bytes;
      switched := true;
      if prog != null {
        switched := progset.Switch(prog, out);
      }
    }

    // Fill the buffer and flush it.
    method Round(style: bv32, data: seq<byte>, out: Stdout, progset: ProgSet)
      returns (esclen: nat, ok: bool, ghost f: Flush)
      requires Valid() && out.Valid() && progset.Coherent() && (prog != null ==> prog in progset.programs.order)
      requires data != []
      modifies buf, `fill, out, progset`current, progset`previous
      ensures Valid() && out.Valid() && progset.Coherent() && esclen <= |data|
      ensures f == Flush(TargetOf(prog), stream, old(Pending()) + Escape(style, data[..esclen]), f.switched, ok)
      ensures progset.View() == FlushView(old(progset.View()), f)
      ensures out.traffic.log == old(out.traffic.log) + FlushSent(old(progset.View()), f)
      ensures out.traffic.attempted == old(out.traffic.attempted) + FlushAttempted(old(progset.View()), f)
      ensures esclen < |data| ==> |f.payload| >= PIPE_BUF - 3 - shift
      ensures esclen == 0 <==> NoRoom(style, data[0], old(fill))
      ensures if ok then Pending() == [] && fill == shift else Pending() == f.payload
      ensures ok && esclen == 0 ==> fill < old(fill)
      ensures (ok ==> out.open) && Extends(old(out.traffic), out.traffic)
    {
      hide EscapeWish, FlushView, FlushSent, FlushAttempted;
      esclen := MtyEscape(style, data);
      ok, f := MtyFlush(out, progset);
    }

    // The loop that mtywrite and mtyputstrbuf share: escape into the buffer, flush, repeat.
    // carried counts the data bytes in frames that went out, held those left behind in the buffer
    // by a flush that failed.
    method EscapeAndFlush(style: bv32, data: seq<byte>, out: Stdout, progset: ProgSet)
      returns (carried: nat, ghost held: nat, ghost done: seq<Flush>, ghost failed: Option<Flush>)
      requires Valid() && out.Valid() && progset.Coherent() && (prog != null ==> prog in progset.programs.order)
      modifies buf, `fill, out, progset`current, progset`previous
      ensures Valid() && out.Valid() && progset.Coherent()
      ensures Ran(old(progset.View()), old(out.traffic), done + Opt(failed), progset.View(), out.traffic)
      ensures OwnSent(done, TargetOf(prog), stream)
      ensures failed.Some? ==> failed.value.prog == TargetOf(prog) && failed.value.stream == stream && !failed.value.sent
      ensures Accounts(style, data, old(Pending()), carried, held, done, failed, Pending())
      ensures failed.Some? ==> (held == 0 <==> done == [] && NoRoom(style, data[0], old(fill)))
      ensures AtLeast(if failed.Some? || done == [] then done else done[..|done| - 1], PIPE_BUF - 3 - shift)
      ensures data != [] ==> done != [] || failed != None
      ensures Whole(old(Pending())) && EscapeWish(style, DLE) ==> AllWhole(done + Opt(failed)) && Whole(Pending())
      ensures old(out.open) && failed.None? ==> out.open
      ensures Extends(old(out.traffic), out.traffic)
    {
      hide FlushView, FlushSent, FlushAttempted, Ran, OwnSent, AtLeast, Multty.Valid, Stdout.Valid, Carries, Accounts, Escape, EscapeWish, Prefix, Encode, Payloads, Extends, Whole, AllWhole;
      carried, held, done, failed := 0, 0, [], None;
      NoFlushes(progset.View(), out.traffic, TargetOf(prog), stream);
      ExtendsHere(out.traffic);
      RoomWhenClean(style, data);
      CarryNothing(style, data, Pending());
      NoneWhole();
      while carried < |data|
        invariant Valid() && out.Valid() && progset.Coherent() && carried <= |data|
        invariant Ran(old(progset.View()), old(out.traffic), done, progset.View(), out.traffic)
        invariant OwnSent(done, TargetOf(prog), stream)
        invariant AtLeast(if carried < |data| || done == [] then done else done[..|done| - 1], PIPE_BUF - 3 - shift)
        invariant Carries(style, data, old(Pending()), carried, done, Pending())
        invariant (carried > 0 ==> done != []) && (done == [] ==> fill == old(fill)) && (done != [] ==> fill == shift)
        invariant Whole(old(Pending())) && EscapeWish(style, DLE) ==> AllWhole(done) && Whole(Pending())
        invariant (old(out.open) ==> out.open) && Extends(old(out.traffic), out.traffic)
        decreases |data| - carried, fill
      {
        var esclen, ok;
        ghost var f, p, t, v := Flush(None, None, [], true, true), Pending(), out.traffic, progset.View();
        esclen, ok, f := Round(style, data[carried..], out, progset);
        ExtendsOn(old(out.traffic), t, out.traffic);
        AddFlush(old(progset.View()), old(out.traffic), done, v, t, f, out.traffic);
        AddWhole(style, done, p, f, data[carried..][..esclen]);
        if !ok {
          assert data[carried..][0] == data[carried];
          CarryFailed(style, data, old(Pending()), carried, done, p, esclen, f);
          held, failed := esclen, Some(f);
          break;
        }
        CarryMore(style, data, old(Pending()), carried, done, p, esclen, f);
        AddSent(done, f, TargetOf(prog), stream, PIPE_BUF - 3 - shift);
        done := done + [f];
        carried := carried + esclen;
      }
      if failed.None? {
        assert done + Opt(failed) == done;
        CarryAll(style, data, old(Pending()), done, Pending());
      }
    }

    // mtywrite: binary data. It never reports an error as such; the count says how far it got.
    method MtyWrite(data: seq<byte>, out: Stdout, progset: ProgSet)
      returns (count: nat, ghost held: nat, ghost done: seq<Flush>, ghost failed: Option<Flush>)
      requires Valid() && out.Valid() && progset.Coherent() && (prog != null ==> prog in progset.programs.order)
      modifies buf, `fill, out, progset`current, progset`previous
      ensures Valid() && out.Valid() && progset.Coherent()
      ensures Ran(old(progset.View()), old(out.traffic), done + Opt(failed), progset.View(), out.traffic)
      ensures OwnSent(done, TargetOf(prog), stream)
      ensures failed.Some? ==> failed.value.prog == TargetOf(prog) && failed.value.stream == stream && !failed.value.sent
      ensures Accounts(ESC_BINARY, data, old(Pending()), count, held, done, failed, Pending())
      ensures failed.Some? ==> (held == 0 <==> done == [] && NoRoom(ESC_BINARY, data[0], old(fill)))
      ensures failed.Some? && old(Pending()) == [] ==> held > 0
      ensures AtLeast(if failed.Some? || done == [] then done else done[..|done| - 1], PIPE_BUF - 3 - shift)
      ensures data != [] ==> done != [] || failed != None
      ensures Whole(old(Pending())) ==> AllWhole(done + Opt(failed)) && Whole(Pending())
      ensures old(out.open) && failed.None? ==> out.open
      ensures Extends(old(out.traffic), out.traffic)
    {
      hide FlushView, FlushSent, FlushAttempted, Ran, OwnSent, AtLeast, Multty.Valid, Accounts, Encode, Extends, AllWhole, Whole;
      RoomWhenClean(ESC_BINARY, data);
      count, held, done, failed := EscapeAndFlush(ESC_BINARY, data, out, progset);
      BinaryWish(DLE);
      AccountsAll(ESC_BINARY, data, old(Pending()), count, held, done, failed, Pending());
    }

    // mtyputstrbuf: text, under the MIXED style.
    method MtyPutstrbuf(text: seq<byte>, out: Stdout, progset: ProgSet)
      returns (ok: bool, ghost carried: nat, ghost held: nat, ghost done: seq<Flush>, ghost failed: Option<Flush>)
      requires Valid() && out.Valid() && progset.Coherent() && (prog != null ==> prog in progset.programs.order)
      modifies buf, `fill, out, progset`current, progset`previous
      ensures Valid() && out.Valid() && progset.Coherent() && (ok <==> failed.None?)
      ensures Ran(old(progset.View()), old(out.traffic), done + Opt(failed), progset.View(), out.traffic)
      ensures OwnSent(done, TargetOf(prog), stream)
      ensures failed.Some? ==> failed.value.prog == TargetOf(prog) && failed.value.stream == stream && !failed.value.sent
      ensures Accounts(ESC_MIXED, text, old(Pending()), carried, held, done, failed, Pending())
      ensures failed.Some? ==> (held == 0 <==> done == [] && NoRoom(ESC_MIXED, text[0], old(fill)))
      ensures failed.Some? && old(Pending()) == [] ==> held > 0
      ensures AtLeast(if failed.Some? || done == [] then done else done[..|done| - 1], PIPE_BUF - 3 - shift)
      ensures text != [] ==> done != [] || failed != None
      ensures Whole(old(Pending())) ==> AllWhole(done + Opt(failed)) && Whole(Pending())
      ensures old(out.open) && ok ==> out.open
      ensures Extends(old(out.traffic), out.traffic)
    {
      hide FlushView, FlushSent, FlushAttempted, Ran, OwnSent, AtLeast, Multty.Valid, Accounts, Encode, Extends, AllWhole, Whole;
      RoomWhenClean(ESC_MIXED, text);
      var sent;
      sent, held, done, failed := EscapeAndFlush(ESC_MIXED, text, out, progset);
      MixedWish(DLE);
      carried, ok := sent, sent == |text|;
      AccountsAll(ESC_MIXED, text, old(Pending()), sent, held, done, failed, Pending());
    }

    // mtyunescape: decode from the read offset until the buffer or the destination is used up.
    method MtyUnescape(dest: array<byte>, destlen: nat) returns (n: nat)
      requires rdofs <= fill <= buf.Length && destlen <= dest.Length && dest != buf
      modifies dest, `rdofs, `gotDle
      ensures n <= destlen && old(rdofs) <= rdofs <= fill && (n == destlen || rdofs == fill)
      ensures (dest[..n], gotDle) == Unescape(old(gotDle), buf[old(rdofs)..rdofs])
      ensures forall k :: n <= k < dest.Length ==> dest[k] == old(dest[k])
      ensures destlen > 0 && old(rdofs) < fill ==> rdofs > old(rdofs)
    {
      hide Unescape, Emit, Pends;
      n := 0;
      var dle := gotDle;
      UnescapeNone(dle, buf[..], rdofs);
      while n < destlen && rdofs < fill
        invariant n <= destlen && old(rdofs) <= rdofs <= fill && n <= rdofs - old(rdofs)
        invariant (dest[..n], dle) == Unescape(old(gotDle), buf[old(rdofs)..rdofs])
        invariant forall k :: n <= k < dest.Length ==> dest[k] == old(dest[k])
        decreases fill - rdofs
      {
        var c := buf[rdofs];
        UnescapeNext(old(gotDle), buf[..], old(rdofs), rdofs);
        EmitCases(dle, c, dest[..n]);
        rdofs := rdofs + 1;
        if dle {
          n := Store(dest, n, c ^ 0x40);
          dle := false;
        } else if c == DLE {
          dle := true;
        } else {
          n := Store(dest, n, c);
        }
      }
      gotDle := dle;
    }
  }

  // The flushes done carried p0, which was pending before, and then the first carried bytes of data.
  ghost predicate Carries(style: bv32, data: seq<byte>, p0: seq<byte>, carried: nat, done: seq<Flush>, pending: seq<byte>) {
    && carried <= |data|
    && if done == [] then carried == 0 && pending == p0
       else pending == [] && Payloads(done) == p0 + Escape(style, data[..carried])
  }

  // The account of a whole call. If a flush failed, its payload is still pending: what was pending
  // before if nothing went out, and then the held bytes of data that follow the carried ones.
  ghost predicate Accounts(style: bv32, data: seq<byte>, p0: seq<byte>, carried: nat, held: nat,
                           done: seq<Flush>, failed: Option<Flush>, pending: seq<byte>) {
    && carried + held <= |data| && (carried == |data| <==> failed.None?) && (failed.None? ==> held == 0)
    && (if done == [] then carried == 0 else Payloads(done) == p0 + Escape(style, data[..carried]))
    && pending == (if done == [] then p0 else []) + Escape(style, data[carried..carried + held])
    && (failed.Some? ==> pending == failed.value.payload)
  }

  lemma AccountsAll(style: bv32, data: seq<byte>, p0: seq<byte>, carried: nat, held: nat,
                    done: seq<Flush>, failed: Option<Flush>, pending: seq<byte>)
    requires Accounts(style, data, p0, carried, held, done, failed, pending)
    ensures carried == |data| <==> failed.None?
    ensures carried + held <= |data| && (failed.None? ==> held == 0) && (failed.Some? ==> data != [])
  {}

  lemma CarryNothing(style: bv32, data: seq<byte>, p0: seq<byte>)
    ensures Carries(style, data, p0, 0, [], p0)
  {}

  lemma CarryMore(style: bv32, data: seq<byte>, p0: seq<byte>, carried: nat, done: seq<Flush>, pending: seq<byte>,
                  more: nat, f: Flush)
    requires Carries(style, data, p0, carried, done, pending) && carried + more <= |data|
    requires f.payload == pending + Escape(style, data[carried..][..more])
    ensures Carries(style, data, p0, carried + more, done + [f], [])
  {
    hide Escape, Payloads;
    EscapeMore(style, data, carried, more);
    PayloadsConcat(done, f);
    var a, e := Escape(style, data[..carried]), Escape(style, data[carried..][..more]);
    if done == [] {
      assert data[..0] == [] && data[..more] == data[carried..][..more];
      NoPayloads();
      assert [] + f.payload == f.payload;
    } else {
      assert [] + e == e && p0 + (a + e) == (p0 + a) + e;
    }
  }

  lemma CarryFailed(style: bv32, data: seq<byte>, p0: seq<byte>, carried: nat, done: seq<Flush>, pending: seq<byte>,
                    more: nat, f: Flush)
    requires Carries(style, data, p0, carried, done, pending) && carried < |data| && carried + more <= |data|
    requires f.payload == pending + Escape(style, data[carried..][..more])
    ensures Accounts(style, data, p0, carried, more, done, Some(f), f.payload)
  {
    assert data[carried..][..more] == data[carried..carried + more];
  }

  lemma CarryAll(style: bv32, data: seq<byte>, p0: seq<byte>, done: seq<Flush>, pending: seq<byte>)
    requires Carries(style, data, p0, |data|, done, pending)
    ensures Accounts(style, data, p0, |data|, 0, done, None, pending)
  {
    assert data[|data|..|data| + 0] == [];
    assert pending == (if done == [] then p0 else []) + [];
  }

  // The messages that a flush to the given target sends before its frame.
  function ClaimSent(v: View, target: Option<Target>, switched: bool): seq<Message> {
    if target.Some? && switched then SwitchMessage(v, target.value.id, target.value.descr) else []
  }

  lemma SplitSent(v: View, f: Flush, t: Traffic)
    ensures t.log + FlushSent(v, f) ==
            if f.sent then (t.log + ClaimSent(v, f.prog, f.switched)) + [Data(f.stream, f.payload)]
            else t.log + ClaimSent(v, f.prog, f.switched)
    ensures t.attempted + FlushAttempted(v, f) ==
            (t.attempted + ClaimSent(v, f.prog, true)) + [Data(f.stream, f.payload)]
  {}

  // The flushes fs took the view from v0 to v, and the traffic from t0 to t.
  ghost predicate Ran(v0: View, t0: Traffic, fs: seq<Flush>, v: View, t: Traffic) {
    && v == RunView(v0, fs) && t.log == t0.log + RunSent(v0, fs)
    && t.attempted == t0.attempted + RunAttempted(v0, fs)
  }

  lemma NoFlushes(v: View, t: Traffic, target: Option<Target>, stream: Option<Name>)
    ensures Ran(v, t, [], v, t) && OwnSent([], target, stream)
    ensures forall k :: AtLeast([], k)
  {}

  lemma AddFlush(v0: View, t0: Traffic, fs: seq<Flush>, v: View, t: Traffic, f: Flush, t': Traffic)
    requires Ran(v0, t0, fs, v, t)
    requires t'.log == t.log + FlushSent(v, f) && t'.attempted == t.attempted + FlushAttempted(v, f)
    ensures Ran(v0, t0, fs + [f], FlushView(v, f), t')
  {
    hide FlushView, FlushSent, FlushAttempted, RunView, RunSent, RunAttempted;
    RunConcat(v0, fs, [f]);
    RunOne(v, f);
    Assoc(t0.log, RunSent(v0, fs), FlushSent(v, f));
    Assoc(t0.attempted, RunAttempted(v0, fs), FlushAttempted(v, f));
  }

  lemma {:induction false} PayloadsConcat(fs: seq<Flush>, f: Flush)
    ensures Payloads(fs + [f]) == Payloads(fs) + f.payload
  {
    if fs == [] {
      assert [f][1..] == [] && f.payload + [] == f.payload;
    } else {
      assert (fs + [f])[1..] == fs[1..] + [f];
      PayloadsConcat(fs[1..], f);
    }
  }

  lemma NoneWhole()
    ensures AllWhole([]) && Whole([])
  {}

  lemma AddWhole(style: bv32, fs: seq<Flush>, p: seq<byte>, f: Flush, s: seq<byte>)
    requires f.payload == p + Escape(style, s)
    ensures AllWhole(fs) && Whole(p) && EscapeWish(style, DLE) ==> AllWhole(fs + [f]) && Whole(f.payload)
  {
    hide Whole;
    if Whole(p) && EscapeWish(style, DLE) {
      WholeMore(style, p, s);
    }
  }

  lemma NoPayloads()
    ensures Payloads([]) == []
  {}

  lemma AddSent(fs: seq<Flush>, f: Flush, target: Option<Target>, stream: Option<Name>, size: int)
    requires OwnSent(fs, target, stream) && f.prog == target && f.stream == stream && f.sent && AtLeast(fs, size)
    ensures OwnSent(fs + [f], target, stream) && (fs + [f])[..|fs|] == fs
    ensures |f.payload| >= size ==> AtLeast(fs + [f], size)
  {}

  lemma EscapeMore(style: bv32, data: seq<byte>, carried: nat, more: nat)
    requires carried + more <= |data|
    ensures data[carried..][..more] == data[carried..carried + more]
    ensures Escape(style, data[..carried + more]) ==
            Escape(style, data[..carried]) + Escape(style, data[carried..][..more])
  {
    hide Escape;
    var next := data[carried..][..more];
    assert data[..carried + more] == data[..carried] + next;
    EscapeConcat(style, data[..carried], next);
  }

  method Store(dest: array<byte>, n: nat, c: byte) returns (n': nat)
    requires n < dest.Length
    modifies dest
    ensures n' == n + 1 && dest[..n'] == old(dest[..n]) + [c]
    ensures forall k :: n' <= k < dest.Length ==> dest[k] == old(dest[k])
  {
    dest[n] := c;
    n' := n + 1;
  }

  lemma EmitCases(dle: bool, c: byte, before: seq<byte>)
    ensures before + Emit(dle, c) == if dle then before + [c ^ 0x40] else if c == DLE then before else before + [c]
    ensures Pends(dle, c) == (!dle && c == DLE)
  {}

  lemma UnescapeNone(dle: bool, s: seq<byte>, i: nat)
    requires i <= |s|
    ensures Unescape(dle, s[i..i]) == ([], dle)
  {}

  lemma UnescapeNext(dle: bool, s: seq<byte>, from: nat, i: nat)
    requires from <= i < |s|
    ensures var (x, d) := Unescape(dle, s[from..i]);
            Unescape(dle, s[from..i + 1]) == (x + Emit(d, s[i]), Pends(d, s[i]))
  {
    var d := Unescape(dle, s[from..i]).1;
    assert s[from..i + 1] == s[from..i] + [s[i]];
    UnescapeConcat(dle, s[from..i], [s[i]]);
    UnescapeOne(d, s[i]);
  }

  lemma FrameLayout(stream: Option<Name>, payload: seq<byte>)
    ensures Encode(Data(stream, payload)) ==
            Prefix(stream) + payload + (if |Prefix(stream)| > 0 then [SO] else [])
  {
    assert stream.None? ==> Prefix(stream) + payload + [] == payload;
  }

  lemma NothingEscaped(style: bv32, data: seq<byte>)
    ensures Escape(style, data[..0]) == []
  {}

  lemma Appended(s: seq<byte>, a: seq<byte>, b: seq<byte>, k: nat)
    requires s == a + b && k <= |a|
    ensures s[..k] == a[..k] && s[k..] == a[k..] + b
  {}

  lemma EscapeNext(style: bv32, data: seq<byte>, i: nat)
    requires i < |data|
    ensures Escape(style, data[..i + 1]) == Escape(style, data[..i]) + EscapeByte(style, data[i])
    ensures |EscapeByte(style, data[i])| == if EscapeWish(style, data[i]) then 2 else 1
  {
    assert data[..i + 1] == data[..i] + [data[i]];
    EscapeConcat(style, data[..i], [data[i]]);
    assert [data[i]][1..] == [];
    assert EscapeByte(style, data[i]) + [] == EscapeByte(style, data[i]);
  }
}
