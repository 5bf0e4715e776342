/** What a writer can conclude from the outcome of a write: frames, wire size, retries, and the
    state of the line over a whole run. */
module Accounting {
  import opened Bytes
  import opened EscapeCodec
  import opened Wire
  import opened Switching
  import opened Demux
  import opened Programs
  import opened Streams

  /* Frame count and wire size of a write that succeeded */

  // The bytes of the frames alone, without program switches.
  function FrameBytes(fs: seq<Flush>): nat {
    if fs == [] then 0 else |Encode(Data(fs[0].stream, fs[0].payload))| + FrameBytes(fs[1..])
  }

  lemma {:induction false} FrameSizes(fs: seq<Flush>, target: Option<Target>, stream: Option<Name>)
    requires OwnSent(fs, target, stream)
    ensures FrameBytes(fs) == |Payloads(fs)| + |fs| * (if stream.None? then 0 else |Prefix(stream)| + 1)
  {
    if fs != [] {
      FrameSizes(fs[1..], target, stream);
      var k := if stream.None? then 0 else |Prefix(stream)| + 1;
      assert |fs| * k == (|fs| - 1) * k + k;
    }
  }

  lemma {:induction false} LargePayloads(fs: seq<Flush>, size: int)
    requires AtLeast(fs, size)
    ensures |fs| * size <= |Payloads(fs)|
  {
    if fs != [] {
      LargePayloads(fs[1..], size);
      assert |fs| * size == (|fs| - 1) * size + size;
    }
  }

  lemma {:induction false} PayloadsFront(fs: seq<Flush>)
    requires fs != []
    ensures |Payloads(fs[..|fs| - 1])| <= |Payloads(fs)|
  {
    PayloadsConcat(fs[..|fs| - 1], fs[|fs| - 1]);
    assert fs[..|fs| - 1] + [fs[|fs| - 1]] == fs;
  }

  // A successful mtywrite from a clean handle: few frames, and an exact number of bytes in them.
  lemma FrameCount(data: seq<byte>, done: seq<Flush>, target: Option<Target>, stream: Option<Name>, shift: nat)
    requires data != [] && Accounts(ESC_BINARY, data, [], |data|, 0, done, None, []) && done != []
    requires OwnSent(done, target, stream) && shift == |Prefix(stream)|
    requires AtLeast(done[..|done| - 1], PIPE_BUF - 3 - shift)
    ensures (|done| - 1) * (PIPE_BUF - 3 - shift) <= 2 * |data|
    ensures FrameBytes(done) == |Escape(ESC_BINARY, data)| + |done| * (if shift > 0 then shift + 1 else 0)
  {
    assert data[..|data|] == data;
    LargePayloads(done[..|done| - 1], PIPE_BUF - 3 - shift);
    PayloadsFront(done);
    FrameSizes(done, target, stream);
  }

  // Without a program, that is all that goes out.
  lemma {:induction false} FramesAreAll(v: View, fs: seq<Flush>, stream: Option<Name>)
    requires OwnSent(fs, None, stream)
    ensures |EncodeAll(RunSent(v, fs))| == FrameBytes(fs)
    decreases fs
  {
    if fs != [] {
      FramesAreAll(v, fs[1..], stream);
      var m := Data(fs[0].stream, fs[0].payload);
      assert FlushSent(v, fs[0]) == [m];
      EncodeConcat([m], RunSent(v, fs[1..]));
      EncodeOne(m);
    }
  }

  /* A failed write and its retry */

  // For every outcome: what went out and what is pending now are what was pending before and the
  // escaped form of the bytes that the call took in.
  lemma Conserved(style: bv32, data: seq<byte>, p0: seq<byte>, carried: nat, held: nat,
                  done: seq<Flush>, failed: Option<Flush>, pending: seq<byte>)
    requires Accounts(style, data, p0, carried, held, done, failed, pending)
    ensures carried + held <= |data|
    ensures Payloads(done) + pending == p0 + Escape(style, data[..carried + held])
    ensures carried == |data| && data != [] ==> pending == []
  {
    hide Escape;
    var a, h := data[..carried], data[carried..carried + held];
    assert data[..carried + held] == a + h;
    EscapeConcat(style, a, h);
    if done == [] {
      assert a == [];
      NothingEscaped(style, data);
      assert [] + Escape(style, h) == Escape(style, h) && [] + (p0 + Escape(style, h)) == p0 + Escape(style, h);
    } else {
      assert [] + Escape(style, h) == Escape(style, h);
      Assoc(p0, Escape(style, a), Escape(style, h));
      assert failed.None? ==> h == [] && data[..0] == [];
      NothingEscaped(style, data);
    }
  }

  // A call that stops at count, and a second one that writes data[count..] as its caller would for
  // write: the held bytes go out twice. Both together carry the data if and only if the buffer had
  // no room for the first byte and it was the first flush that failed.
  lemma RetryRepeats(data: seq<byte>, p0: seq<byte>, fill0: nat, count: nat, held: nat,
                     done: seq<Flush>, failed: Flush, pending: seq<byte>, done2: seq<Flush>, pending2: seq<byte>)
    requires Accounts(ESC_BINARY, data, p0, count, held, done, Some(failed), pending)
    requires held == 0 <==> done == [] && NoRoom(ESC_BINARY, data[0], fill0)
    requires Accounts(ESC_BINARY, data[count..], pending, |data[count..]|, 0, done2, None, pending2)
    ensures Payloads(done) + Payloads(done2) == p0 + Escape(ESC_BINARY, data[..count + held] + data[count..])
    ensures Payloads(done) + Payloads(done2) == p0 + Escape(ESC_BINARY, data)
            <==> done == [] && NoRoom(ESC_BINARY, data[0], fill0)
  {
    hide Escape, Unescape, Payloads, NoRoom, Accounts;
    AccountsAll(ESC_BINARY, data, p0, count, held, done, Some(failed), pending);
    var taken, rest := data[..count + held], data[count..];
    var both := taken + rest;
    TwoCalls(data, p0, count, held, done, Some(failed), pending, rest, |rest|, 0, done2, None, pending2);
    assert rest[..|rest|] == rest && Payloads(done2) + [] == Payloads(done2);
    assert held == 0 ==> both == data;
    if p0 + Escape(ESC_BINARY, both) == p0 + Escape(ESC_BINARY, data) {
      SameSuffix(p0, Escape(ESC_BINARY, both), Escape(ESC_BINARY, data));
      BinaryWish(DLE);
      RoundTrip(ESC_BINARY, both);
      RoundTrip(ESC_BINARY, data);
      assert |both| == |data| + held;
    }
  }

  // Whereas a caller that goes on after the bytes taken in, rather than the bytes counted, has the
  // two calls add up to what they took in, whatever the outcome of the second.
  lemma ResumeContinues(data: seq<byte>, p0: seq<byte>, count: nat, held: nat,
                        done: seq<Flush>, failed: Flush, pending: seq<byte>,
                        count2: nat, held2: nat, done2: seq<Flush>, failed2: Option<Flush>, pending2: seq<byte>)
    requires Accounts(ESC_BINARY, data, p0, count, held, done, Some(failed), pending)
    requires Accounts(ESC_BINARY, data[count + held..], pending, count2, held2, done2, failed2, pending2)
    ensures Payloads(done) + (Payloads(done2) + pending2) ==
            p0 + Escape(ESC_BINARY, data[..count + held + count2 + held2])
    ensures failed2.None? ==> Payloads(done) + (Payloads(done2) + pending2) == p0 + Escape(ESC_BINARY, data)
  {
    hide Escape, Payloads, Accounts;
    AccountsAll(ESC_BINARY, data, p0, count, held, done, Some(failed), pending);
    var rest := data[count + held..];
    AccountsAll(ESC_BINARY, rest, pending, count2, held2, done2, failed2, pending2);
    TwoCalls(data, p0, count, held, done, Some(failed), pending, rest, count2, held2, done2, failed2, pending2);
    assert data[..count + held] + rest[..count2 + held2] == data[..count + held + count2 + held2];
    assert failed2.None? ==> data[..count + held + count2 + held2] == data;
  }

  lemma TwoCalls(data: seq<byte>, p0: seq<byte>, count: nat, held: nat,
                 done: seq<Flush>, failed: Option<Flush>, pending: seq<byte>, data2: seq<byte>,
                 count2: nat, held2: nat, done2: seq<Flush>, failed2: Option<Flush>, pending2: seq<byte>)
    requires Accounts(ESC_BINARY, data, p0, count, held, done, failed, pending)
    requires Accounts(ESC_BINARY, data2, pending, count2, held2, done2, failed2, pending2)
    ensures Payloads(done) + (Payloads(done2) + pending2) ==
            p0 + Escape(ESC_BINARY, data[..count + held] + data2[..count2 + held2])
    ensures count2 == |data2| && data2 != [] ==> pending2 == []
  {
    hide Escape, Payloads, Accounts;
    Conserved(ESC_BINARY, data, p0, count, held, done, failed, pending);
    Conserved(ESC_BINARY, data2, pending, count2, held2, done2, failed2, pending2);
    var a, b := data[..count + held], data2[..count2 + held2];
    EscapeConcat(ESC_BINARY, a, b);
    Assoc(Payloads(done), pending, Escape(ESC_BINARY, b));
    Assoc(p0, Escape(ESC_BINARY, a), Escape(ESC_BINARY, b));
  }

  lemma SameSuffix(p: seq<byte>, a: seq<byte>, b: seq<byte>)
    requires p + a == p + b
    ensures a == b
  {
    assert (p + a)[|p|..] == a && (p + b)[|p|..] == b;
  }

  // The two calls themselves. From a handle with nothing pending the retry always repeats data.
  method WriteAndRetry(h: Multty, data: seq<byte>, out: Stdout, progset: ProgSet)
    returns (retried: bool, complete: bool, ghost done: seq<Flush>, ghost done2: seq<Flush>)
    requires h.Valid() && out.Valid() && progset.Coherent() && (h.prog != null ==> h.prog in progset.programs.order)
    modifies h.buf, h`fill, out, progset`current, progset`previous
    ensures h.Valid() && out.Valid() && progset.Coherent()
    ensures !retried ==> complete && done2 == []
    ensures OwnSent(done + done2, TargetOf(h.prog), h.stream)
    ensures complete && data != [] ==>
              (Payloads(done) + Payloads(done2) == old(h.Pending()) + Escape(ESC_BINARY, data)
               <==> !retried || (done == [] && NoRoom(ESC_BINARY, data[0], old(h.fill))))
    ensures complete && retried && old(h.Pending()) == [] ==>
              Payloads(done) + Payloads(done2) != Escape(ESC_BINARY, data)
  {
    hide Escape, Payloads, Accounts, Ran, AtLeast, NoRoom, AllWhole, Whole, Extends, Multty.Valid, Stdout.Valid, ProgSet.Coherent;
    var count;
    ghost var held, failed;
    ghost var p0, fill0 := h.Pending(), h.fill;
    h.RoomWhenClean(ESC_BINARY, data);
    count, held, done, failed := h.MtyWrite(data, out, progset);
    AccountsAll(ESC_BINARY, data, p0, count, held, done, failed, h.Pending());
    retried, complete, done2 := count < |data|, true, [];
    if retried {
      ghost var pending := h.Pending();
      var count2;
      ghost var held2, failed2;
      count2, held2, done2, failed2 := h.MtyWrite(data[count..], out, progset);
      complete := count2 == |data[count..]|;
      AccountsAll(ESC_BINARY, data[count..], pending, count2, held2, done2, failed2, h.Pending());
      if complete {
        RetryRepeats(data, p0, fill0, count, held, done, failed.value, pending, done2, h.Pending());
        assert p0 == [] ==> p0 + Escape(ESC_BINARY, data) == Escape(ESC_BINARY, data);
      }
    } else {
      Conserved(ESC_BINARY, data, p0, count, held, done, failed, h.Pending());
      NoPayloads();
      assert data[..count + held] == data;
    }
  }

  /* The line over a run of attempts */

  // Each state of the line follows from the one before by an attempt to send one message.
  ghost predicate LineRun(ts: seq<Traffic>, ms: seq<Message>, oks: seq<bool>) {
    && |ts| == |ms| + 1 && |oks| == |ms|
    && forall i, j :: 0 <= i && i + 1 == j < |ts| ==> Attempt(ts[i], ms[i], ts[j], oks[i])
  }

  // Over every run, with every pattern of errors and short writes: the line holds the messages that
  // were reported as sent, in order, and at most the start of one more, message k; with that it is
  // closed, and nothing succeeds any more.
  lemma {:induction false} LineHolds(ts: seq<Traffic>, ms: seq<Message>, oks: seq<bool>) returns (k: nat)
    requires LineRun(ts, ms, oks) && ts[0].open && ts[0].cut == []
    ensures ts[|ms|].log == ts[0].log + Succeeded(ms, oks)
    ensures ts[|ms|].open ==> ts[|ms|].cut == []
    ensures !ts[|ms|].open ==> k < |ms| && ts[|ms|].cut < Encode(ms[k]) && forall i :: k <= i < |ms| ==> !oks[i]
  {
    hide Encode;
    k := 0;
    if ms == [] {
      assert ts[0].log + [] == ts[0].log;
    } else {
      var t1 := ts[1];
      assert Attempt(ts[0], ms[0], t1, oks[0]);
      if t1.open {
        LineTail(ts, ms, oks);
        var k' := LineHolds(ts[1..], ms[1..], oks[1..]);
        assert ts[1..][|ms| - 1] == ts[|ms|];
        k := k' + 1;
        assert forall i :: 1 <= i < |ms| ==> oks[i] == oks[1..][i - 1];
        LogGrows(ts[0].log, ms, oks);
      } else {
        ClosedForever(ts, ms, oks, 1);
        NothingSucceeds(ms, oks);
        assert ts[0].log + [] == ts[0].log;
      }
    }
  }

  lemma LineTail(ts: seq<Traffic>, ms: seq<Message>, oks: seq<bool>)
    requires LineRun(ts, ms, oks) && ms != []
    ensures LineRun(ts[1..], ms[1..], oks[1..])
  {
    hide Attempt;
    forall i, j | 0 <= i && i + 1 == j < |ts[1..]| ensures Attempt(ts[1..][i], ms[1..][i], ts[1..][j], oks[1..][i]) {
      assert Attempt(ts[i + 1], ms[i + 1], ts[j + 1], oks[i + 1]);
    }
  }

  lemma LogGrows(log: seq<Message>, ms: seq<Message>, oks: seq<bool>)
    requires |ms| == |oks| && ms != []
    ensures log + Succeeded(ms, oks) == (if oks[0] then log + [ms[0]] else log) + Succeeded(ms[1..], oks[1..])
  {}

  // Once the line is closed, nothing is ever written again.
  lemma {:induction false} ClosedForever(ts: seq<Traffic>, ms: seq<Message>, oks: seq<bool>, k: nat)
    requires LineRun(ts, ms, oks) && k < |ts| && !ts[k].open
    ensures forall i :: k <= i < |ts| ==> SameLine(ts[i], ts[k])
    ensures forall i :: k <= i < |ms| ==> !oks[i]
    decreases |ts| - k
  {
    if k < |ms| {
      assert Attempt(ts[k], ms[k], ts[k + 1], oks[k]);
      ClosedForever(ts, ms, oks, k + 1);
    }
  }

  lemma {:induction false} NothingSucceeds(ms: seq<Message>, oks: seq<bool>)
    requires |ms| == |oks| && forall i :: 0 <= i < |ms| ==> !oks[i]
    ensures Succeeded(ms, oks) == []
  {
    if ms != [] {
      NothingSucceeds(ms[1..], oks[1..]);
    }
  }
}
