/** What goes out on file descriptor 1, and `mtyv_out`, the only writer to it (lib/vout.c). */
module Wire {
  import opened Bytes

  type Name = seq<byte>

  // The units that are sent atomically: a stream frame, and the two program switches.
  datatype Message =
    | Data(stream: Option<Name>, payload: seq<byte>)
    | SwitchTo(name: Name)
    | SwitchBack

  // The bytes before the payload of a frame: SOH, the stream name, SO. None for stdout.
  function Prefix(stream: Option<Name>): seq<byte> {
    match stream
    case None => []
    case Some(n) => [SOH] + n + [SO]
  }

  function Encode(m: Message): seq<byte> {
    match m
    case Data(None, payload) => payload
    case Data(Some(n), payload) => Prefix(Some(n)) + payload + [SO]
    case SwitchTo(name) => [SOH] + name + [PSW]
    case SwitchBack => [PSW]
  }

  // The codes on the wire: SOH, SO and DC4.
  lemma WireCodes(n: Name, payload: seq<byte>)
    ensures Encode(Data(None, payload)) == payload
    ensures Encode(Data(Some(n), payload)) == [0x01] + n + [0x0e] + payload + [0x0e]
    ensures Encode(SwitchTo(n)) == [0x01] + n + [0x14] && Encode(SwitchBack) == [0x14]
  {}

  function EncodeAll(ms: seq<Message>): seq<byte> {
    if ms == [] then [] else Encode(ms[0]) + EncodeAll(ms[1..])
  }

  lemma {:induction false} EncodeConcat(a: seq<Message>, b: seq<Message>)
    ensures EncodeAll(a + b) == EncodeAll(a) + EncodeAll(b)
  {
    if a == [] {
      assert a + b == b;
    } else {
      assert (a + b)[1..] == a[1..] + b;
      EncodeConcat(a[1..], b);
      Assoc(Encode(a[0]), EncodeAll(a[1..]), EncodeAll(b));
    }
  }

  lemma EncodeOne(m: Message)
    ensures EncodeAll([m]) == Encode(m)
  {
    assert [m][1..] == [];
    assert Encode(m) + [] == Encode(m);
  }

  // The messages sent in full, the start of one that was cut short, and all that were attempted,
  // with the outcome of each.
  datatype Traffic = Traffic(open: bool, log: seq<Message>, cut: seq<byte>, attempted: seq<Message>, oks: seq<bool>)

  const IDLE := Traffic(true, [], [], [], [])

  function Succeeded(ms: seq<Message>, oks: seq<bool>): seq<Message>
    requires |ms| == |oks|
  {
    if ms == [] then [] else (if oks[0] then [ms[0]] else []) + Succeeded(ms[1..], oks[1..])
  }

  lemma {:induction false} SucceededConcat(a: seq<Message>, oksA: seq<bool>, b: seq<Message>, oksB: seq<bool>)
    requires |a| == |oksA| && |b| == |oksB|
    ensures Succeeded(a + b, oksA + oksB) == Succeeded(a, oksA) + Succeeded(b, oksB)
  {
    if a == [] {
      assert a + b == b && oksA + oksB == oksB;
    } else {
      assert (a + b)[1..] == a[1..] + b && (oksA + oksB)[1..] == oksA[1..] + oksB;
      SucceededConcat(a[1..], oksA[1..], b, oksB);
      Assoc(if oksA[0] then [a[0]] else [], Succeeded(a[1..], oksA[1..]), Succeeded(b, oksB));
    }
  }

  lemma SucceededOne(m: Message, ok: bool)
    ensures Succeeded([m], [ok]) == if ok then [m] else []
  {
    assert [m][1..] == [] && [ok][1..] == [];
  }

  // Every outcome that the attempt to send m may have.
  ghost predicate Attempt(before: Traffic, m: Message, after: Traffic, ok: bool) {
    && after.attempted == before.attempted + [m] && after.oks == before.oks + [ok]
    && if ok then before.open && after.open && after.log == before.log + [m] && after.cut == before.cut
       else
         && after.log == before.log
         && (if after.open == before.open then after.cut == before.cut
             else before.open && after.cut < Encode(m))
  }

  function Missed(t: Traffic, m: Message): Traffic {
    t.(attempted := t.attempted + [m], oks := t.oks + [false])
  }

  function CutShort(t: Traffic, m: Message, part: seq<byte>): Traffic {
    Missed(t, m).(open := false, cut := part)
  }

  function Sent(t: Traffic, m: Message): Traffic {
    t.(attempted := t.attempted + [m], oks := t.oks + [true], log := t.log + [m])
  }

  // The cut is the start of a message that was attempted as number from or later, and nothing
  // that was attempted after it succeeded.
  ghost predicate CutFrom(t: Traffic, from: nat) {
    exists k :: from <= k < |t.attempted| && t.cut < Encode(t.attempted[k])
                && forall i :: k <= i < |t.oks| ==> !t.oks[i]
  }

  // What the line may hold: the messages that succeeded, and once it is closed the start of one more.
  ghost predicate LineOk(t: Traffic) {
    && |t.oks| == |t.attempted| && t.log == Succeeded(t.attempted, t.oks)
    && if t.open then t.cut == [] else CutFrom(t, 0)
  }

  // On the wire the two are the same.
  ghost predicate SameLine(a: Traffic, b: Traffic) {
    a.open == b.open && a.log == b.log && a.cut == b.cut
  }

  // An open line is only added to; if it is closed, that is by a message attempted since. A closed
  // line stays as it is, and nothing succeeds any more.
  ghost predicate Extends(a: Traffic, b: Traffic) {
    && a.attempted <= b.attempted && a.oks <= b.oks
    && if a.open then a.log <= b.log && (!b.open ==> CutFrom(b, |a.attempted|))
       else SameLine(a, b) && forall i :: |a.oks| <= i < |b.oks| ==> !b.oks[i]
  }

  // Whatever comes of an attempt, the line is as it should be.
  lemma AttemptKeepsLine(a: Traffic, m: Message, b: Traffic, ok: bool)
    requires LineOk(a) && Attempt(a, m, b, ok)
    ensures LineOk(b) && Extends(a, b)
  {
    hide Encode, Succeeded;
    SucceededConcat(a.attempted, a.oks, [m], [ok]);
    SucceededOne(m, ok);
    assert a.log + [] == a.log;
    if !b.open {
      assert b.attempted[|a.attempted|] == m;
      if !a.open {
        var k :| 0 <= k < |a.attempted| && a.cut < Encode(a.attempted[k]) && forall i :: k <= i < |a.oks| ==> !a.oks[i];
        assert b.attempted[k] == a.attempted[k];
      }
    }
  }

  lemma ExtendsOn(a: Traffic, b: Traffic, c: Traffic)
    requires Extends(a, b) && Extends(b, c)
    ensures Extends(a, c)
  {
    hide Encode;
    if a.open && !b.open {
      var k :| |a.attempted| <= k < |b.attempted| && b.cut < Encode(b.attempted[k])
               && forall i :: k <= i < |b.oks| ==> !b.oks[i];
      assert c.attempted[k] == b.attempted[k];
    }
  }

  // What happened on an open line since it held bytes0: of the messages attempted, those that succeeded
  // were added in full; a cut, which is the start of message k, closed it, and after that none succeeded.
  ghost predicate LineStory(bytes0: seq<byte>, bytes: seq<byte>, open: bool, cut: seq<byte>,
                            attempted: seq<Message>, oks: seq<bool>) {
    && |oks| == |attempted| && bytes == bytes0 + EncodeAll(Succeeded(attempted, oks)) + cut
    && if open then cut == []
       else exists k :: 0 <= k < |attempted| && cut < Encode(attempted[k]) && forall i :: k <= i < |oks| ==> !oks[i]
  }

  lemma LineTold(t0: Traffic, bytes0: seq<byte>, t: Traffic, bytes: seq<byte>, ms: seq<Message>)
    requires LineOk(t0) && t0.open && bytes0 == EncodeAll(t0.log) + t0.cut
    requires LineOk(t) && bytes == EncodeAll(t.log) + t.cut && Extends(t0, t) && t.attempted == t0.attempted + ms
    ensures LineStory(bytes0, bytes, t.open, t.cut, ms, t.oks[|t0.oks|..])
  {
    hide Encode, EncodeAll, Succeeded;
    var oks := t.oks[|t0.oks|..];
    assert t.oks == t0.oks + oks;
    SucceededConcat(t0.attempted, t0.oks, ms, oks);
    EncodeConcat(t0.log, Succeeded(ms, oks));
    assert bytes0 == EncodeAll(t0.log);
    if !t.open {
      var k :| |t0.attempted| <= k < |t.attempted| && t.cut < Encode(t.attempted[k])
               && forall i :: k <= i < |t.oks| ==> !t.oks[i];
      var d := |t0.attempted|;
      assert ms[k - d] == t.attempted[k];
      assert forall i :: k - d <= i < |oks| ==> oks[i] == t.oks[i + d];
    }
  }

  lemma ExtendsHere(a: Traffic)
    ensures Extends(a, a)
  {}

  lemma LineOpen(t: Traffic)
    requires LineOk(t) && t.open
    ensures t.cut == []
  {}

  lemma EncodeMore(log: seq<Message>, m: Message)
    ensures EncodeAll(log + [m]) + [] == EncodeAll(log) + [] + Encode(m)
  {
    EncodeConcat(log, [m]);
    EncodeOne(m);
  }

  class Stdout {
    var open: bool
    var bytes: seq<byte>
    ghost var traffic: Traffic
    ghost var results: seq<int> // what writev returned, call by call

    // fd 1 holds the messages that succeeded, in order and in full; once it is closed the start of
    // one more, the last that had any effect, may follow.
    ghost predicate Valid()
      reads this
    {
      traffic.open == open && LineOk(traffic) && bytes == EncodeAll(traffic.log) + traffic.cut
    }

    lemma Holds()
      requires Valid()
      ensures traffic.open == open && LineOk(traffic) && bytes == EncodeAll(traffic.log) + traffic.cut
    {}

    constructor ()
      ensures Valid() && traffic == IDLE && bytes == [] && results == []
    {
      open, bytes, traffic, results := true, [], IDLE, [];
    }

    // writev on fd 1: an error, or any part of the data.
    method Writev(data: seq<byte>) returns (out: int)
      modifies `bytes, `results
      ensures results == old(results) + [out]
      ensures -1 <= out <= |data| && (!open ==> out == -1)
      ensures bytes == old(bytes) + (if out < 0 then [] else data[..out])
    {
      out :| -1 <= out <= |data|;
      if !open {
        out := -1;
      }
      if out >= 0 {
        bytes := bytes + data[..out];
      }
      results := results + [out];
    }

    // mtyv_out. What happens is decided by the size and by the result of writev.
    method MtyvOut(data: seq<byte>, ghost m: Message) returns (ok: bool)
      requires Valid() && data == Encode(m)
      modifies this
      ensures Valid() && Attempt(old(traffic), m, traffic, ok) && Extends(old(traffic), traffic)
      ensures if |data| > PIPE_BUF then results == old(results) && !ok && SameLine(old(traffic), traffic)
              else
                && |results| == |old(results)| + 1 && old(results) == results[..|old(results)|]
                && var out := results[|old(results)|];
                   && -1 <= out <= |data| && (!old(open) ==> out == -1)
                   && (ok <==> out == |data|)
                   && (out == -1 ==> SameLine(old(traffic), traffic))
                   && (0 <= out < |data| ==> !open && traffic.cut == data[..out])
      ensures bytes == old(bytes) + (if ok then data else if old(open) && !open then traffic.cut else [])
      ensures !old(open) ==> !ok && bytes == old(bytes)
    {
      hide Encode, EncodeAll, LineOk, Extends;
      ghost var t := traffic;
      if |data| > PIPE_BUF {
        traffic := Missed(t, m);
        AttemptKeepsLine(t, m, traffic, false);
        return false;
      }
      var out := Writev(data);
      if out < 0 {
        traffic := Missed(t, m);
        AttemptKeepsLine(t, m, traffic, false);
        return false;
      } else if out != |data| {
        open := false;
        traffic := CutShort(t, m, data[..out]);
        AttemptKeepsLine(t, m, traffic, false);
        LineOpen(t);
        return false;
      } else {
        traffic := Sent(t, m);
        AttemptKeepsLine(t, m, traffic, true);
        LineOpen(t);
        EncodeMore(t.log, m);
        return true;
      }
    }
  }
}
