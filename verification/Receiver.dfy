/** The receiving side as the documentation prescribes it (doc/ASCII.MD): names that start
    with SOH, stream shifts by SO or SI, and program switches by DC4 (PSW). */
module Receiver {
  import opened Bytes
  import opened EscapeCodec
  import opened Wire

  // Where a payload byte ends up: the program and the stream, None for the default stream.
  datatype Channel = Channel(prog: Option<Name>, stream: Option<Name>)
  datatype Delivery = Delivery(chan: Channel, b: byte)

  datatype Naming = Naming(acc: seq<byte>, us: bool)

  // streams holds the programs that are on a named stream.
  datatype Rx = Rx(cur: Option<Name>, prev: Option<Name>, streams: map<Option<Name>, Name>,
                   naming: Option<Naming>, trace: seq<Delivery>)

  const START := Rx(None, None, map[], None, [])

  function Here(rx: Rx): Channel {
    Channel(rx.cur, if rx.cur in rx.streams then Some(rx.streams[rx.cur]) else None)
  }

  // What distinguishes a program name: up to and including a US among the first
  // 33 characters, otherwise the first 32 characters.
  function NameKey(name: Name): Name {
    var u := IndexOfUS(name);
    if u < |name| && u <= 32 then name[..u + 1]
    else if |name| <= 32 then name else name[..32]
  }

  function IndexOfUS(s: seq<byte>): (i: nat)
    ensures i <= |s| && (i < |s| ==> s[i] == US)
    ensures forall j :: 0 <= j < i ==> s[j] != US
  {
    if s == [] || s[0] == US then 0 else 1 + IndexOfUS(s[1..])
  }

  // Does b end a name? Before US any control code does, after it those that are always escaped.
  predicate EndsName(us: bool, b: byte) {
    EscapeWish(if us then ESC_MIXED else ESC_BINARY, b)
  }

  function ApplyName(rx: Rx, name: Name, control: byte): Rx {
    if control == SO || control == SI then rx.(naming := None, streams := rx.streams[rx.cur := name])
    else if control == PSW then rx.(naming := None, cur := Some(NameKey(name)), prev := rx.cur)
    else if control == SOH then rx.(naming := Some(Naming([], false)))
    else rx.(naming := None)
  }

  function Step(rx: Rx, b: byte): Rx {
    if rx.naming.Some? then
      var n := rx.naming.value;
      if b == US && !n.us then rx.(naming := Some(Naming(n.acc + [b], true)))
      else if EndsName(n.us, b) then ApplyName(rx, n.acc, b)
      else rx.(naming := Some(Naming(n.acc + [b], n.us)))
    else if b == SOH then rx.(naming := Some(Naming([], false)))
    else if b == SO || b == SI then rx.(streams := rx.streams - {rx.cur})
    else if b == PSW then rx.(cur := rx.prev, prev := rx.cur)
    else rx.(trace := rx.trace + [Delivery(Here(rx), b)])
  }

  function Parse(rx: Rx, s: seq<byte>): Rx
    decreases s
  {
    if s == [] then rx else Parse(Step(rx, s[0]), s[1..])
  }

  lemma {:induction false} ParseConcat(rx: Rx, a: seq<byte>, b: seq<byte>)
    ensures Parse(rx, a + b) == Parse(Parse(rx, a), b)
    decreases a
  {
    if a == [] {
      assert a + b == b;
    } else {
      assert (a + b)[1..] == a[1..] + b;
      ParseConcat(Step(rx, a[0]), a[1..], b);
    }
  }

  lemma ParseOne(rx: Rx, b: byte)
    ensures Parse(rx, [b]) == Step(rx, b)
  {
    assert [b][1..] == [];
  }

  // Between messages no name is being read and every program is on its default stream.
  predicate AtRest(rx: Rx) {
    rx.naming == None && rx.streams == map[]
  }

  // A payload that holds none of the codes that steer the receiver.
  predicate Plain(s: seq<byte>) {
    forall i :: 0 <= i < |s| ==> s[i] != SOH && s[i] != SO && s[i] != SI && s[i] != PSW
  }

  function Tag(chan: Channel, s: seq<byte>): seq<Delivery> {
    seq(|s|, i requires 0 <= i < |s| => Delivery(chan, s[i]))
  }

  lemma {:induction false} ParsePlain(rx: Rx, s: seq<byte>)
    requires rx.naming == None && Plain(s)
    ensures Parse(rx, s) == rx.(trace := rx.trace + Tag(Here(rx), s))
    decreases s
  {
    if s == [] {
      assert rx.trace + Tag(Here(rx), s) == rx.trace;
    } else {
      var next := Step(rx, s[0]);
      ParsePlain(next, s[1..]);
      assert rx.trace + Tag(Here(rx), s) == next.trace + Tag(Here(rx), s[1..]);
    }
  }

  // A name without control codes is read as a whole, before and after US.
  lemma {:induction false} ParseName(rx: Rx, s: seq<byte>)
    requires rx.naming.Some? && EscapeFree(if rx.naming.value.us then ESC_MIXED else ESC_BINARY, s)
    ensures Parse(rx, s) == rx.(naming := Some(Naming(rx.naming.value.acc + s, rx.naming.value.us)))
    decreases s
  {
    var n := rx.naming.value;
    if s == [] {
      assert n.acc + s == n.acc;
    } else {
      BinaryWish(s[0]);
      MixedWish(s[0]);
      var next := Step(rx, s[0]);
      assert next == rx.(naming := Some(Naming(n.acc + [s[0]], n.us)));
      ParseName(next, s[1..]);
      assert n.acc + [s[0]] + s[1..] == n.acc + s;
    }
  }

  // What a control code does that ends a name: SOH starts another one, SO and SI shift to the stream of
  // that name, DC4 switches to the program of that name, and any other is without effect.
  lemma NameEnds(rx: Rx, c: byte)
    requires rx.naming.Some? && EndsName(rx.naming.value.us, c) && (c == 0x1f ==> rx.naming.value.us)
    ensures var name := rx.naming.value.acc;
            Step(rx, c) ==
            if c == 0x01 then rx.(naming := Some(Naming([], false)))
            else if c == 0x0e || c == 0x0f then rx.(naming := None, streams := rx.streams[rx.cur := name])
            else if c == 0x14 then rx.(naming := None, cur := Some(NameKey(name)), prev := rx.cur)
            else rx.(naming := None)
  {}

  // A frame delivers its payload to its stream of the current program, and to nothing else.
  lemma ParseFrame(rx: Rx, stream: Option<Name>, payload: seq<byte>)
    requires AtRest(rx) && Plain(payload) && (stream.Some? ==> EscapeFree(ESC_BINARY, stream.value))
    ensures Parse(rx, Encode(Data(stream, payload))) ==
            rx.(trace := rx.trace + Tag(Channel(rx.cur, stream), payload))
  {
    match stream
    case None => ParsePlain(rx, payload);
    case Some(n) =>
      ParsePrefix(rx, n);
      var on := rx.(streams := map[rx.cur := n]);
      ParseConcat(rx, Prefix(stream), payload + [SO]);
      ParseConcat(on, payload, [SO]);
      ParsePlain(on, payload);
      ParseOne(on.(trace := rx.trace + Tag(Here(on), payload)), SO);
      assert Prefix(stream) + (payload + [SO]) == Encode(Data(stream, payload));
      assert map[rx.cur := n] - {rx.cur} == map[];
  }

  lemma ParsePrefix(rx: Rx, n: Name)
    requires AtRest(rx) && EscapeFree(ESC_BINARY, n)
    ensures Parse(rx, Prefix(Some(n))) == rx.(streams := map[rx.cur := n])
  {
    ParseId(rx, n);
    ParseConcat(rx, [SOH] + n, [SO]);
    BinaryWish(SO);
    ParseOne(rx.(naming := Some(Naming(n, false))), SO);
  }

  lemma ParseSwitchBack(rx: Rx)
    requires AtRest(rx)
    ensures Parse(rx, Encode(SwitchBack)) == rx.(cur := rx.prev, prev := rx.cur)
  {
    ParseOne(rx, PSW);
  }

  // A name [US description] followed by PSW switches to the program of that name.
  lemma ParseSwitchTo(rx: Rx, id: Name, us: bool, descr: seq<byte>)
    requires AtRest(rx) && EscapeFree(ESC_BINARY, id) && EscapeFree(ESC_MIXED, descr) && (us || descr == [])
    ensures var name := id + (if us then [US] else []) + descr;
            Parse(rx, Encode(SwitchTo(name))) == rx.(cur := Some(NameKey(name)), prev := rx.cur)
  {
    hide EscapeWish, NameKey, EscapeFree, Parse, Encode;
    if us {
      ParseSwitchDescribed(rx, id, descr);
    } else {
      ParseSwitchPlain(rx, id);
      assert id + [] + [] == id;
    }
  }

  lemma ParseSwitchPlain(rx: Rx, id: Name)
    requires AtRest(rx) && EscapeFree(ESC_BINARY, id)
    ensures Parse(rx, Encode(SwitchTo(id))) == rx.(cur := Some(NameKey(id)), prev := rx.cur)
  {
    hide EscapeWish, NameKey, EscapeFree;
    ParseId(rx, id);
    ParseConcat(rx, [SOH] + id, [PSW]);
    BinaryWish(PSW);
    ParseOne(rx.(naming := Some(Naming(id, false))), PSW);
  }

  lemma ParseSwitchDescribed(rx: Rx, id: Name, descr: seq<byte>)
    requires AtRest(rx) && EscapeFree(ESC_BINARY, id) && EscapeFree(ESC_MIXED, descr)
    ensures Parse(rx, Encode(SwitchTo(id + [US] + descr))) ==
            rx.(cur := Some(NameKey(id + [US] + descr)), prev := rx.cur)
  {
    hide EscapeWish, NameKey, EscapeFree, Parse;
    assert Encode(SwitchTo(id + [US] + descr)) == ([SOH] + id) + ([US] + (descr + [PSW]));
    ParseId(rx, id);
    ParseConcat(rx, [SOH] + id, [US] + (descr + [PSW]));
    ParseDescription(rx, id, descr);
  }

  lemma ParseDescription(rx: Rx, id: Name, descr: seq<byte>)
    requires EscapeFree(ESC_MIXED, descr)
    ensures Parse(rx.(naming := Some(Naming(id, false))), [US] + (descr + [PSW])) ==
            rx.(naming := None, cur := Some(NameKey(id + [US] + descr)), prev := rx.cur)
  {
    hide EscapeWish, NameKey, EscapeFree;
    var r1 := rx.(naming := Some(Naming(id, false)));
    var r2 := rx.(naming := Some(Naming(id + [US], true)));
    ParseConcat(r1, [US], descr + [PSW]);
    ParseOne(r1, US);
    ParseConcat(r2, descr, [PSW]);
    ParseName(r2, descr);
    MixedWish(PSW);
    ParseOne(rx.(naming := Some(Naming(id + [US] + descr, true))), PSW);
  }

  lemma ParseId(rx: Rx, id: Name)
    requires AtRest(rx) && EscapeFree(ESC_BINARY, id)
    ensures Parse(rx, [SOH] + id) == rx.(naming := Some(Naming(id, false)))
  {
    ParseConcat(rx, [SOH], id);
    ParseOne(rx, SOH);
    ParseName(rx.(naming := Some(Naming([], false))), id);
    assert [] + id == id;
  }

  // An open line holds whole messages: the receiver reads on from where it was.
  lemma WhatIsRead(t0: Traffic, bytes0: seq<byte>, t: Traffic, bytes: seq<byte>, sent: seq<Message>)
    requires LineOk(t0) && bytes0 == EncodeAll(t0.log) + t0.cut && LineOk(t) && bytes == EncodeAll(t.log) + t.cut
    requires t.open && Extends(t0, t) && t.log == t0.log + sent
    ensures Parse(START, bytes) == Parse(Parse(START, bytes0), EncodeAll(sent))
  {
    hide Parse, EncodeAll;
    EncodeConcat(t0.log, sent);
    ParseConcat(START, EncodeAll(t0.log), EncodeAll(sent));
    assert bytes0 == EncodeAll(t0.log) && bytes == EncodeAll(t0.log) + EncodeAll(sent);
  }
}
