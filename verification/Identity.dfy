/** Program identities: `mtyp_mkid` and its inverse on the wire (lib/progmkid.c, lib/progswitch.c). */
module Identity {
  import opened Bytes
  import opened EscapeCodec
  import opened Wire
  import opened Receiver

  const PROGID_SIZE := 33
  const MAX_ID := 32

  // mtyescapefree
  method MtyEscapefree(style: bv32, s: seq<byte>) returns (free: bool)
    ensures free <==> EscapeFree(style, s)
  {
    var i := 0;
    while i < |s|
      invariant i <= |s| && EscapeFree(style, s[..i])
    {
      if EscapeWish(style, s[i]) {
        return false;
      }
      i := i + 1;
    }
    assert s[..i] == s;
    return true;
  }

  predicate Accepts(id: seq<byte>) {
    |id| <= MAX_ID && EscapeFree(ESC_BINARY, id)
  }

  function Zeros(n: nat): (r: seq<byte>)
    ensures |r| == n && forall i :: 0 <= i < n ==> r[i] == NUL
  {
    seq(n, _ => NUL)
  }

  // The visible part of an identity.
  function Label(id: seq<byte>, withDescr: bool): seq<byte> {
    id + (if withDescr then [US] else [])
  }

  function ProgId(id: seq<byte>, withDescr: bool): (r: seq<byte>)
    requires |id| <= MAX_ID
    ensures |r| == PROGID_SIZE
  {
    Label(id, withDescr) + Zeros(PROGID_SIZE - |Label(id, withDescr)|)
  }

  // mtyp_mkid. The id is a C string, so it holds no NUL.
  method MtypMkid(id: seq<byte>, withDescr: bool, prgid: array<byte>) returns (ok: bool)
    requires prgid.Length == PROGID_SIZE && NUL !in id
    modifies prgid
    ensures ok <==> |id| <= 32 && forall i :: 0 <= i < |id| ==> id[i] >= 0x20 && id[i] != 0x7f && id[i] != 0xff
    ensures ok <==> Accepts(id)
    ensures ok ==> prgid.Length == 33 && forall k :: 0 <= k < 33 ==>
              prgid[k] == if k < |id| then id[k] else if withDescr && k == |id| then 0x1f else 0x00
    ensures prgid[..] == if ok then ProgId(id, withDescr) else old(prgid[..])
  {
    forall i | 0 <= i < |id|
      ensures EscapeWish(ESC_BINARY, id[i]) <==> id[i] < 0x20 || id[i] == 0x7f || id[i] == 0xff
    {
      BinaryWish(id[i]);
    }
    var idlen := |id|;
    if idlen > MAX_ID {
      return false;
    }
    var free := MtyEscapefree(ESC_BINARY, id);
    if !free {
      return false;
    }
    forall i | 0 <= i < PROGID_SIZE {
      prgid[i] := if i < idlen then id[i] else NUL;
    }
    if withDescr {
      prgid[idlen] := US;
    }
    assert prgid[..] == ProgId(id, withDescr);
    return true;
  }

  // strnlen: the bytes before the first NUL.
  function Trim(s: seq<byte>): (r: seq<byte>)
    ensures |r| <= |s| && r == s[..|r|] && NUL !in r
    ensures |r| < |s| ==> s[|r|] == NUL
  {
    if s == [] || s[0] == NUL then [] else [s[0]] + Trim(s[1..])
  }

  lemma NoNul(s: seq<byte>)
    requires EscapeFree(ESC_BINARY, s)
    ensures NUL !in s && US !in s
  {
    forall i | 0 <= i < |s| ensures s[i] != NUL && s[i] != US {
      BinaryWish(s[i]);
    }
  }

  // The identity travels in full: trimming takes off the padding and nothing else,
  // also when 32 characters and US leave no room for a NUL.
  lemma TrimProgId(id: seq<byte>, withDescr: bool)
    requires Accepts(id)
    ensures Trim(ProgId(id, withDescr)) == Label(id, withDescr)
  {
    NoNul(id);
    TrimPadded(Label(id, withDescr), Zeros(PROGID_SIZE - |Label(id, withDescr)|));
  }

  lemma {:induction false} TrimPadded(l: seq<byte>, z: seq<byte>)
    requires NUL !in l && (z == [] || z[0] == NUL)
    ensures Trim(l + z) == l
  {
    if l == [] {
      assert l + z == z;
    } else {
      assert (l + z)[1..] == l[1..] + z;
      TrimPadded(l[1..], z);
    }
  }

  // mtyp_mkid is injective on what it accepts.
  lemma MkidInjective(id: seq<byte>, d: bool, id': seq<byte>, d': bool)
    requires Accepts(id) && Accepts(id') && ProgId(id, d) == ProgId(id', d')
    ensures id == id' && d == d'
  {
    TrimProgId(id, d);
    TrimProgId(id', d');
    NoNul(id);
    NoNul(id');
    var l := Label(id, d);
    assert d ==> l[|l| - 1] == US;
    assert d' ==> l[|l| - 1] == US;
    assert !d ==> US !in l;
    assert !d' ==> US !in l;
    assert id == l[..|l| - (if d then 1 else 0)];
    assert id' == l[..|l| - (if d' then 1 else 0)];
  }

  // The receiver finds the label back in the name it is sent, whatever description follows US.
  lemma KeyOfDescribed(id: seq<byte>, descr: seq<byte>)
    requires Accepts(id)
    ensures NameKey(Label(id, true) + descr) == Label(id, true)
  {
    NoNul(id);
    var name := Label(id, true) + descr;
    var u := IndexOfUS(name);
    assert name[|id|] == US;
    assert forall j :: 0 <= j < |id| ==> name[j] == id[j] && id[j] in id;
    assert u == |id|;
  }

  // The key of a name is the start of it, of at most 33 characters; it is a key itself, and what follows
  // the first 33 characters does not matter.
  lemma KeyOfAnyName(name: Name, rest: seq<byte>)
    ensures var k := NameKey(name);
            k <= name && |k| <= 33 && NameKey(k) == k && (|k| == 33 ==> k[32] == 0x1f)
    ensures |name| >= 33 ==> NameKey(name[..33] + rest) == NameKey(name)
  {
    var u, k := IndexOfUS(name), NameKey(name);
    assert |k| > 0 && k[|k| - 1] == US ==> IndexOfUS(k) == |k| - 1;
    if |name| >= 33 {
      var other := name[..33] + rest;
      var w := IndexOfUS(other);
      assert forall j :: 0 <= j < 33 ==> other[j] == name[j];
      assert u <= 32 || w <= 32 ==> u == w;
      assert u <= 32 ==> other[..u + 1] == name[..u + 1];
      assert other[..32] == name[..32];
    }
  }

  // Without US, the first 32 characters count.
  lemma KeyOfPlain(name: seq<byte>)
    requires EscapeFree(ESC_BINARY, name)
    ensures NameKey(name) == if |name| <= 32 then name else name[..32]
  {
    NoNul(name);
    assert forall j :: 0 <= j < |name| ==> name[j] in name;
  }

  // May this description be sent with this identity, so that the receiver knows the program?
  predicate Announceable(id: seq<byte>, withDescr: bool, descr: seq<byte>) {
    withDescr || descr == [] || (|id| == MAX_ID && EscapeFree(ESC_BINARY, descr))
  }

  // A described switch is understood from every state of the receiver exactly when the identity
  // has its US, or there is no description, or a full-length id hides it.
  lemma SwitchUnderstood(id: seq<byte>, withDescr: bool, descr: seq<byte>)
    requires Accepts(id) && EscapeFree(ESC_MIXED, descr)
    ensures (forall rx :: AtRest(rx) ==>
              Parse(rx, Encode(SwitchTo(Label(id, withDescr) + descr))) ==
              rx.(cur := Some(Label(id, withDescr)), prev := rx.cur))
            <==> Announceable(id, withDescr, descr)
  {
    if Announceable(id, withDescr, descr) {
      forall rx | AtRest(rx)
        ensures Parse(rx, Encode(SwitchTo(Label(id, withDescr) + descr))) ==
                rx.(cur := Some(Label(id, withDescr)), prev := rx.cur)
      {
        Understood(rx, id, withDescr, descr);
      }
    } else {
      Misunderstood(id, descr);
      assert AtRest(START);
    }
  }

  // A name taken apart: at the first US if it has one, otherwise after 32 characters.
  function Parts(name: Name): (seq<byte>, bool, seq<byte>) {
    var u := IndexOfUS(name);
    if u < |name| then (name[..u], true, name[u + 1..])
    else if |name| <= MAX_ID then (name, false, [])
    else (name[..MAX_ID], false, name[MAX_ID..])
  }

  // The name in a switch message tells id, flag and description apart, unless a description without
  // US follows an id of less than 32 characters.
  lemma NameTellsAll(id: seq<byte>, withDescr: bool, descr: seq<byte>)
    requires Accepts(id) && EscapeFree(ESC_MIXED, descr)
    ensures Parts(Label(id, withDescr) + descr) == (id, withDescr, descr)
            <==> withDescr || descr == [] || |id| == MAX_ID
  {
    NoNul(id);
    forall i | 0 <= i < |descr| ensures descr[i] != US {
      NotSteering(descr[i]);
    }
    var name := Label(id, withDescr) + descr;
    assert forall j :: 0 <= j < |id| ==> name[j] == id[j] && id[j] in id;
    if withDescr {
      assert name[|id|] == US && name[..|id|] == id && name[|id| + 1..] == descr;
    } else {
      assert Label(id, false) == id;
      assert forall j :: |id| <= j < |name| ==> name[j] == descr[j - |id|];
      assert IndexOfUS(name) == |name|;
      assert descr == [] ==> name == id;
      assert |id| == MAX_ID ==> name[..MAX_ID] == id && name[MAX_ID..] == descr;
    }
  }

  // So no two announceable switches have the same message.
  lemma SwitchInjective(id: seq<byte>, d: bool, descr: seq<byte>, id': seq<byte>, d': bool, descr': seq<byte>)
    requires Accepts(id) && EscapeFree(ESC_MIXED, descr) && Announceable(id, d, descr)
    requires Accepts(id') && EscapeFree(ESC_MIXED, descr') && Announceable(id', d', descr')
    requires Encode(SwitchTo(Label(id, d) + descr)) == Encode(SwitchTo(Label(id', d') + descr'))
    ensures id == id' && d == d' && descr == descr'
  {
    hide Label, Parts, EscapeFree;
    NameTellsAll(id, d, descr);
    NameTellsAll(id', d', descr');
    var n, n' := Label(id, d) + descr, Label(id', d') + descr';
    assert |[SOH] + n + [PSW]| == |[SOH] + n' + [PSW]|;
    assert ([SOH] + n + [PSW])[1..|n| + 1] == n && ([SOH] + n' + [PSW])[1..|n| + 1] == n';
  }

  lemma Understood(rx: Rx, id: seq<byte>, withDescr: bool, descr: seq<byte>)
    requires AtRest(rx) && Accepts(id) && EscapeFree(ESC_MIXED, descr) && Announceable(id, withDescr, descr)
    ensures Parse(rx, Encode(SwitchTo(Label(id, withDescr) + descr))) ==
            rx.(cur := Some(Label(id, withDescr)), prev := rx.cur)
  {
    if withDescr {
      KeyOfDescribed(id, descr);
      ParseSwitchTo(rx, id, true, descr);
    } else if descr == [] {
      KeyOfPlain(id);
      assert Label(id, false) == id && id + descr == id && id + [] + [] == id;
      ParseSwitchTo(rx, id, false, []);
    } else {
      var name := id + descr;
      assert Label(id, false) == id;
      KeyOfPlain(name);
      assert name[..32] == id;
      ParseSwitchPlain(rx, name);
    }
  }

  lemma Misunderstood(id: seq<byte>, descr: seq<byte>)
    requires Accepts(id) && EscapeFree(ESC_MIXED, descr) && !Announceable(id, false, descr)
    ensures Parse(START, Encode(SwitchTo(Label(id, false) + descr))).cur != Some(Label(id, false))
  {
    assert Label(id, false) == id;
    var name := id + descr;
    if EscapeFree(ESC_BINARY, descr) {
      KeyOfPlain(name);
      ParseSwitchPlain(START, name);
      assert |NameKey(name)| > |id|;
    } else {
      BrokenName(id, descr);
    }
  }

  // A control code in the description ends the name early, and PSW comes to stand alone.
  lemma BrokenName(id: seq<byte>, descr: seq<byte>)
    requires EscapeFree(ESC_BINARY, id) && EscapeFree(ESC_MIXED, descr) && !EscapeFree(ESC_BINARY, descr)
    ensures Parse(START, Encode(SwitchTo(id + descr))).cur == None
  {
    hide EscapeWish, NameKey, EscapeFree, Parse, Step, Encode;
    var k := FirstControl(descr);
    var a, c, b := descr[..k], descr[k], descr[k + 1..];
    PartsFree(id, descr, k);
    NameCutAt(id, descr, k);
    ParseConcat(START, [SOH] + (id + a), [c] + (b + [PSW]));
    ParseId(START, id + a);
    var r1 := START.(naming := Some(Naming(id + a, false)));
    ParseConcat(r1, [c], b + [PSW]);
    ParseOne(r1, c);
    StepBroken(r1, c);
    var r2 := Step(r1, c);
    ParseConcat(r2, b, [PSW]);
    ParseUnswitched(r2, b);
    StepAlone(Parse(r2, b));
    ParseOne(Parse(r2, b), PSW);
  }

  lemma NameCutAt(id: seq<byte>, descr: seq<byte>, k: nat)
    requires k < |descr|
    ensures Encode(SwitchTo(id + descr)) == ([SOH] + (id + descr[..k])) + ([descr[k]] + (descr[k + 1..] + [PSW]))
  {
    var a, c, b := descr[..k], [descr[k]], descr[k + 1..];
    assert descr == a + (c + b);
    Regroup([SOH], id, a, c + b, [PSW]);
    Assoc(c, b, [PSW]);
  }

  lemma Regroup(h: seq<byte>, i: seq<byte>, a: seq<byte>, b: seq<byte>, t: seq<byte>)
    ensures h + (i + (a + b)) + t == (h + (i + a)) + (b + t)
  {
    Assoc(i, a, b);
    Assoc(h, i + a, b);
    Assoc(h + (i + a), b, t);
  }

  lemma StepBroken(rx: Rx, c: byte)
    requires rx.naming.Some? && !rx.naming.value.us
    requires EscapeWish(ESC_BINARY, c) && !EscapeWish(ESC_MIXED, c)
    ensures var r := Step(rx, c); r.naming == None && r.cur == rx.cur && r.prev == rx.prev
  {
    NotSteering(c);
  }

  lemma StepAlone(rx: Rx)
    requires rx.naming == None
    ensures Step(rx, PSW).cur == rx.prev
  {}

  lemma PartsFree(id: seq<byte>, descr: seq<byte>, k: nat)
    requires k < |descr| && EscapeFree(ESC_BINARY, id) && EscapeFree(ESC_BINARY, descr[..k])
    requires EscapeFree(ESC_MIXED, descr)
    ensures EscapeFree(ESC_BINARY, id + descr[..k])
    ensures !EscapeWish(ESC_MIXED, descr[k]) && EscapeFree(ESC_MIXED, descr[k + 1..])
  {}

  lemma FirstControl(s: seq<byte>) returns (k: nat)
    requires !EscapeFree(ESC_BINARY, s)
    ensures k < |s| && EscapeWish(ESC_BINARY, s[k]) && EscapeFree(ESC_BINARY, s[..k])
  {
    k := 0;
    while !EscapeWish(ESC_BINARY, s[k])
      invariant k < |s| && EscapeFree(ESC_BINARY, s[..k])
      invariant !EscapeFree(ESC_BINARY, s)
      decreases |s| - k
    {
      k := k + 1;
    }
  }

  lemma NotSteering(c: byte)
    requires !EscapeWish(ESC_MIXED, c)
    ensures c != SOH && c != PSW && c != US
  {
    MixedWish(c);
  }

  // Outside a name, MIXED-free bytes do not switch programs.
  lemma {:induction false} ParseUnswitched(rx: Rx, s: seq<byte>)
    requires rx.naming == None && EscapeFree(ESC_MIXED, s)
    ensures var r := Parse(rx, s); r.naming == None && r.cur == rx.cur && r.prev == rx.prev
    decreases s
  {
    if s != [] {
      NotSteering(s[0]);
      ParseUnswitched(Step(rx, s[0]), s[1..]);
    }
  }
}
