/** Program switching as a state machine: the sender's current and previous program,
    the messages it sends (lib/progswitch.c, lib/progdrop.c), and the receiver that follows it. */
module Switching {
  import opened Bytes
  import opened EscapeCodec
  import opened Wire
  import opened Receiver
  import opened Identity

  // The current and the previous program of a set, by identity.
  datatype View = View(cur: Option<Key>, prev: Option<Key>)

  // The view after mtyp_switch to id.
  function AfterSwitch(v: View, id: Key): View {
    if v.cur == Some(id) then View(v.cur, None)
    else if v.prev == Some(id) then View(Some(id), v.cur)
    else View(Some(id), if v.cur.Some? then v.cur else v.prev)
  }

  // What mtyp_switch sends: nothing, a nameless switch, or a named one.
  function SwitchMessage(v: View, id: Key, descr: seq<byte>): seq<Message> {
    if v.cur == Some(id) then []
    else if v.prev == Some(id) then [SwitchBack]
    else [SwitchTo(Trim(id) + descr)]
  }

  // The view after mtyp_drop of id. Nothing is sent.
  function AfterDrop(v: View, id: Key): View {
    View(if v.cur == Some(id) then None else v.cur, if v.prev == Some(id) then None else v.prev)
  }

  // An identity made by mtyp_mkid, with a description that may go with it.
  ghost predicate Known(id: Key, descr: seq<byte>) {
    exists s, d :: Accepts(s) && id == ProgId(s, d) && EscapeFree(ESC_MIXED, descr) && Announceable(s, d, descr)
  }

  ghost predicate IsProgId(id: Key) {
    exists s, d :: Accepts(s) && id == ProgId(s, d)
  }

  ghost predicate KnownView(v: View) {
    && (v.cur.Some? ==> IsProgId(v.cur.value))
    && (v.prev.Some? ==> IsProgId(v.prev.value))
  }

  // The name under which the receiver knows an identity.
  function Shown(id: Option<Key>): Option<Name> {
    match id
    case None => None
    case Some(k) => Some(Trim(k))
  }

  lemma ShownDistinct(a: Key, b: Key)
    requires IsProgId(a) && IsProgId(b) && Trim(a) == Trim(b)
    ensures a == b
  {
    hide Trim, Label, Zeros;
    var s, d :| Accepts(s) && a == ProgId(s, d);
    var s', d' :| Accepts(s') && b == ProgId(s', d');
    TrimProgId(s, d);
    TrimProgId(s', d');
    assert a == Label(s, d) + Zeros(PROGID_SIZE - |Label(s, d)|);
    assert b == Label(s', d') + Zeros(PROGID_SIZE - |Label(s', d')|);
  }

  // Sender and receiver agree on the current program, and on the previous one whenever the sender has one.
  predicate Synced(v: View, rx: Rx) {
    AtRest(rx) && rx.cur == Shown(v.cur) && (v.prev.Some? ==> v.cur.Some? && rx.prev == Shown(v.prev))
  }

  // A switch whose message arrives keeps them in step and delivers no data.
  lemma SwitchSyncs(v: View, rx: Rx, id: Key, descr: seq<byte>)
    requires Synced(v, rx) && Known(id, descr)
    ensures var r := Parse(rx, EncodeAll(SwitchMessage(v, id, descr)));
            Synced(AfterSwitch(v, id), r) && r.trace == rx.trace
  {
    hide Parse, Encode, Trim, NameKey, EscapeFree;
    if v.cur == Some(id) {
      ParseNothing(rx);
    } else if v.prev == Some(id) {
      EncodeOne(SwitchBack);
      ParseSwitchBack(rx);
    } else {
      var s, d :| Accepts(s) && id == ProgId(s, d) && EscapeFree(ESC_MIXED, descr) && Announceable(s, d, descr);
      TrimProgId(s, d);
      EncodeOne(SwitchTo(Trim(id) + descr));
      Understood(rx, s, d, descr);
    }
  }

  lemma ParseNothing(rx: Rx)
    ensures Parse(rx, EncodeAll([])) == rx
  {}

  // A switch whose message is lost keeps them in step only if there was nothing to send:
  // mtyp_switch changes the sender's view whatever became of the message.
  lemma LostSwitch(v: View, rx: Rx, id: Key, descr: seq<byte>)
    requires Synced(v, rx) && KnownView(v) && IsProgId(id)
    ensures Synced(AfterSwitch(v, id), rx) <==> SwitchMessage(v, id, descr) == []
  {
    if v.cur != Some(id) && v.cur.Some? && Trim(v.cur.value) == Trim(id) {
      ShownDistinct(v.cur.value, id);
    }
  }

  // A drop is silent, so it keeps them in step exactly when it is not the current program that goes.
  lemma DropSyncs(v: View, rx: Rx, id: Key)
    requires Synced(v, rx)
    ensures Synced(AfterDrop(v, id), rx) <==> v.cur != Some(id)
  {}

  // A call of mtyp_switch, with what became of its message if it had one, or of mtyp_drop.
  datatype Act = Switch(id: Key, descr: seq<byte>, arrived: bool) | Drop(id: Key)

  function ActView(v: View, act: Act): View {
    match act
    case Switch(id, _, _) => AfterSwitch(v, id)
    case Drop(id) => AfterDrop(v, id)
  }

  // What reaches the receiver.
  function ActSent(v: View, act: Act): seq<Message> {
    match act
    case Switch(id, descr, arrived) => if arrived then SwitchMessage(v, id, descr) else []
    case Drop(_) => []
  }

  function ActsView(v: View, acts: seq<Act>): View
    decreases acts
  {
    if acts == [] then v else ActsView(ActView(v, acts[0]), acts[1..])
  }

  function ActsSent(v: View, acts: seq<Act>): seq<Message>
    decreases acts
  {
    if acts == [] then []
    else ActSent(v, acts[0]) + ActsSent(ActView(v, acts[0]), acts[1..])
  }

  // Known programs only, no message is lost, and the current program is never dropped.
  ghost predicate Orderly(v: View, acts: seq<Act>)
    decreases acts
  {
    acts == [] ||
    ((match acts[0]
      case Switch(id, descr, arrived) => Known(id, descr) && (arrived || SwitchMessage(v, id, descr) == [])
      case Drop(id) => v.cur != Some(id))
     && Orderly(ActView(v, acts[0]), acts[1..]))
  }

  // Over every orderly run the receiver has the sender's current program; being true of every
  // run it is true after every step of one.
  lemma {:induction false} RunSyncs(v: View, rx: Rx, acts: seq<Act>)
    requires Synced(v, rx) && Orderly(v, acts)
    ensures Synced(ActsView(v, acts), Parse(rx, EncodeAll(ActsSent(v, acts))))
    decreases acts
  {
    hide Parse, Known, Synced, AfterSwitch, AfterDrop, SwitchMessage;
    if acts == [] {
      ParseNothing(rx);
    } else {
      var v1 := ActView(v, acts[0]);
      match acts[0]
      case Switch(id, descr, arrived) =>
        var ms := SwitchMessage(v, id, descr);
        SwitchSyncs(v, rx, id, descr);
        EncodeConcat(ms, ActsSent(v1, acts[1..]));
        ParseConcat(rx, EncodeAll(ms), EncodeAll(ActsSent(v1, acts[1..])));
        RunSyncs(v1, Parse(rx, EncodeAll(ms)), acts[1..]);
      case Drop(id) =>
        DropSyncs(v, rx, id);
        assert [] + ActsSent(v1, acts[1..]) == ActsSent(v1, acts[1..]);
        RunSyncs(v1, rx, acts[1..]);
    }
  }

  /* What the view remembers */

  lemma {:induction false} ViewMore(v: View, acts: seq<Act>, act: Act)
    ensures ActsView(v, acts + [act]) == ActView(ActsView(v, acts), act)
    ensures ActsSent(v, acts + [act]) == ActsSent(v, acts) + ActSent(ActsView(v, acts), act)
    decreases acts
  {
    hide ActView, ActSent;
    if acts == [] {
      assert acts + [act] == [act] && [act][1..] == [];
      assert [] + ActSent(v, act) == ActSent(v, act) + [];
    } else {
      assert (acts + [act])[1..] == acts[1..] + [act];
      ViewMore(ActView(v, acts[0]), acts[1..], act);
      Assoc(ActSent(v, acts[0]), ActsSent(ActView(v, acts[0]), acts[1..]), ActSent(ActsView(v, acts), act));
    }
  }

  // Over any switches from the start: current is the program switched to last, and previous the one
  // switched to before that, unless it was the same one.
  lemma {:induction false} History(acts: seq<Act>)
    requires acts != [] && forall i :: 0 <= i < |acts| ==> acts[i].Switch?
    ensures var v, n := ActsView(View(None, None), acts), |acts|;
            && v.cur == Some(acts[n - 1].id)
            && v.prev == if n >= 2 && acts[n - 2].id != acts[n - 1].id then Some(acts[n - 2].id) else None
  {
    var front, last := acts[..|acts| - 1], acts[|acts| - 1];
    assert acts == front + [last];
    ViewMore(View(None, None), front, last);
    if front != [] {
      History(front);
    }
  }

  // So after such switches the next one sends nothing to the program switched to last, a bare DC4 to
  // the one switched to before, and a name to any other.
  lemma HistorySends(acts: seq<Act>, id: Key, descr: seq<byte>)
    requires forall i :: 0 <= i < |acts| ==> acts[i].Switch?
    ensures var n := |acts|;
            SwitchMessage(ActsView(View(None, None), acts), id, descr) ==
            if n >= 1 && id == acts[n - 1].id then []
            else if n >= 2 && id == acts[n - 2].id then [SwitchBack]
            else [SwitchTo(Trim(id) + descr)]
  {
    hide Trim;
    if acts != [] {
      History(acts);
    }
  }

  // The messages of n switches to and fro: two names, and from then on none.
  function Shuttle(first: seq<Message>, n: nat): seq<Message>
    requires |first| == 2
  {
    if n <= 2 then first[..n] else first + seq(n - 2, _ => SwitchBack)
  }

  lemma ShuttleMore(first: seq<Message>, n: nat)
    requires |first| == 2
    ensures Shuttle(first, n + 1) == Shuttle(first, n) + [if n < 2 then first[n] else SwitchBack]
  {}

  // Going to and fro between two programs takes two names, and from then on none.
  lemma {:induction false} ToAndFro(acts: seq<Act>, a: Key, b: Key, descrA: seq<byte>, descrB: seq<byte>)
    requires a != b
    requires forall i :: 0 <= i < |acts| ==>
               acts[i] == if i % 2 == 0 then Switch(a, descrA, true) else Switch(b, descrB, true)
    ensures ActsSent(View(None, None), acts) ==
            Shuttle([SwitchTo(Trim(a) + descrA), SwitchTo(Trim(b) + descrB)], |acts|)
  {
    hide Trim, Shuttle, AfterSwitch, SwitchMessage, ActsView;
    var first := [SwitchTo(Trim(a) + descrA), SwitchTo(Trim(b) + descrB)];
    if acts == [] {
      assert Shuttle(first, 0) == [] by {
        NoShuttle(first);
      }
    } else {
      var n := |acts| - 1;
      var front, last := acts[..n], acts[n];
      assert acts == front + [last];
      ToAndFro(front, a, b, descrA, descrB);
      ViewMore(View(None, None), front, last);
      assert n >= 1 ==> front[n - 1].id == if n % 2 == 0 then b else a;
      assert n >= 2 ==> front[n - 2].id == if n % 2 == 0 then a else b;
      HistorySends(front, last.id, last.descr);
      ShuttleMore(first, n);
    }
  }

  lemma NoShuttle(first: seq<Message>)
    requires |first| == 2
    ensures Shuttle(first, 0) == []
  {}

  // There and back again is where it was, and both ways are nameless.
  lemma ThereAndBack(a: Key, b: Key, descr: seq<byte>)
    requires a != b
    ensures var v := View(Some(b), Some(a));
            && SwitchMessage(v, a, descr) == [SwitchBack] && SwitchMessage(AfterSwitch(v, a), b, descr) == [SwitchBack]
            && AfterSwitch(AfterSwitch(v, a), b) == v
  {}

  // A drop takes the program out of the view, and nothing else.
  lemma DropForgets(v: View, id: Key, other: Key)
    ensures var r := AfterDrop(v, id);
            && (r.cur == Some(other) <==> v.cur == Some(other) && other != id)
            && (r.prev == Some(other) <==> v.prev == Some(other) && other != id)
  {}

  lemma DropOfThird(a: Key, b: Key, c: Key)
    requires a != c && b != c
    ensures AfterDrop(View(Some(b), Some(a)), c) == View(Some(b), Some(a))
  {}

  /* Runs in which the current program may be dropped and messages may be lost */

  // What the sender can know of the receiver: the program it last switched to, and whether the
  // receiver has another previous program than the sender (stale).
  datatype Track = Track(last: Option<Key>, stale: bool)

  // A switch by name from no current program, as after a drop, leaves the sender's previous program
  // as it is and not the receiver's. That passes when previous is dropped, reset, or pushed anew.
  function NextTrack(v: View, k: Track, act: Act): Track {
    match act
    case Drop(id) => k.(stale := k.stale && v.prev != Some(id))
    case Switch(id, _, arrived) =>
      var keepsPrev := v.cur == None && v.prev.Some? && v.prev != Some(id);
      Track(Some(id), keepsPrev && (arrived || k.stale))
  }

  // This switch goes wrong: nameless while stale, or its message is lost and the receiver is not
  // on that program already.
  predicate Strays(v: View, k: Track, act: Act) {
    && act.Switch? && v.cur != Some(act.id)
    && if v.prev == Some(act.id) then k.stale || !act.arrived else !act.arrived && k.last != Some(act.id)
  }

  predicate StraysEver(v: View, k: Track, acts: seq<Act>)
    decreases acts
  {
    acts != [] && (Strays(v, k, acts[0]) || StraysEver(ActView(v, acts[0]), NextTrack(v, k, acts[0]), acts[1..]))
  }

  function ActsTrack(v: View, k: Track, acts: seq<Act>): Track
    decreases acts
  {
    if acts == [] then k else ActsTrack(ActView(v, acts[0]), NextTrack(v, k, acts[0]), acts[1..])
  }

  // Every switch of the run leaves the receiver on its program.
  predicate Lands(v: View, rx: Rx, acts: seq<Act>)
    decreases acts
  {
    acts == [] ||
    var r := Parse(rx, EncodeAll(ActSent(v, acts[0])));
    (acts[0].Switch? ==> r.cur == Some(Trim(acts[0].id))) && Lands(ActView(v, acts[0]), r, acts[1..])
  }

  ghost predicate AllKnown(acts: seq<Act>) {
    forall i :: 0 <= i < |acts| && acts[i].Switch? ==> Known(acts[i].id, acts[i].descr)
  }

  // The receiver is on the program last switched to, which is the current one if there is one,
  // and stale tells whether it has the sender's previous program.
  ghost predicate Tracks(v: View, k: Track, rx: Rx) {
    && AtRest(rx) && rx.cur == Shown(k.last) && KnownView(v) && (k.last.Some? ==> IsProgId(k.last.value))
    && (v.cur.Some? ==> k.last == v.cur)
    && (v.prev.Some? ==> v.prev != k.last && (k.stale <==> rx.prev != Shown(v.prev)))
  }

  lemma KnownIsProgId(id: Key, descr: seq<byte>)
    requires Known(id, descr)
    ensures IsProgId(id)
  {}

  // A switch by name that arrives, whatever the sender's view.
  lemma NamedLands(rx: Rx, id: Key, descr: seq<byte>)
    requires AtRest(rx) && Known(id, descr)
    ensures Parse(rx, EncodeAll([SwitchTo(Trim(id) + descr)])) == rx.(cur := Some(Trim(id)), prev := rx.cur)
  {
    hide Parse, Encode, Trim, NameKey, EscapeFree;
    var s, d :| Accepts(s) && id == ProgId(s, d) && EscapeFree(ESC_MIXED, descr) && Announceable(s, d, descr);
    TrimProgId(s, d);
    EncodeOne(SwitchTo(Trim(id) + descr));
    Understood(rx, s, d, descr);
  }

  lemma SwapLands(rx: Rx)
    requires AtRest(rx)
    ensures Parse(rx, EncodeAll([SwitchBack])) == rx.(cur := rx.prev, prev := rx.cur)
  {
    hide Parse, Encode;
    EncodeOne(SwitchBack);
    ParseSwitchBack(rx);
  }

  // Different programs are shown differently.
  lemma ShownApart(a: Option<Key>, b: Option<Key>)
    requires (a.Some? ==> IsProgId(a.value)) && (b.Some? ==> IsProgId(b.value))
    ensures Shown(a) == Shown(b) <==> a == b
  {
    hide Trim, IsProgId;
    if a.Some? && b.Some? && Trim(a.value) == Trim(b.value) {
      ShownDistinct(a.value, b.value);
    }
  }

  // One call: the switch lands if and only if it does not stray, and then the two are tracked on.
  lemma ActLands(v: View, k: Track, rx: Rx, act: Act)
    requires Tracks(v, k, rx) && (act.Switch? ==> Known(act.id, act.descr))
    ensures var r := Parse(rx, EncodeAll(ActSent(v, act)));
            && (act.Switch? ==> (r.cur == Some(Trim(act.id)) <==> !Strays(v, k, act)))
            && (!Strays(v, k, act) ==> Tracks(ActView(v, act), NextTrack(v, k, act), r))
  {
    hide Parse, Encode, EncodeAll, Trim, EscapeFree, Known, IsProgId;
    ParseNothing(rx);
    ShownApart(v.prev, k.last);
    match act
    case Drop(id) =>
    case Switch(id, descr, arrived) =>
      KnownIsProgId(id, descr);
      ShownApart(k.last, Some(id));
      ShownApart(v.prev, Some(id));
      SwapLands(rx);
      NamedLands(rx, id, descr);
  }

  // Over all runs, with any program dropped and any message lost: every switch takes the receiver
  // to its program if and only if none is made nameless while stale and none that was needed is lost.
  lemma {:induction false} RunLands(v: View, k: Track, rx: Rx, acts: seq<Act>)
    requires Tracks(v, k, rx) && AllKnown(acts)
    ensures Lands(v, rx, acts) <==> !StraysEver(v, k, acts)
    ensures !StraysEver(v, k, acts) ==>
              Tracks(ActsView(v, acts), ActsTrack(v, k, acts), Parse(rx, EncodeAll(ActsSent(v, acts))))
    decreases acts
  {
    hide Parse, EncodeAll, Known, Tracks, Strays, NextTrack, ActView, ActSent, Trim;
    if acts == [] {
      ParseNothing(rx);
    } else {
      var v1, k1, ms := ActView(v, acts[0]), NextTrack(v, k, acts[0]), ActSent(v, acts[0]);
      ActLands(v, k, rx, acts[0]);
      if !Strays(v, k, acts[0]) {
        EncodeConcat(ms, ActsSent(v1, acts[1..]));
        ParseConcat(rx, EncodeAll(ms), EncodeAll(ActsSent(v1, acts[1..])));
        RunLands(v1, k1, Parse(rx, EncodeAll(ms)), acts[1..]);
      } else {
        StrayIsSwitch(v, k, acts[0]);
      }
    }
  }

  lemma StrayIsSwitch(v: View, k: Track, act: Act)
    requires Strays(v, k, act)
    ensures act.Switch?
  {}

  // From the start nothing is stale.
  lemma TracksFromStart()
    ensures Tracks(View(None, None), Track(None, false), START)
  {}

  // An orderly run never strays: RunSyncs is about the harmless case.
  lemma {:induction false} OrderlyNeverStrays(v: View, k: Track, acts: seq<Act>)
    requires Orderly(v, acts) && !k.stale && (v.prev.Some? ==> v.cur.Some?)
    ensures !StraysEver(v, k, acts)
    decreases acts
  {
    hide Known;
    if acts != [] {
      OrderlyNeverStrays(ActView(v, acts[0]), NextTrack(v, k, acts[0]), acts[1..]);
    }
  }

  // Dropping the current program can do harm later on: after switches to a and b, a drop of b and a
  // switch to c, the nameless switch meant for a takes the receiver to b. The condition is not just
  // the drop: without the switch to c the same switch to a is right.
  lemma DropOfCurrentMisleads(a: Key, b: Key, c: Key)
    requires Known(a, []) && Known(b, []) && Known(c, []) && a != b && b != c && a != c
    ensures var v0, k0 := View(None, None), Track(None, false);
            var acts := [Switch(a, [], true), Switch(b, [], true), Drop(b)];
            && !Lands(v0, START, acts + [Switch(c, [], true), Switch(a, [], true)])
            && Parse(START, EncodeAll(ActsSent(v0, acts + [Switch(c, [], true), Switch(a, [], true)]))).cur == Some(Trim(b))
            && Lands(v0, START, acts + [Switch(a, [], true)])
  {
    hide Parse, EncodeAll, Known, Trim, Lands, StraysEver, ActsSent;
    var v0, k0 := View(None, None), Track(None, false);
    var sa, sb, sc, db := Switch(a, [], true), Switch(b, [], true), Switch(c, [], true), Drop(b);
    var acts := [sa, sb, db];
    TracksFromStart();
    RunLands(v0, k0, START, acts + [sc, sa]);
    RunLands(v0, k0, START, acts + [sa]);
    var v1, k1, v2, k2 := View(Some(a), None), Track(Some(a), false), View(Some(b), Some(a)), Track(Some(b), false);
    var v3 := View(None, Some(a));
    StraysFirst(v0, k0, sa, [sb, db, sc, sa], acts + [sc, sa]);
    StraysFirst(v1, k1, sb, [db, sc, sa], [sb, db, sc, sa]);
    StraysFirst(v2, k2, db, [sc, sa], [db, sc, sa]);
    StraysFirst(v3, k2, sc, [sa], [sc, sa]);
    StraysFirst(View(Some(c), Some(a)), Track(Some(c), true), sa, [], [sa]);
    StraysFirst(v0, k0, sa, [sb, db, sa], acts + [sa]);
    StraysFirst(v1, k1, sb, [db, sa], [sb, db, sa]);
    StraysFirst(v2, k2, db, [sa], [db, sa]);
    StraysFirst(v3, k2, sa, [], [sa]);
    NeverStrays(View(Some(a), None), Track(Some(a), false));
    ReachesDropped(a, b, c);
  }

  lemma ReachesDropped(a: Key, b: Key, c: Key)
    requires Known(a, []) && Known(b, []) && Known(c, []) && a != b && b != c && a != c
    ensures var acts := [Switch(a, [], true), Switch(b, [], true), Drop(b)] + [Switch(c, [], true), Switch(a, [], true)];
            Parse(START, EncodeAll(ActsSent(View(None, None), acts))).cur == Some(Trim(b))
  {
    hide Parse, EncodeAll, Known, Trim, ActsSent;
    var sa, sb, sc, db := Switch(a, [], true), Switch(b, [], true), Switch(c, [], true), Drop(b);
    var v1, v2, v3, v4 := View(Some(a), None), View(Some(b), Some(a)), View(None, Some(a)), View(Some(c), Some(a));
    var r1 := START.(cur := Some(Trim(a)));
    var r2 := r1.(cur := Some(Trim(b)), prev := r1.cur);
    NamedLands(START, a, []);
    ParseFirst(START, View(None, None), sa, [sb, db, sc, sa], [sa, sb, db] + [sc, sa]);
    NamedLands(r1, b, []);
    ParseFirst(r1, v1, sb, [db, sc, sa], [sb, db, sc, sa]);
    ParseNothing(r2);
    ParseFirst(r2, v2, db, [sc, sa], [db, sc, sa]);
    NamedLands(r2, c, []);
    ParseFirst(r2, v3, sc, [sa], [sc, sa]);
    var r4 := r2.(cur := Some(Trim(c)), prev := r2.cur);
    SwapLands(r4);
    ParseFirst(r4, v4, sa, [], [sa]);
    NothingSent(View(Some(a), Some(c)));
    ParseNothing(r4.(cur := r4.prev, prev := r4.cur));
  }

  lemma ParseFirst(rx: Rx, v: View, act: Act, rest: seq<Act>, acts: seq<Act>)
    requires acts == [act] + rest
    ensures Parse(rx, EncodeAll(ActsSent(v, acts))) ==
            Parse(Parse(rx, EncodeAll(ActSent(v, act))), EncodeAll(ActsSent(ActView(v, act), rest)))
  {
    hide Parse, EncodeAll;
    assert acts[1..] == rest;
    EncodeConcat(ActSent(v, act), ActsSent(ActView(v, act), rest));
    ParseConcat(rx, EncodeAll(ActSent(v, act)), EncodeAll(ActsSent(ActView(v, act), rest)));
  }

  lemma NothingSent(v: View)
    ensures ActsSent(v, []) == []
  {}

  lemma StraysFirst(v: View, k: Track, act: Act, rest: seq<Act>, acts: seq<Act>)
    requires acts == [act] + rest
    ensures StraysEver(v, k, acts) <==> Strays(v, k, act) || StraysEver(ActView(v, act), NextTrack(v, k, act), rest)
  {
    assert acts[1..] == rest;
  }

  lemma NeverStrays(v: View, k: Track)
    ensures !StraysEver(v, k, [])
  {}
}
