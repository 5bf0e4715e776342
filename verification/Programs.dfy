/** The program set: the hash table of programs with the current and the previous one
    (lib/mtyp-int.h, lib/progswitch.c, lib/progdrop.c, lib/progfind.c). */
module Programs {
  import opened Bytes
  import opened Sequences
  import opened Chains
  import opened UtHash
  import opened Wire
  import opened Identity
  import Switching

  // mtyp_raw: the pieces, sent as one.
  method MtypRaw(pieces: seq<seq<byte>>, out: Stdout, ghost m: Message) returns (ok: bool)
    requires out.Valid() && Flatten(pieces) == Encode(m)
    modifies out
    ensures out.Valid() && Attempt(old(out.traffic), m, out.traffic, ok) && Extends(old(out.traffic), out.traffic)
    ensures |Encode(m)| > PIPE_BUF ==> !ok && SameLine(old(out.traffic), out.traffic)
    ensures ok ==> out.bytes == old(out.bytes) + Flatten(pieces)
    ensures !old(out.open) ==> !ok && out.bytes == old(out.bytes)
  {
    ok := out.MtyvOut(Flatten(pieces), m);
  }

  function DescrOf(p: Prog): seq<byte>
    reads p`descr
  {
    if p.descr.None? then [] else p.descr.value
  }

  function IdOf(p: Prog?): Option<Key> {
    if p == null then None else Some(p.idUs)
  }

  class ProgSet {
    const programs: ProgTable
    var current: Prog?
    var previous: Prog?

    // Identities tell the programs of the set apart, and current and previous are among them.
    ghost predicate Coherent()
      reads this, programs`order
    {
      && KeysDistinct(programs.order)
      && (current != null ==> current in programs.order)
      && (previous != null ==> previous in programs.order)
    }

    ghost predicate Valid()
      reads this, programs, programs.order, programs.buckets, programs.bloomBv
    {
      programs.Valid() && Coherent()
    }

    function View(): Switching.View
      reads this
    {
      Switching.View(IdOf(current), IdOf(previous))
    }

    constructor (fcn: Key -> nat, bloomNbits: Option<nat>)
      ensures Valid() && programs.order == [] && current == null && previous == null
      ensures fresh(programs) && fresh(programs.buckets) && fresh(programs.bloomBv)
    {
      programs := new ProgTable(fcn, bloomNbits);
      current, previous := null, null;
    }

    // mtyp_find
    method Find(idUs: Key) returns (p: Prog?)
      requires Valid()
      ensures p == Lookup(programs.order, idUs)
    {
      p := programs.Find(idUs);
    }

    // A program enters the set by HASH_ADD, when its identity is not there yet.
    method Enter(p: Prog)
      requires Valid() && Lookup(programs.order, p.idUs) == null
      modifies programs, programs.buckets, programs.bloomBv, p`hashv, p`prev, p`next, p`hhPrev, p`hhNext
      modifies programs.order`prev, programs.order`next, programs.order`hhPrev, programs.order`hhNext
      ensures Valid() && programs.order == old(programs.order) + [p] && View() == old(View())
      ensures programs.buckets == old(programs.buckets) || fresh(programs.buckets)
      ensures programs.bloomBv == old(programs.bloomBv) || fresh(programs.bloomBv)
    {
      hide ProgTable.Valid;
      programs.AddKeyptr(p);
    }

    // mtyp_switch. It does not look at what becomes of its message; sent tells.
    method Switch(prog: Prog, out: Stdout) returns (ghost sent: bool)
      requires Coherent() && prog in programs.order && out.Valid()
      modifies `current, `previous, out
      ensures Coherent() && out.Valid() && View() == Switching.AfterSwitch(old(View()), prog.idUs)
      ensures var ms := Switching.SwitchMessage(old(View()), prog.idUs, DescrOf(prog));
              if ms == [] then sent && out.traffic == old(out.traffic) && out.bytes == old(out.bytes)
              else Attempt(old(out.traffic), ms[0], out.traffic, sent)
                   && (|Encode(ms[0])| > PIPE_BUF ==> !sent && SameLine(old(out.traffic), out.traffic))
      ensures var descr := if prog.descr.Some? then prog.descr.value else [];
              var bytes := if old(current) == prog then []
                           else if old(previous) == prog then [0x14]
                           else [0x01] + Trim(prog.idUs) + descr + [0x14];
              sent ==> out.bytes == old(out.bytes) + bytes
      ensures Extends(old(out.traffic), out.traffic) && (!old(out.open) ==> out.bytes == old(out.bytes))
    {
      hide Encode, EncodeAll, LineOk, Extends, CutFrom, Trim;
      SameById(current, prog);
      SameById(previous, prog);
      if current == prog {
        ExtendsHere(out.traffic);
        assert out.bytes + [] == out.bytes;
        previous := null;
        return true;
      }
      if previous == prog {
        previous := current;
        current := prog;
        Pieces([], []);
        sent := MtypRaw([[PSW]], out, SwitchBack);
        return;
      }
      var descr := DescrOf(prog);
      Pieces(Trim(prog.idUs), descr);
      sent := MtypRaw([[SOH], Trim(prog.idUs), descr, [PSW]], out, SwitchTo(Trim(prog.idUs) + descr));
      if current != null {
        previous := current;
      }
      current := prog;
    }

    // Within the set, a program and its identity are the same thing.
    lemma SameById(p: Prog?, q: Prog)
      requires Coherent() && (p == null || p in programs.order) && q in programs.order
      ensures p == q <==> IdOf(p) == Some(q.idUs)
    {
      if p != null && p.idUs == q.idUs {
        LookupUnique(programs.order, q.idUs, p);
        LookupUnique(programs.order, q.idUs, q);
      }
    }

    // mtyp_drop. It sends nothing, and it does not look whether the program is in the set. One that
    // is not, and is linked to no other, takes all programs with it, also the current and the
    // previous one, which stay set: the set stays valid if and only if prog was in it, or neither is set.
    method Drop(prog: Prog)
      requires Valid() && programs.order != []
      requires prog in programs.order || (prog.prev == null && prog.next == null)
      modifies `current, `previous, programs, programs.buckets
      modifies programs.order`prev, programs.order`next, programs.order`hhPrev, programs.order`hhNext
      ensures programs.Valid() && (Valid() <==> prog in old(programs.order) || (current == null && previous == null))
      ensures programs.order == Without<Prog>(old(programs.order), prog) <==> prog in old(programs.order)
      ensures if prog in old(programs.order) then View() == Switching.AfterDrop(old(View()), prog.idUs)
              else programs.order == [] && current == old(current) && previous == old(previous)
      ensures programs.buckets == old(programs.buckets) && programs.bloomBv == old(programs.bloomBv)
    {
      hide ProgTable.Valid, Without;
      if prog in programs.order {
        SameById(current, prog);
        SameById(previous, prog);
        StaysCoherent(programs.order, prog, current);
        StaysCoherent(programs.order, prog, previous);
      }
      programs.Delete(prog);
      if current == prog {
        current := null;
      }
      if previous == prog {
        previous := null;
      }
    }
  }

  // mtyp_drop of a program that was made and never entered the set: all the others are gone.
  method DropUnentered(progset: ProgSet, idUs: Key, descr: Option<seq<byte>>)
    requires progset.Valid() && progset.programs.order != []
    modifies progset`current, progset`previous, progset.programs, progset.programs.buckets
    modifies progset.programs.order`prev, progset.programs.order`next
    modifies progset.programs.order`hhPrev, progset.programs.order`hhNext
    ensures progset.programs.order == []
    ensures progset.current == old(progset.current) && progset.previous == old(progset.previous)
  {
    hide ProgTable.Valid, ProgSet.Coherent, Without;
    var prog := new Prog(idUs, descr);
    assert prog !in old(progset.programs.order);
    progset.Drop(prog);
  }

  lemma StaysCoherent(s: seq<Prog>, prog: Prog, p: Prog?)
    requires KeysDistinct(s) && prog in s
    ensures KeysDistinct(Without<Prog>(s, prog))
    ensures p != null && p != prog && p in s ==> p in Without<Prog>(s, prog)
  {
    DistinctByKey(s);
    var i :| 0 <= i < |s| && s[i] == prog;
    WithoutAt<Prog>(s, i);
    if p != null {
      WithoutMembers<Prog>(s, prog, p);
    }
  }

  lemma DistinctByKey(s: seq<Prog>)
    requires KeysDistinct(s)
    ensures Distinct(s)
  {
    forall i, j | 0 <= i < j < |s| ensures s[i] != s[j] {
      assert s[i].idUs != s[j].idUs;
    }
  }

  lemma Pieces(a: seq<byte>, b: seq<byte>)
    ensures Flatten([[PSW]]) == Encode(SwitchBack) == [0x14]
    ensures Flatten([[SOH], a, b, [PSW]]) == Encode(SwitchTo(a + b)) == [0x01] + a + b + [0x14]
  {
    FlattenCons([PSW], []);
    assert [[PSW]] + [] == [[PSW]] && [PSW] + [] == [PSW];
    FlattenCons(b, [[PSW]]);
    FlattenCons(a, [b] + [[PSW]]);
    FlattenCons([SOH], [a] + ([b] + [[PSW]]));
    assert [[SOH], a, b, [PSW]] == [[SOH]] + ([a] + ([b] + [[PSW]]));
    assert [SOH] + (a + (b + [PSW])) == [SOH] + (a + b) + [PSW] == [SOH] + a + b + [PSW];
  }
}
