/** Whole runs of a program set: programs enter it, are switched to and are dropped, in any order
    and with any outcome on the line (lib/progswitch.c, lib/progdrop.c). */
module ProgRuns {
  import opened Bytes
  import opened Sequences
  import opened StableSort
  import opened Chains
  import UtHash
  import HashRuns
  import opened Wire
  import opened Receiver
  import opened Switching
  import opened Programs

  datatype Task = Enter(p: Prog) | Use(p: Prog) | Leave(p: Prog)

  function OrderAfter(s: seq<Prog>, task: Task): seq<Prog> {
    match task
    case Enter(p) => s + [p]
    case Use(p) => s
    case Leave(p) => Without<Prog>(s, p)
  }

  // Programs enter with an absent identity; only programs of the set are switched to or dropped.
  predicate Possible(s: seq<Prog>, tasks: seq<Task>)
    decreases tasks
  {
    tasks == [] ||
    ((if tasks[0].Enter? then Lookup(s, tasks[0].p.idUs) == null else tasks[0].p in s)
     && Possible(OrderAfter(s, tasks[0]), tasks[1..]))
  }

  // The switches and drops of a run, one after the other; entering the set is no such act.
  ghost predicate Follows(tasks: seq<Task>, acts: seq<Act>)
    reads set t | t in tasks :: t.p`descr
    decreases tasks
  {
    if tasks == [] then acts == []
    else
      match tasks[|tasks| - 1]
      case Enter(_) => Follows(tasks[..|tasks| - 1], acts)
      case Use(p) =>
        && acts != [] && Follows(tasks[..|tasks| - 1], acts[..|acts| - 1])
        && var a := acts[|acts| - 1]; a.Switch? && a.id == p.idUs && a.descr == DescrOf(p)
      case Leave(p) =>
        acts != [] && Follows(tasks[..|tasks| - 1], acts[..|acts| - 1]) && acts[|acts| - 1] == Drop(p.idUs)
  }

  // No message over PIPE_BUF arrived.
  predicate Fit(v: View, acts: seq<Act>)
    decreases acts
  {
    acts == [] ||
    (AllFit(ActSent(v, acts[0]))
     && Fit(ActView(v, acts[0]), acts[1..]))
  }

  lemma {:induction false} FitMore(v: View, acts: seq<Act>, act: Act)
    ensures Fit(v, acts) && AllFit(ActSent(ActsView(v, acts), act)) ==> Fit(v, acts + [act])
    decreases acts
  {
    hide ActView, ActSent, AllFit;
    if acts == [] {
      assert acts + [act] == [act] && [act][1..] == [];
    } else {
      assert (acts + [act])[1..] == acts[1..] + [act];
      FitMore(ActView(v, acts[0]), acts[1..], act);
    }
  }

  predicate AllFit(ms: seq<Message>) {
    forall i :: 0 <= i < |ms| ==> |Encode(ms[i])| <= PIPE_BUF
  }

  // One task took the view from v to v' and the line from t to t'. Nothing is known of what becomes
  // of a message but that one over PIPE_BUF does not arrive.
  ghost predicate Played(task: Task, descr: seq<byte>, act: Option<Act>, v: View, t: Traffic, v': View, t': Traffic) {
    match task
    case Enter(_) => act == None && v' == v && t' == t
    case Use(p) =>
      && act.Some? && act.value.Switch? && act.value == Switch(p.idUs, descr, act.value.arrived)
      && v' == ActView(v, act.value) && t'.log == t.log + ActSent(v, act.value) && AllFit(ActSent(v, act.value))
    case Leave(p) => act == Some(Drop(p.idUs)) && v' == ActView(v, act.value) && t' == t
  }

  lemma UsePlayed(p: Prog, descr: seq<byte>, sent: bool, v: View, t: Traffic, v': View, t': Traffic)
    requires v' == AfterSwitch(v, p.idUs)
    requires var ms := SwitchMessage(v, p.idUs, descr);
             if ms == [] then t' == t
             else Attempt(t, ms[0], t', sent) && (|Encode(ms[0])| > PIPE_BUF ==> !sent)
    ensures Played(Use(p), descr, Some(Switch(p.idUs, descr, sent)), v, t, v', t')
  {
    hide Encode, AfterSwitch;
    assert t.log + [] == t.log;
  }

  method Play(progset: ProgSet, task: Task, out: Stdout, ghost all: seq<Prog>) returns (ghost act: Option<Act>)
    requires progset.Valid() && out.Valid() && Within(progset.programs.order, all) && task.p in all
    requires if task.Enter? then Lookup(progset.programs.order, task.p.idUs) == null
             else task.p in progset.programs.order
    modifies progset`current, progset`previous, out
    modifies progset.programs, progset.programs.buckets, progset.programs.bloomBv
    modifies all`hashv, all`prev, all`next, all`hhPrev, all`hhNext
    ensures progset.Valid() && out.Valid() && progset.programs.order == OrderAfter(old(progset.programs.order), task)
    ensures progset.programs.buckets == old(progset.programs.buckets) || fresh(progset.programs.buckets)
    ensures progset.programs.bloomBv == old(progset.programs.bloomBv) || fresh(progset.programs.bloomBv)
    ensures Extends(old(out.traffic), out.traffic)
    ensures Played(task, DescrOf(task.p), act, old(progset.View()), old(out.traffic), progset.View(), out.traffic)
  {
    hide Lookup, Without, Extends, AfterSwitch, AfterDrop, SwitchMessage, Attempt, Encode, LineOk;
    hide UtHash.ProgTable.Valid;
    act := None;
    ExtendsHere(out.traffic);
    match task
    case Enter(p) =>
      progset.Enter(p);
    case Use(p) =>
      var sent := progset.Switch(p, out);
      act := Some(Switch(p.idUs, DescrOf(p), sent));
      UsePlayed(p, DescrOf(p), sent, old(progset.View()), old(out.traffic), progset.View(), out.traffic);
    case Leave(p) =>
      progset.Drop(p);
      act := Some(Drop(p.idUs));
  }

  // Every program of the set, now or later, can be announced to the receiver.
  ghost predicate Announced(all: seq<Prog>)
    reads all`descr
  {
    forall i :: 0 <= i < |all| ==> Known(all[i].idUs, DescrOf(all[i]))
  }

  // Any run of tasks, with any outcome on the line: the view and the messages that were sent.
  method PlayEach(progset: ProgSet, tasks: seq<Task>, out: Stdout, ghost all: seq<Prog>) returns (ghost acts: seq<Act>)
    requires progset.Valid() && out.Valid() && Possible(progset.programs.order, tasks)
    requires Within(progset.programs.order, all) && forall i :: 0 <= i < |tasks| ==> tasks[i].p in all
    modifies progset`current, progset`previous, out
    modifies progset.programs, progset.programs.buckets, progset.programs.bloomBv
    modifies all`hashv, all`prev, all`next, all`hhPrev, all`hhNext
    ensures progset.Valid() && out.Valid() && Extends(old(out.traffic), out.traffic)
    ensures Follows(tasks, acts) && progset.View() == ActsView(old(progset.View()), acts)
    ensures out.traffic.log == old(out.traffic.log) + ActsSent(old(progset.View()), acts)
    ensures Fit(old(progset.View()), acts)
  {
    hide UtHash.ProgTable.Valid, ProgSet.Coherent, Stdout.Valid, Extends, ActView, ActSent, ActsView, ActsSent, Fit,
         Played, Follows, Possible, OrderAfter;
    acts := [];
    ghost var v0, t0 := progset.View(), out.traffic;
    ExtendsHere(t0);
    NoActs(v0, t0);
    assert tasks[0..] == tasks && tasks[..0] == [];
    var i := 0;
    while i < |tasks|
      invariant i <= |tasks| && progset.Valid() && out.Valid() && Extends(t0, out.traffic)
      invariant Possible(progset.programs.order, tasks[i..]) && Within(progset.programs.order, all)
      invariant Follows(tasks[..i], acts) && progset.View() == ActsView(v0, acts)
      invariant out.traffic.log == t0.log + ActsSent(v0, acts) && Fit(v0, acts)
      invariant progset.programs.buckets == old(progset.programs.buckets) || fresh(progset.programs.buckets)
      invariant progset.programs.bloomBv == old(progset.programs.bloomBv) || fresh(progset.programs.bloomBv)
    {
      ghost var t, v := out.traffic, progset.View();
      PossibleNext(progset.programs.order, tasks[i..], all);
      ghost var act := Play(progset, tasks[i], out, all);
      ExtendsOn(t0, t, out.traffic);
      assert tasks[i..][1..] == tasks[i + 1..];
      PlayedOn(tasks, i, act, v0, t0, acts, v, t, progset.View(), out.traffic);
      acts := acts + (if act.Some? then [act.value] else []);
      i := i + 1;
    }
    assert tasks[..i] == tasks;
  }

  // The receiver, too: every switch takes it to its program if and only if none strays; and then, if
  // the line is still open, what is on it leaves the receiver where the sender thinks it is. In an
  // orderly run that is so in any case.
  method PlayAll(progset: ProgSet, tasks: seq<Task>, out: Stdout, ghost all: seq<Prog>, ghost k: Track)
    returns (ghost acts: seq<Act>)
    requires progset.Valid() && out.Valid() && Possible(progset.programs.order, tasks)
    requires Within(progset.programs.order, all) && Announced(all)
    requires forall i :: 0 <= i < |tasks| ==> tasks[i].p in all
    requires Tracks(progset.View(), k, Parse(START, out.bytes))
    modifies progset`current, progset`previous, out
    modifies progset.programs, progset.programs.buckets, progset.programs.bloomBv
    modifies all`hashv, all`prev, all`next, all`hhPrev, all`hhNext
    ensures progset.Valid() && out.Valid() && Extends(old(out.traffic), out.traffic)
    ensures Follows(tasks, acts) && progset.View() == ActsView(old(progset.View()), acts)
    ensures out.traffic.log == old(out.traffic.log) + ActsSent(old(progset.View()), acts)
    ensures Fit(old(progset.View()), acts)
    ensures Lands(old(progset.View()), Parse(START, old(out.bytes)), acts) <==> !StraysEver(old(progset.View()), k, acts)
    ensures out.open && !StraysEver(old(progset.View()), k, acts) ==>
              Tracks(progset.View(), ActsTrack(old(progset.View()), k, acts), Parse(START, out.bytes))
    ensures out.open && Orderly(old(progset.View()), acts) && Synced(old(progset.View()), Parse(START, old(out.bytes))) ==>
              Synced(progset.View(), Parse(START, out.bytes))
  {
    hide *;
    ghost var v0, t0, s0 := progset.View(), out.traffic, out.bytes;
    out.Holds();
    acts := PlayEach(progset, tasks, out, all);
    FollowsKnown(tasks, acts, all);
    RunLands(v0, k, Parse(START, s0), acts);
    out.Holds();
    if out.open {
      WhatIsRead(t0, s0, out.traffic, out.bytes, ActsSent(v0, acts));
      if Orderly(v0, acts) && Synced(v0, Parse(START, s0)) {
        RunSyncs(v0, Parse(START, s0), acts);
      }
    }
  }

  lemma NoActs(v: View, t: Traffic)
    ensures ActsView(v, []) == v && t.log + ActsSent(v, []) == t.log && Fit(v, []) && Follows([], [])
  {}

  lemma PossibleNext(s: seq<Prog>, tasks: seq<Task>, all: seq<Prog>)
    requires Possible(s, tasks) && tasks != [] && Within(s, all) && tasks[0].p in all
    ensures if tasks[0].Enter? then Lookup(s, tasks[0].p.idUs) == null else tasks[0].p in s
    ensures Possible(OrderAfter(s, tasks[0]), tasks[1..]) && Within(OrderAfter(s, tasks[0]), all)
  {
    if tasks[0].Leave? {
      HashRuns.WithoutWithin(s, tasks[0].p, all);
    }
  }

  lemma PlayedOn(tasks: seq<Task>, i: nat, act: Option<Act>, v0: View, t0: Traffic, acts: seq<Act>,
                 v: View, t: Traffic, v': View, t': Traffic)
    requires i < |tasks| && Follows(tasks[..i], acts) && v == ActsView(v0, acts) && t.log == t0.log + ActsSent(v0, acts)
    requires Fit(v0, acts) && Played(tasks[i], DescrOf(tasks[i].p), act, v, t, v', t')
    ensures var acts' := acts + (if act.Some? then [act.value] else []);
            && Follows(tasks[..i + 1], acts') && v' == ActsView(v0, acts')
            && t'.log == t0.log + ActsSent(v0, acts') && Fit(v0, acts')
  {
    hide ActsView, ActsSent, Fit, AllFit, AfterSwitch, AfterDrop, SwitchMessage;
    assert tasks[..i + 1][..i] == tasks[..i];
    if act.Some? {
      ViewMore(v0, acts, act.value);
      FitMore(v0, acts, act.value);
      Assoc(t0.log, ActsSent(v0, acts), ActSent(v, act.value));
      assert (acts + [act.value])[..|acts|] == acts;
      DropFits(v, act.value);
    } else {
      assert acts + [] == acts;
    }
  }

  lemma DropFits(v: View, act: Act)
    ensures act.Drop? ==> ActSent(v, act) == [] && AllFit(ActSent(v, act))
  {}

  lemma {:induction false} FollowsKnown(tasks: seq<Task>, acts: seq<Act>, all: seq<Prog>)
    requires Follows(tasks, acts) && Announced(all)
    requires forall i :: 0 <= i < |tasks| ==> tasks[i].p in all
    ensures AllKnown(acts)
    decreases tasks
  {
    hide Known;
    if tasks != [] {
      var p := tasks[|tasks| - 1].p;
      assert p in all;
      FollowsKnown(tasks[..|tasks| - 1], if tasks[|tasks| - 1].Enter? then acts else acts[..|acts| - 1], all);
    }
  }
}
