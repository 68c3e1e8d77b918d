/** Messages that come back: one that a room has evicted can be pushed again, by exactly these events,
    and within one epoch of the seen-set. */
module MeshComeback {
  import opened Basics
  import opened MeshNode
  import opened MeshGossip

  // ---------- the exact condition ----------

  predicate Own(selfId: string, sender: string)
  {
    selfId != "" && sender == selfId
  }

  /** An entry of a history that lets `x` in at this node. */
  predicate EntryOpens(n: Node, selfId: string, e: Entry, x: string)
  {
    e.packet.id == x && x != "" && !Own(selfId, e.sender) && RelayIn(x) !in n.seen && !Has(n.room, x)
  }

  /** The ways in for `x`: from Bluetooth while neither the id nor the text has gone out or come in
      that way, and from upstream while the id has not come in that way; and the room must not hold
      it. In a history the room counts as the entries before have left it. */
  predicate Opens(hash: Hash, n: Node, e: Event, x: string)
  {
    match e
    case Deliver(_, _, p, local, _) =>
      p.id == x && x != "" && local && BleSent(x) !in n.seen && BleEcho(hash(p)) !in n.seen && BleIn(x) !in n.seen && !Has(n.room, x)
    case FromUpstream(_, selfId, from, p, local) =>
      p.id == x && x != "" && local && !Own(selfId, from) && RelayIn(x) !in n.seen && !Has(n.room, x)
    case HistoryFromUpstream(_, selfId, entries) =>
      exists i :: 0 <= i < |entries| && EntryOpens(UpstreamHistory(n, selfId, entries[..i]), selfId, entries[i], x)
    case _ => false
  }

  lemma InjectPushes(n: Node, p: Packet, x: string)
    ensures Inject(n, p).pushed[x] > n.pushed[x] <==> p.id == x && !Has(n.room, x)
    ensures n.pushed[x] <= Inject(n, p).pushed[x]
  {
    hide Has;
  }

  lemma BlePushes(hash: Hash, n: Node, p: Packet, local: bool, body: nat, x: string)
    ensures BleReceive(hash, n, p, local, body).pushed[x] > n.pushed[x] <==> Opens(hash, n, Deliver(0, 0, p, local, body), x)
  {
    hide Has, Inject;
    InjectPushes(n.(seen := n.seen + {BleEcho(hash(p))} + {BleIn(p.id)}), Packet(p.id, body), x);
  }

  lemma UpstreamPushes(hash: Hash, n: Node, selfId: string, from: string, p: Packet, local: bool, x: string)
    ensures UpstreamMessage(n, selfId, from, p, local).pushed[x] > n.pushed[x] <==> Opens(hash, n, FromUpstream(0, selfId, from, p, local), x)
  {
    hide Has, Inject;
    InjectPushes(MarkAccepted(n, p.id), p, x);
  }

  lemma EntryPushes(n: Node, selfId: string, e: Entry, x: string)
    ensures HistoryEntry(n, selfId, e).pushed[x] > n.pushed[x] <==> EntryOpens(n, selfId, e, x)
    ensures n.pushed[x] <= HistoryEntry(n, selfId, e).pushed[x]
  {
    hide Has, Inject;
    InjectPushes(MarkAccepted(n, e.packet.id), e.packet, x);
  }

  lemma {:induction false} HistorySnoc(n: Node, selfId: string, entries: seq<Entry>, e: Entry)
    ensures UpstreamHistory(n, selfId, entries + [e]) == HistoryEntry(UpstreamHistory(n, selfId, entries), selfId, e)
    decreases |entries|
  {
    hide HistoryEntry;
    if entries == [] {
      assert entries + [e] == [e] && [e][1..] == [];
    } else {
      assert (entries + [e])[1..] == entries[1..] + [e];
      HistorySnoc(HistoryEntry(n, selfId, entries[0]), selfId, entries[1..], e);
    }
  }

  lemma {:induction false} HistoryPushes(n: Node, selfId: string, entries: seq<Entry>, x: string)
    ensures n.pushed[x] <= UpstreamHistory(n, selfId, entries).pushed[x]
    ensures UpstreamHistory(n, selfId, entries).pushed[x] > n.pushed[x] <==>
            exists i :: 0 <= i < |entries| && EntryOpens(UpstreamHistory(n, selfId, entries[..i]), selfId, entries[i], x)
    decreases |entries|
  {
    hide HistoryEntry, EntryOpens;
    if entries != [] {
      var init, e := entries[..|entries| - 1], entries[|entries| - 1];
      assert entries == init + [e];
      HistorySnoc(n, selfId, init, e);
      EntryPushes(UpstreamHistory(n, selfId, init), selfId, e, x);
      HistoryPushes(n, selfId, init, x);
      assert forall i :: 0 <= i < |init| ==> init[..i] == entries[..i] && init[i] == entries[i];
      assert entries[..|init|] == init;
    }
  }

  /** A message the node has had already is pushed again by exactly the events that open a way in. */
  lemma ComesBackExactly(hash: Hash, n: Node, e: Event, x: string)
    requires n.pushed[x] > 0 && ((e.Bridge? || e.FallBehind?) ==> n.outbox != [])
    requires e.LocalSend? ==> n.pushed[e.packet.id] == 0
    ensures NodeStep(hash, n, e).pushed[x] > n.pushed[x] <==> Opens(hash, n, e, x)
  {
    hide BleReceive, UpstreamMessage, UpstreamHistory, Has;
    match e
    case Deliver(_, _, p, local, body) => BlePushes(hash, n, p, local, body, x);
    case FromUpstream(_, selfId, from, p, local) => UpstreamPushes(hash, n, selfId, from, p, local, x);
    case HistoryFromUpstream(_, selfId, entries) => HistoryPushes(n, selfId, entries, x);
    case _ =>
  }

  /** And then the room has evicted it, before or in the course of the event. */
  lemma OnlyAfterEviction(hash: Hash, n: Node, e: Event, x: string)
    requires NodeInv(n) && n.pushed[x] > 0 && ((e.Bridge? || e.FallBehind?) ==> n.outbox != [])
    requires e.LocalSend? ==> n.pushed[e.packet.id] == 0
    requires NodeStep(hash, n, e).pushed[x] > n.pushed[x]
    ensures x in NodeStep(hash, n, e).evicted
  {
    hide NodeInv, NodeStep;
    NodeStepKeeps(hash, n, e);
    if x !in NodeStep(hash, n, e).evicted {
      CountsOf(NodeStep(hash, n, e), x);
    }
  }

  // ---------- it happens ----------

  const LINKS: Links := {(1, 0)}
  const X := "x"

  /** Texts of other messages, each with its own id. */
  function Filler(k: nat): (id: string)
    ensures |id| == k + 2
  {
    if k == 0 then "ff" else Filler(k - 1) + "f"
  }

  function Fills(m: nat): seq<Event>
  {
    if m == 0 then [] else Fills(m - 1) + [LocalSend(0, Packet(Filler(m - 1), 0))]
  }

  /** A message is written on node 1, forwarded, and received on node 0. */
  const ARRIVAL: seq<Event> := [LocalSend(1, Packet(X, 0)), Bridge(1), Deliver(1, 0, Packet(X, 0), true, 0)]

  lemma RunSnoc(hash: Hash, evs: seq<Event>, e: Event)
    ensures Run(LINKS, hash, 2, evs + [e]) == Step(LINKS, hash, Run(LINKS, hash, 2, evs), e)
  {
    hide Step;
    assert (evs + [e])[..|evs|] == evs;
  }

  /** Node 0 after m further messages of its own user. */
  ghost predicate Filled(net: Net, m: nat)
  {
    |net.nodes| == 2
    && (var n := net.nodes[0];
        n.pushed[X] == 1 && RelayIn(X) !in n.seen && |n.room| == Min(MAX_MESSAGES, m + 1)
        && (forall i :: 0 <= i < |n.room| && n.room[i].id == X ==> i == 0 && m < MAX_MESSAGES))
    && forall j: nat, k :: m <= j && 0 <= k < 2 ==> net.nodes[k].pushed[Filler(j)] == 0
  }

  lemma Arrived(hash: Hash)
    ensures Filled(Run(LINKS, hash, 2, ARRIVAL), 0)
  {
    hide Step;
    var p := Packet(X, 0);
    var e1, e2, e3 := LocalSend(1, p), Bridge(1), Deliver(1, 0, p, true, 0);
    RunSnoc(hash, [], e1);
    RunSnoc(hash, [e1], e2);
    RunSnoc(hash, [e1, e2], e3);
    assert [] + [e1] == [e1] && [e1] + [e2] == [e1, e2] && [e1, e2] + [e3] == ARRIVAL;
    var s0 := Start(2);
    var s1 := Step(LINKS, hash, s0, e1);
    var s2 := Step(LINKS, hash, s1, e2);
    var sent := Push(FRESH_NODE, p);
    assert s1 == Net([FRESH_NODE, sent], {}) by { FirstStep(hash, p); }
    assert s2.nodes[0] == FRESH_NODE && |s2.nodes| == 2 && s2.nodes[1].pushed == sent.pushed && (1, p) in s2.air by { SecondStep(hash, p); }
    ThirdStep(hash, s2, p);
  }

  lemma FirstStep(hash: Hash, p: Packet)
    ensures Step(LINKS, hash, Start(2), LocalSend(1, p)) == Net([FRESH_NODE, Push(FRESH_NODE, p)], {})
  {
    hide Push;
    assert Start(2).nodes[1 := Push(FRESH_NODE, p)] == [FRESH_NODE, Push(FRESH_NODE, p)];
  }

  lemma SecondStep(hash: Hash, p: Packet)
    ensures var sent := Push(FRESH_NODE, p);
            var s2 := Step(LINKS, hash, Net([FRESH_NODE, sent], {}), Bridge(1));
            |s2.nodes| == 2 && s2.nodes[0] == FRESH_NODE && s2.nodes[1].pushed == sent.pushed && (1, p) in s2.air
  {
    var sent := Push(FRESH_NODE, p);
    assert sent.outbox == [p] && sent.seen == {};
    assert Forward(hash, sent).1 == Some(p);
    assert p in Written(hash, sent, Bridge(1));
  }

  lemma ThirdStep(hash: Hash, s2: Net, p: Packet)
    requires p.id == X && |s2.nodes| == 2 && s2.nodes[0] == FRESH_NODE && s2.nodes[1].pushed == multiset{X} && (1, p) in s2.air
    ensures Filled(Step(LINKS, hash, s2, Deliver(1, 0, p, true, 0)), 0)
  {
    var n := BleReceive(hash, FRESH_NODE, p, true, 0);
    FirstReceived(hash, p);
    assert Step(LINKS, hash, s2, Deliver(1, 0, p, true, 0)).nodes == s2.nodes[0 := n];
  }

  lemma FirstReceived(hash: Hash, p: Packet)
    requires p.id == X
    ensures var n := BleReceive(hash, FRESH_NODE, p, true, 0);
            n.pushed == multiset{X} && n.room == [Packet(X, 0)] && n.seen == {BleEcho(hash(p)), BleIn(X)}
  {
    var q := FRESH_NODE.(seen := {BleEcho(hash(p)), BleIn(X)}, injected := multiset{X});
    assert Push(q, Packet(X, 0)).room == [Packet(X, 0)];
  }

  lemma FillStep(hash: Hash, net: Net, m: nat)
    requires Filled(net, m)
    ensures Filled(Step(LINKS, hash, net, LocalSend(0, Packet(Filler(m), 0))), m + 1)
  {
    hide Filler;
    var e := LocalSend(0, Packet(Filler(m), 0));
    var n, t := net.nodes[0], Push(net.nodes[0], Packet(Filler(m), 0));
    assert Enabled(LINKS, net, e);
    assert Step(LINKS, hash, net, e).nodes == net.nodes[0 := t];
    RoomFilled(n, m);
    forall j: nat | m + 1 <= j ensures t.pushed[Filler(j)] == 0 { assert |Filler(j)| != |Filler(m)|; }
  }

  lemma RoomFilled(n: Node, m: nat)
    requires |n.room| == Min(MAX_MESSAGES, m + 1)
    requires forall i :: 0 <= i < |n.room| && n.room[i].id == X ==> i == 0 && m < MAX_MESSAGES
    ensures var t := Push(n, Packet(Filler(m), 0));
            |t.room| == Min(MAX_MESSAGES, m + 2) && t.seen == n.seen && t.pushed == n.pushed + multiset{Filler(m)} && Filler(m) != X
            && forall i :: 0 <= i < |t.room| && t.room[i].id == X ==> i == 0 && m + 1 < MAX_MESSAGES
  {
    hide Filler;
    var all := n.room + [Packet(Filler(m), 0)];
    assert all[|n.room|].id != X by { assert |Filler(m)| != |X|; }
    assert forall i :: 0 <= i < |all| && all[i].id == X ==> i == 0 && m < MAX_MESSAGES;
  }

  lemma {:induction false} AfterFills(hash: Hash, m: nat)
    ensures Filled(Run(LINKS, hash, 2, ARRIVAL + Fills(m)), m)
    decreases m
  {
    hide Run, Step, Filled;
    if m == 0 {
      assert ARRIVAL + Fills(0) == ARRIVAL;
      Arrived(hash);
    } else {
      var e := LocalSend(0, Packet(Filler(m - 1), 0));
      AfterFills(hash, m - 1);
      assert ARRIVAL + Fills(m) == (ARRIVAL + Fills(m - 1)) + [e];
      RunSnoc(hash, ARRIVAL + Fills(m - 1), e);
      FillStep(hash, Run(LINKS, hash, 2, ARRIVAL + Fills(m - 1)), m - 1);
    }
  }

  lemma {:induction false} NoCleanUp(m: nat)
    ensures forall e :: e in Fills(m) ==> e.LocalSend?
  {
    if m > 0 { NoCleanUp(m - 1); }
  }

  /** A run of two phones, without any clean-up, in which a message that came in from Bluetooth and
      was evicted comes back from upstream: the node has pushed it twice. */
  lemma ComesBack(hash: Hash) returns (evs: seq<Event>)
    ensures forall e :: e in evs ==> !e.CleanUp?
    ensures var nodes := Run(LINKS, hash, 2, evs).nodes;
            |nodes| == 2 && nodes[0].pushed[X] == 2 && X in nodes[0].evicted && Has(nodes[0].room, X)
  {
    hide Run, Step, NodeInv, Filled;
    var before := ARRIVAL + Fills(MAX_MESSAGES);
    var back := FromUpstream(0, "", "", Packet(X, 0), true);
    evs := before + [back];
    NoCleanUp(MAX_MESSAGES);
    AfterFills(hash, MAX_MESSAGES);
    RunKeeps(LINKS, hash, 2, before);
    RunKeeps(LINKS, hash, 2, evs);
    RunSnoc(hash, before, back);
    PushedTwice(hash, Run(LINKS, hash, 2, before));
  }

  lemma PushedTwice(hash: Hash, net: Net)
    requires Filled(net, MAX_MESSAGES) && NodeInv(net.nodes[0])
    requires NodeInv(Step(LINKS, hash, net, FromUpstream(0, "", "", Packet(X, 0), true)).nodes[0])
    ensures var nodes := Step(LINKS, hash, net, FromUpstream(0, "", "", Packet(X, 0), true)).nodes;
            |nodes| == 2 && nodes[0].pushed[X] == 2 && X in nodes[0].evicted && Has(nodes[0].room, X)
  {
    hide NodeInv, Push, Has;
    var n, p := net.nodes[0], Packet(X, 0);
    assert !Has(n.room, X) by { NotHeld(n.room); }
    var m := MarkAccepted(n, X);
    var t := UpstreamMessage(n, "", "", p, true);
    assert t == Push(m.(injected := m.injected + multiset{X}), p);
    LastPushed(m.(injected := m.injected + multiset{X}), p);
    assert Step(LINKS, hash, net, FromUpstream(0, "", "", p, true)).nodes == net.nodes[0 := t];
    if X !in t.evicted { CountsOf(t, X); }
  }

  lemma NotHeld(room: seq<Packet>)
    requires forall i :: 0 <= i < |room| ==> room[i].id != X
    ensures !Has(room, X)
  {
  }

  lemma LastPushed(n: Node, p: Packet)
    ensures var t := Push(n, p); t.pushed == n.pushed + multiset{p.id} && Has(t.room, p.id)
  {
    var t := Push(n, p);
    assert t.room[|t.room| - 1] == p;
  }
}
