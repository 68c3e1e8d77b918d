/** A mesh of nodes that flood chat messages over Bluetooth links, in any topology, with loss,
    duplication and reordering, while upstream servers inject what they like. */
module MeshGossip {
  import opened MeshNode

  /** `air` holds every packet a node has written: delivering one does not use it up, so it may be
      lost, delivered late, or delivered many times. */
  datatype Net = Net(nodes: seq<Node>, air: set<(nat, Packet)>)

  type Links = set<(nat, nat)>

  datatype Event =
    | LocalSend(at: nat, packet: Packet)
    | Deliver(sender: nat, at: nat, packet: Packet, local: bool, body: nat)
    | Bridge(at: nat)
    | FallBehind(at: nat)
    | FromUpstream(at: nat, selfId: string, from: string, packet: Packet, local: bool)
    | HistoryFromUpstream(at: nat, selfId: string, entries: seq<Entry>)
    | ToUpstream(at: nat, id: string, complete: bool)
    | CleanUp(at: nat)
    | SyncHistory(at: nat)

  /** Message ids of local users are fresh; a delivery needs a link and a packet in the air. */
  ghost predicate Enabled(links: Links, net: Net, e: Event)
  {
    e.at < |net.nodes| &&
    match e
    case LocalSend(_, p) => forall k :: 0 <= k < |net.nodes| ==> net.nodes[k].pushed[p.id] == 0
    case Deliver(sender, at, p, _, _) => (sender, at) in links && (sender, p) in net.air
    case Bridge(at) => net.nodes[at].outbox != []
    case FallBehind(at) => net.nodes[at].outbox != []
    case _ => true
  }

  function NodeStep(hash: Hash, n: Node, e: Event): Node
    requires (e.Bridge? || e.FallBehind?) ==> n.outbox != []
  {
    match e
    case LocalSend(_, p) => Push(n, p)
    case Deliver(_, _, p, local, body) => BleReceive(hash, n, p, local, body)
    case Bridge(_) => Forward(hash, n).0
    case FallBehind(_) => Lag(n)
    case FromUpstream(_, selfId, from, p, local) => UpstreamMessage(n, selfId, from, p, local)
    case HistoryFromUpstream(_, selfId, entries) => UpstreamHistory(n, selfId, entries)
    case ToUpstream(_, id, complete) => FilterForUpstream(n, id, complete).0
    case CleanUp(_) => Cleanup(n)
    case SyncHistory(_) => n
  }

  /** What the node writes to Bluetooth in the step; a new connection gets the whole room. */
  ghost function Written(hash: Hash, n: Node, e: Event): set<Packet>
    requires (e.Bridge? || e.FallBehind?) ==> n.outbox != []
  {
    match e
    case Bridge(_) => (match Forward(hash, n).1 case None => {} case Some(p) => {p})
    case SyncHistory(_) => set p | p in n.room
    case _ => {}
  }

  ghost function Step(links: Links, hash: Hash, net: Net, e: Event): Net
  {
    if !Enabled(links, net, e) then net
    else
      var n := net.nodes[e.at];
      Net(net.nodes[e.at := NodeStep(hash, n, e)],
          net.air + (set p | p in Written(hash, n, e) :: (e.at, p)))
  }

  ghost function Start(size: nat): Net
  {
    Net(seq(size, _ => FRESH_NODE), {})
  }

  ghost function Run(links: Links, hash: Hash, size: nat, evs: seq<Event>): Net
  {
    if evs == [] then Start(size) else Step(links, hash, Run(links, hash, size, evs[..|evs| - 1]), evs[|evs| - 1])
  }

  // ---------- invariants over every run ----------

  lemma NodeStepKeeps(hash: Hash, n: Node, e: Event)
    requires NodeInv(n) && ((e.Bridge? || e.FallBehind?) ==> n.outbox != [])
    requires e.LocalSend? ==> n.pushed[e.packet.id] == 0
    ensures NodeInv(NodeStep(hash, n, e))
  {
    hide NodeInv, Push, BleReceive, Forward, UpstreamMessage, UpstreamHistory, FilterForUpstream, Cleanup;
    match e
    case LocalSend(_, p) => LocalSendKeeps(n, p);
    case Deliver(_, _, p, local, body) => BleReceiveKeeps(hash, n, p, local, body);
    case Bridge(_) => ForwardKeeps(hash, n);
    case FallBehind(_) => ForwardKeeps(hash, n);
    case FromUpstream(_, selfId, from, p, local) => UpstreamMessageKeeps(n, selfId, from, p, local);
    case HistoryFromUpstream(_, selfId, entries) => UpstreamHistoryKeeps(n, selfId, entries);
    case ToUpstream(_, id, complete) => FilterKeeps(n, id, complete);
    case CleanUp(_) => CleanupKeeps(n);
    case SyncHistory(_) =>
  }

  lemma {:induction false} RunKeeps(links: Links, hash: Hash, size: nat, evs: seq<Event>)
    ensures var net := Run(links, hash, size, evs);
            |net.nodes| == size && forall k :: 0 <= k < size ==> NodeInv(net.nodes[k])
    decreases |evs|
  {
    hide NodeInv, NodeStep, Written;
    if evs == [] {
      FreshKeeps();
    } else {
      var before, e := evs[..|evs| - 1], evs[|evs| - 1];
      RunKeeps(links, hash, size, before);
      var net := Run(links, hash, size, before);
      if Enabled(links, net, e) {
        NodeStepKeeps(hash, net.nodes[e.at], e);
      }
    }
  }

  lemma FreshKeeps()
    ensures NodeInv(FRESH_NODE)
  {
  }

  // ---------- the flood is finite ----------

  /** How far a node can still go with a message: it may push it and then write it out. */
  ghost function Weight(n: Node, x: string): nat
  {
    if n.pushed[x] == 0 then 2 else One(IdBag(n.outbox)[x] > 0)
  }

  ghost function Potential(nodes: seq<Node>, x: string): nat
  {
    if nodes == [] then 0 else Weight(nodes[0], x) + Potential(nodes[1..], x)
  }

  ghost function Forwards(nodes: seq<Node>, x: string): nat
  {
    if nodes == [] then 0 else nodes[0].forwarded[x] + Forwards(nodes[1..], x)
  }

  ghost function Pushes(nodes: seq<Node>, x: string): nat
  {
    if nodes == [] then 0 else nodes[0].pushed[x] + Pushes(nodes[1..], x)
  }

  ghost predicate NotEvicted(nodes: seq<Node>, x: string)
  {
    forall n :: n in nodes ==> x !in n.evicted
  }

  lemma WeightBounds(n: Node, x: string)
    requires RoomInv(n) && x !in n.evicted
    ensures n.forwarded[x] <= n.pushed[x] <= 1
    ensures Weight(n, x) + n.pushed[x] + n.forwarded[x] <= 2
    ensures IdBag(n.room)[x] == n.pushed[x]
  {
  }

  lemma {:induction false} SumBounds(nodes: seq<Node>, x: string)
    requires NotEvicted(nodes, x) && forall n :: n in nodes ==> NodeInv(n)
    ensures Forwards(nodes, x) <= Pushes(nodes, x) <= |nodes|
    ensures Potential(nodes, x) + Pushes(nodes, x) + Forwards(nodes, x) <= 2 * |nodes|
    decreases |nodes|
  {
    hide RoomInv, EpochInv, UpstreamInv, Weight;
    if nodes != [] {
      assert nodes[0] in nodes;
      WeightBounds(nodes[0], x);
      forall n | n in nodes[1..] ensures NodeInv(n) && x !in n.evicted { assert n in nodes; }
      SumBounds(nodes[1..], x);
    }
  }

  /** In every run, in any topology and under any loss, duplication and reordering: as long as no
      room has evicted the message, each room holds at most one copy of it, each node has pushed
      and forwarded it at most once, and all forwards together are at most the number of nodes.
      This needs no epoch: the clean-up of the seen-set may happen at any time. */
  lemma GossipBounded(links: Links, hash: Hash, size: nat, evs: seq<Event>, x: string)
    requires NotEvicted(Run(links, hash, size, evs).nodes, x)
    ensures var nodes := Run(links, hash, size, evs).nodes;
            |nodes| == size
            && (forall k :: 0 <= k < size ==> IdBag(nodes[k].room)[x] <= 1 && nodes[k].forwarded[x] <= 1)
            && Forwards(nodes, x) <= size
            && Potential(nodes, x) + Pushes(nodes, x) + Forwards(nodes, x) <= 2 * size
  {
    hide Run, NodeInv;
    RunKeeps(links, hash, size, evs);
    var nodes := Run(links, hash, size, evs).nodes;
    SumBounds(nodes, x);
    forall k | 0 <= k < size ensures IdBag(nodes[k].room)[x] <= 1 && nodes[k].forwarded[x] <= 1 {
      assert nodes[k] in nodes;
      WeightOf(nodes[k], x);
    }
  }

  lemma WeightOf(n: Node, x: string)
    requires NodeInv(n) && x !in n.evicted
    ensures IdBag(n.room)[x] <= 1 && n.forwarded[x] <= n.pushed[x] <= 1
  {
    WeightBounds(n, x);
  }

  // ---------- the decreasing measure, step by step ----------

  lemma {:induction false} OneNodeChanges(nodes: seq<Node>, i: nat, m: Node, x: string)
    requires i < |nodes|
    ensures Potential(nodes[i := m], x) + Weight(nodes[i], x) == Potential(nodes, x) + Weight(m, x)
    ensures Forwards(nodes[i := m], x) + nodes[i].forwarded[x] == Forwards(nodes, x) + m.forwarded[x]
    ensures Pushes(nodes[i := m], x) + nodes[i].pushed[x] == Pushes(nodes, x) + m.pushed[x]
    decreases |nodes|
  {
    hide Weight;
    var t := nodes[i := m];
    if i == 0 {
      assert t[1..] == nodes[1..];
    } else {
      assert t[1..] == nodes[1..][i - 1 := m];
      OneNodeChanges(nodes[1..], i - 1, m, x);
    }
  }

  /** What one step of a node may do to the history of a message. */
  ghost predicate Grows(n: Node, t: Node, x: string)
  {
    n.pushed[x] <= t.pushed[x] && n.forwarded[x] <= t.forwarded[x] && n.evicted <= t.evicted
    && (t.pushed[x] == n.pushed[x] ==> IdBag(t.outbox)[x] <= IdBag(n.outbox)[x])
    && (t.forwarded[x] > n.forwarded[x] ==> IdBag(n.outbox)[x] > 0)
  }

  lemma PushGrows(n: Node, p: Packet, x: string)
    ensures Grows(n, Push(n, p), x)
  {
    hide IdBag;
    BagSnoc(n.outbox, p);
  }

  lemma SameHistoryGrows(n: Node, m: Node, t: Node, x: string)
    requires Grows(m, t, x)
    requires m.outbox == n.outbox && m.pushed == n.pushed && m.forwarded == n.forwarded && m.evicted == n.evicted
    ensures Grows(n, t, x)
  {
  }

  lemma InjectGrows(n: Node, p: Packet, x: string)
    ensures Grows(n, Inject(n, p), x)
  {
    hide Has, Push;
    var m := n.(injected := n.injected + multiset{p.id});
    PushGrows(m, p, x);
    SameHistoryGrows(n, m, Push(m, p), x);
  }

  lemma BleGrows(hash: Hash, n: Node, p: Packet, local: bool, body: nat, x: string)
    ensures Grows(n, BleReceive(hash, n, p, local, body), x)
  {
    hide Inject, IdBag;
    var m := n.(seen := n.seen + {BleEcho(hash(p))});
    var q := m.(seen := m.seen + {BleIn(p.id)});
    InjectGrows(q, Packet(p.id, body), x);
    SameHistoryGrows(n, q, Inject(q, Packet(p.id, body)), x);
  }

  lemma UpstreamGrows(n: Node, selfId: string, from: string, p: Packet, local: bool, x: string)
    ensures Grows(n, UpstreamMessage(n, selfId, from, p, local), x)
  {
    hide Inject, IdBag;
    var m := MarkAccepted(n, p.id);
    InjectGrows(m, p, x);
    SameHistoryGrows(n, m, Inject(m, p), x);
  }

  lemma TakesHead(hash: Hash, n: Node, x: string)
    requires n.outbox != []
    ensures Grows(n, Forward(hash, n).0, x) && Grows(n, Lag(n), x)
  {
    assert IdBag(n.outbox) == multiset{n.outbox[0].id} + IdBag(n.outbox[1..]);
  }

  lemma {:induction false} HistoryGrows(n: Node, selfId: string, entries: seq<Entry>, x: string)
    ensures Grows(n, UpstreamHistory(n, selfId, entries), x)
    ensures UpstreamHistory(n, selfId, entries).forwarded == n.forwarded
    decreases |entries|
  {
    hide UpstreamMessage, Inject, IdBag;
    if entries != [] {
      var m := HistoryEntry(n, selfId, entries[0]);
      UpstreamGrows(n, selfId, entries[0].sender, entries[0].packet, true, x);
      EntryIsMessage(n, selfId, entries[0]);
      HistoryGrows(m, selfId, entries[1..], x);
    }
  }

  /** A history entry is skipped, or handled like the same message arriving on its own. */
  lemma EntryIsMessage(n: Node, selfId: string, e: Entry)
    ensures HistoryEntry(n, selfId, e) == n || HistoryEntry(n, selfId, e) == UpstreamMessage(n, selfId, e.sender, e.packet, true)
    ensures HistoryEntry(n, selfId, e).forwarded == n.forwarded
  {
    hide Has;
  }

  lemma StepGrows(hash: Hash, n: Node, e: Event, x: string)
    requires (e.Bridge? || e.FallBehind?) ==> n.outbox != []
    ensures Grows(n, NodeStep(hash, n, e), x)
  {
    hide Grows, Push, BleReceive, Forward, Lag, UpstreamMessage, UpstreamHistory;
    match e
    case LocalSend(_, p) => PushGrows(n, p, x);
    case Deliver(_, _, p, local, body) => BleGrows(hash, n, p, local, body, x);
    case Bridge(_) => TakesHead(hash, n, x);
    case FallBehind(_) => TakesHead(hash, n, x);
    case FromUpstream(_, selfId, from, p, local) => UpstreamGrows(n, selfId, from, p, local, x);
    case HistoryFromUpstream(_, selfId, entries) => HistoryGrows(n, selfId, entries, x);
    case ToUpstream(_, id, complete) => Unmoved(n, FilterForUpstream(n, id, complete).0, x);
    case CleanUp(_) => Unmoved(n, Cleanup(n), x);
    case SyncHistory(_) => Unmoved(n, n, x);
  }

  lemma Unmoved(n: Node, t: Node, x: string)
    requires t.outbox == n.outbox && t.pushed == n.pushed && t.forwarded == n.forwarded && t.evicted == n.evicted
    ensures Grows(n, t, x)
  {
  }

  /** A step of one node, as long as its room does not evict the message: the weight never grows,
      and it falls whenever the node pushes the message or writes it out. */
  lemma WeightFalls(hash: Hash, n: Node, e: Event, x: string)
    requires NodeInv(n) && ((e.Bridge? || e.FallBehind?) ==> n.outbox != [])
    requires e.LocalSend? ==> n.pushed[e.packet.id] == 0
    requires x !in NodeStep(hash, n, e).evicted
    ensures var t := NodeStep(hash, n, e);
            Weight(t, x) <= Weight(n, x)
            && (t.pushed[x] > n.pushed[x] || t.forwarded[x] > n.forwarded[x] ==> Weight(t, x) < Weight(n, x))
  {
    hide NodeStep, NodeInv, IdBag;
    var t := NodeStep(hash, n, e);
    NodeStepKeeps(hash, n, e);
    StepGrows(hash, n, e, x);
    CountsOf(n, x);
    CountsOf(t, x);
  }

  lemma CountsOf(n: Node, x: string)
    requires NodeInv(n) && x !in n.evicted
    ensures n.pushed[x] <= 1 && IdBag(n.outbox)[x] + n.forwarded[x] <= n.pushed[x]
  {
  }

  /** The measure of the whole mesh: no step makes it grow, and every step in which a node pushes
      or forwards the message makes it smaller. */
  lemma PotentialFalls(links: Links, hash: Hash, size: nat, evs: seq<Event>, e: Event, x: string)
    requires NotEvicted(Step(links, hash, Run(links, hash, size, evs), e).nodes, x)
    ensures var s := Run(links, hash, size, evs);
            var t := Step(links, hash, s, e);
            Potential(t.nodes, x) <= Potential(s.nodes, x)
            && (Pushes(t.nodes, x) > Pushes(s.nodes, x) || Forwards(t.nodes, x) > Forwards(s.nodes, x)
                ==> Potential(t.nodes, x) < Potential(s.nodes, x))
  {
    hide Run, NodeInv, NodeStep, Written, Weight, Potential, Forwards, Pushes;
    var s := Run(links, hash, size, evs);
    RunKeeps(links, hash, size, evs);
    if Enabled(links, s, e) {
      var n := s.nodes[e.at];
      var m := NodeStep(hash, n, e);
      OneNodeChanges(s.nodes, e.at, m, x);
      assert s.nodes[e.at := m][e.at] == m;
      MemberOf(s.nodes[e.at := m], e.at, x);
      WeightFalls(hash, n, e, x);
      StepGrows(hash, n, e, x);
    }
  }

  lemma MemberOf(nodes: seq<Node>, i: nat, x: string)
    requires i < |nodes| && NotEvicted(nodes, x)
    ensures x !in nodes[i].evicted
  {
  }

  // ---------- one epoch, with evictions ----------

  /** Within an epoch of a node's seen-set, even if its room has let the message go meanwhile: at
      most two injections from outside and one pass-through to upstream, at most one message of the
      relays to upstream under that id, and none after it was accepted from there. */
  lemma EpochBounded(links: Links, hash: Hash, size: nat, evs: seq<Event>, k: nat, x: string)
    requires k < size
    ensures var nodes := Run(links, hash, size, evs).nodes;
            k < |nodes| && var n := nodes[k];
            n.injected[x] <= 2 && n.passedThrough[x] <= 1
            && forall i, j :: 0 <= i < j < |n.upstream| && n.upstream[j] == Passed(x) ==> n.upstream[i].id != x
  {
    hide Run;
    RunKeeps(links, hash, size, evs);
    var n := Run(links, hash, size, evs).nodes[k];
    assert EpochInv(n) && UpstreamInv(n);
  }
}
