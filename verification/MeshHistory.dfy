/** What a phone of the mesh knows and holds, told by the events of the run alone: the keys in its seen-set,
    what it writes to Bluetooth and passes upstream, and the messages in its room and its outbox. */
module MeshHistory {
  import opened Basics
  import opened MeshNode
  import opened MeshGossip
  import opened MeshComeback

  datatype World = World(links: Links, hash: Hash, size: nat) {
    ghost function After(evs: seq<Event>): Net
    {
      Run(links, hash, size, evs)
    }

    ghost function NodeAfter(evs: seq<Event>, k: nat): Node
      requires k < size
    {
      RunKeeps(links, hash, size, evs);
      After(evs).nodes[k]
    }

    /** Event `i` of the run takes place, at node `k`. */
    ghost predicate Occurs(evs: seq<Event>, k: nat, i: nat)
    {
      k < size && i < |evs| && evs[i].at == k && Enabled(links, After(evs[..i]), evs[i])
    }

    /** The clean-up finds more than 10000 keys and clears them. */
    ghost function ClearsAt(evs: seq<Event>, k: nat): nat -> bool
    {
      (i: nat) => Occurs(evs, k, i) && evs[i].CleanUp? && |NodeAfter(evs[..i], k).seen| > MAX_SEEN
    }

    /** The bridge takes a broadcast with this id. */
    ghost function TakesAt(evs: seq<Event>, k: nat, id: string): nat -> bool
    {
      (i: nat) => Occurs(evs, k, i) && evs[i].Bridge? && NodeAfter(evs[..i], k).outbox[0].id == id
    }

    /** Since the last clean-up ... */
    ghost predicate Taken(evs: seq<Event>, k: nat, id: string)
    {
      Since(|evs|, TakesAt(evs, k, id), ClearsAt(evs, k))
    }

    /** A packet with this text comes in from Bluetooth, and its id had not been taken by the bridge. */
    ghost function HearsAt(evs: seq<Event>, k: nat, h: nat): nat -> bool
    {
      (i: nat) => Occurs(evs, k, i) && evs[i].Deliver? && hash(evs[i].packet) == h && !Taken(evs[..i], k, evs[i].packet.id)
    }

    ghost predicate Heard(evs: seq<Event>, k: nat, h: nat)
    {
      Since(|evs|, HearsAt(evs, k, h), ClearsAt(evs, k))
    }

    /** A packet with this id comes in from Bluetooth, neither id nor text known there. */
    ghost function ArrivesAt(evs: seq<Event>, k: nat, id: string): nat -> bool
    {
      (i: nat) => Occurs(evs, k, i) && evs[i].Deliver? && evs[i].packet.id == id != ""
                  && !Taken(evs[..i], k, id) && !Heard(evs[..i], k, hash(evs[i].packet))
    }

    ghost predicate Arrived(evs: seq<Event>, k: nat, id: string)
    {
      Since(|evs|, ArrivesAt(evs, k, id), ClearsAt(evs, k))
    }

    /** It comes from upstream, alone or in a history in which it is not the phone's own. */
    ghost function AcceptsAt(evs: seq<Event>, k: nat, id: string): nat -> bool
    {
      (i: nat) => Occurs(evs, k, i) && Brings(evs[i], id)
    }

    ghost predicate Accepted(evs: seq<Event>, k: nat, id: string)
    {
      Since(|evs|, AcceptsAt(evs, k, id), ClearsAt(evs, k))
    }

    /** It comes from upstream, or is offered to it. */
    ghost function OffersAt(evs: seq<Event>, k: nat, id: string): nat -> bool
    {
      (i: nat) => Occurs(evs, k, i) && (Brings(evs[i], id) || (evs[i].ToUpstream? && evs[i].id == id))
    }

    ghost predicate Offered(evs: seq<Event>, k: nat, id: string)
    {
      Since(|evs|, OffersAt(evs, k, id), ClearsAt(evs, k))
    }

    ghost function SetsAt(evs: seq<Event>, k: nat, key: SeenKey): nat -> bool
    {
      match key
      case BleSent(x) => TakesAt(evs, k, x)
      case BleEcho(h) => HearsAt(evs, k, h)
      case BleIn(x) => ArrivesAt(evs, k, x)
      case RelayIn(x) => AcceptsAt(evs, k, x)
      case RelayOut(x) => OffersAt(evs, k, x)
    }

    ghost predicate Known(evs: seq<Event>, k: nat, key: SeenKey)
    {
      Since(|evs|, SetsAt(evs, k, key), ClearsAt(evs, k))
    }
  }

  predicate Brings(e: Event, id: string)
  {
    id != "" &&
    match e
    case FromUpstream(_, _, _, p, _) => p.id == id
    case HistoryFromUpstream(_, selfId, entries) => BringsEntry(selfId, entries, id)
    case _ => false
  }

  predicate BringsEntry(selfId: string, entries: seq<Entry>, id: string)
  {
    exists i :: 0 <= i < |entries| && entries[i].packet.id == id && !Own(selfId, entries[i].sender)
  }

  // ---------- one event ----------

  predicate Clears(n: Node, e: Event)
  {
    e.CleanUp? && |n.seen| > MAX_SEEN
  }

  /** Is the key in the set after the event? */
  predicate KeyToBe(hash: Hash, n: Node, e: Event, key: SeenKey)
    requires e.Bridge? ==> n.outbox != []
  {
    match key
    case BleSent(x) => e.Bridge? && n.outbox[0].id == x
    case BleEcho(h) => e.Deliver? && hash(e.packet) == h && BleSent(e.packet.id) !in n.seen
    case BleIn(x) => e.Deliver? && e.packet.id == x != "" && BleSent(x) !in n.seen && BleEcho(hash(e.packet)) !in n.seen
    case RelayIn(x) => Brings(e, x)
    case RelayOut(x) => Brings(e, x) || (e.ToUpstream? && e.id == x)
  }

  /** What came from upstream counts as having been offered to it. */
  ghost predicate Paired(n: Node)
  {
    forall x :: RelayIn(x) in n.seen ==> RelayOut(x) in n.seen
  }

  lemma InjectSeen(n: Node, p: Packet)
    ensures Inject(n, p).seen == n.seen
  {
    hide Has;
  }

  lemma EntrySeen(n: Node, selfId: string, e: Entry, x: string)
    requires Paired(n)
    ensures var t := HistoryEntry(n, selfId, e);
            var brings := x != "" && e.packet.id == x && !Own(selfId, e.sender);
            && Paired(t)
            && (RelayIn(x) in t.seen <==> RelayIn(x) in n.seen || brings)
            && (RelayOut(x) in t.seen <==> RelayOut(x) in n.seen || brings)
            && forall key: SeenKey :: !key.RelayIn? && !key.RelayOut? ==> (key in t.seen <==> key in n.seen)
  {
    hide Inject;
    InjectSeen(MarkAccepted(n, e.packet.id), e.packet);
  }

  lemma {:induction false} HistorySeen(n: Node, selfId: string, entries: seq<Entry>, x: string)
    requires Paired(n)
    ensures var t := UpstreamHistory(n, selfId, entries);
            var brings := x != "" && BringsEntry(selfId, entries, x);
            && Paired(t)
            && (RelayIn(x) in t.seen <==> RelayIn(x) in n.seen || brings)
            && (RelayOut(x) in t.seen <==> RelayOut(x) in n.seen || brings)
            && forall key: SeenKey :: !key.RelayIn? && !key.RelayOut? ==> (key in t.seen <==> key in n.seen)
    decreases |entries|
  {
    hide Paired, HistoryEntry;
    if entries != [] {
      var init, e := entries[..|entries| - 1], entries[|entries| - 1];
      assert entries == init + [e];
      HistorySnoc(n, selfId, init, e);
      HistorySeen(n, selfId, init, x);
      EntrySeen(UpstreamHistory(n, selfId, init), selfId, e, x);
      if i :| 0 <= i < |entries| && entries[i].packet.id == x && !Own(selfId, entries[i].sender) {
        assert i < |init| ==> init[i] == entries[i];
      }
      if i :| 0 <= i < |init| && init[i].packet.id == x && !Own(selfId, init[i].sender) { assert entries[i] == init[i]; }
    }
  }

  lemma DeliverSeen(hash: Hash, n: Node, p: Packet, local: bool, body: nat, key: SeenKey)
    ensures var e, t := Deliver(0, 0, p, local, body), BleReceive(hash, n, p, local, body);
            && (key in t.seen <==> KeyToBe(hash, n, e, key) || key in n.seen)
            && (Paired(n) ==> Paired(t))
  {
    hide Inject;
    InjectSeen(n.(seen := n.seen + {BleEcho(hash(p))} + {BleIn(p.id)}), Packet(p.id, body));
  }

  lemma UpstreamSeen(n: Node, selfId: string, from: string, p: Packet, local: bool, key: SeenKey)
    requires Paired(n)
    ensures var e, t := FromUpstream(0, selfId, from, p, local), UpstreamMessage(n, selfId, from, p, local);
            && Paired(t)
            && (key in t.seen <==> key in n.seen || (key.RelayIn? && Brings(e, key.id)) || (key.RelayOut? && Brings(e, key.id)))
  {
    hide Inject;
    InjectSeen(MarkAccepted(n, p.id), p);
  }

  lemma SeenAfter(hash: Hash, n: Node, e: Event, key: SeenKey)
    requires Paired(n) && ((e.Bridge? || e.FallBehind?) ==> n.outbox != [])
    ensures Paired(NodeStep(hash, n, e))
    ensures key in NodeStep(hash, n, e).seen <==> KeyToBe(hash, n, e, key) || (key in n.seen && !Clears(n, e))
  {
    hide Push, BleReceive, UpstreamMessage, UpstreamHistory;
    match e
    case LocalSend(_, p) => PushFrame(n, p);
    case Deliver(_, _, p, local, body) => DeliverSeen(hash, n, p, local, body, key);
    case FromUpstream(_, selfId, from, p, local) => UpstreamSeen(n, selfId, from, p, local, key);
    case HistoryFromUpstream(_, selfId, entries) =>
      HistorySeen(n, selfId, entries, if key.RelayIn? || key.RelayOut? then key.id else "");
    case _ =>
  }

  // ---------- over runs ----------

  lemma FirstNode(w: World, k: nat)
    requires k < w.size
    ensures w.NodeAfter([], k) == FRESH_NODE
  {
  }

  /** The node after one more event, which may be another node's or not take place. */
  lemma NodeNext(w: World, evs: seq<Event>, k: nat, n: nat)
    requires k < w.size && |evs| == n + 1
    ensures w.Occurs(evs, k, n) ==> (evs[n].Bridge? || evs[n].FallBehind? ==> w.NodeAfter(evs[..n], k).outbox != [])
    ensures w.NodeAfter(evs, k) == if w.Occurs(evs, k, n) then NodeStep(w.hash, w.NodeAfter(evs[..n], k), evs[n]) else w.NodeAfter(evs[..n], k)
  {
    hide NodeStep, Written;
    RunKeeps(w.links, w.hash, w.size, evs[..n]);
  }

  lemma SameBefore(w: World, evs: seq<Event>, k: nat, key: SeenKey, n: nat, i: nat)
    requires k < w.size && |evs| == n + 1 && i < n
    ensures w.SetsAt(evs, k, key)(i) == w.SetsAt(evs[..n], k, key)(i) && w.ClearsAt(evs, k)(i) == w.ClearsAt(evs[..n], k)(i)
  {
    hide Enabled, Run, Brings, World.Taken, World.Heard, World.NodeAfter;
    assert evs[..n][..i] == evs[..i] && evs[..n][i] == evs[i];
    assert w.Occurs(evs, k, i) == w.Occurs(evs[..n], k, i);
  }

  lemma Before(w: World, evs: seq<Event>, k: nat, key: SeenKey, n: nat)
    requires k < w.size && |evs| == n + 1
    ensures w.Known(evs, k, key) <==> w.SetsAt(evs, k, key)(n) || (w.Known(evs[..n], k, key) && !w.ClearsAt(evs, k)(n))
  {
    hide World.SetsAt, World.ClearsAt;
    var init := evs[..n];
    forall i: nat | i < n
      ensures w.SetsAt(evs, k, key)(i) == w.SetsAt(init, k, key)(i) && w.ClearsAt(evs, k)(i) == w.ClearsAt(init, k)(i)
    {
      SameBefore(w, evs, k, key, n, i);
    }
    SinceNext(n, w.SetsAt(init, k, key), w.ClearsAt(init, k), w.SetsAt(evs, k, key), w.ClearsAt(evs, k));
  }

  /** Over every run, a key is in the seen-set of a node exactly if some event since the last clean-up has
      set it, as the events before that event tell. */
  lemma {:induction false} KeysExactly(w: World, evs: seq<Event>, k: nat, key: SeenKey)
    requires k < w.size
    ensures Paired(w.NodeAfter(evs, k))
    ensures key in w.NodeAfter(evs, k).seen <==> w.Known(evs, k, key)
    decreases |evs|
  {
    hide NodeStep, World.NodeAfter, World.SetsAt, World.ClearsAt, World.Occurs, KeyToBe;
    if evs == [] {
      FirstNode(w, k);
    } else {
      var n := |evs| - 1;
      forall other: SeenKey ensures other in w.NodeAfter(evs[..n], k).seen <==> w.Known(evs[..n], k, other) {
        KeysExactly(w, evs[..n], k, other);
      }
      KeysExactly(w, evs[..n], k, key);
      Before(w, evs, k, key, n);
      NodeNext(w, evs, k, n);
      SetsNow(w, evs, k, key, n);
      if w.Occurs(evs, k, n) { SeenAfter(w.hash, w.NodeAfter(evs[..n], k), evs[n], key); }
    }
  }

  lemma SetsNow(w: World, evs: seq<Event>, k: nat, key: SeenKey, n: nat)
    requires k < w.size && |evs| == n + 1
    requires forall other: SeenKey :: other in w.NodeAfter(evs[..n], k).seen <==> w.Known(evs[..n], k, other)
    ensures w.Occurs(evs, k, n) && evs[n].Bridge? ==> w.NodeAfter(evs[..n], k).outbox != []
    ensures w.SetsAt(evs, k, key)(n) <==> w.Occurs(evs, k, n) && KeyToBe(w.hash, w.NodeAfter(evs[..n], k), evs[n], key)
    ensures w.ClearsAt(evs, k)(n) <==> w.Occurs(evs, k, n) && Clears(w.NodeAfter(evs[..n], k), evs[n])
  {
    hide Run, NodeStep, Brings, World.NodeAfter;
    NodeNext(w, evs, k, n);
    if w.Occurs(evs, k, n) && evs[n].Deliver? {
      var p := evs[n].packet;
      assert w.Taken(evs[..n], k, p.id) == w.Known(evs[..n], k, BleSent(p.id));
      assert w.Heard(evs[..n], k, w.hash(p)) == w.Known(evs[..n], k, BleEcho(w.hash(p)));
    }
  }

  // ---------- what is let in ----------

  /** The last 1000. */
  function Windowed(ps: seq<Packet>): seq<Packet>
  {
    if |ps| > MAX_MESSAGES then ps[|ps| - MAX_MESSAGES..] else ps
  }

  /** The entries of a history that enter a room: not the phone's own, not accepted from upstream before,
      in the history or earlier, and not held by the room as the entries before have left it. */
  ghost function EntriesIn(accepted: string -> bool, room: seq<Packet>, selfId: string, entries: seq<Entry>): seq<Packet>
  {
    if entries == [] then []
    else
      var init, e := entries[..|entries| - 1], entries[|entries| - 1];
      var before, x := EntriesIn(accepted, room, selfId, init), e.packet.id;
      if !Own(selfId, e.sender) && x != "" && !accepted(x) && !BringsEntry(selfId, init, x) && !Has(Windowed(room + before), x)
      then before + [e.packet] else before
  }

  /** What event `e` puts into the room of node `k` after the events before it, when the room holds `room`. */
  ghost function LetIn(w: World, evs: seq<Event>, k: nat, e: Event, room: seq<Packet>): seq<Packet>
  {
    match e
    case LocalSend(_, p) => [p]
    case Deliver(_, _, p, local, body) =>
      if local && p.id != "" && !w.Taken(evs, k, p.id) && !w.Heard(evs, k, w.hash(p)) && !w.Arrived(evs, k, p.id) && !Has(room, p.id)
      then [Packet(p.id, body)] else []
    case FromUpstream(_, selfId, from, p, local) =>
      if local && p.id != "" && !Own(selfId, from) && !w.Accepted(evs, k, p.id) && !Has(room, p.id) then [p] else []
    case HistoryFromUpstream(_, selfId, entries) => EntriesIn((x: string) => w.Accepted(evs, k, x), room, selfId, entries)
    case _ => []
  }

  /** Everything that has entered the room of node `k`, in order. */
  ghost function Log(w: World, evs: seq<Event>, k: nat): seq<Packet>
    decreases |evs|
  {
    if evs == [] then []
    else
      var n := |evs| - 1;
      var before := Log(w, evs[..n], k);
      if w.Occurs(evs, k, n) then before + LetIn(w, evs[..n], k, evs[n], Windowed(before)) else before
  }

  /** How many of the room's broadcasts the bridge has taken or missed. */
  ghost function Handled(w: World, evs: seq<Event>, k: nat): nat
    decreases |evs|
  {
    if evs == [] then 0
    else
      var n := |evs| - 1;
      Handled(w, evs[..n], k) + One(w.Occurs(evs, k, n) && (evs[n].Bridge? || evs[n].FallBehind?))
  }

  /** The room and the outbox have taken in `l` and the outbox has given its first `gone`. */
  ghost predicate TookIn(n: Node, t: Node, l: seq<Packet>, gone: nat)
  {
    t.room == Windowed(n.room + l) && gone <= |n.outbox| && t.outbox == n.outbox[gone..] + l
  }

  lemma InjectTakes(n: Node, p: Packet)
    requires |n.room| <= MAX_MESSAGES
    ensures TookIn(n, Inject(n, p), if Has(n.room, p.id) then [] else [p], 0)
  {
    hide Has;
    assert n.room + [] == n.room && n.outbox + [] == n.outbox;
  }

  lemma WindowedTwice(a: seq<Packet>, b: seq<Packet>)
    ensures Windowed(Windowed(a) + b) == Windowed(a + b)
  {
  }

  lemma TookMore(n: Node, m: Node, t: Node, a: seq<Packet>, b: seq<Packet>)
    requires TookIn(n, m, a, 0) && TookIn(m, t, b, 0)
    ensures TookIn(n, t, a + b, 0)
  {
    WindowedTwice(n.room + a, b);
    assert (n.room + a) + b == n.room + (a + b);
    assert (n.outbox + a) + b == n.outbox + (a + b);
  }

  lemma TookNothing(n: Node, t: Node)
    requires |n.room| <= MAX_MESSAGES && t.room == n.room && t.outbox == n.outbox
    ensures TookIn(n, t, [], 0)
  {
    assert n.room + [] == n.room && n.outbox + [] == n.outbox;
  }

  lemma EntryTakes(n: Node, selfId: string, e: Entry)
    requires |n.room| <= MAX_MESSAGES
    ensures var x := e.packet.id;
            TookIn(n, HistoryEntry(n, selfId, e), if !Own(selfId, e.sender) && x != "" && RelayIn(x) !in n.seen && !Has(n.room, x) then [e.packet] else [], 0)
  {
    hide Has, Inject, TookIn;
    TookNothing(n, n);
    var m := MarkAccepted(n, e.packet.id);
    InjectTakes(m, e.packet);
    SameFirst(n, m, Inject(m, e.packet), if Has(n.room, e.packet.id) then [] else [e.packet]);
  }

  lemma SameFirst(n: Node, m: Node, t: Node, l: seq<Packet>)
    requires TookIn(m, t, l, 0) && m.room == n.room && m.outbox == n.outbox
    ensures TookIn(n, t, l, 0)
  {
  }

  lemma {:induction false} HistoryTakes(n: Node, selfId: string, entries: seq<Entry>, accepted: string -> bool)
    requires |n.room| <= MAX_MESSAGES && Paired(n) && forall x :: accepted(x) <==> RelayIn(x) in n.seen
    ensures TookIn(n, UpstreamHistory(n, selfId, entries), EntriesIn(accepted, n.room, selfId, entries), 0)
    decreases |entries|
  {
    hide Paired, HistoryEntry, TookIn, Has, Own, BringsEntry;
    if entries == [] {
      TookNothing(n, n);
    } else {
      var init, e := entries[..|entries| - 1], entries[|entries| - 1];
      assert entries == init + [e];
      var m, before := UpstreamHistory(n, selfId, init), EntriesIn(accepted, n.room, selfId, init);
      HistorySnoc(n, selfId, init, e);
      HistoryTakes(n, selfId, init, accepted);
      HistorySeen(n, selfId, init, e.packet.id);
      RoomOf(n, m, before);
      EntryTakes(m, selfId, e);
      TookMore(n, m, HistoryEntry(m, selfId, e), before, if EntriesIn(accepted, n.room, selfId, entries) == before then [] else [e.packet]);
      assert before + [] == before;
    }
  }

  lemma RoomOf(n: Node, t: Node, l: seq<Packet>)
    requires TookIn(n, t, l, 0)
    ensures t.room == Windowed(n.room + l) && |t.room| <= MAX_MESSAGES
  {
  }

  lemma DeliverTakes(hash: Hash, n: Node, p: Packet, local: bool, body: nat)
    requires |n.room| <= MAX_MESSAGES
    ensures TookIn(n, BleReceive(hash, n, p, local, body),
                   if local && p.id != "" && BleSent(p.id) !in n.seen && BleEcho(hash(p)) !in n.seen && BleIn(p.id) !in n.seen && !Has(n.room, p.id)
                   then [Packet(p.id, body)] else [], 0)
  {
    hide Has, Inject, TookIn;
    var q := n.(seen := n.seen + {BleEcho(hash(p))} + {BleIn(p.id)});
    InjectTakes(q, Packet(p.id, body));
    var r := Inject(q, Packet(p.id, body));
    var l := if Has(n.room, p.id) then [] else [Packet(p.id, body)];
    SameFirst(n, q, r, l);
    SameLast(n, r, BleReceive(hash, n, p, local, body), l);
    NothingTaken(n, BleReceive(hash, n, p, local, body));
  }

  lemma NothingTaken(n: Node, t: Node)
    requires |n.room| <= MAX_MESSAGES
    ensures t.room == n.room && t.outbox == n.outbox ==> TookIn(n, t, [], 0)
  {
    if t.room == n.room && t.outbox == n.outbox { TookNothing(n, t); }
  }

  lemma SameLast(n: Node, m: Node, t: Node, l: seq<Packet>)
    requires TookIn(n, m, l, 0)
    ensures t.room == m.room && t.outbox == m.outbox ==> TookIn(n, t, l, 0)
  {
  }

  lemma UpstreamTakes(n: Node, selfId: string, from: string, p: Packet, local: bool)
    requires |n.room| <= MAX_MESSAGES
    ensures TookIn(n, UpstreamMessage(n, selfId, from, p, local),
                   if local && p.id != "" && !Own(selfId, from) && RelayIn(p.id) !in n.seen && !Has(n.room, p.id) then [p] else [], 0)
  {
    hide Has, Inject, TookIn;
    var m := MarkAccepted(n, p.id);
    InjectTakes(m, p);
    SameFirst(n, m, Inject(m, p), if Has(n.room, p.id) then [] else [p]);
    NothingTaken(n, UpstreamMessage(n, selfId, from, p, local));
  }

  lemma EventTakes(w: World, evs: seq<Event>, k: nat, e: Event)
    requires k < w.size
    requires var n := w.NodeAfter(evs, k); |n.room| <= MAX_MESSAGES && ((e.Bridge? || e.FallBehind?) ==> n.outbox != [])
    ensures var n := w.NodeAfter(evs, k);
            TookIn(n, NodeStep(w.hash, n, e), LetIn(w, evs, k, e, n.room), One(e.Bridge? || e.FallBehind?))
  {
    hide Has, Inject, Push, BleReceive, UpstreamMessage, UpstreamHistory, TookIn, World.NodeAfter;
    var n := w.NodeAfter(evs, k);
    forall key: SeenKey ensures key in n.seen <==> w.Known(evs, k, key) { KeysExactly(w, evs, k, key); }
    match e
    case LocalSend(_, p) => PushTakes(n, p);
    case Deliver(_, _, p, local, body) =>
      DeliverTakes(w.hash, n, p, local, body);
      assert w.Known(evs, k, BleSent(p.id)) == w.Taken(evs, k, p.id);
      assert w.Known(evs, k, BleEcho(w.hash(p))) == w.Heard(evs, k, w.hash(p));
      assert w.Known(evs, k, BleIn(p.id)) == w.Arrived(evs, k, p.id);
    case FromUpstream(_, selfId, from, p, local) =>
      UpstreamTakes(n, selfId, from, p, local);
      assert w.Known(evs, k, RelayIn(p.id)) == w.Accepted(evs, k, p.id);
    case HistoryFromUpstream(_, selfId, entries) =>
      KeysExactly(w, evs, k, RelayIn(""));
      assert forall x :: w.Known(evs, k, RelayIn(x)) == w.Accepted(evs, k, x);
      HistoryTakes(n, selfId, entries, (x: string) => w.Accepted(evs, k, x));
    case _ => OthersTake(w.hash, n, e);
  }

  lemma PushTakes(n: Node, p: Packet)
    ensures TookIn(n, Push(n, p), [p], 0)
  {
  }

  lemma OthersTake(hash: Hash, n: Node, e: Event)
    requires e.Bridge? || e.FallBehind? || e.ToUpstream? || e.CleanUp? || e.SyncHistory?
    requires |n.room| <= MAX_MESSAGES && ((e.Bridge? || e.FallBehind?) ==> n.outbox != [])
    ensures TookIn(n, NodeStep(hash, n, e), [], One(e.Bridge? || e.FallBehind?))
  {
    assert n.room + [] == n.room;
    assert n.outbox[One(e.Bridge? || e.FallBehind?)..] + [] == n.outbox[One(e.Bridge? || e.FallBehind?)..];
  }

  /** Over every run, a room holds the last 1000 of the messages let in, in order and as they came, and the
      outbox those that the bridge has not handled. */
  lemma {:induction false} LogExactly(w: World, evs: seq<Event>, k: nat)
    requires k < w.size
    ensures var n, log := w.NodeAfter(evs, k), Log(w, evs, k);
            n.room == Windowed(log) && Handled(w, evs, k) <= |log| && n.outbox == log[Handled(w, evs, k)..]
    decreases |evs|
  {
    hide NodeStep, LetIn, World.NodeAfter, World.Occurs;
    if evs == [] {
      FirstNode(w, k);
    } else {
      var n := |evs| - 1;
      var init := evs[..n];
      LogExactly(w, init, k);
      NodeNext(w, evs, k, n);
      if w.Occurs(evs, k, n) {
        EventTakes(w, init, k, evs[n]);
        LogTaken(w.NodeAfter(init, k), w.NodeAfter(evs, k), Log(w, init, k), Handled(w, init, k),
                 LetIn(w, init, k, evs[n], Windowed(Log(w, init, k))), One(evs[n].Bridge? || evs[n].FallBehind?));
      }
    }
  }

  lemma LogTaken(n: Node, t: Node, log: seq<Packet>, handled: nat, l: seq<Packet>, gone: nat)
    requires n.room == Windowed(log) && handled <= |log| && n.outbox == log[handled..] && TookIn(n, t, l, gone)
    ensures t.room == Windowed(log + l) && handled + gone <= |log + l| && t.outbox == (log + l)[handled + gone..]
  {
    WindowedTwice(log, l);
  }

  // ---------- what goes out ----------

  /** Event `i` writes `p` to Bluetooth from node `k`: the bridge forwards the next message of the log, whose
      text has not come in from Bluetooth since the last clean-up; or a new connection gets the room. */
  ghost predicate WritesAt(w: World, evs: seq<Event>, k: nat, p: Packet, i: nat)
  {
    w.Occurs(evs, k, i)
    && var before := evs[..i];
       var log, handled := Log(w, before, k), Handled(w, before, k);
       (evs[i].Bridge? && handled < |log| && p == log[handled] && !w.Heard(before, k, w.hash(p)))
       || (evs[i].SyncHistory? && p in Windowed(log))
  }

  lemma WritesNow(w: World, evs: seq<Event>, k: nat, p: Packet, n: nat)
    requires k < w.size && |evs| == n + 1
    ensures (k, p) in w.After(evs).air <==> (k, p) in w.After(evs[..n]).air || WritesAt(w, evs, k, p, n)
  {
    hide Log, Handled, World.Heard, World.NodeAfter, NodeStep;
    var init, e := evs[..n], evs[n];
    var x := w.NodeAfter(init, k);
    LogExactly(w, init, k);
    NodeIs(w, init, k);
    KeysExactly(w, init, k, BleEcho(w.hash(p)));
    HeardIsKnown(w, init, k, w.hash(p));
    if w.Occurs(evs, k, n) && e.Bridge? {
      assert x.outbox[0] == Log(w, init, k)[Handled(w, init, k)];
    }
  }

  /** Over every run, exactly these packets of a node are ever in the air. */
  lemma {:induction false} AirExactly(w: World, evs: seq<Event>, k: nat, p: Packet)
    requires k < w.size
    ensures (k, p) in w.After(evs).air <==> exists i: nat :: WritesAt(w, evs, k, p, i)
    decreases |evs|
  {
    hide Enabled, Step, WritesAt;
    if evs == [] {
      NothingWritten(w, k, p);
    } else {
      var n := |evs| - 1;
      AirExactly(w, evs[..n], k, p);
      WritesNow(w, evs, k, p, n);
      forall i: nat | i != n ensures WritesAt(w, evs, k, p, i) == WritesAt(w, evs[..n], k, p, i) { WroteBefore(w, evs, k, p, n, i); }
      WroteBefore(w, evs, k, p, n, n);
    }
  }

  lemma NothingWritten(w: World, k: nat, p: Packet)
    ensures (k, p) !in w.After([]).air && forall i: nat :: !WritesAt(w, [], k, p, i)
  {
  }

  lemma WroteBefore(w: World, evs: seq<Event>, k: nat, p: Packet, n: nat, i: nat)
    requires |evs| == n + 1
    ensures i != n ==> WritesAt(w, evs, k, p, i) == WritesAt(w, evs[..n], k, p, i)
    ensures i == n ==> !WritesAt(w, evs[..n], k, p, i)
  {
    hide Log, Handled, World.Heard, World.After, Enabled;
    if i < n { assert evs[..n][..i] == evs[..i] && evs[..n][i] == evs[i]; }
  }

  lemma HeardIsKnown(w: World, evs: seq<Event>, k: nat, h: nat)
    ensures w.Known(evs, k, BleEcho(h)) == w.Heard(evs, k, h)
  {
  }

  lemma NodeIs(w: World, evs: seq<Event>, k: nat)
    requires k < w.size
    ensures k < |w.After(evs).nodes| && w.After(evs).nodes[k] == w.NodeAfter(evs, k)
  {
    RunKeeps(w.links, w.hash, w.size, evs);
  }

  /** What the bridge has taken since the last clean-up is ignored when it comes back from Bluetooth. */
  lemma EchoIgnored(w: World, evs: seq<Event>, k: nat, e: Event)
    requires k < w.size && e.Deliver? && w.Taken(evs, k, e.packet.id)
    ensures NodeStep(w.hash, w.NodeAfter(evs, k), e) == w.NodeAfter(evs, k)
  {
    hide World.NodeAfter;
    KeysExactly(w, evs, k, BleSent(e.packet.id));
    assert w.Known(evs, k, BleSent(e.packet.id)) == w.Taken(evs, k, e.packet.id);
  }

  /** A complete message passes to upstream exactly if since the last clean-up it has neither come from
      there nor been offered to it. */
  lemma PassesExactly(w: World, evs: seq<Event>, k: nat, id: string, complete: bool)
    requires k < w.size
    ensures FilterForUpstream(w.NodeAfter(evs, k), id, complete).1 <==> complete && !w.Offered(evs, k, id)
  {
    hide World.NodeAfter;
    KeysExactly(w, evs, k, RelayOut(id));
    assert w.Known(evs, k, RelayOut(id)) == w.Offered(evs, k, id);
  }
}
