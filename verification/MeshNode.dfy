/** One phone of the mesh: the local hub's room (ws_server.rs), the Bluetooth bridge (bridge.rs)
    and the upstream relays (upstream_relay.rs), which share one seen-set. A chat packet is its
    message id and a number that stands for the rest of its JSON text. */
module MeshNode {
  import opened Basics

  const MAX_MESSAGES := 1000
  const MAX_SEEN := 10000

  datatype Packet = Packet(id: string, body: nat)

  /** The five families of keys in the seen-set. */
  datatype SeenKey =
    | BleSent(id: string)
    | BleEcho(hash: nat)
    | BleIn(id: string)
    | RelayIn(id: string)
    | RelayOut(id: string)

  /** What happened on the upstream side since the seen-set was last cleared. */
  datatype Upstream = Passed(id: string) | Accepted(id: string)

  /** `outbox` holds the room's broadcasts that the bridge has not taken yet. The last seven fields
      are history: every message put into the room, let go by it, or written to Bluetooth from a
      room broadcast; and, since the seen-set was last cleared, the messages injected from outside,
      those passed straight through to upstream, and what the relays did. */
  datatype Node = Node(
    room: seq<Packet>, seen: set<SeenKey>, outbox: seq<Packet>,
    pushed: multiset<string>, evicted: set<string>, forwarded: multiset<string>,
    injected: multiset<string>, passedThrough: multiset<string>, upstream: seq<Upstream>)

  const FRESH_NODE := Node([], {}, [], multiset{}, {}, multiset{}, multiset{}, multiset{}, [])

  type Hash = Packet -> nat

  // ---------- the room ----------

  function IdBag(ps: seq<Packet>): multiset<string>
  {
    if ps == [] then multiset{} else multiset{ps[0].id} + IdBag(ps[1..])
  }

  predicate Has(ps: seq<Packet>, id: string)
  {
    exists i :: 0 <= i < |ps| && ps[i].id == id
  }

  function IdsOf(ps: seq<Packet>): set<string>
  {
    set i | 0 <= i < |ps| :: ps[i].id
  }

  /** A message is appended, the oldest are drained beyond 1000, and the room broadcasts it. */
  function Push(n: Node, p: Packet): Node
  {
    var all := n.room + [p];
    var excess := if |all| > MAX_MESSAGES then |all| - MAX_MESSAGES else 0;
    n.(room := all[excess..], outbox := n.outbox + [p], pushed := n.pushed + multiset{p.id},
       evicted := n.evicted + IdsOf(all[..excess]))
  }

  /** Hub::inject_external_message. */
  function Inject(n: Node, p: Packet): Node
  {
    if Has(n.room, p.id) then n
    else Push(n.(injected := n.injected + multiset{p.id}), p)
  }

  // ---------- the Bluetooth side ----------

  /** A packet from a peer. `local` says whether its room exists here and the message parses;
      `body` is the text after the sender has been filled in. */
  function BleReceive(hash: Hash, n: Node, p: Packet, local: bool, body: nat): Node
  {
    if BleSent(p.id) in n.seen || BleEcho(hash(p)) in n.seen then n else
    var m := n.(seen := n.seen + {BleEcho(hash(p))});
    if p.id == "" || BleIn(p.id) in m.seen then m else
    var q := m.(seen := m.seen + {BleIn(p.id)});
    if !local then q
    else
      var r := Inject(q, Packet(p.id, body));
      r.(passedThrough := r.passedThrough + multiset{p.id})
  }

  /** forward_ws_to_ble on the next room broadcast: the node, and whether it was written. */
  function Forward(hash: Hash, n: Node): (Node, Option<Packet>)
    requires n.outbox != []
  {
    var p := n.outbox[0];
    var m := n.(outbox := n.outbox[1..], seen := n.seen + {BleSent(p.id)});
    if BleEcho(hash(p)) in n.seen then (m, None)
    else (m.(forwarded := m.forwarded + multiset{p.id}), Some(p))
  }

  /** The bridge's receiver fell behind and the broadcast is lost. */
  function Lag(n: Node): Node
    requires n.outbox != []
  {
    n.(outbox := n.outbox[1..])
  }

  // ---------- the upstream side ----------

  /** The two keys a message from upstream leaves, and the log entry. */
  function MarkAccepted(n: Node, id: string): Node
  {
    n.(seen := n.seen + {RelayIn(id), RelayOut(id)}, upstream := n.upstream + [Accepted(id)])
  }

  /** The "message" arm of handle_upstream_message, for a relay known upstream as `selfId`. */
  function UpstreamMessage(n: Node, selfId: string, sender: string, p: Packet, local: bool): Node
  {
    if p.id == "" || RelayIn(p.id) in n.seen then n else
    var m := MarkAccepted(n, p.id);
    if !local || (selfId != "" && sender == selfId) then m else Inject(m, p)
  }

  datatype Entry = Entry(sender: string, packet: Packet)

  /** One entry of a "room_history" for a local room. */
  function HistoryEntry(n: Node, selfId: string, e: Entry): Node
  {
    if (selfId != "" && e.sender == selfId) || e.packet.id == "" || RelayIn(e.packet.id) in n.seen then n
    else Inject(MarkAccepted(n, e.packet.id), e.packet)
  }

  function UpstreamHistory(n: Node, selfId: string, entries: seq<Entry>): Node
    decreases |entries|
  {
    if entries == [] then n else UpstreamHistory(HistoryEntry(n, selfId, entries[0]), selfId, entries[1..])
  }

  /** filter_for_upstream for a chat message; `complete` says whether room id and content are there. */
  function FilterForUpstream(n: Node, id: string, complete: bool): (Node, bool)
  {
    if RelayOut(id) in n.seen then (n, false)
    else
      (n.(seen := n.seen + {RelayOut(id)}, upstream := if complete then n.upstream + [Passed(id)] else n.upstream),
       complete)
  }

  /** The periodic clean-up: a new epoch begins. */
  function Cleanup(n: Node): Node
  {
    if |n.seen| > MAX_SEEN then
      n.(seen := {}, injected := multiset{}, passedThrough := multiset{}, upstream := [])
    else n
  }

  // ---------- what every step of a node keeps ----------

  function One(b: bool): nat
  {
    if b then 1 else 0
  }

  ghost predicate RoomInv(n: Node)
  {
    |n.room| <= MAX_MESSAGES
    && (forall x :: IdBag(n.outbox)[x] + n.forwarded[x] <= n.pushed[x])
    && (forall x :: x !in n.evicted ==> n.pushed[x] == IdBag(n.room)[x] <= 1)
  }

  /** Within an epoch the keys bound what came in from outside: at most one injection of a message
      from Bluetooth and one from upstream, and at most one straight pass-through, whatever the
      room has let go in between. */
  ghost predicate EpochInv(n: Node)
  {
    forall x :: n.injected[x] <= One(BleIn(x) in n.seen) + One(RelayIn(x) in n.seen)
                && n.passedThrough[x] <= One(BleIn(x) in n.seen)
  }

  /** Within an epoch a message passes to upstream at most once, and never after it was accepted
      from there. */
  ghost predicate UpstreamInv(n: Node)
  {
    (forall i, j :: 0 <= i < j < |n.upstream| && n.upstream[j].Passed? ==> n.upstream[i].id != n.upstream[j].id)
    && (forall u :: u in n.upstream ==> RelayOut(u.id) in n.seen)
  }

  ghost predicate NodeInv(n: Node)
  {
    RoomInv(n) && EpochInv(n) && UpstreamInv(n)
  }

  lemma {:induction false} BagConcat(a: seq<Packet>, b: seq<Packet>)
    ensures IdBag(a + b) == IdBag(a) + IdBag(b)
    decreases |a|
  {
    if a == [] {
      assert a + b == b;
    } else {
      assert (a + b)[1..] == a[1..] + b;
      BagConcat(a[1..], b);
    }
  }

  lemma BagSnoc(a: seq<Packet>, p: Packet)
    ensures IdBag(a + [p]) == IdBag(a) + multiset{p.id}
  {
    BagConcat(a, [p]);
    assert [p][1..] == [];
  }

  lemma {:induction false} BagHas(ps: seq<Packet>, x: string)
    ensures Has(ps, x) <==> IdBag(ps)[x] > 0
    decreases |ps|
  {
    if ps != [] {
      BagHas(ps[1..], x);
      if Has(ps[1..], x) {
        var i :| 0 <= i < |ps[1..]| && ps[1..][i].id == x;
        assert ps[i + 1].id == x;
      }
      if i :| 0 <= i < |ps| && ps[i].id == x {
        if i > 0 { assert ps[1..][i - 1].id == x; }
      }
    }
  }

  /** A message that is new to the node, or that its room has let go, may be pushed. */
  lemma PushKeepsRoom(n: Node, p: Packet)
    requires RoomInv(n) && (p.id !in n.evicted ==> !Has(n.room, p.id))
    ensures RoomInv(Push(n, p))
  {
    hide Has, IdBag;
    var t := Push(n, p);
    BagSnoc(n.outbox, p);
    BagHas(n.room, p.id);
    forall x | x !in t.evicted ensures t.pushed[x] == IdBag(t.room)[x] <= 1 {
      KeptCount(n, p, x);
    }
  }

  lemma KeptCount(n: Node, p: Packet, x: string)
    requires x !in Push(n, p).evicted
    ensures x !in n.evicted && IdBag(Push(n, p).room)[x] == IdBag(n.room)[x] + One(x == p.id)
  {
    hide Has, IdBag, IdsOf;
    var all := n.room + [p];
    var excess := if |all| > MAX_MESSAGES then |all| - MAX_MESSAGES else 0;
    BagSnoc(n.room, p);
    BagConcat(all[..excess], all[excess..]);
    assert all == all[..excess] + all[excess..];
    BagHas(all[..excess], x);
    NotAmong(all[..excess], x);
  }

  lemma NotAmong(ps: seq<Packet>, x: string)
    requires x !in IdsOf(ps)
    ensures !Has(ps, x)
  {
  }

  lemma InjectKeeps(n: Node, p: Packet)
    requires RoomInv(n)
    ensures RoomInv(Inject(n, p))
    ensures Inject(n, p).seen == n.seen && Inject(n, p).upstream == n.upstream && Inject(n, p).passedThrough == n.passedThrough
    ensures forall x :: Inject(n, p).injected[x] <= n.injected[x] + One(x == p.id)
  {
    hide Has, RoomInv, Push;
    if !Has(n.room, p.id) {
      var m := n.(injected := n.injected + multiset{p.id});
      assert RoomInv(m) by { SameRoom(n, m); }
      PushKeepsRoom(m, p);
      PushFrame(m, p);
    }
  }

  lemma PushFrame(n: Node, p: Packet)
    ensures var t := Push(n, p);
            t.seen == n.seen && t.upstream == n.upstream && t.passedThrough == n.passedThrough && t.injected == n.injected
  {
  }

  lemma SameRoom(n: Node, m: Node)
    requires RoomInv(n) && m.room == n.room && m.outbox == n.outbox && m.pushed == n.pushed
    requires m.evicted == n.evicted && m.forwarded == n.forwarded
    ensures RoomInv(m)
  {
  }

  lemma BleReceiveKeeps(hash: Hash, n: Node, p: Packet, local: bool, body: nat)
    requires NodeInv(n)
    ensures NodeInv(BleReceive(hash, n, p, local, body))
  {
    hide RoomInv, Inject;
    if BleSent(p.id) in n.seen || BleEcho(hash(p)) in n.seen {
    } else {
      var m := n.(seen := n.seen + {BleEcho(hash(p))});
      SameRoom(n, m);
      if p.id == "" || BleIn(p.id) in m.seen {
      } else {
        var q := m.(seen := m.seen + {BleIn(p.id)});
        SameRoom(m, q);
        InjectKeeps(q, Packet(p.id, body));
        var r := Inject(q, Packet(p.id, body));
        SameRoom(r, r.(passedThrough := r.passedThrough + multiset{p.id}));
      }
    }
  }

  lemma ForwardKeeps(hash: Hash, n: Node)
    requires NodeInv(n) && n.outbox != []
    ensures NodeInv(Forward(hash, n).0) && NodeInv(Lag(n))
    ensures Forward(hash, n).0.forwarded == if Forward(hash, n).1.Some? then n.forwarded + multiset{n.outbox[0].id} else n.forwarded
  {
    hide RoomInv, EpochInv, UpstreamInv;
    TakenFromOutbox(n, Forward(hash, n).0);
    TakenFromOutbox(n, Lag(n));
    MoreKeys(n, Forward(hash, n).0);
    MoreKeys(n, Lag(n));
  }

  /** The next broadcast leaves the outbox and is counted as forwarded at most once. */
  lemma TakenFromOutbox(n: Node, t: Node)
    requires RoomInv(n) && n.outbox != [] && t.outbox == n.outbox[1..]
    requires t.forwarded == n.forwarded || t.forwarded == n.forwarded + multiset{n.outbox[0].id}
    requires t.room == n.room && t.pushed == n.pushed && t.evicted == n.evicted
    ensures RoomInv(t)
  {
    assert IdBag(n.outbox) == multiset{n.outbox[0].id} + IdBag(n.outbox[1..]);
  }

  lemma MoreKeys(n: Node, t: Node)
    requires EpochInv(n) && UpstreamInv(n) && n.seen <= t.seen
    requires t.injected == n.injected && t.passedThrough == n.passedThrough && t.upstream == n.upstream
    ensures EpochInv(t) && UpstreamInv(t)
  {
  }

  lemma AcceptKeeps(n: Node, id: string)
    requires NodeInv(n) && RelayIn(id) !in n.seen
    ensures var m := MarkAccepted(n, id);
            RoomInv(m) && UpstreamInv(m) && forall x :: m.injected[x] + One(x == id) <= One(BleIn(x) in m.seen) + One(RelayIn(x) in m.seen)
  {
    hide RoomInv;
    SameRoom(n, MarkAccepted(n, id));
  }

  lemma UpstreamMessageKeeps(n: Node, selfId: string, sender: string, p: Packet, local: bool)
    requires NodeInv(n)
    ensures NodeInv(UpstreamMessage(n, selfId, sender, p, local))
  {
    hide RoomInv, Inject, UpstreamInv;
    if p.id != "" && RelayIn(p.id) !in n.seen {
      AcceptKeeps(n, p.id);
      var m := MarkAccepted(n, p.id);
      InjectKeeps(m, p);
      SameUpstream(m, Inject(m, p));
    }
  }

  lemma SameUpstream(n: Node, m: Node)
    requires UpstreamInv(n) && m.upstream == n.upstream && m.seen == n.seen
    ensures UpstreamInv(m)
  {
  }

  lemma HistoryEntryKeeps(n: Node, selfId: string, e: Entry)
    requires NodeInv(n)
    ensures NodeInv(HistoryEntry(n, selfId, e))
  {
    UpstreamMessageKeeps(n, selfId, e.sender, e.packet, true);
  }

  lemma {:induction false} UpstreamHistoryKeeps(n: Node, selfId: string, entries: seq<Entry>)
    requires NodeInv(n)
    ensures NodeInv(UpstreamHistory(n, selfId, entries))
    decreases |entries|
  {
    hide NodeInv, HistoryEntry;
    if entries != [] {
      HistoryEntryKeeps(n, selfId, entries[0]);
      UpstreamHistoryKeeps(HistoryEntry(n, selfId, entries[0]), selfId, entries[1..]);
    }
  }

  lemma FilterKeeps(n: Node, id: string, complete: bool)
    requires NodeInv(n)
    ensures NodeInv(FilterForUpstream(n, id, complete).0)
  {
    hide RoomInv;
    SameRoom(n, FilterForUpstream(n, id, complete).0);
  }

  lemma CleanupKeeps(n: Node)
    requires NodeInv(n)
    ensures NodeInv(Cleanup(n))
  {
    hide RoomInv;
    SameRoom(n, Cleanup(n));
  }

  /** A message written by the local user has a fresh id. */
  lemma LocalSendKeeps(n: Node, p: Packet)
    requires NodeInv(n) && n.pushed[p.id] == 0
    ensures NodeInv(Push(n, p))
  {
    hide RoomInv, Push, Has;
    if p.id !in n.evicted { NotInRoom(n, p.id); }
    PushKeepsRoom(n, p);
    PushFrame(n, p);
    SameUpstream(n, Push(n, p));
  }

  lemma NotInRoom(n: Node, x: string)
    requires RoomInv(n) && n.pushed[x] == 0 && x !in n.evicted
    ensures !Has(n.room, x)
  {
    BagHas(n.room, x);
  }
}
