/** The handlers of one phone as they change its state in place: the room of the local hub, the
    shared seen-set and the room's broadcast channel. Each is tied to its step in MeshNode. */
module MeshService {
  import opened Basics
  import opened MeshNode

  class PhoneHub {
    var messages: seq<Packet>
    var seenIds: set<SeenKey>
    var broadcasts: seq<Packet>
    ghost var pushed: multiset<string>
    ghost var evicted: set<string>
    ghost var forwarded: multiset<string>
    ghost var injected: multiset<string>
    ghost var passedThrough: multiset<string>
    ghost var upstream: seq<Upstream>

    ghost function State(): Node
      reads this
    {
      Node(messages, seenIds, broadcasts, pushed, evicted, forwarded, injected, passedThrough, upstream)
    }

    constructor ()
      ensures State() == FRESH_NODE && NodeInv(State())
    {
      messages, seenIds, broadcasts := [], {}, [];
      pushed, evicted, forwarded := multiset{}, {}, multiset{};
      injected, passedThrough, upstream := multiset{}, multiset{}, [];
    }

    method PushMessage(msg: Packet)
      modifies this
      ensures State() == Push(old(State()), msg)
    {
      hide IdsOf;
      messages := messages + [msg];
      ghost var drained := messages[..if |messages| > MAX_MESSAGES then |messages| - MAX_MESSAGES else 0];
      if |messages| > MAX_MESSAGES {
        var excess := |messages| - MAX_MESSAGES;
        messages := messages[excess..];
      }
      broadcasts := broadcasts + [msg];
      pushed := pushed + multiset{msg.id};
      evicted := evicted + IdsOf(drained);
    }

    /** The "send_message" arm: an empty text is ignored, everything else gets a new id. */
    method SendMessage(msg: Packet, empty: bool)
      requires NodeInv(State()) && pushed[msg.id] == 0
      modifies this
      ensures State() == if empty then old(State()) else Push(old(State()), msg)
      ensures NodeInv(State())
    {
      hide NodeInv, Push;
      if empty {
        return;
      }
      LocalSendKeeps(State(), msg);
      PushMessage(msg);
    }

    method InjectExternalMessage(msg: Packet)
      modifies this
      ensures State() == Inject(old(State()), msg)
    {
      hide Push;
      var i := 0;
      while i < |messages|
        invariant 0 <= i <= |messages|
        invariant forall k :: 0 <= k < i ==> messages[k].id != msg.id
      {
        if messages[i].id == msg.id {
          return;
        }
        i := i + 1;
      }
      injected := injected + multiset{msg.id};
      PushMessage(msg);
    }

    /** A packet from a Bluetooth peer, through both dedup stages of the bridge. */
    method ReceiveFromBle(hash: Hash, msg: Packet, local: bool, body: nat) returns (passed: bool)
      requires NodeInv(State())
      modifies this
      ensures State() == BleReceive(hash, old(State()), msg, local, body)
      ensures NodeInv(State())
      ensures passed <==> passedThrough[msg.id] > old(passedThrough[msg.id])
    {
      hide NodeInv, Inject;
      BleReceiveKeeps(hash, State(), msg, local, body);
      passed := false;
      if BleSent(msg.id) in seenIds {
        return;
      }
      if BleEcho(hash(msg)) in seenIds {
        return;
      }
      seenIds := seenIds + {BleEcho(hash(msg))};
      if msg.id == "" {
        return;
      }
      if BleIn(msg.id) in seenIds {
        return;
      }
      seenIds := seenIds + {BleIn(msg.id)};
      if local {
        ghost var before := State();
        InjectExternalMessage(Packet(msg.id, body));
        InjectFrame(before, Packet(msg.id, body));
        passedThrough := passedThrough + multiset{msg.id};
        passed := true;
      }
    }

    /** The next room broadcast goes to Bluetooth, unless its text came from there. */
    method ForwardToBle(hash: Hash) returns (written: Option<Packet>)
      requires NodeInv(State()) && broadcasts != []
      modifies this
      ensures (State(), written) == Forward(hash, old(State()))
      ensures var msg := old(broadcasts)[0]; written == if BleEcho(hash(msg)) in old(seenIds) then None else Some(msg)
      ensures NodeInv(State())
    {
      hide NodeInv;
      ForwardKeeps(hash, State());
      var msg := broadcasts[0];
      broadcasts := broadcasts[1..];
      seenIds := seenIds + {BleSent(msg.id)};
      if BleEcho(hash(msg)) in seenIds {
        return None;
      }
      forwarded := forwarded + multiset{msg.id};
      return Some(msg);
    }

    method HandleUpstreamMessage(selfId: string, sender: string, msg: Packet, local: bool)
      requires NodeInv(State())
      modifies this
      ensures State() == UpstreamMessage(old(State()), selfId, sender, msg, local)
      ensures NodeInv(State())
    {
      hide NodeInv, Inject;
      UpstreamMessageKeeps(State(), selfId, sender, msg, local);
      if msg.id == "" {
        return;
      }
      if RelayIn(msg.id) in seenIds {
        return;
      }
      seenIds := seenIds + {RelayIn(msg.id)};
      seenIds := seenIds + {RelayOut(msg.id)};
      upstream := upstream + [Accepted(msg.id)];
      assert State() == MarkAccepted(old(State()), msg.id);
      if local {
        if selfId != "" && sender == selfId {
          return;
        }
        InjectExternalMessage(msg);
      }
    }

    /** The "room_history" arm for a local room: entry by entry. */
    method HandleUpstreamHistory(selfId: string, entries: seq<Entry>)
      requires NodeInv(State())
      modifies this
      ensures State() == UpstreamHistory(old(State()), selfId, entries)
      ensures NodeInv(State())
    {
      hide NodeInv, HistoryEntry, UpstreamMessage;
      for i := 0 to |entries|
        invariant UpstreamHistory(State(), selfId, entries[i..]) == UpstreamHistory(old(State()), selfId, entries)
        invariant NodeInv(State())
      {
        assert entries[i..][0] == entries[i] && entries[i..][1..] == entries[i + 1..];
        HandleHistoryEntry(selfId, entries[i]);
      }
    }

    method HandleHistoryEntry(selfId: string, e: Entry)
      requires NodeInv(State())
      modifies this
      ensures State() == HistoryEntry(old(State()), selfId, e)
      ensures NodeInv(State())
    {
      hide NodeInv, Inject;
      HistoryEntryKeeps(State(), selfId, e);
      if selfId != "" && e.sender == selfId {
        return;
      }
      if e.packet.id == "" || RelayIn(e.packet.id) in seenIds {
        return;
      }
      seenIds := seenIds + {RelayIn(e.packet.id)};
      seenIds := seenIds + {RelayOut(e.packet.id)};
      upstream := upstream + [Accepted(e.packet.id)];
      assert State() == MarkAccepted(old(State()), e.packet.id);
      InjectExternalMessage(e.packet);
    }

    method FilterMessageForUpstream(id: string, complete: bool) returns (pass: bool)
      requires NodeInv(State())
      modifies this
      ensures (State(), pass) == FilterForUpstream(old(State()), id, complete)
      ensures NodeInv(State())
      ensures pass ==> forall u :: u in old(upstream) ==> u.id != id
    {
      FilterKeeps(State(), id, complete);
      if RelayOut(id) in seenIds {
        return false;
      }
      seenIds := seenIds + {RelayOut(id)};
      if complete {
        upstream := upstream + [Passed(id)];
      }
      return complete;
    }

    method CleanupTick()
      requires NodeInv(State())
      modifies this
      ensures State() == Cleanup(old(State()))
      ensures NodeInv(State())
    {
      hide NodeInv;
      CleanupKeeps(State());
      if |seenIds| > MAX_SEEN {
        seenIds, injected, passedThrough, upstream := {}, multiset{}, multiset{}, [];
      }
    }
  }

  lemma InjectFrame(n: Node, p: Packet)
    ensures Inject(n, p).passedThrough == n.passedThrough && Inject(n, p).seen == n.seen
  {
    hide Has;
  }
}
