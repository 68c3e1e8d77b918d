/** What the hub promises beyond its invariant: what a disconnect and a promotion change and leave
    alone, that direct conversations stay closed, and what becomes of peers in voice channels when
    the hub no longer knows them (more of that in HubStrays). */
module HubRuns {
  import opened Basics
  import opened HubRoom
  import opened HubState

  // ---------- complete teardown ----------

  /** Nothing of the client, nor of the Bluetooth ids in `ids`, is left in the room's channels. */
  ghost predicate Gone(room: Room, c: Client, ids: set<string>)
  {
    c !in room.members
    && forall ch :: ch in room.voice ==>
         c !in room.voice[ch].members && c !in room.voice[ch].speaking
         && ids !! room.voice[ch].bleMembers.Keys && ids !! room.voice[ch].bleSpeaking
  }

  /** All other clients and peers are where they were. */
  ghost predicate OthersStay(room: Room, t: Room, c: Client, ids: set<string>)
  {
    t.voice.Keys == room.voice.Keys && t.dm == room.dm && t.isPublic == room.isPublic
    && (forall d :: d != c ==> (d in t.members <==> d in room.members))
    && forall ch :: ch in room.voice ==> VoiceStays(room.voice[ch], t.voice[ch], c, ids)
  }

  ghost predicate VoiceStays(v: Voice, t: Voice, c: Client, ids: set<string>)
  {
    (forall d :: d != c ==> (d in t.members <==> d in v.members) && (d in t.speaking <==> d in v.speaking))
    && (forall x :: x !in ids ==> (x in t.bleMembers <==> x in v.bleMembers) && (x in t.bleSpeaking <==> x in v.bleSpeaking))
    && (forall x :: x in t.bleMembers ==> x in v.bleMembers && t.bleMembers[x] == v.bleMembers[x])
  }

  lemma ChannelAfter(v: Voice, members: set<Client>, c: Client, ids: set<string>)
    requires VoiceOk(v, members)
    ensures var t := DropBle(v, ids);
            ids !! t.bleMembers.Keys && ids !! t.bleSpeaking && VoiceStays(v, t, c, ids)
            && VoiceStays(v, LeaveVoice(t, c), c, ids) && c !in LeaveVoice(t, c).speaking
            && (c !in v.members ==> c !in t.speaking)
  {
  }

  lemma RoomTornDown(h: Hub, c: Client, r: string)
    requires HubInv(h) && r in h.rooms
    ensures Gone(RoomAfter(h, r, c), c, OwnedBy(h, c))
    ensures OthersStay(h.rooms[r], RoomAfter(h, r, c), c, OwnedBy(h, c))
    ensures RoomAfter(h, r, c).cot == h.rooms[r].cot && RoomAfter(h, r, c).bleCot == h.rooms[r].bleCot
  {
    hide HubInv, VoiceOk, VoiceStays, OwnedBy, DropBle, LeaveVoice;
    var room, t, ids := h.rooms[r], RoomAfter(h, r, c), OwnedBy(h, c);
    OkRoom(h, r);
    assert r in RoomsOf(h, c) <==> c in room.members by { Parts(h); assert r in RoomsOf(h, c) <==> InRoom(h, c, r); }
    forall ch | ch in room.voice
      ensures c !in t.voice[ch].members && c !in t.voice[ch].speaking
      ensures ids !! t.voice[ch].bleMembers.Keys && ids !! t.voice[ch].bleSpeaking
      ensures VoiceStays(room.voice[ch], t.voice[ch], c, ids)
    {
      ChannelTornDown(room.voice[ch], room.members, c, ids);
      assert t.voice[ch] == if c in room.members && c in DropBle(room.voice[ch], ids).members
                            then LeaveVoice(DropBle(room.voice[ch], ids), c) else DropBle(room.voice[ch], ids);
    }
  }

  lemma ChannelTornDown(v: Voice, members: set<Client>, c: Client, ids: set<string>)
    requires VoiceOk(v, members)
    ensures var d := DropBle(v, ids);
            var t := if c in members && c in d.members then LeaveVoice(d, c) else d;
            c !in t.members && c !in t.speaking && VoiceStays(v, t, c, ids)
            && ids !! t.bleMembers.Keys && ids !! t.bleSpeaking
  {
    hide VoiceStays;
    ChannelAfter(v, members, c, ids);
  }

  /** After a client is unregistered it is in no room, no voice channel and no index, no Bluetooth
      entry points to it, and none of the ids it owned is left in any channel of any room; every
      other client and peer is where it was. */
  lemma Teardown(h: Hub, c: Client)
    requires HubInv(h) && c in h.clients
    ensures var t := Disconnect(h, c);
            c !in t.clients && c.id !in t.byId && c !in t.byId.Values && RoomsOf(t, c) == {} && OwnedBy(t, c) == {}
            && t.clients == h.clients - {c} && t.rooms.Keys == h.rooms.Keys
            && (forall r :: r in h.rooms ==> Gone(t.rooms[r], c, OwnedBy(h, c))
                                             && OthersStay(h.rooms[r], t.rooms[r], c, OwnedBy(h, c)))
            && (forall d :: d in t.clients ==> t.byId[d.id] == d && RoomsOf(t, d) == RoomsOf(h, d) && OwnedBy(t, d) == OwnedBy(h, d))
  {
    hide HubInv, RoomAfter, Gone, OthersStay;
    forall r | r in h.rooms
      ensures Gone(RoomAfter(h, r, c), c, OwnedBy(h, c)) && OthersStay(h.rooms[r], RoomAfter(h, r, c), c, OwnedBy(h, c))
    {
      RoomTornDown(h, c, r);
    }
    DisconnectKeeps(h, c);
    Parts(h);
    Parts(Disconnect(h, c));
    OwnersAfter(h, c);
    RoomSetAfter(h, c);
  }

  lemma OwnersAfter(h: Hub, c: Client)
    ensures OwnedBy(Disconnect(h, c), c) == {}
    ensures forall d :: d != c ==> OwnedBy(Disconnect(h, c), d) == OwnedBy(h, d) && RoomsOf(Disconnect(h, c), d) == RoomsOf(h, d)
  {
    hide RoomAfter;
  }

  lemma RoomSetAfter(h: Hub, c: Client)
    requires MirrorInv(h)
    ensures RoomsOf(Disconnect(h, c), c) == {}
  {
    hide RoomAfter;
    forall r | r in RoomsOf(h, c) ensures r in h.rooms {
      assert InRoom(h, c, r);
    }
  }

  /** The Bluetooth contacts a room shows to everyone. */
  function ShownContacts(room: Room): set<string>
  {
    set x | x in room.bleCot :: room.bleCot[x].senderId
  }

  /** Teardown is not complete for positions: after a relay is gone, a room still shows a contact
      for one of its ids exactly when the room had one, since nothing clears them. */
  lemma PositionsOutliveRelay(h: Hub, c: Client, r: string, id: string)
    requires HubInv(h) && c in h.clients && r in h.rooms && id in OwnedBy(h, c)
    ensures id in ShownContacts(Disconnect(h, c).rooms[r]) <==> id in h.rooms[r].bleCot
    ensures Disconnect(h, c).rooms[r].cot == h.rooms[r].cot
  {
    hide HubInv, RoomAfter;
    RoomTornDown(h, c, r);
    OkRoom(h, r);
    if id in h.rooms[r].bleCot { assert h.rooms[r].bleCot[id].senderId == id; }
  }

  // ---------- promotion ----------

  /** The server knows at most one Bluetooth peer of a relay: the one registered last. */
  lemma RegisterOwns(h: Hub, c: Client, id: string, order: seq<string>)
    requires Enabled(h, RegistersPeer(c, id, order))
    ensures OwnedBy(RegisterPeer(h, c, id, order), c) == {id}
    ensures forall x :: x !in order && x != id ==>
              (x in RegisterPeer(h, c, id, order).peers <==> x in h.peers)
              && (x in h.peers ==> RegisterPeer(h, c, id, order).peers[x] == h.peers[x])
  {
    hide PromoteEach, RoomsOf;
    var t := RegisterPeer(h, c, id, order);
    forall x | x in OwnedBy(t, c) ensures x == id {
      assert x in h.peers && h.peers[x].relay == c && x != id <==> x in StalePeers(h, c, id);
    }
    assert id in OwnedBy(t, c);
  }

  /** What each event does to the peers of the server. */
  lemma EventPeers(h: Hub, e: Event)
    requires Enabled(h, e)
    ensures Step(h, e).peers
         == match e
            case RegistersPeer(d, id, order) => (h.peers - Members(order))[id := BlePeer(id, d)]
            case UnregistersPeer(d, id) => if Resolves(h, d, id) then h.peers - {id} else h.peers
            case Disconnected(d) => h.peers - OwnedBy(h, d)
            case _ => h.peers
  {
    hide Less, PromoteEach, ForgetPeer, RoomAfter, RoomsOf, OwnedBy;
  }

  /** Registering a new id moves the relay's provisional ids to it in every room of the relay:
      voice membership, speaking and positions are neither lost nor duplicated, contacts carry
      their own key, all else is untouched, and rooms the relay is not in do not change. */
  lemma PromotionConserves(h: Hub, c: Client, id: string, order: seq<string>)
    requires HubInv(h) && Enabled(h, RegistersPeer(c, id, order))
    ensures var t := RegisterPeer(h, c, id, order);
            t.rooms.Keys == h.rooms.Keys
            && (forall r :: InRoom(h, c, r) ==> RoomMoved(h.rooms[r], t.rooms[r], order, BlePeer(id, c)) && RoomOk(t.rooms[r]))
            && (forall r :: r in h.rooms && c !in h.rooms[r].members ==> t.rooms[r] == h.rooms[r])
  {
    hide HubInv, RoomMoved, RoomOk, PromoteEach;
    Parts(h);
    var t, peer := RegisterPeer(h, c, id, order), BlePeer(id, c);
    assert "" !in order && id !in order by { NotStale(h, c, id, order); }
    forall r | r in h.rooms ensures r in RoomsOf(h, c) <==> InRoom(h, c, r) { }
    forall r | InRoom(h, c, r) ensures RoomMoved(h.rooms[r], t.rooms[r], order, peer) && RoomOk(t.rooms[r]) {
      assert r in RoomsOf(h, c);
      OkRoom(h, r);
      PromotionMoves(h.rooms[r], order, peer);
      PromoteEachKeeps(h.rooms[r], order, peer);
    }
  }

  lemma NotStale(h: Hub, c: Client, id: string, order: seq<string>)
    requires PeersInv(h) && Enabled(h, RegistersPeer(c, id, order))
    ensures "" !in order && id !in order
  {
    assert "" !in StalePeers(h, c, id) && id !in StalePeers(h, c, id);
  }

  // ---------- direct conversations ----------

  function RoomList(h: Hub): set<string>
  {
    set r | r in h.rooms && h.rooms[r].isPublic && h.rooms[r].dm.None?
  }

  /** In every reachable state two people share at most one conversation, whichever of them asked
      for it, and only they are in it. */
  lemma OneConversation(evs: seq<Event>, r: string, s: string, a: string, b: string)
    requires var h := Run(evs); r in h.rooms && s in h.rooms && h.rooms[r].dm == Some(Pair(a, b)) && h.rooms[s].dm == Some(Pair(b, a))
    ensures r == s && forall m :: m in Run(evs).rooms[r].members ==> m.id == a || m.id == b
  {
    hide Run, Less;
    RunKeeps(evs);
    PairIsUnordered(a, b, b, a);
    var h := Run(evs);
    assert RoomOk(h.rooms[r]);
  }

  /** Rooms are never deleted and a conversation never becomes anything else. */
  ghost predicate RoomsLast(h: Hub, t: Hub)
  {
    forall r :: r in h.rooms ==> r in t.rooms && (h.rooms[r].dm.Some? ==> t.rooms[r].dm == h.rooms[r].dm)
  }

  lemma LastsThrough(h: Hub, m: Hub, t: Hub)
    requires RoomsLast(h, m) && RoomsLast(m, t)
    ensures RoomsLast(h, t)
  {
  }

  lemma SetLasts(h: Hub, r: string, room: Room, c: Client)
    requires r in h.rooms && h.rooms[r].dm.Some? ==> room.dm == h.rooms[r].dm
    ensures RoomsLast(h, SetRoom(h, r, room))
    ensures r in h.rooms ==> RoomsLast(h, AddMember(h, r, c)) && r in AddMember(h, r, c).rooms
  {
  }

  lemma JoinLasts(h: Hub, c: Client, r: string, channel: string)
    ensures RoomsLast(h, GetOrCreate(h, r, channel)) && r in GetOrCreate(h, r, channel).rooms
    ensures RoomsLast(h, JoinRoom(h, c, r, channel))
  {
    hide May, RoomsLast, AddMember;
    if r !in h.rooms { SetLasts(h, r, NewRoom(channel), c); }
    var g := GetOrCreate(h, r, channel);
    Nothing(h);
    SetLasts(g, r, g.rooms[r], c);
    LastsThrough(h, g, AddMember(g, r, c));
  }

  lemma Nothing(h: Hub)
    ensures RoomsLast(h, h)
  {
  }

  lemma CreateLasts(h: Hub, c: Client, r: string, isPublic: bool, channel: string)
    ensures RoomsLast(h, CreateRoom(h, c, r, isPublic, channel))
  {
    hide RoomsLast, JoinRoom, GetOrCreate;
    JoinLasts(h, c, r, channel);
    var g := GetOrCreate(h, r, channel);
    var flagged := SetRoom(g, r, g.rooms[r].(isPublic := isPublic));
    SetLasts(g, r, g.rooms[r].(isPublic := isPublic), c);
    JoinLasts(flagged, c, r, channel);
    LastsThrough(h, g, flagged);
    LastsThrough(h, flagged, JoinRoom(flagged, c, r, channel));
  }

  lemma AdmitLasts(h: Hub, r: string, c: Client)
    requires r in h.rooms
    ensures RoomsLast(h, Admit(h, r, c)) && r in Admit(h, r, c).rooms
  {
    SetLasts(h, r, h.rooms[r], c);
  }

  lemma StartLasts(h: Hub, c: Client, target: string, r: string, channel: string)
    requires Enabled(h, StartsDM(c, target, r, channel))
    ensures RoomsLast(h, StartDM(h, c, target, r, channel))
  {
    hide Pair, RoomsLast, Admit;
    Nothing(h);
    if target in h.byId {
      var pair := Pair(c.id, h.byId[target].id);
      var room := NewRoom(channel).(dm := Some(pair));
      var g := if DmRooms(h, pair) == {} then SetRoom(h, r, room) else h;
      if DmRooms(h, pair) == {} { SetLasts(h, r, room, c); }
      AdmitLasts(g, r, c);
      AdmitLasts(Admit(g, r, c), r, h.byId[target]);
      LastsThrough(h, g, Admit(g, r, c));
      LastsThrough(h, Admit(g, r, c), Admit(Admit(g, r, c), r, h.byId[target]));
    }
  }

  lemma RegisterLasts(h: Hub, c: Client, id: string, order: seq<string>)
    requires HubInv(h) && Enabled(h, RegistersPeer(c, id, order))
    ensures RoomsLast(h, RegisterPeer(h, c, id, order))
  {
    hide RoomOk, PromoteEach;
    forall r | r in h.rooms ensures SameFrame(h.rooms[r], PromoteEach(h.rooms[r], order, BlePeer(id, c))) {
      PromoteEachKeeps(h.rooms[r], order, BlePeer(id, c));
    }
  }

  lemma DisconnectLasts(h: Hub, c: Client)
    requires HubInv(h)
    ensures RoomsLast(h, Disconnect(h, c))
  {
    hide HubInv, RoomAfter;
    forall r | r in h.rooms ensures RoomAfter(h, r, c).dm == h.rooms[r].dm {
      RoomAfterOk(h, r, c);
    }
  }

  lemma StepLasts(h: Hub, e: Event)
    requires HubInv(h) && Enabled(h, e)
    ensures RoomsLast(h, Step(h, e))
  {
    hide HubInv, RoomsLast, JoinRoom, CreateRoom, StartDM, JoinDM, RegisterPeer, UnregisterPeer, Disconnect, SetRoom, Admit;
    Nothing(h);
    match e
    case Connected(c) => ConnectLasts(h, c);
    case Disconnected(c) => DisconnectLasts(h, c);
    case JoinsRoom(c, name, ch) => JoinLasts(h, c, name, ch);
    case CreatesRoom(c, name, isPublic, ch) => CreateLasts(h, c, name, isPublic, ch);
    case StartsDM(c, target, r, ch) => StartLasts(h, c, target, r, ch);
    case JoinsDM(c, r) => RejoinLasts(h, c, r);
    case RegistersPeer(c, id, order) => RegisterLasts(h, c, id, order);
    case UnregistersPeer(c, id) => UnregisterLasts(h, c, id);
    case SendsPosition(c, r, p) => if r in h.rooms { SetLasts(h, r, h.rooms[r].(cot := h.rooms[r].cot[c := p]), c); }
    case SendsPeerPosition(c, r, sender, p) =>
      if r in h.rooms { SetLasts(h, r, h.rooms[r].(bleCot := h.rooms[r].bleCot[sender := Contact(sender, p)]), c); }
    case _ => VoiceLasts(h, e.room, e.channel);
  }

  lemma VoiceLasts(h: Hub, r: string, ch: string)
    ensures forall v :: r in h.rooms ==> RoomsLast(h, SetVoice(h, r, ch, v))
  {
    hide RoomsLast, SetRoom;
    forall v: Voice | r in h.rooms ensures RoomsLast(h, SetVoice(h, r, ch, v)) {
      SetLasts(h, r, h.rooms[r].(voice := h.rooms[r].voice[ch := v]), Client(0, ""));
    }
  }

  lemma ConnectLasts(h: Hub, c: Client)
    ensures RoomsLast(h, Connect(h, c))
  {
  }

  lemma RejoinLasts(h: Hub, c: Client, r: string)
    ensures RoomsLast(h, JoinDM(h, c, r))
  {
    hide RoomsLast, Admit;
    Nothing(h);
    if r in h.rooms { AdmitLasts(h, r, c); }
  }

  lemma UnregisterLasts(h: Hub, c: Client, id: string)
    ensures RoomsLast(h, UnregisterPeer(h, c, id))
  {
    hide Resolves, RoomsOf;
  }

  /** Once a room is a conversation it stays that of the same two people and is never listed,
      whatever requests follow, a "create_room" with its name included. */
  lemma {:induction false} NeverListed(evs: seq<Event>, more: seq<Event>, r: string)
    requires r in Run(evs).rooms && Run(evs).rooms[r].dm.Some?
    ensures var t := Run(evs + more);
            r in t.rooms && t.rooms[r].dm == Run(evs).rooms[r].dm && r !in RoomList(t)
    decreases |more|
  {
    hide Step, Enabled, HubInv;
    if more == [] {
      assert evs + more == evs;
    } else {
      var init := more[..|more| - 1];
      NeverListed(evs, init, r);
      assert (evs + more)[..|evs + more| - 1] == evs + init;
      assert (evs + more)[|evs + more| - 1] == more[|more| - 1];
      RunKeeps(evs + init);
      if Enabled(Run(evs + init), more[|more| - 1]) { StepLasts(Run(evs + init), more[|more| - 1]); }
    }
  }

  // ---------- peers in voice channels that the hub does not know ----------

  /** Every Bluetooth member of a voice channel is a registered peer. */
  ghost predicate Registered(h: Hub)
  {
    forall r, ch, x :: Sits(h, r, ch, x) ==> x in h.peers
  }

  ghost predicate Sits(h: Hub, r: string, ch: string, x: string)
  {
    HasChannel(h, r, ch) && x in h.rooms[r].voice[ch].bleMembers
  }

  /** The id sits in a channel of a room that its relay is not in. */
  ghost predicate Strays(h: Hub, c: Client, x: string)
  {
    exists r, ch :: Sits(h, r, ch, x) && !InRoom(h, c, r)
  }

  lemma SitsMoved(h: Hub, c: Client, id: string, order: seq<string>, r: string, ch: string, x: string)
    requires HubInv(h) && Enabled(h, RegistersPeer(c, id, order))
    ensures Sits(RegisterPeer(h, c, id, order), r, ch, x) <==>
            if !InRoom(h, c, r) then Sits(h, r, ch, x)
            else if x == id then Sits(h, r, ch, id) || exists o :: o in order && Sits(h, r, ch, o)
            else Sits(h, r, ch, x) && x !in order
  {
    hide HubInv, RegisterPeer, RoomOk, Enabled;
    PromotionConserves(h, c, id, order);
    var t := RegisterPeer(h, c, id, order);
    if InRoom(h, c, r) && HasChannel(h, r, ch) {
      assert VoiceMoved(h.rooms[r].voice[ch], t.rooms[r].voice[ch], order, BlePeer(id, c));
    }
  }

  /** A registration leaves an unknown peer behind exactly when one of the relay's other ids sits
      in a room the relay is not in. */
  lemma RegisteredExactly(h: Hub, c: Client, id: string, order: seq<string>)
    requires HubInv(h) && Registered(h) && Enabled(h, RegistersPeer(c, id, order))
    ensures Registered(RegisterPeer(h, c, id, order)) <==> forall x :: x in StalePeers(h, c, id) ==> !Strays(h, c, x)
  {
    hide HubInv, RegisterPeer, RoomOk, Sits;
    var t := RegisterPeer(h, c, id, order);
    forall r, ch, x ensures Sits(t, r, ch, x) <==>
            if !InRoom(h, c, r) then Sits(h, r, ch, x)
            else if x == id then Sits(h, r, ch, id) || exists o :: o in order && Sits(h, r, ch, o)
            else Sits(h, r, ch, x) && x !in order
    {
      SitsMoved(h, c, id, order, r, ch, x);
    }
    PeersAfterRegister(h, c, id, order);
    if x, r, ch :| x in StalePeers(h, c, id) && Sits(h, r, ch, x) && !InRoom(h, c, r) {
      assert Sits(t, r, ch, x) && x !in t.peers;
    }
    if r, ch, x :| Sits(t, r, ch, x) && x !in t.peers {
      assert Sits(h, r, ch, x) && x in order && !InRoom(h, c, r) by { SitsSomewhere(h, t, c, id, order, r, ch, x); }
      assert Strays(h, c, x);
    }
  }

  lemma SitsSomewhere(h: Hub, t: Hub, c: Client, id: string, order: seq<string>, r: string, ch: string, x: string)
    requires Registered(h) && id in t.peers && x !in t.peers && Sits(t, r, ch, x)
    requires forall y :: y in h.peers && y !in order ==> y in t.peers
    requires Sits(t, r, ch, x) <==>
            if !InRoom(h, c, r) then Sits(h, r, ch, x)
            else if x == id then Sits(h, r, ch, id) || exists o :: o in order && Sits(h, r, ch, o)
            else Sits(h, r, ch, x) && x !in order
    ensures Sits(h, r, ch, x) && x in order && !InRoom(h, c, r)
  {
  }

  lemma PeersAfterRegister(h: Hub, c: Client, id: string, order: seq<string>)
    requires Enabled(h, RegistersPeer(c, id, order))
    ensures RegisterPeer(h, c, id, order).peers.Keys == h.peers.Keys - StalePeers(h, c, id) + {id}
    ensures forall x :: x in order <==> x in StalePeers(h, c, id)
  {
    hide PromoteEach, RoomsOf;
  }

  /** The condition can fail: an id taken over from another relay stays in that relay's room when
      its new relay, which is not there, registers under another id. */
  lemma TakenOverPeerLingers(h: Hub, c: Client, r: string, ch: string, x: string, id: string)
    requires HubInv(h) && c in h.clients && OwnedBy(h, c) == {} && Sits(h, r, ch, x) && !InRoom(h, c, r)
    requires x != "" && id != "" && x != id
    ensures Enabled(h, RegistersPeer(c, x, []))
    ensures var g := RegisterPeer(h, c, x, []);
            Enabled(g, RegistersPeer(c, id, [x]))
            && var t := RegisterPeer(g, c, id, [x]); Sits(t, r, ch, x) && x !in t.peers
  {
    hide HubInv, Sits, PromoteEach;
    assert StalePeers(h, c, x) <= OwnedBy(h, c);
    var g := RegisterPeer(h, c, x, []);
    RegisterOwns(h, c, x, []);
    assert Enabled(g, RegistersPeer(c, id, [x])) by { OnlyStale(g, c, x, id); }
    RegisterKeeps(h, c, x, []);
    SitsMoved(h, c, x, [], r, ch, x);
    SitsMoved(g, c, id, [x], r, ch, x);
    assert !InRoom(g, c, r) by { PromotionConserves(h, c, x, []); }
  }

  lemma OnlyStale(g: Hub, c: Client, x: string, id: string)
    requires OwnedBy(g, c) == {x} && x != id
    ensures forall y :: y in [x] <==> y in StalePeers(g, c, id)
  {
    assert forall y :: y in StalePeers(g, c, id) <==> y in OwnedBy(g, c) && y != id;
  }

  // ---------- runs in which no relay takes over another relay's id ----------

  /** Every Bluetooth member of a channel is registered, to a relay that is in that room. */
  ghost predicate Placed(h: Hub)
  {
    forall r, ch, x :: Sits(h, r, ch, x) ==> x in h.peers && InRoom(h, h.peers[x].relay, r)
  }

  predicate TakesOver(h: Hub, e: Event)
  {
    e.RegistersPeer? && e.id in h.peers && h.peers[e.id].relay != e.c
  }

  ghost predicate TakeoverFree(evs: seq<Event>)
    decreases |evs|
  {
    evs == [] || (TakeoverFree(evs[..|evs| - 1]) && !TakesOver(Run(evs[..|evs| - 1]), evs[|evs| - 1]))
  }

  /** Nobody sits down and nobody leaves a room. */
  lemma NobodySits(h: Hub, t: Hub)
    requires Placed(h) && t.peers == h.peers
    requires forall c, r :: InRoom(h, c, r) ==> InRoom(t, c, r)
    requires forall r, ch, x :: Sits(t, r, ch, x) ==> Sits(h, r, ch, x)
    ensures Placed(t)
  {
    hide Sits, InRoom;
  }

  lemma DisconnectPlaces(h: Hub, c: Client)
    requires HubInv(h) && Placed(h) && c in h.clients
    ensures Placed(Disconnect(h, c))
  {
    hide HubInv, RoomAfter;
    var t := Disconnect(h, c);
    forall r, ch, x | Sits(t, r, ch, x) ensures x in t.peers && InRoom(t, t.peers[x].relay, r) {
      RoomTornDown(h, c, r);
      assert VoiceStays(h.rooms[r].voice[ch], t.rooms[r].voice[ch], c, OwnedBy(h, c));
      assert Sits(h, r, ch, x) && x !in OwnedBy(h, c);
    }
  }

  lemma RegisterPlaces(h: Hub, c: Client, id: string, order: seq<string>)
    requires HubInv(h) && Placed(h) && Enabled(h, RegistersPeer(c, id, order)) && !TakesOver(h, RegistersPeer(c, id, order))
    ensures Placed(RegisterPeer(h, c, id, order))
  {
    hide HubInv, RegisterPeer, Sits, Enabled;
    var t := RegisterPeer(h, c, id, order);
    PromotionConserves(h, c, id, order);
    PeersKept(h, c, id, order);
    forall r, ch, x | Sits(t, r, ch, x) ensures x in t.peers && InRoom(t, t.peers[x].relay, r) {
      SitsMoved(h, c, id, order, r, ch, x);
      MembersMoved(h, t, c, id, order, r);
      assert InRoom(h, c, r) || Sits(h, r, ch, x);
      if x != id { assert Sits(h, r, ch, x) && x !in order; }
    }
  }

  lemma MembersMoved(h: Hub, t: Hub, c: Client, id: string, order: seq<string>, r: string)
    requires HubInv(h) && Enabled(h, RegistersPeer(c, id, order)) && t == RegisterPeer(h, c, id, order)
    ensures forall d :: InRoom(t, d, r) <==> InRoom(h, d, r)
  {
    hide HubInv, RegisterPeer, RoomOk, Enabled;
    PromotionConserves(h, c, id, order);
    if InRoom(h, c, r) { assert SameFrame(h.rooms[r], t.rooms[r]); }
  }

  lemma PeersKept(h: Hub, c: Client, id: string, order: seq<string>)
    requires Enabled(h, RegistersPeer(c, id, order))
    ensures var t := RegisterPeer(h, c, id, order);
            id in t.peers && t.peers[id].relay == c
            && (forall x :: x in h.peers && x != id && x !in order ==> x in t.peers && t.peers[x] == h.peers[x])
            && (forall x :: x in order ==> x in h.peers && h.peers[x].relay == c)
  {
    hide PromoteEach, RoomsOf;
    assert forall x :: x in order ==> x in StalePeers(h, c, id);
  }

  lemma UnregisterPlaces(h: Hub, c: Client, id: string)
    requires HubInv(h) && Placed(h)
    ensures Placed(UnregisterPeer(h, c, id))
  {
    hide HubInv;
    Parts(h);
    var t := UnregisterPeer(h, c, id);
    if Resolves(h, c, id) {
      forall r, ch, x | Sits(t, r, ch, x) ensures x in t.peers && InRoom(t, t.peers[x].relay, r) {
        assert r in RoomsOf(h, c) <==> InRoom(h, c, r);
        assert Sits(h, r, ch, x);
      }
    }
  }

  lemma PeerJoinPlaces(h: Hub, c: Client, r: string, ch: string, id: string)
    requires Placed(h)
    ensures Placed(JoinVoiceFor(h, c, r, ch, id))
  {
    var t := JoinVoiceFor(h, c, r, ch, id);
    forall s, k, x | Sits(t, s, k, x) ensures x in t.peers && InRoom(t, t.peers[x].relay, s) {
      if x != id || s != r || k != ch { assert Sits(h, s, k, x); }
    }
  }

  lemma AdmitPlaces(h: Hub, r: string, c: Client)
    requires Placed(h) && r in h.rooms
    ensures Placed(AddMember(h, r, c)) && Placed(Admit(h, r, c))
  {
    hide Placed;
    NobodySits(h, AddMember(h, r, c));
  }

  lemma CreatePlaces(h: Hub, r: string, channel: string, dm: Option<(string, string)>)
    requires Placed(h) && r !in h.rooms
    ensures Placed(SetRoom(h, r, NewRoom(channel).(dm := dm)))
  {
    hide Placed;
    NobodySits(h, SetRoom(h, r, NewRoom(channel).(dm := dm)));
  }

  lemma FlagPlaces(h: Hub, r: string, isPublic: bool)
    requires Placed(h) && r in h.rooms
    ensures Placed(SetRoom(h, r, h.rooms[r].(isPublic := isPublic)))
  {
    hide Placed;
    NobodySits(h, SetRoom(h, r, h.rooms[r].(isPublic := isPublic)));
  }

  lemma JoinPlaces(h: Hub, c: Client, name: string, ch: string)
    requires Placed(h)
    ensures Placed(GetOrCreate(h, name, ch)) && Placed(JoinRoom(h, c, name, ch)) && Placed(JoinDM(h, c, name))
  {
    hide Placed, AddMember, Admit, May, SetRoom;
    if name !in h.rooms { CreatePlaces(h, name, ch, None); } else { AdmitPlaces(h, name, c); }
    var g := GetOrCreate(h, name, ch);
    assert name in g.rooms by { Created(h, name, ch); }
    AdmitPlaces(g, name, c);
  }

  lemma Created(h: Hub, name: string, ch: string)
    ensures name in GetOrCreate(h, name, ch).rooms
  {
  }

  lemma CreateRoomPlaces(h: Hub, c: Client, name: string, isPublic: bool, ch: string)
    requires Placed(h)
    ensures Placed(CreateRoom(h, c, name, isPublic, ch))
  {
    hide Placed, JoinRoom;
    JoinPlaces(h, c, name, ch);
    var g := GetOrCreate(h, name, ch);
    FlagPlaces(g, name, isPublic);
    JoinPlaces(SetRoom(g, name, g.rooms[name].(isPublic := isPublic)), c, name, ch);
  }

  lemma StartPlaces(h: Hub, c: Client, target: string, r: string, ch: string)
    requires Placed(h) && Enabled(h, StartsDM(c, target, r, ch))
    ensures Placed(StartDM(h, c, target, r, ch))
  {
    hide Placed, Pair, Admit;
    if target in h.byId {
      var pair := Pair(c.id, h.byId[target].id);
      if DmRooms(h, pair) == {} { CreatePlaces(h, r, ch, Some(pair)); }
      var g := if DmRooms(h, pair) == {} then SetRoom(h, r, NewRoom(ch).(dm := Some(pair))) else h;
      AdmitPlaces(g, r, c);
      assert r in Admit(g, r, c).rooms by { StillARoom(g, r, c); }
      AdmitPlaces(Admit(g, r, c), r, h.byId[target]);
    }
  }

  lemma StillARoom(h: Hub, r: string, c: Client)
    requires r in h.rooms
    ensures r in Admit(h, r, c).rooms
  {
  }

  lemma VoiceSetPlaces(h: Hub, r: string, ch: string, v: Voice)
    requires Placed(h) && HasChannel(h, r, ch) && v.bleMembers.Keys <= h.rooms[r].voice[ch].bleMembers.Keys
    ensures Placed(SetVoice(h, r, ch, v))
  {
    hide Placed;
    NobodySits(h, SetVoice(h, r, ch, v));
  }

  lemma VoiceStepPlaces(h: Hub, c: Client, r: string, ch: string, id: string, on: bool)
    requires Placed(h)
    ensures Placed(JoinVoice(h, c, r, ch)) && Placed(LeaveVoiceChannel(h, c, r, ch)) && Placed(Speak(h, c, r, ch, on))
    ensures Placed(LeaveVoiceFor(h, r, ch, id)) && Placed(SpeakFor(h, c, r, ch, id, on))
  {
    hide Placed, SetVoice, InRoom;
    if HasChannel(h, r, ch) {
      var v := h.rooms[r].voice[ch];
      VoiceSetPlaces(h, r, ch, v.(members := v.members + {c}));
      VoiceSetPlaces(h, r, ch, LeaveVoice(v, c));
      VoiceSetPlaces(h, r, ch, v.(speaking := if on then v.speaking + {c} else v.speaking - {c}));
      VoiceSetPlaces(h, r, ch, LeaveBle(v, id));
      VoiceSetPlaces(h, r, ch, v.(bleSpeaking := if on then v.bleSpeaking + {id} else v.bleSpeaking - {id}));
    }
  }

  lemma StepPlaces(h: Hub, e: Event)
    requires HubInv(h) && Placed(h) && Enabled(h, e) && !TakesOver(h, e)
    ensures Placed(Step(h, e))
  {
    hide HubInv, Placed, JoinRoom, CreateRoom, StartDM, JoinDM, JoinVoice, LeaveVoiceChannel, Speak, RegisterPeer;
    hide UnregisterPeer, JoinVoiceFor, LeaveVoiceFor, SpeakFor, Disconnect;
    match e
    case Connected(c) => NobodySits(h, Connect(h, c));
    case Disconnected(c) => DisconnectPlaces(h, c);
    case JoinsRoom(c, name, ch) => JoinPlaces(h, c, name, ch);
    case CreatesRoom(c, name, isPublic, ch) => CreateRoomPlaces(h, c, name, isPublic, ch);
    case StartsDM(c, target, r, ch) => StartPlaces(h, c, target, r, ch);
    case JoinsDM(c, r) => JoinPlaces(h, c, r, "");
    case JoinsVoice(c, r, ch) => VoiceStepPlaces(h, c, r, ch, "", true);
    case LeavesVoice(c, r, ch) => VoiceStepPlaces(h, c, r, ch, "", true);
    case Speaks(c, r, ch, on) => VoiceStepPlaces(h, c, r, ch, "", on);
    case RegistersPeer(c, id, order) => RegisterPlaces(h, c, id, order);
    case UnregistersPeer(c, id) => UnregisterPlaces(h, c, id);
    case PeerJoinsVoice(c, r, ch, id) => PeerJoinPlaces(h, c, r, ch, id);
    case PeerLeavesVoice(c, r, ch, id) => VoiceStepPlaces(h, c, r, ch, id, true);
    case PeerSpeaks(c, r, ch, id, on) => VoiceStepPlaces(h, c, r, ch, id, on);
    case _ => NobodySits(h, Step(h, e));
  }

  /** As long as no relay registers an id that is registered to another one, every voice channel
      shows only peers the hub knows, each in a room that its relay is in. */
  lemma {:induction false} OnlyKnownPeers(evs: seq<Event>)
    requires TakeoverFree(evs)
    ensures Placed(Run(evs)) && Registered(Run(evs))
    decreases |evs|
  {
    hide Step, Enabled, HubInv;
    if evs != [] {
      var before, e := evs[..|evs| - 1], evs[|evs| - 1];
      OnlyKnownPeers(before);
      RunKeeps(before);
      if Enabled(Run(before), e) { StepPlaces(Run(before), e); }
    }
  }
}
