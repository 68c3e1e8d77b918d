/** Voice channels that show a Bluetooth peer the hub does not know: exactly which requests lead
    there, and a run that does. */
module HubStrays {
  import opened HubRoom
  import opened HubState
  import opened HubRuns
  import opened HubMembership

  /** Unregistering a peer leaves it behind, unknown, exactly when it sits in a channel of a room that
      its relay is not in. */
  lemma UnregisteredExactly(h: Hub, c: Client, id: string)
    requires HubInv(h) && Registered(h) && Resolves(h, c, id)
    ensures Registered(UnregisterPeer(h, c, id)) <==> !Strays(h, c, id)
  {
    hide HubInv, Sits, InRoom;
    var t := UnregisterPeer(h, c, id);
    assert t.peers.Keys == h.peers.Keys - {id} by { PeersWithout(h, c, id); }
    Parts(h);
    forall r, ch, x ensures Sits(t, r, ch, x) <==> Sits(h, r, ch, x) && !(x == id && InRoom(h, c, r)) {
      Forgotten(h, c, id, c, r, ch, x);
    }
    if r, ch :| Sits(h, r, ch, id) && !InRoom(h, c, r) {
      assert Sits(t, r, ch, id) && id !in t.peers;
    }
  }

  lemma PeersWithout(h: Hub, c: Client, id: string)
    requires Resolves(h, c, id)
    ensures UnregisterPeer(h, c, id).peers.Keys == h.peers.Keys - {id}
  {
    hide ForgetPeer, RoomsOf;
  }

  /** The condition under which a request leaves no unknown peer in a channel: the ids that leave the
      hub must not sit in rooms their relay is not in. */
  ghost predicate LeavesNoStray(h: Hub, e: Event)
  {
    match e
    case RegistersPeer(c, id, _) => forall x :: x in StalePeers(h, c, id) ==> !Strays(h, c, x)
    case UnregistersPeer(c, id) => Resolves(h, c, id) ==> !Strays(h, c, id)
    case _ => true
  }

  /** Request by request: if all peers in channels are known before, they are known after exactly
      under that condition. */
  lemma StepRegisteredExactly(h: Hub, e: Event)
    requires HubInv(h) && Registered(h) && Enabled(h, e)
    ensures Registered(Step(h, e)) <==> LeavesNoStray(h, e)
  {
    hide HubInv, Registered, Strays, RegisterPeer, UnregisterPeer;
    match e
    case RegistersPeer(c, id, order) => RegisteredExactly(h, c, id, order);
    case UnregistersPeer(c, id) =>
      if Resolves(h, c, id) { UnregisteredExactly(h, c, id); } else { assert UnregisterPeer(h, c, id) == h by { NotResolved(h, c, id); } }
    case _ => OthersKeepRegistered(h, e);
  }

  lemma NotResolved(h: Hub, c: Client, id: string)
    requires !Resolves(h, c, id)
    ensures UnregisterPeer(h, c, id) == h
  {
  }

  lemma OthersKeepRegistered(h: Hub, e: Event)
    requires HubInv(h) && Registered(h) && Enabled(h, e) && !e.RegistersPeer? && !e.UnregistersPeer?
    ensures Registered(Step(h, e))
  {
    hide HubInv, Step, Sits, InRoom;
    EventPeers(h, e);
    var t := Step(h, e);
    forall r, ch, x | Sits(t, r, ch, x) ensures x in t.peers {
      WhoIsWhere(h, e, e.c, r, ch, x);
    }
  }

  // ---------- it happens ----------

  const ANN := Client(0, "a")
  const BEN := Client(1, "b")
  const ROOM := "room"
  const CHANNEL := "channel"

  /** Ann's phone relays peer "x" into a voice channel; Ben's phone, which is not in that room, then
      registers the same peer. */
  const TAKEN_OVER: seq<Event> :=
    [Connected(ANN), Connected(BEN), JoinsRoom(ANN, ROOM, CHANNEL), RegistersPeer(ANN, "x", []),
     PeerJoinsVoice(ANN, ROOM, CHANNEL, "x"), RegistersPeer(BEN, "x", [])]

  lemma RunSnoc(evs: seq<Event>, e: Event)
    requires Enabled(Run(evs), e)
    ensures Run(evs + [e]) == Step(Run(evs), e)
  {
    hide Step, Enabled;
    assert (evs + [e])[..|evs|] == evs;
  }

  /** Both are connected and Ann is in her room, alone. */
  ghost predicate AnnIn(h: Hub)
  {
    h.clients == {ANN, BEN} && InRoom(h, ANN, ROOM) && !InRoom(h, BEN, ROOM) && HasChannel(h, ROOM, CHANNEL)
  }

  ghost predicate NobodySeated(h: Hub)
  {
    forall r, ch, x :: !Sits(h, r, ch, x)
  }

  lemma BothConnect()
    ensures Run(TAKEN_OVER[..2]) == Connect(Connect(EMPTY_HUB, ANN), BEN)
  {
    hide Run;
    var e1, e2 := Connected(ANN), Connected(BEN);
    StartsEmpty();
    RunSnoc([], e1);
    assert [] + [e1] == [e1] && [e1] + [e2] == TAKEN_OVER[..2];
    assert Connect(EMPTY_HUB, ANN).byId.Keys == {"a"};
    RunSnoc([e1], e2);
  }

  lemma AnnJoins()
    ensures var h := Run(TAKEN_OVER[..3]); AnnIn(h) && NobodySeated(h) && h.peers == map[]
  {
    hide Run, AnnIn, NobodySeated;
    var e3 := JoinsRoom(ANN, ROOM, CHANNEL);
    BothConnect();
    assert TAKEN_OVER[..3] == TAKEN_OVER[..2] + [e3];
    var h2 := Run(TAKEN_OVER[..2]);
    assert h2.clients == {ANN, BEN} && h2.peers == map[] && h2.rooms == map[] && h2.joined == map[];
    RunSnoc(TAKEN_OVER[..2], e3);
    AfterJoin(h2);
  }

  lemma AnnRegisters()
    ensures var h := Run(TAKEN_OVER[..4]); AnnIn(h) && NobodySeated(h) && h.peers == map["x" := BlePeer("x", ANN)]
  {
    hide Run, InRoom, HasChannel, NobodySeated, RegisterPeer;
    var e4 := RegistersPeer(ANN, "x", []);
    AnnJoins();
    assert TAKEN_OVER[..4] == TAKEN_OVER[..3] + [e4];
    var h3 := Run(TAKEN_OVER[..3]);
    assert StalePeers(h3, ANN, "x") == {};
    RunSnoc(TAKEN_OVER[..3], e4);
    AfterRegister(h3);
  }

  /** Ann's part of the run. */
  lemma AnnsRun()
    ensures var h := Run(TAKEN_OVER[..5]);
            HubInv(h) && AnnIn(h) && h.peers == map["x" := BlePeer("x", ANN)] && Sits(h, ROOM, CHANNEL, "x") && Registered(h)
  {
    hide Run, HubInv, InRoom, HasChannel, NobodySeated, JoinVoiceFor, Sits, Registered;
    var e5 := PeerJoinsVoice(ANN, ROOM, CHANNEL, "x");
    AnnRegisters();
    assert TAKEN_OVER[..5] == TAKEN_OVER[..4] + [e5];
    RunSnoc(TAKEN_OVER[..4], e5);
    AfterSeat(Run(TAKEN_OVER[..4]));
    RunKeeps(TAKEN_OVER[..5]);
  }

  lemma StartsEmpty()
    ensures Run([]) == EMPTY_HUB
  {
  }

  lemma AfterJoin(h: Hub)
    requires h.clients == {ANN, BEN} && h.peers == map[] && h.rooms == map[] && h.joined == map[]
    ensures var t := JoinRoom(h, ANN, ROOM, CHANNEL); AnnIn(t) && NobodySeated(t) && t.peers == map[]
  {
  }

  lemma AfterRegister(h: Hub)
    requires AnnIn(h) && NobodySeated(h) && h.peers == map[]
    ensures var t := RegisterPeer(h, ANN, "x", []); AnnIn(t) && NobodySeated(t) && t.peers == map["x" := BlePeer("x", ANN)]
  {
    var t := RegisterPeer(h, ANN, "x", []);
    assert forall r :: r in h.rooms ==> PromoteEach(h.rooms[r], [], BlePeer("x", ANN)) == h.rooms[r];
    assert t.rooms == h.rooms;
    forall r, ch, x ensures !Sits(t, r, ch, x) { assert !Sits(h, r, ch, x); }
  }

  lemma AfterSeat(h: Hub)
    requires AnnIn(h) && NobodySeated(h) && h.peers == map["x" := BlePeer("x", ANN)]
    ensures var t := JoinVoiceFor(h, ANN, ROOM, CHANNEL, "x");
            AnnIn(t) && t.peers == h.peers && Sits(t, ROOM, CHANNEL, "x") && Registered(t)
  {
    var t := JoinVoiceFor(h, ANN, ROOM, CHANNEL, "x");
    forall r, ch, x | Sits(t, r, ch, x) ensures x in t.peers { assert !Sits(h, r, ch, x); }
  }

  /** From an empty hub, six requests lead to a state in which either of two further ones, a new
      registration of Ben's or an unregistering, leaves a peer in Ann's channel that nobody owns. */
  lemma StrayReached()
    ensures var h := Run(TAKEN_OVER);
            HubInv(h) && Registered(h) && Sits(h, ROOM, CHANNEL, "x")
            && Enabled(h, RegistersPeer(BEN, "y", ["x"])) && Enabled(h, UnregistersPeer(BEN, "x"))
    ensures var t := Run(TAKEN_OVER + [RegistersPeer(BEN, "y", ["x"])]); Sits(t, ROOM, CHANNEL, "x") && "x" !in t.peers
    ensures var t := Run(TAKEN_OVER + [UnregistersPeer(BEN, "x")]); Sits(t, ROOM, CHANNEL, "x") && "x" !in t.peers
  {
    hide Run, HubInv, Sits, PromoteEach, RegisterPeer, UnregisterPeer, InRoom, Registered;
    AnnsRun();
    var evs := TAKEN_OVER[..5];
    var h5 := Run(evs);
    var e6 := RegistersPeer(BEN, "x", []);
    assert StalePeers(h5, BEN, "x") == {};
    assert OwnedBy(h5, BEN) == {};
    RunSnoc(evs, e6);
    assert evs + [e6] == TAKEN_OVER;
    RunKeeps(TAKEN_OVER);
    var h6 := Run(TAKEN_OVER);
    TakenOverPeerLingers(h5, BEN, ROOM, CHANNEL, "x", "y");
    RunSnoc(TAKEN_OVER, RegistersPeer(BEN, "y", ["x"]));
    Taken(h5, h6);
    RunSnoc(TAKEN_OVER, UnregistersPeer(BEN, "x"));
    Parts(h6);
    Forgotten(h6, BEN, "x", BEN, ROOM, CHANNEL, "x");
    PeersWithout(h6, BEN, "x");
  }

  lemma Taken(h: Hub, t: Hub)
    requires HubInv(h) && h.clients == {ANN, BEN} && h.peers == map["x" := BlePeer("x", ANN)]
    requires Sits(h, ROOM, CHANNEL, "x") && !InRoom(h, BEN, ROOM) && t == RegisterPeer(h, BEN, "x", [])
    requires Registered(h) && Enabled(h, RegistersPeer(BEN, "x", []))
    ensures Registered(t) && Sits(t, ROOM, CHANNEL, "x") && !InRoom(t, BEN, ROOM)
    ensures Resolves(t, BEN, "x") && t.clients == h.clients
  {
    hide HubInv, Sits, PromoteEach;
    assert StalePeers(h, BEN, "x") == {};
    RegisteredExactly(h, BEN, "x", []);
    SitsMoved(h, BEN, "x", [], ROOM, CHANNEL, "x");
    MembersMoved(h, t, BEN, "x", [], ROOM);
  }
}
