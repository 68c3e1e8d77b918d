/** Who is where after each request, said from the outside: which clients are in which rooms and
    voice channels, and which Bluetooth peers sit in which channels. */
module HubMembership {
  import opened Basics
  import opened HubRoom
  import opened HubState
  import opened HubRuns

  predicate InVoice(h: Hub, d: Client, r: string, ch: string)
  {
    HasChannel(h, r, ch) && d in h.rooms[r].voice[ch].members
  }

  /** Room `r` may be entered: it is new, it is no conversation, or `c` is one of its two people. */
  predicate Welcome(h: Hub, r: string, c: Client)
  {
    r in h.rooms && h.rooms[r].dm.Some? ==> c.id in {h.rooms[r].dm.value.0, h.rooms[r].dm.value.1}
  }

  /** Whether `d` is to be in room `r` after the request. Nobody but the requester moves, except
      that a new direct conversation takes its other participant in. */
  predicate ToBeInRoom(h: Hub, e: Event, d: Client, r: string)
  {
    match e
    case JoinsRoom(c, name, _) => InRoom(h, d, r) || (d == c && r == name && Welcome(h, r, c))
    case CreatesRoom(c, name, _, _) => InRoom(h, d, r) || (d == c && r == name && Welcome(h, r, c))
    case StartsDM(c, target, room, _) =>
      InRoom(h, d, r) || (r == room && target in h.byId && (d == c || d == h.byId[target]))
    case JoinsDM(c, room) => InRoom(h, d, r) || (d == c && r == room && r in h.rooms && h.rooms[r].dm.Some? && Welcome(h, r, c))
    case Disconnected(c) => InRoom(h, d, r) && d != c
    case _ => InRoom(h, d, r)
  }

  predicate ToBeInVoice(h: Hub, e: Event, d: Client, r: string, ch: string)
  {
    match e
    case JoinsVoice(c, room, channel) =>
      InVoice(h, d, r, ch) || (d == c && r == room && ch == channel && InRoom(h, c, r) && HasChannel(h, r, ch))
    case LeavesVoice(c, room, channel) => InVoice(h, d, r, ch) && !(d == c && r == room && ch == channel)
    case Disconnected(c) => InVoice(h, d, r, ch) && d != c
    case _ => InVoice(h, d, r, ch)
  }

  /** Whether Bluetooth peer `x` is to sit in the channel after the request. */
  ghost predicate ToSit(h: Hub, e: Event, r: string, ch: string, x: string)
  {
    match e
    case PeerJoinsVoice(c, room, channel, id) =>
      Sits(h, r, ch, x) || (x == id && r == room && ch == channel && InRoom(h, c, r) && HasChannel(h, r, ch) && Resolves(h, c, id))
    case PeerLeavesVoice(_, room, channel, id) => Sits(h, r, ch, x) && !(x == id && r == room && ch == channel)
    case RegistersPeer(c, id, order) =>
      if !InRoom(h, c, r) then Sits(h, r, ch, x)
      else if x == id then Sits(h, r, ch, id) || exists o :: o in order && Sits(h, r, ch, o)
      else Sits(h, r, ch, x) && x !in order
    case UnregistersPeer(c, id) => Sits(h, r, ch, x) && !(x == id && Resolves(h, c, id) && InRoom(h, c, r))
    case Disconnected(c) => Sits(h, r, ch, x) && x !in OwnedBy(h, c)
    case _ => Sits(h, r, ch, x)
  }

  /** The three observations agree between two states. */
  ghost predicate SameVoices(h: Hub, t: Hub)
  {
    (forall d, r, ch :: InVoice(t, d, r, ch) <==> InVoice(h, d, r, ch))
    && forall r, ch, x :: Sits(t, r, ch, x) <==> Sits(h, r, ch, x)
  }

  lemma SameTwice(h: Hub, m: Hub, t: Hub)
    requires SameVoices(h, m) && SameVoices(m, t)
    ensures SameVoices(h, t)
  {
    hide InVoice, Sits;
  }

  // ---------- rooms ----------

  lemma Added(h: Hub, r: string, c: Client)
    requires r in h.rooms
    ensures forall d, s :: InRoom(AddMember(h, r, c), d, s) <==> InRoom(h, d, s) || (d == c && s == r)
    ensures SameVoices(h, AddMember(h, r, c))
  {
  }

  lemma Admitted(h: Hub, r: string, c: Client)
    requires r in h.rooms
    ensures forall d, s :: InRoom(Admit(h, r, c), d, s) <==> InRoom(h, d, s) || (d == c && s == r)
    ensures SameVoices(h, Admit(h, r, c)) && r in Admit(h, r, c).rooms
  {
    hide SameVoices, AddMember;
    assert SameVoices(h, h) by { Itself(h); }
    Added(h, r, c);
    AdmitLasts(h, r, c);
  }

  lemma Itself(h: Hub)
    ensures SameVoices(h, h)
  {
  }

  /** A new room is empty and nobody is in its channel. */
  lemma RoomMade(h: Hub, name: string, channel: string, dm: Option<(string, string)>)
    requires name !in h.rooms
    ensures var t := SetRoom(h, name, NewRoom(channel).(dm := dm));
            SameVoices(h, t) && forall d, s :: InRoom(t, d, s) <==> InRoom(h, d, s)
  {
  }

  lemma Flagged(h: Hub, name: string, isPublic: bool)
    requires name in h.rooms
    ensures var t := SetRoom(h, name, h.rooms[name].(isPublic := isPublic));
            SameVoices(h, t) && forall d, s :: InRoom(t, d, s) <==> InRoom(h, d, s)
  {
  }

  lemma Joined(h: Hub, c: Client, name: string, channel: string)
    ensures var t := JoinRoom(h, c, name, channel);
            SameVoices(h, t)
            && forall d, r :: InRoom(t, d, r) <==> InRoom(h, d, r) || (d == c && r == name && Welcome(h, r, c))
  {
    hide SameVoices, AddMember, InRoom;
    var g := GetOrCreate(h, name, channel);
    Itself(h);
    if name !in h.rooms { RoomMade(h, name, channel, None); }
    Added(g, name, c);
    SameTwice(h, g, AddMember(g, name, c));
  }

  lemma CreatedRoom(h: Hub, c: Client, name: string, isPublic: bool, channel: string)
    ensures var t := CreateRoom(h, c, name, isPublic, channel);
            SameVoices(h, t)
            && forall d, r :: InRoom(t, d, r) <==> InRoom(h, d, r) || (d == c && r == name && Welcome(h, r, c))
  {
    hide SameVoices, JoinRoom, InRoom;
    var g := GetOrCreate(h, name, channel);
    Itself(h);
    if name !in h.rooms { RoomMade(h, name, channel, None); }
    var flagged := SetRoom(g, name, g.rooms[name].(isPublic := isPublic));
    Flagged(g, name, isPublic);
    Joined(flagged, c, name, channel);
    SameTwice(h, g, flagged);
    SameTwice(h, flagged, JoinRoom(flagged, c, name, channel));
  }

  lemma Started(h: Hub, c: Client, target: string, room: string, channel: string)
    requires Enabled(h, StartsDM(c, target, room, channel))
    ensures var t := StartDM(h, c, target, room, channel);
            SameVoices(h, t)
            && forall d, r :: InRoom(t, d, r) <==> InRoom(h, d, r) || (r == room && target in h.byId && (d == c || d == h.byId[target]))
  {
    hide SameVoices, Admit, Pair, InRoom;
    Itself(h);
    if target in h.byId {
      var pair, d := Pair(c.id, h.byId[target].id), h.byId[target];
      var g := if DmRooms(h, pair) == {} then SetRoom(h, room, NewRoom(channel).(dm := Some(pair))) else h;
      if DmRooms(h, pair) == {} { RoomMade(h, room, channel, Some(pair)); }
      Admitted(g, room, c);
      Admitted(Admit(g, room, c), room, d);
      SameTwice(h, g, Admit(g, room, c));
      SameTwice(h, Admit(g, room, c), Admit(Admit(g, room, c), room, d));
    }
  }

  lemma Rejoined(h: Hub, c: Client, room: string)
    ensures var t := JoinDM(h, c, room);
            SameVoices(h, t)
            && forall d, r :: InRoom(t, d, r) <==>
                 InRoom(h, d, r) || (d == c && r == room && r in h.rooms && h.rooms[r].dm.Some? && Welcome(h, r, c))
  {
    hide SameVoices, Admit, InRoom;
    Itself(h);
    if room in h.rooms { Admitted(h, room, c); }
  }

  // ---------- channels ----------

  lemma VoiceChanged(h: Hub, r: string, ch: string, v: Voice)
    requires r in h.rooms
    ensures var t := SetVoice(h, r, ch, v);
            (forall d, s :: InRoom(t, d, s) <==> InRoom(h, d, s))
            && (forall d, s, k :: InVoice(t, d, s, k) <==> if s == r && k == ch then d in v.members else InVoice(h, d, s, k))
            && forall s, k, x :: Sits(t, s, k, x) <==> if s == r && k == ch then x in v.bleMembers else Sits(h, s, k, x)
  {
  }

  lemma RegisteredStay(h: Hub, c: Client, id: string, order: seq<string>, d: Client, r: string)
    requires HubInv(h) && Enabled(h, RegistersPeer(c, id, order))
    ensures var t := RegisterPeer(h, c, id, order);
            (InRoom(t, d, r) <==> InRoom(h, d, r)) && forall ch :: InVoice(t, d, r, ch) <==> InVoice(h, d, r, ch)
  {
    hide HubInv, RegisterPeer, RoomOk, Enabled, Moved;
    PromotionConserves(h, c, id, order);
    var t := RegisterPeer(h, c, id, order);
    if InRoom(h, c, r) {
      forall ch | ch in h.rooms[r].voice ensures t.rooms[r].voice[ch].members == h.rooms[r].voice[ch].members {
        assert VoiceMoved(h.rooms[r].voice[ch], t.rooms[r].voice[ch], order, BlePeer(id, c));
      }
    }
  }

  lemma Forgotten(h: Hub, c: Client, id: string, d: Client, r: string, ch: string, x: string)
    requires MirrorInv(h)
    ensures var t := UnregisterPeer(h, c, id);
            (InRoom(t, d, r) <==> InRoom(h, d, r)) && (InVoice(t, d, r, ch) <==> InVoice(h, d, r, ch))
            && (Sits(t, r, ch, x) <==> Sits(h, r, ch, x) && !(x == id && Resolves(h, c, id) && InRoom(h, c, r)))
  {
    assert r in RoomsOf(h, c) <==> InRoom(h, c, r);
  }

  lemma TornDown(h: Hub, c: Client, d: Client, r: string, ch: string, x: string)
    requires HubInv(h) && c in h.clients
    ensures var t := Disconnect(h, c);
            (InRoom(t, d, r) <==> InRoom(h, d, r) && d != c) && (InVoice(t, d, r, ch) <==> InVoice(h, d, r, ch) && d != c)
            && (Sits(t, r, ch, x) <==> Sits(h, r, ch, x) && x !in OwnedBy(h, c))
  {
    hide HubInv, RoomAfter, OwnedBy;
    if r in h.rooms {
      RoomTornDown(h, c, r);
      var t := Disconnect(h, c);
      if ch in h.rooms[r].voice {
        assert VoiceStays(h.rooms[r].voice[ch], t.rooms[r].voice[ch], c, OwnedBy(h, c));
      }
    }
  }

  lemma ChannelRequest(h: Hub, e: Event, d: Client, r: string, ch: string, x: string)
    requires Enabled(h, e) && (e.CreatesChannel? || e.JoinsVoice? || e.LeavesVoice? || e.Speaks?)
    ensures InRoom(Step(h, e), d, r) <==> ToBeInRoom(h, e, d, r)
    ensures InVoice(Step(h, e), d, r, ch) <==> ToBeInVoice(h, e, d, r, ch)
    ensures Sits(Step(h, e), r, ch, x) <==> ToSit(h, e, r, ch, x)
  {
    hide SetVoice;
    if e.room in h.rooms {
      VoiceChanged(h, e.room, e.channel, QUIET);
      if HasChannel(h, e.room, e.channel) {
        var v := h.rooms[e.room].voice[e.channel];
        VoiceChanged(h, e.room, e.channel, v.(members := v.members + {e.c}));
        VoiceChanged(h, e.room, e.channel, LeaveVoice(v, e.c));
        if e.Speaks? { VoiceChanged(h, e.room, e.channel, v.(speaking := if e.on then v.speaking + {e.c} else v.speaking - {e.c})); }
      }
    }
  }

  lemma PeerChannelRequest(h: Hub, e: Event, d: Client, r: string, ch: string, x: string)
    requires e.PeerJoinsVoice? || e.PeerLeavesVoice? || e.PeerSpeaks?
    ensures InRoom(Step(h, e), d, r) <==> InRoom(h, d, r)
    ensures InVoice(Step(h, e), d, r, ch) <==> InVoice(h, d, r, ch)
    ensures Sits(Step(h, e), r, ch, x) <==> ToSit(h, e, r, ch, x)
  {
    hide SetVoice;
    if HasChannel(h, e.room, e.channel) {
      var v := h.rooms[e.room].voice[e.channel];
      if Resolves(h, e.c, e.id) { VoiceChanged(h, e.room, e.channel, v.(bleMembers := v.bleMembers[e.id := h.peers[e.id]])); }
      VoiceChanged(h, e.room, e.channel, LeaveBle(v, e.id));
      if e.PeerSpeaks? {
        VoiceChanged(h, e.room, e.channel, v.(bleSpeaking := if e.on then v.bleSpeaking + {e.id} else v.bleSpeaking - {e.id}));
      }
    }
  }

  /** Requests that touch nothing but positions. */
  lemma OnlyPositions(h: Hub, r: string, room: Room)
    requires r in h.rooms && room.members == h.rooms[r].members && room.voice == h.rooms[r].voice
    ensures SameVoices(h, SetRoom(h, r, room)) && forall d, s :: InRoom(SetRoom(h, r, room), d, s) <==> InRoom(h, d, s)
  {
  }

  lemma PlainRequest(h: Hub, e: Event)
    requires e.Connected? || e.SendsPosition? || e.SendsPeerPosition?
    ensures SameVoices(h, Step(h, e)) && forall d, r :: InRoom(Step(h, e), d, r) <==> InRoom(h, d, r)
  {
    hide SameVoices, SetRoom;
    Itself(h);
    match e
    case Connected(c) => NewcomerNowhere(h, c);
    case SendsPosition(c, r, p) =>
      if r in h.rooms { OnlyPositions(h, r, h.rooms[r].(cot := h.rooms[r].cot[c := p])); }
    case SendsPeerPosition(c, r, sender, p) =>
      if r in h.rooms { OnlyPositions(h, r, h.rooms[r].(bleCot := h.rooms[r].bleCot[sender := Contact(sender, p)])); }
  }

  lemma NewcomerNowhere(h: Hub, c: Client)
    ensures SameVoices(h, Connect(h, c)) && forall d, r :: InRoom(Connect(h, c), d, r) <==> InRoom(h, d, r)
  {
  }

  /** Every request moves exactly whom it is to move, in rooms, voice channels and among the
      Bluetooth peers, and leaves everyone else where they were. */
  lemma WhoIsWhere(h: Hub, e: Event, d: Client, r: string, ch: string, x: string)
    requires HubInv(h) && Enabled(h, e)
    ensures InRoom(Step(h, e), d, r) <==> ToBeInRoom(h, e, d, r)
    ensures InVoice(Step(h, e), d, r, ch) <==> ToBeInVoice(h, e, d, r, ch)
    ensures Sits(Step(h, e), r, ch, x) <==> ToSit(h, e, r, ch, x)
  {
    if e.CreatesChannel? || e.JoinsVoice? || e.LeavesVoice? || e.Speaks? {
      hide HubInv, Step, InRoom, InVoice, Sits, Enabled;
      ChannelRequest(h, e, d, r, ch, x);
    } else if e.PeerJoinsVoice? || e.PeerLeavesVoice? || e.PeerSpeaks? {
      hide HubInv, Step, InRoom, InVoice, Sits, Enabled;
      PeerChannelRequest(h, e, d, r, ch, x);
    } else if e.Connected? || e.SendsPosition? || e.SendsPeerPosition? {
      hide HubInv, Step, InRoom, InVoice, Sits, Enabled;
      PlainRequest(h, e);
    } else {
      RoomRequest(h, e, d, r, ch, x);
    }
  }

  lemma RoomRequest(h: Hub, e: Event, d: Client, r: string, ch: string, x: string)
    requires HubInv(h) && Enabled(h, e)
    requires e.JoinsRoom? || e.CreatesRoom? || e.StartsDM? || e.JoinsDM? || e.RegistersPeer? || e.UnregistersPeer? || e.Disconnected?
    ensures InRoom(Step(h, e), d, r) <==> ToBeInRoom(h, e, d, r)
    ensures InVoice(Step(h, e), d, r, ch) <==> ToBeInVoice(h, e, d, r, ch)
    ensures Sits(Step(h, e), r, ch, x) <==> ToSit(h, e, r, ch, x)
  {
    hide HubInv, InRoom, InVoice, Sits, JoinRoom, CreateRoom, StartDM, JoinDM, RegisterPeer, UnregisterPeer, Disconnect, OwnedBy;
    Parts(h);
    match e
    case JoinsRoom(c, name, channel) => Joined(h, c, name, channel);
    case CreatesRoom(c, name, isPublic, channel) => CreatedRoom(h, c, name, isPublic, channel);
    case StartsDM(c, target, room, channel) => Started(h, c, target, room, channel);
    case JoinsDM(c, room) => Rejoined(h, c, room);
    case RegistersPeer(c, id, order) => RegisteredStay(h, c, id, order, d, r); SitsMoved(h, c, id, order, r, ch, x);
    case UnregistersPeer(c, id) => Forgotten(h, c, id, d, r, ch, x);
    case Disconnected(c) => TornDown(h, c, d, r, ch, x);
  }
}
