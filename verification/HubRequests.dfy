/** What a request changes besides who is where: who is speaking, which channels a room has, its flag, its
    positions and the relays of its seated peers, and who is connected. With HubMembership this says all
    that a request does, from the outside. */
module HubRequests {
  import opened Basics
  import opened HubRoom
  import opened HubState
  import opened HubRuns
  import opened HubMembership

  predicate Speaking(h: Hub, d: Client, r: string, ch: string)
  {
    HasChannel(h, r, ch) && d in h.rooms[r].voice[ch].speaking
  }

  predicate PeerSpeaking(h: Hub, r: string, ch: string, x: string)
  {
    HasChannel(h, r, ch) && x in h.rooms[r].voice[ch].bleSpeaking
  }

  predicate Public(h: Hub, r: string)
  {
    r in h.rooms && h.rooms[r].isPublic
  }

  function DmOf(h: Hub, r: string): Option<(string, string)>
  {
    if r in h.rooms then h.rooms[r].dm else None
  }

  function PositionOf(h: Hub, r: string, c: Client): Option<nat>
  {
    if r in h.rooms && c in h.rooms[r].cot then Some(h.rooms[r].cot[c]) else None
  }

  function PeerPositionOf(h: Hub, r: string, x: string): Option<nat>
  {
    if r in h.rooms && x in h.rooms[r].bleCot then Some(h.rooms[r].bleCot[x].position) else None
  }

  // ---------- what is to be ----------

  /** Whether `d` is to speak in the channel after the request: a member of it says so itself, and stops
      when it leaves or is gone. */
  predicate ToSpeak(h: Hub, e: Event, d: Client, r: string, ch: string)
  {
    match e
    case Speaks(c, room, channel, on) =>
      if d == c && r == room && ch == channel && InVoice(h, c, r, ch) then on else Speaking(h, d, r, ch)
    case LeavesVoice(c, room, channel) => Speaking(h, d, r, ch) && !(d == c && r == room && ch == channel)
    case Disconnected(c) => Speaking(h, d, r, ch) && d != c
    case _ => Speaking(h, d, r, ch)
  }

  /** The same for a Bluetooth peer, for which its relay's room speaks; the mark moves with a promotion. */
  ghost predicate PeerToSpeak(h: Hub, e: Event, r: string, ch: string, x: string)
  {
    match e
    case PeerSpeaks(c, room, channel, id, on) =>
      if x == id && r == room && ch == channel && InRoom(h, c, r) && Sits(h, r, ch, x) then on else PeerSpeaking(h, r, ch, x)
    case PeerLeavesVoice(_, room, channel, id) => PeerSpeaking(h, r, ch, x) && !(x == id && r == room && ch == channel)
    case RegistersPeer(c, id, order) =>
      if !InRoom(h, c, r) then PeerSpeaking(h, r, ch, x)
      else if x == id then PeerSpeaking(h, r, ch, id) || exists o :: o in order && PeerSpeaking(h, r, ch, o)
      else PeerSpeaking(h, r, ch, x) && x !in order
    case UnregistersPeer(c, id) => PeerSpeaking(h, r, ch, x) && !(x == id && Resolves(h, c, id) && InRoom(h, c, r))
    case Disconnected(c) => PeerSpeaking(h, r, ch, x) && x !in OwnedBy(h, c)
    case _ => PeerSpeaking(h, r, ch, x)
  }

  /** The room that the request makes, if it makes one, and its first channel. */
  function Made(h: Hub, e: Event): Option<(string, string)>
  {
    match e
    case JoinsRoom(_, name, channel) => if name in h.rooms then None else Some((name, channel))
    case CreatesRoom(_, name, _, channel) => if name in h.rooms then None else Some((name, channel))
    case StartsDM(_, target, room, channel) => if target !in h.byId || room in h.rooms then None else Some((room, channel))
    case _ => None
  }

  predicate ToExist(h: Hub, e: Event, r: string)
  {
    r in h.rooms || (Made(h, e).Some? && r == Made(h, e).value.0)
  }

  predicate ToHaveChannel(h: Hub, e: Event, r: string, ch: string)
  {
    HasChannel(h, r, ch) || Made(h, e) == Some((r, ch))
    || (e.CreatesChannel? && r == e.room && ch == e.channel && InRoom(h, e.c, r))
  }

  /** A room is public when it is made; creating it again sets the flag. */
  predicate ToBePublic(h: Hub, e: Event, r: string)
  {
    if e.CreatesRoom? && r == e.name then e.isPublic
    else Public(h, r) || (Made(h, e).Some? && r == Made(h, e).value.0)
  }

  /** A conversation is one from the start, between the two people in order. */
  function DmToBe(h: Hub, e: Event, r: string): Option<(string, string)>
  {
    if e.StartsDM? && Made(h, e).Some? && r == e.room then
      var other := h.byId[e.target].id;
      if Less(e.c.id, other) then Some((e.c.id, other)) else Some((other, e.c.id))
    else DmOf(h, r)
  }

  predicate ToBeConnected(h: Hub, e: Event, d: Client)
  {
    match e
    case Connected(c) => d == c || d in h.clients
    case Disconnected(c) => d in h.clients && d != c
    case _ => d in h.clients
  }

  function PositionToBe(h: Hub, e: Event, r: string, c: Client): Option<nat>
  {
    if e.SendsPosition? && e.c == c && e.room == r && InRoom(h, c, r) then Some(e.position) else PositionOf(h, r, c)
  }

  /** Is `p` the position of peer `x` after the request? A promotion takes one of the old ids' on. */
  ghost predicate PeerPositionToBe(h: Hub, e: Event, r: string, x: string, p: Option<nat>)
  {
    match e
    case SendsPeerPosition(c, room, sender, position) =>
      p == if x == sender && r == room && x != "" && InRoom(h, c, r) then Some(position) else PeerPositionOf(h, r, x)
    case UnregistersPeer(c, id) =>
      p == if x == id && Resolves(h, c, id) && InRoom(h, c, r) then None else PeerPositionOf(h, r, x)
    case RegistersPeer(c, id, order) =>
      if !InRoom(h, c, r) then p == PeerPositionOf(h, r, x)
      else if x == id then
        if exists o :: o in order && PeerPositionOf(h, r, o).Some?
        then exists o :: o in order && p == PeerPositionOf(h, r, o) && p.Some?
        else p == PeerPositionOf(h, r, x)
      else p == if x in order then None else PeerPositionOf(h, r, x)
    case _ => p == PeerPositionOf(h, r, x)
  }

  ghost predicate AsToBe(h: Hub, e: Event, t: Hub, d: Client, r: string, ch: string, x: string)
  {
    (Speaking(t, d, r, ch) <==> ToSpeak(h, e, d, r, ch))
    && (PeerSpeaking(t, r, ch, x) <==> PeerToSpeak(h, e, r, ch, x))
    && (r in t.rooms <==> ToExist(h, e, r))
    && (HasChannel(t, r, ch) <==> ToHaveChannel(h, e, r, ch))
    && (Public(t, r) <==> ToBePublic(h, e, r))
    && PositionOf(t, r, d) == PositionToBe(h, e, r, d)
    && PeerPositionToBe(h, e, r, x, PeerPositionOf(t, r, x))
  }

  // ---------- requests about rooms ----------

  /** Nothing inside the rooms has changed but who is in them, and flags; a new one is quiet. */
  ghost predicate Opened(h: Hub, t: Hub, made: Option<(string, string)>)
  {
    (made.Some? ==> made.value.0 !in h.rooms)
    && (forall r :: r in t.rooms <==> r in h.rooms || (made.Some? && r == made.value.0))
    && (forall r :: r in h.rooms ==> SameInside(h.rooms[r], t.rooms[r]))
    && (made.Some? ==> SameInside(NewRoom(made.value.1), t.rooms[made.value.0]))
  }

  predicate SameInside(a: Room, b: Room)
  {
    a.voice == b.voice && a.cot == b.cot && a.bleCot == b.bleCot
  }

  lemma OpenedAsToBe(h: Hub, e: Event, t: Hub, d: Client, r: string, ch: string, x: string)
    requires e.JoinsRoom? || e.CreatesRoom? || e.StartsDM? || e.JoinsDM? || e.Connected?
    requires Opened(h, t, Made(h, e)) && (Public(t, r) <==> ToBePublic(h, e, r))
    ensures AsToBe(h, e, t, d, r, ch, x)
  {
    hide Opened, Public, Speaking, PeerSpeaking, HasChannel, PositionOf, PeerPositionOf;
    OpenedVoices(h, t, Made(h, e), d, r, ch, x);
    OpenedPlaces(h, t, Made(h, e), d, r, x);
  }

  lemma OpenedVoices(h: Hub, t: Hub, made: Option<(string, string)>, d: Client, r: string, ch: string, x: string)
    requires Opened(h, t, made)
    ensures Speaking(t, d, r, ch) <==> Speaking(h, d, r, ch)
    ensures PeerSpeaking(t, r, ch, x) <==> PeerSpeaking(h, r, ch, x)
    ensures HasChannel(t, r, ch) <==> HasChannel(h, r, ch) || made == Some((r, ch))
  {
  }

  lemma OpenedPlaces(h: Hub, t: Hub, made: Option<(string, string)>, d: Client, r: string, x: string)
    requires Opened(h, t, made)
    ensures r in t.rooms <==> r in h.rooms || (made.Some? && r == made.value.0)
    ensures PositionOf(t, r, d) == PositionOf(h, r, d) && PeerPositionOf(t, r, x) == PeerPositionOf(h, r, x)
  {
  }

  lemma JoinOpens(h: Hub, c: Client, name: string, channel: string)
    ensures Opened(h, JoinRoom(h, c, name, channel), if name in h.rooms then None else Some((name, channel)))
    ensures forall r :: Public(JoinRoom(h, c, name, channel), r) <==> Public(h, r) || (r == name && r !in h.rooms)
  {
    hide May;
  }

  lemma AdmitOpens(h: Hub, g: Hub, r: string, c: Client, made: Option<(string, string)>)
    requires Opened(h, g, made) && r in g.rooms
    ensures Opened(h, Admit(g, r, c), made) && r in Admit(g, r, c).rooms
    ensures forall s :: Public(Admit(g, r, c), s) <==> Public(g, s)
  {
    hide Opened;
    AdmitOnly(g, r, c);
    OpenedThen(h, g, Admit(g, r, c), made);
  }

  lemma AdmitOnly(g: Hub, r: string, c: Client)
    requires r in g.rooms
    ensures Opened(g, Admit(g, r, c), None) && r in Admit(g, r, c).rooms
    ensures forall s :: Public(Admit(g, r, c), s) <==> Public(g, s)
  {
  }

  lemma StartOpens(h: Hub, e: Event)
    requires Enabled(h, e) && e.StartsDM?
    ensures Opened(h, Step(h, e), Made(h, e))
    ensures forall r :: Public(Step(h, e), r) <==> ToBePublic(h, e, r)
  {
    hide Pair, Admit, Opened, Public;
    if e.target in h.byId {
      var pair := Pair(e.c.id, h.byId[e.target].id);
      var g := if DmRooms(h, pair) == {} then SetRoom(h, e.room, NewRoom(e.channel).(dm := Some(pair))) else h;
      if DmRooms(h, pair) == {} { RoomOpens(h, e.room, e.channel, pair); }
      NothingOpens(h);
      AdmitOpens(h, g, e.room, e.c, Made(h, e));
      AdmitOpens(h, Admit(g, e.room, e.c), e.room, h.byId[e.target], Made(h, e));
    } else {
      NothingOpens(h);
    }
  }

  lemma RoomOpens(h: Hub, r: string, channel: string, pair: (string, string))
    requires r !in h.rooms
    ensures var t := SetRoom(h, r, NewRoom(channel).(dm := Some(pair)));
            Opened(h, t, Some((r, channel))) && forall s :: Public(t, s) <==> Public(h, s) || s == r
  {
  }

  lemma NothingOpens(h: Hub)
    ensures Opened(h, h, None)
  {
  }

  lemma RejoinOpens(h: Hub, c: Client, r: string)
    ensures Opened(h, JoinDM(h, c, r), None)
    ensures forall s :: Public(JoinDM(h, c, r), s) <==> Public(h, s)
  {
    hide May, Admit, Opened, Public;
    NothingOpens(h);
    if r in h.rooms { AdmitOpens(h, h, r, c, None); }
  }

  lemma ConnectOpens(h: Hub, c: Client)
    ensures Opened(h, Connect(h, c), None)
    ensures forall s :: Public(Connect(h, c), s) <==> Public(h, s)
  {
  }

  lemma FlagOpens(h: Hub, name: string, isPublic: bool, channel: string)
    ensures var g := GetOrCreate(h, name, channel);
            var t := SetRoom(g, name, g.rooms[name].(isPublic := isPublic));
            && name in g.rooms && Opened(h, t, if name in h.rooms then None else Some((name, channel)))
            && forall r :: Public(t, r) <==> if r == name then isPublic else Public(h, r)
  {
  }

  lemma OpenedThen(h: Hub, m: Hub, t: Hub, made: Option<(string, string)>)
    requires Opened(h, m, made) && Opened(m, t, None)
    ensures Opened(h, t, made)
  {
  }

  lemma CreateOpens(h: Hub, e: Event)
    requires e.CreatesRoom?
    ensures Opened(h, Step(h, e), Made(h, e))
    ensures forall r :: Public(Step(h, e), r) <==> ToBePublic(h, e, r)
  {
    hide JoinRoom, SetRoom, Opened, Public;
    var g := GetOrCreate(h, e.name, e.channel);
    FlagOpens(h, e.name, e.isPublic, e.channel);
    var flagged := SetRoom(g, e.name, g.rooms[e.name].(isPublic := e.isPublic));
    JoinOpens(flagged, e.c, e.name, e.channel);
    OpenedThen(h, flagged, JoinRoom(flagged, e.c, e.name, e.channel), Made(h, e));
  }

  lemma RoomRequestAsToBe(h: Hub, e: Event, d: Client, r: string, ch: string, x: string)
    requires Enabled(h, e) && (e.JoinsRoom? || e.CreatesRoom? || e.StartsDM? || e.JoinsDM? || e.Connected?)
    ensures AsToBe(h, e, Step(h, e), d, r, ch, x)
  {
    hide AsToBe, Opened, JoinRoom, CreateRoom, JoinDM, Connect, StartDM, Public;
    match e
    case JoinsRoom(c, name, channel) => JoinOpens(h, c, name, channel); OpenedAsToBe(h, e, Step(h, e), d, r, ch, x);
    case CreatesRoom(c, name, isPublic, channel) => CreateOpens(h, e); OpenedAsToBe(h, e, Step(h, e), d, r, ch, x);
    case StartsDM(c, target, room, channel) => StartOpens(h, e); OpenedAsToBe(h, e, Step(h, e), d, r, ch, x);
    case JoinsDM(c, room) => RejoinOpens(h, c, room); OpenedAsToBe(h, e, Step(h, e), d, r, ch, x);
    case Connected(c) => ConnectOpens(h, c); OpenedAsToBe(h, e, Step(h, e), d, r, ch, x);
  }

  // ---------- requests about channels ----------

  /** Setting one channel changes nothing else. */
  lemma ChannelSet(h: Hub, r: string, ch: string, v: Voice)
    requires r in h.rooms
    ensures var t := SetVoice(h, r, ch, v);
            && (forall d, s, k :: Speaking(t, d, s, k) <==> if s == r && k == ch then d in v.speaking else Speaking(h, d, s, k))
            && (forall s, k, x :: PeerSpeaking(t, s, k, x) <==> if s == r && k == ch then x in v.bleSpeaking else PeerSpeaking(h, s, k, x))
            && t.rooms.Keys == h.rooms.Keys
            && (forall s, k :: HasChannel(t, s, k) <==> HasChannel(h, s, k) || (s == r && k == ch))
            && (forall s :: Public(t, s) <==> Public(h, s))
            && (forall s, d :: PositionOf(t, s, d) == PositionOf(h, s, d))
            && forall s, x :: PeerPositionOf(t, s, x) == PeerPositionOf(h, s, x)
  {
  }

  lemma VoiceAsToBe(h: Hub, e: Event, d: Client, r: string, ch: string, x: string)
    requires HubInv(h) && Enabled(h, e) && (e.CreatesChannel? || e.JoinsVoice? || e.LeavesVoice?)
    ensures AsToBe(h, e, Step(h, e), d, r, ch, x)
  {
    hide HubInv, SetVoice, PositionOf, PeerPositionOf, Public;
    if InRoom(h, e.c, e.room) && e.CreatesChannel? {
      ChannelSet(h, e.room, e.channel, QUIET);
    } else if HasChannel(h, e.room, e.channel) {
      var v := h.rooms[e.room].voice[e.channel];
      assert VoiceOk(v, h.rooms[e.room].members) by { VoiceOf(h, e.room, e.channel); }
      ChannelSet(h, e.room, e.channel, v.(members := v.members + {e.c}));
      ChannelSet(h, e.room, e.channel, LeaveVoice(v, e.c));
    }
  }

  /** A request that sets the channel it is about, to whatever, leaves all else as it was. */
  lemma SetsChannel(h: Hub, e: Event)
    requires e.Speaks? || e.PeerJoinsVoice? || e.PeerLeavesVoice? || e.PeerSpeaks?
    ensures Step(h, e) == h
         || (HasChannel(h, e.room, e.channel) && HasChannel(Step(h, e), e.room, e.channel)
             && Step(h, e) == SetVoice(h, e.room, e.channel, Step(h, e).rooms[e.room].voice[e.channel]))
  {
  }

  lemma SpeaksAsToBe(h: Hub, e: Event, d: Client, r: string, ch: string, x: string)
    requires HubInv(h) && e.Speaks?
    ensures AsToBe(h, e, Step(h, e), d, r, ch, x)
  {
    hide HubInv, SetVoice, PositionOf, PeerPositionOf, Public;
    SetsChannel(h, e);
    if HasChannel(h, e.room, e.channel) && HasChannel(Step(h, e), e.room, e.channel) {
      VoiceOf(h, e.room, e.channel);
      ChannelSet(h, e.room, e.channel, Step(h, e).rooms[e.room].voice[e.channel]);
      assert e.c in h.rooms[e.room].voice[e.channel].members ==> InRoom(h, e.c, e.room);
      SpokenChannel(h, e);
    }
  }

  lemma SpokenChannel(h: Hub, e: Event)
    requires e.Speaks? && HasChannel(h, e.room, e.channel)
    ensures HasChannel(Step(h, e), e.room, e.channel)
    ensures var v, w := h.rooms[e.room].voice[e.channel], Step(h, e).rooms[e.room].voice[e.channel];
            w.bleSpeaking == v.bleSpeaking
            && forall d :: d in w.speaking <==> if d == e.c && InRoom(h, d, e.room) && d in v.members then e.on else d in v.speaking
  {
  }

  lemma PeerVoiceAsToBe(h: Hub, e: Event, d: Client, r: string, ch: string, x: string)
    requires HubInv(h) && (e.PeerJoinsVoice? || e.PeerLeavesVoice? || e.PeerSpeaks?)
    ensures AsToBe(h, e, Step(h, e), d, r, ch, x)
  {
    hide HubInv, SetVoice, PositionOf, PeerPositionOf, Public, JoinVoiceFor, LeaveVoiceFor, SpeakFor;
    SetsChannel(h, e);
    if HasChannel(h, e.room, e.channel) {
      VoiceOf(h, e.room, e.channel);
      PeerChannel(h, e);
      if HasChannel(Step(h, e), e.room, e.channel) {
        ChannelSet(h, e.room, e.channel, Step(h, e).rooms[e.room].voice[e.channel]);
      }
    }
  }

  lemma PeerChannel(h: Hub, e: Event)
    requires e.PeerJoinsVoice? || e.PeerLeavesVoice? || e.PeerSpeaks?
    requires HasChannel(h, e.room, e.channel) && VoiceOk(h.rooms[e.room].voice[e.channel], h.rooms[e.room].members)
    ensures HasChannel(Step(h, e), e.room, e.channel)
    ensures Step(h, e).rooms[e.room].voice[e.channel].speaking == h.rooms[e.room].voice[e.channel].speaking
    ensures forall x :: PeerSpeaking(Step(h, e), e.room, e.channel, x) <==> PeerToSpeak(h, e, e.room, e.channel, x)
  {
    hide JoinVoiceFor, LeaveVoiceFor, SpeakFor;
    match e
    case PeerJoinsVoice(c, r, ch, id) => PeerSeated(h, c, r, ch, id);
    case PeerLeavesVoice(c, r, ch, id) => PeerLeft(h, r, ch, id);
    case PeerSpeaks(c, r, ch, id, on) => PeerSpoke(h, c, r, ch, id, on);
  }

  lemma PeerSeated(h: Hub, c: Client, r: string, ch: string, id: string)
    requires HasChannel(h, r, ch)
    ensures var t := JoinVoiceFor(h, c, r, ch, id);
            HasChannel(t, r, ch) && t.rooms[r].voice[ch].speaking == h.rooms[r].voice[ch].speaking
            && t.rooms[r].voice[ch].bleSpeaking == h.rooms[r].voice[ch].bleSpeaking
  {
  }

  lemma PeerLeft(h: Hub, r: string, ch: string, id: string)
    requires HasChannel(h, r, ch) && VoiceOk(h.rooms[r].voice[ch], h.rooms[r].members)
    ensures var t := LeaveVoiceFor(h, r, ch, id);
            HasChannel(t, r, ch) && t.rooms[r].voice[ch].speaking == h.rooms[r].voice[ch].speaking
            && forall x :: x in t.rooms[r].voice[ch].bleSpeaking <==> x in h.rooms[r].voice[ch].bleSpeaking && x != id
  {
  }

  lemma PeerSpoke(h: Hub, c: Client, r: string, ch: string, id: string, on: bool)
    requires HasChannel(h, r, ch)
    ensures var t := SpeakFor(h, c, r, ch, id, on);
            HasChannel(t, r, ch) && t.rooms[r].voice[ch].speaking == h.rooms[r].voice[ch].speaking
            && forall x :: x in t.rooms[r].voice[ch].bleSpeaking <==>
                 if x == id && InRoom(h, c, r) && Sits(h, r, ch, x) then on else x in h.rooms[r].voice[ch].bleSpeaking
  {
  }

  // ---------- requests about peers and positions ----------

  /** Changing positions in one room changes nothing else. */
  lemma PlacesSet(h: Hub, r: string, room: Room)
    requires r in h.rooms && room.voice == h.rooms[r].voice && room.isPublic == h.rooms[r].isPublic
    ensures var t := SetRoom(h, r, room);
            && (forall d, s, k :: Speaking(t, d, s, k) <==> Speaking(h, d, s, k))
            && (forall s, k, x :: PeerSpeaking(t, s, k, x) <==> PeerSpeaking(h, s, k, x))
            && (forall s, k :: HasChannel(t, s, k) <==> HasChannel(h, s, k))
            && (forall s :: Public(t, s) <==> Public(h, s))
  {
  }

  lemma SendAsToBe(h: Hub, e: Event, d: Client, r: string, ch: string, x: string)
    requires e.SendsPosition?
    ensures AsToBe(h, e, Step(h, e), d, r, ch, x)
  {
    hide Speaking, PeerSpeaking, HasChannel, Public;
    if InRoom(h, e.c, e.room) { PlacesSet(h, e.room, h.rooms[e.room].(cot := h.rooms[e.room].cot[e.c := e.position])); }
  }

  lemma SendPeerAsToBe(h: Hub, e: Event, d: Client, r: string, ch: string, x: string)
    requires e.SendsPeerPosition?
    ensures AsToBe(h, e, Step(h, e), d, r, ch, x)
  {
    hide Speaking, PeerSpeaking, HasChannel, Public, PositionOf;
    if InRoom(h, e.c, e.room) && e.sender != "" {
      PlacesSet(h, e.room, Step(h, e).rooms[e.room]);
      PlacesStay(h, e.room, Step(h, e).rooms[e.room], r, d);
    }
  }

  lemma PlacesStay(h: Hub, r: string, room: Room, s: string, d: Client)
    requires r in h.rooms && room.cot == h.rooms[r].cot
    ensures PositionOf(SetRoom(h, r, room), s, d) == PositionOf(h, s, d)
  {
  }

  lemma UnregisterAsToBe(h: Hub, e: Event, d: Client, r: string, ch: string, x: string)
    requires MirrorInv(h) && e.UnregistersPeer?
    ensures AsToBe(h, e, Step(h, e), d, r, ch, x)
  {
    assert r in RoomsOf(h, e.c) <==> InRoom(h, e.c, r);
  }

  lemma DisconnectAsToBe(h: Hub, e: Event, d: Client, r: string, ch: string, x: string)
    requires HubInv(h) && e.Disconnected? && e.c in h.clients
    ensures AsToBe(h, e, Step(h, e), d, r, ch, x)
  {
    hide HubInv, RoomAfter, OwnedBy;
    if r in h.rooms {
      RoomTornDown(h, e.c, r);
      if ch in h.rooms[r].voice {
        assert VoiceStays(h.rooms[r].voice[ch], Disconnect(h, e.c).rooms[r].voice[ch], e.c, OwnedBy(h, e.c));
      }
    }
  }

  /** The position the new id ends up with: one of an old id's, if there is any, or its own. */
  ghost predicate TakenOn(before: map<string, Contact>, after: map<string, Contact>, formers: seq<string>, id: string)
  {
    if exists o :: o in formers && o in before
    then id in after && exists o :: o in formers && o in before && after[id].position == before[o].position
    else (id in after <==> id in before) && (id in before ==> after[id] == before[id])
  }

  lemma {:induction false} PositionsTakenOn(room: Room, formers: seq<string>, peer: BlePeer)
    requires "" !in formers && peer.peerId !in formers
    ensures TakenOn(room.bleCot, PromoteEach(room, formers, peer).bleCot, formers, peer.peerId)
    decreases |formers|
  {
    hide PromoteVoice;
    if formers != [] {
      var next := Promote(room, formers[0], peer);
      assert formers == [formers[0]] + formers[1..];
      PositionsTakenOn(next, formers[1..], peer);
      TakenOnFirst(room.bleCot, next.bleCot, PromoteEach(room, formers, peer).bleCot, formers, peer.peerId);
    }
  }

  lemma TakenOnFirst(a: map<string, Contact>, b: map<string, Contact>, c: map<string, Contact>, formers: seq<string>, id: string)
    requires formers != [] && id !in formers && b == PromoteCot(a, formers[0], id) && TakenOn(b, c, formers[1..], id)
    ensures TakenOn(a, c, formers, id)
  {
    var first, rest := formers[0], formers[1..];
    assert forall o :: o in formers <==> o == first || o in rest;
    assert forall o :: o in rest && o in a && o != first ==> o in b;
    if o :| o in rest && o in b {
      assert o in a && b[o] == a[o] && o in formers;
      var q :| q in rest && q in b && c[id].position == b[q].position;
      assert q in a && b[q] == a[q];
    } else if first in a {
      assert c[id].position == a[first].position;
    }
  }

  lemma RegisterAsToBe(h: Hub, e: Event, d: Client, r: string, ch: string, x: string)
    requires HubInv(h) && Enabled(h, e) && e.RegistersPeer?
    ensures AsToBe(h, e, Step(h, e), d, r, ch, x)
  {
    hide HubInv, RegisterPeer, Enabled, Speaking, PeerSpeaking, HasChannel, Public, PositionOf, PeerPositionOf, PeerPositionToBe;
    RegisterVoices(h, e, d, r, ch, x);
    RegisterPlaces(h, e, d, r, ch, x);
  }

  lemma RegisterVoices(h: Hub, e: Event, d: Client, r: string, ch: string, x: string)
    requires HubInv(h) && Enabled(h, e) && e.RegistersPeer?
    ensures var t := RegisterPeer(h, e.c, e.id, e.order);
            && (Speaking(t, d, r, ch) <==> Speaking(h, d, r, ch))
            && (PeerSpeaking(t, r, ch, x) <==> PeerToSpeak(h, e, r, ch, x))
            && (HasChannel(t, r, ch) <==> HasChannel(h, r, ch))
  {
    hide HubInv, RegisterPeer, RoomOk, Enabled;
    PromotionConserves(h, e.c, e.id, e.order);
    var t := RegisterPeer(h, e.c, e.id, e.order);
    if InRoom(h, e.c, r) {
      assert SameFrame(h.rooms[r], t.rooms[r]);
      if HasChannel(h, r, ch) {
        assert VoiceMoved(h.rooms[r].voice[ch], t.rooms[r].voice[ch], e.order, BlePeer(e.id, e.c));
      }
    }
  }

  lemma RegisterPlaces(h: Hub, e: Event, d: Client, r: string, ch: string, x: string)
    requires HubInv(h) && Enabled(h, e) && e.RegistersPeer?
    ensures var t := RegisterPeer(h, e.c, e.id, e.order);
            && (r in t.rooms <==> r in h.rooms)
            && (Public(t, r) <==> Public(h, r))
            && PositionOf(t, r, d) == PositionOf(h, r, d)
            && PeerPositionToBe(h, e, r, x, PeerPositionOf(t, r, x))
  {
    hide HubInv, RegisterPeer, RoomOk, Enabled, VoiceMoved;
    PromotionConserves(h, e.c, e.id, e.order);
    var t := RegisterPeer(h, e.c, e.id, e.order);
    if InRoom(h, e.c, r) {
      PeerPositionMoved(h, e, r, x);
      assert SameFrame(h.rooms[r], t.rooms[r]);
    }
  }

  lemma PeerPositionMoved(h: Hub, e: Event, r: string, x: string)
    requires HubInv(h) && Enabled(h, e) && e.RegistersPeer? && InRoom(h, e.c, r)
    ensures PeerPositionToBe(h, e, r, x, PeerPositionOf(RegisterPeer(h, e.c, e.id, e.order), r, x))
  {
    hide HubInv, RoomOk, VoiceMoved, PromoteEach, Enabled, RegisterPeer, InRoom;
    var t, peer := RegisterPeer(h, e.c, e.id, e.order), BlePeer(e.id, e.c);
    PromotionConserves(h, e.c, e.id, e.order);
    Parts(h);
    NotStale(h, e.c, e.id, e.order);
    PromotedRoom(h, e, r);
    PositionsTakenOn(h.rooms[r], e.order, peer);
    PositionMoved(h, e, t, r, x);
  }

  lemma PositionMoved(h: Hub, e: Event, t: Hub, r: string, x: string)
    requires e.RegistersPeer? && InRoom(h, e.c, r) && r in t.rooms && e.id !in e.order
    requires var a, b := h.rooms[r].bleCot, t.rooms[r].bleCot;
             TakenOn(a, b, e.order, e.id) && Moved(a.Keys, b.Keys, e.order, e.id) && forall y :: y in b && y != e.id ==> b[y] == a[y]
    ensures PeerPositionToBe(h, e, r, x, PeerPositionOf(t, r, x))
  {
    var a, b := h.rooms[r].bleCot, t.rooms[r].bleCot;
    assert forall o :: PeerPositionOf(h, r, o).Some? <==> o in a;
    if o :| o in e.order && PeerPositionOf(h, r, o).Some? {
      assert o in a;
      var q :| q in e.order && q in a && b[e.id].position == a[q].position;
      assert PeerPositionOf(h, r, q) == Some(a[q].position);
    }
  }

  /** Every request leaves each of these exactly as it is to be, for everybody in every room. */
  lemma WhatElse(h: Hub, e: Event, d: Client, r: string, ch: string, x: string)
    requires HubInv(h) && Enabled(h, e)
    ensures AsToBe(h, e, Step(h, e), d, r, ch, x)
  {
    hide AsToBe, Step, Enabled, HubInv;
    if e.CreatesChannel? || e.JoinsVoice? || e.LeavesVoice? {
      VoiceAsToBe(h, e, d, r, ch, x);
    } else if e.Speaks? {
      SpeaksAsToBe(h, e, d, r, ch, x);
    } else if e.PeerJoinsVoice? || e.PeerLeavesVoice? || e.PeerSpeaks? {
      PeerVoiceAsToBe(h, e, d, r, ch, x);
    } else if e.SendsPosition? {
      SendAsToBe(h, e, d, r, ch, x);
    } else if e.SendsPeerPosition? {
      SendPeerAsToBe(h, e, d, r, ch, x);
    } else if e.RegistersPeer? {
      RegisterAsToBe(h, e, d, r, ch, x);
    } else if e.UnregistersPeer? {
      Parts(h);
      UnregisterAsToBe(h, e, d, r, ch, x);
    } else if e.Disconnected? {
      assert e.c in h.clients by { Connecting(h, e); }
      DisconnectAsToBe(h, e, d, r, ch, x);
    } else {
      RoomRequestAsToBe(h, e, d, r, ch, x);
    }
  }

  lemma Connecting(h: Hub, e: Event)
    requires Enabled(h, e) && !e.Connected?
    ensures e.c in h.clients
  {
  }

  lemma ConnectedAfter(h: Hub, e: Event, d: Client)
    requires Enabled(h, e)
    ensures d in Step(h, e).clients <==> ToBeConnected(h, e, d)
  {
    hide Less, PromoteEach, ForgetPeer, RoomAfter, RoomsOf, OwnedBy;
  }

  lemma StartedDm(h: Hub, e: Event, r: string)
    requires Enabled(h, e) && e.StartsDM?
    ensures DmOf(Step(h, e), r) == DmToBe(h, e, r)
  {
    hide Less, RoomsOf, AddMember;
    if e.target in h.byId {
      var pair, other := Pair(e.c.id, h.byId[e.target].id), h.byId[e.target];
      var g := if DmRooms(h, pair) == {} then SetRoom(h, e.room, NewRoom(e.channel).(dm := Some(pair))) else h;
      AdmittedDm(g, e.room, e.c, r);
      AdmittedDm(Admit(g, e.room, e.c), e.room, other, r);
    }
  }

  lemma AdmittedDm(h: Hub, room: string, c: Client, r: string)
    requires room in h.rooms
    ensures room in Admit(h, room, c).rooms && DmOf(Admit(h, room, c), r) == DmOf(h, r)
  {
  }

  /** Only starting a conversation makes one. */
  lemma DmAfter(h: Hub, e: Event, r: string)
    requires HubInv(h) && Enabled(h, e)
    ensures DmOf(Step(h, e), r) == DmToBe(h, e, r)
  {
    hide HubInv, DmOf, StartDM, RegisterPeer, Disconnect, UnregisterPeer, CreateRoom, JoinRoom, JoinDM, Connect, Enabled;
    match e
    case StartsDM(c, target, room, channel) => StartedDm(h, e, r);
    case RegistersPeer(c, id, order) => RegisteredDm(h, c, id, order, r);
    case UnregistersPeer(c, id) => UnregisteredDm(h, c, id, r);
    case Disconnected(c) => DisconnectedDm(h, c, r);
    case JoinsRoom(c, name, channel) => JoinedDm(h, c, name, channel, r);
    case CreatesRoom(c, name, isPublic, channel) => CreatedDm(h, c, name, isPublic, channel, r);
    case JoinsDM(c, room) => RejoinedDm(h, c, room, r);
    case _ => OtherDm(h, e, r);
  }

  lemma OtherDm(h: Hub, e: Event, r: string)
    requires e.Connected? || e.CreatesChannel? || e.JoinsVoice? || e.LeavesVoice? || e.Speaks? || e.PeerJoinsVoice?
             || e.PeerLeavesVoice? || e.PeerSpeaks? || e.SendsPosition? || e.SendsPeerPosition?
    ensures DmOf(Step(h, e), r) == DmOf(h, r)
  {
    hide LeaveBle, LeaveVoice, SetVoice;
    if e.PeerJoinsVoice? || e.PeerLeavesVoice? || e.PeerSpeaks? || e.CreatesChannel? || e.JoinsVoice? || e.LeavesVoice? || e.Speaks? {
      if e.room in h.rooms {
        forall v ensures DmOf(SetVoice(h, e.room, e.channel, v), r) == DmOf(h, r) { VoiceSetDm(h, e.room, e.channel, v, r); }
      }
    }
  }

  lemma VoiceSetDm(h: Hub, room: string, ch: string, v: Voice, r: string)
    requires room in h.rooms
    ensures DmOf(SetVoice(h, room, ch, v), r) == DmOf(h, r)
  {
  }

  lemma CreatedDm(h: Hub, c: Client, name: string, isPublic: bool, channel: string, r: string)
    ensures DmOf(CreateRoom(h, c, name, isPublic, channel), r) == DmOf(h, r)
  {
    hide JoinRoom;
    var g := GetOrCreate(h, name, channel);
    JoinedDm(SetRoom(g, name, g.rooms[name].(isPublic := isPublic)), c, name, channel, r);
  }

  lemma JoinedDm(h: Hub, c: Client, name: string, channel: string, r: string)
    ensures DmOf(JoinRoom(h, c, name, channel), r) == DmOf(h, r)
  {
    hide May, RoomsOf;
  }

  lemma RejoinedDm(h: Hub, c: Client, room: string, r: string)
    ensures DmOf(JoinDM(h, c, room), r) == DmOf(h, r)
  {
    hide May, RoomsOf;
  }

  lemma UnregisteredDm(h: Hub, c: Client, id: string, r: string)
    ensures DmOf(UnregisterPeer(h, c, id), r) == DmOf(h, r)
  {
    hide RoomsOf;
  }

  lemma DisconnectedDm(h: Hub, c: Client, r: string)
    requires HubInv(h)
    ensures DmOf(Disconnect(h, c), r) == DmOf(h, r)
  {
    hide HubInv, RoomsOf, RoomAfter;
    if r in h.rooms { RoomTornDown(h, c, r); }
  }

  lemma RegisteredDm(h: Hub, c: Client, id: string, order: seq<string>, r: string)
    requires HubInv(h) && Enabled(h, RegistersPeer(c, id, order))
    ensures DmOf(RegisterPeer(h, c, id, order), r) == DmOf(h, r)
  {
    hide HubInv, RegisterPeer, RoomOk, Enabled;
    PromotionConserves(h, c, id, order);
    if InRoom(h, c, r) { assert SameFrame(h.rooms[r], RegisterPeer(h, c, id, order).rooms[r]); }
  }

  // ---------- who is seated, and behind which relay ----------

  ghost function SeatOf(h: Hub, r: string, ch: string, x: string): Option<BlePeer>
  {
    if Sits(h, r, ch, x) then Some(h.rooms[r].voice[ch].bleMembers[x]) else None
  }

  /** The seat is taken under the relay that asked for it; a promotion brings the new id's seat under the
      relay that registers it, if an old id was seated. */
  ghost function SeatToBe(h: Hub, e: Event, r: string, ch: string, x: string): Option<BlePeer>
  {
    match e
    case PeerJoinsVoice(c, room, channel, id) =>
      if x == id && r == room && ch == channel && InRoom(h, c, r) && HasChannel(h, r, ch) && Resolves(h, c, id)
      then Some(BlePeer(id, c)) else SeatOf(h, r, ch, x)
    case PeerLeavesVoice(_, room, channel, id) => if x == id && r == room && ch == channel then None else SeatOf(h, r, ch, x)
    case RegistersPeer(c, id, order) =>
      if !InRoom(h, c, r) then SeatOf(h, r, ch, x)
      else if x in order then None
      else if x == id && exists o :: o in order && Sits(h, r, ch, o) then Some(BlePeer(id, c))
      else SeatOf(h, r, ch, x)
    case UnregistersPeer(c, id) => if x == id && Resolves(h, c, id) && InRoom(h, c, r) then None else SeatOf(h, r, ch, x)
    case Disconnected(c) => if x in OwnedBy(h, c) then None else SeatOf(h, r, ch, x)
    case _ => SeatOf(h, r, ch, x)
  }

  /** Some old id was seated: the new one is, as the peer registered. */
  ghost predicate SeatTaken(v: Voice, t: Voice, formers: seq<string>, peer: BlePeer)
  {
    var id := peer.peerId;
    if exists o :: o in formers && o in v.bleMembers then id in t.bleMembers && t.bleMembers[id] == peer
    else (id in t.bleMembers <==> id in v.bleMembers) && (id in v.bleMembers ==> t.bleMembers[id] == v.bleMembers[id])
  }

  lemma {:induction false} SeatsTaken(room: Room, formers: seq<string>, peer: BlePeer, ch: string)
    requires "" !in formers && peer.peerId !in formers && ch in room.voice
    ensures var t := PromoteEach(room, formers, peer); ch in t.voice && SeatTaken(room.voice[ch], t.voice[ch], formers, peer)
    decreases |formers|
  {
    hide PromoteCot;
    if formers != [] {
      var next := Promote(room, formers[0], peer);
      assert formers == [formers[0]] + formers[1..];
      SeatsTaken(next, formers[1..], peer, ch);
      SeatTakenFirst(room.voice[ch], next.voice[ch], PromoteEach(room, formers, peer).voice[ch], formers, peer);
    }
  }

  lemma SeatTakenFirst(u: Voice, v: Voice, w: Voice, formers: seq<string>, peer: BlePeer)
    requires formers != [] && peer.peerId !in formers
    requires v == PromoteVoice(u, formers[0], peer) && SeatTaken(v, w, formers[1..], peer)
    ensures SeatTaken(u, w, formers, peer)
  {
    var first, rest := formers[0], formers[1..];
    assert forall o :: o in formers <==> o == first || o in rest;
    assert forall o :: o in rest && o != first ==> (o in u.bleMembers <==> o in v.bleMembers);
    assert forall o :: o in v.bleMembers && o != peer.peerId ==> o in u.bleMembers;
  }

  lemma RegisteredSeat(h: Hub, e: Event, r: string, ch: string, x: string)
    requires HubInv(h) && Enabled(h, e) && e.RegistersPeer?
    ensures SeatOf(Step(h, e), r, ch, x) == SeatToBe(h, e, r, ch, x)
  {
    hide HubInv, RoomOk, RegisterPeer, Enabled, PromoteEach, SeatTaken, RoomMoved, SeatOf;
    PromotionConserves(h, e.c, e.id, e.order);
    Parts(h);
    NotStale(h, e.c, e.id, e.order);
    var t, peer := RegisterPeer(h, e.c, e.id, e.order), BlePeer(e.id, e.c);
    if InRoom(h, e.c, r) {
      PromotedRoom(h, e, r);
      if HasChannel(h, r, ch) { SeatsTaken(h.rooms[r], e.order, peer, ch); }
      SeatMoved(h, e, t, r, ch, x);
    } else {
      SeatKept(h, t, r, ch, x);
    }
  }

  lemma SeatKept(h: Hub, t: Hub, r: string, ch: string, x: string)
    requires t.rooms.Keys == h.rooms.Keys && (r in h.rooms ==> t.rooms[r] == h.rooms[r])
    ensures SeatOf(t, r, ch, x) == SeatOf(h, r, ch, x)
  {
  }

  lemma ChannelSeatMoved(v: Voice, w: Voice, order: seq<string>, peer: BlePeer, x: string)
    requires peer.peerId !in order && VoiceMoved(v, w, order, peer) && SeatTaken(v, w, order, peer)
    ensures if x in order then x !in w.bleMembers
            else if x == peer.peerId && exists o :: o in order && o in v.bleMembers then x in w.bleMembers && w.bleMembers[x] == peer
            else (x in w.bleMembers <==> x in v.bleMembers) && (x in v.bleMembers ==> w.bleMembers[x] == v.bleMembers[x])
  {
  }

  lemma SeatMoved(h: Hub, e: Event, t: Hub, r: string, ch: string, x: string)
    requires e.RegistersPeer? && InRoom(h, e.c, r) && r in t.rooms && e.id !in e.order
    requires RoomMoved(h.rooms[r], t.rooms[r], e.order, BlePeer(e.id, e.c))
    requires HasChannel(h, r, ch) ==> ch in t.rooms[r].voice && SeatTaken(h.rooms[r].voice[ch], t.rooms[r].voice[ch], e.order, BlePeer(e.id, e.c))
    ensures SeatOf(t, r, ch, x) == SeatToBe(h, e, r, ch, x)
  {
    hide VoiceMoved, SeatTaken, Moved, CameFrom;
    if HasChannel(h, r, ch) {
      var v, w := h.rooms[r].voice[ch], t.rooms[r].voice[ch];
      ChannelSeatMoved(v, w, e.order, BlePeer(e.id, e.c), x);
      assert forall o :: Sits(h, r, ch, o) <==> o in v.bleMembers;
    }
  }

  lemma PromotedRoom(h: Hub, e: Event, r: string)
    requires MirrorInv(h) && e.RegistersPeer? && InRoom(h, e.c, r)
    ensures var t := RegisterPeer(h, e.c, e.id, e.order);
            r in h.rooms && r in t.rooms && t.rooms[r] == PromoteEach(h.rooms[r], e.order, BlePeer(e.id, e.c))
  {
    hide PromoteEach;
    assert r in RoomsOf(h, e.c) <==> InRoom(h, e.c, r);
  }

  lemma SeatSet(h: Hub, r: string, ch: string, v: Voice)
    requires r in h.rooms
    ensures forall s, k, x ::
              (SeatOf(SetVoice(h, r, ch, v), s, k, x)
               == if s == r && k == ch then (if x in v.bleMembers then Some(v.bleMembers[x]) else None) else SeatOf(h, s, k, x))
  {
  }

  lemma OpenedSeats(h: Hub, t: Hub, made: Option<(string, string)>, r: string, ch: string, x: string)
    requires Opened(h, t, made)
    ensures SeatOf(t, r, ch, x) == SeatOf(h, r, ch, x)
  {
  }

  lemma RoomRequestSeat(h: Hub, e: Event, r: string, ch: string, x: string)
    requires Enabled(h, e) && (e.JoinsRoom? || e.CreatesRoom? || e.StartsDM? || e.JoinsDM? || e.Connected?)
    ensures SeatOf(Step(h, e), r, ch, x) == SeatOf(h, r, ch, x)
  {
    hide Opened, JoinRoom, CreateRoom, JoinDM, Connect, StartDM, SeatOf, Public;
    match e
    case JoinsRoom(c, name, channel) => JoinOpens(h, c, name, channel); OpenedSeats(h, Step(h, e), Made(h, e), r, ch, x);
    case CreatesRoom(c, name, isPublic, channel) => CreateOpens(h, e); OpenedSeats(h, Step(h, e), Made(h, e), r, ch, x);
    case StartsDM(c, target, room, channel) => StartOpens(h, e); OpenedSeats(h, Step(h, e), Made(h, e), r, ch, x);
    case JoinsDM(c, room) => RejoinOpens(h, c, room); OpenedSeats(h, Step(h, e), None, r, ch, x);
    case Connected(c) => ConnectOpens(h, c); OpenedSeats(h, Step(h, e), None, r, ch, x);
  }

  lemma VoiceSeat(h: Hub, e: Event, r: string, ch: string, x: string)
    requires Enabled(h, e) && (e.CreatesChannel? || e.JoinsVoice? || e.LeavesVoice? || e.Speaks?)
    ensures SeatOf(Step(h, e), r, ch, x) == SeatOf(h, r, ch, x)
  {
    hide SetVoice;
    if InRoom(h, e.c, e.room) && e.CreatesChannel? {
      SeatSet(h, e.room, e.channel, QUIET);
    } else if e.Speaks? {
      SpokenSeat(h, e, r, ch, x);
    } else if HasChannel(h, e.room, e.channel) {
      var v := h.rooms[e.room].voice[e.channel];
      SeatSet(h, e.room, e.channel, v.(members := v.members + {e.c}));
      SeatSet(h, e.room, e.channel, LeaveVoice(v, e.c));
    }
  }

  lemma SpokenSeat(h: Hub, e: Event, r: string, ch: string, x: string)
    requires e.Speaks?
    ensures SeatOf(Step(h, e), r, ch, x) == SeatOf(h, r, ch, x)
  {
  }

  lemma PeerVoiceSeat(h: Hub, e: Event, r: string, ch: string, x: string)
    requires HubInv(h) && (e.PeerJoinsVoice? || e.PeerLeavesVoice? || e.PeerSpeaks?)
    ensures SeatOf(Step(h, e), r, ch, x) == SeatToBe(h, e, r, ch, x)
  {
    hide HubInv;
    Parts(h);
    match e
    case PeerJoinsVoice(c, room, channel, id) => PeerSeat(h, c, room, channel, id, r, ch, x);
    case PeerLeavesVoice(c, room, channel, id) => LeftSeat(h, room, channel, id, r, ch, x);
    case PeerSpeaks(c, room, channel, id, on) => SpokeSeat(h, c, room, channel, id, on, r, ch, x);
  }

  lemma PeerSeat(h: Hub, c: Client, room: string, channel: string, id: string, r: string, ch: string, x: string)
    requires PeersInv(h)
    ensures SeatOf(JoinVoiceFor(h, c, room, channel, id), r, ch, x)
         == if x == id && r == room && ch == channel && InRoom(h, c, r) && HasChannel(h, r, ch) && Resolves(h, c, id)
            then Some(BlePeer(id, c)) else SeatOf(h, r, ch, x)
  {
    assert Resolves(h, c, id) ==> h.peers[id] == BlePeer(id, c);
  }

  lemma LeftSeat(h: Hub, room: string, channel: string, id: string, r: string, ch: string, x: string)
    ensures SeatOf(LeaveVoiceFor(h, room, channel, id), r, ch, x)
         == if x == id && r == room && ch == channel then None else SeatOf(h, r, ch, x)
  {
  }

  lemma SpokeSeat(h: Hub, c: Client, room: string, channel: string, id: string, on: bool, r: string, ch: string, x: string)
    ensures SeatOf(SpeakFor(h, c, room, channel, id, on), r, ch, x) == SeatOf(h, r, ch, x)
  {
  }

  lemma PositionSeat(h: Hub, e: Event, r: string, ch: string, x: string)
    requires e.SendsPosition? || e.SendsPeerPosition?
    ensures SeatOf(Step(h, e), r, ch, x) == SeatOf(h, r, ch, x)
  {
  }

  lemma UnregisteredSeat(h: Hub, c: Client, id: string, r: string, ch: string, x: string)
    requires MirrorInv(h)
    ensures SeatOf(UnregisterPeer(h, c, id), r, ch, x) == if x == id && Resolves(h, c, id) && InRoom(h, c, r) then None else SeatOf(h, r, ch, x)
  {
    assert r in RoomsOf(h, c) <==> InRoom(h, c, r);
  }

  lemma DisconnectedSeat(h: Hub, c: Client, r: string, ch: string, x: string)
    requires HubInv(h)
    ensures SeatOf(Disconnect(h, c), r, ch, x) == if x in OwnedBy(h, c) then None else SeatOf(h, r, ch, x)
  {
    hide HubInv, RoomAfter, OwnedBy;
    if r in h.rooms {
      RoomTornDown(h, c, r);
      if ch in h.rooms[r].voice {
        assert VoiceStays(h.rooms[r].voice[ch], Disconnect(h, c).rooms[r].voice[ch], c, OwnedBy(h, c));
      }
    }
  }

  /** Every request leaves every seat as it is to be, and behind that relay. */
  lemma SeatAfter(h: Hub, e: Event, r: string, ch: string, x: string)
    requires HubInv(h) && Enabled(h, e)
    ensures SeatOf(Step(h, e), r, ch, x) == SeatToBe(h, e, r, ch, x)
  {
    hide Step, Enabled, HubInv, SeatOf, OwnedBy;
    if e.CreatesChannel? || e.JoinsVoice? || e.LeavesVoice? || e.Speaks? {
      VoiceSeat(h, e, r, ch, x);
    } else if e.PeerJoinsVoice? || e.PeerLeavesVoice? || e.PeerSpeaks? {
      PeerVoiceSeat(h, e, r, ch, x);
    } else if e.SendsPosition? || e.SendsPeerPosition? {
      PositionSeat(h, e, r, ch, x);
    } else if e.RegistersPeer? {
      RegisteredSeat(h, e, r, ch, x);
    } else if e.UnregistersPeer? {
      StepIs(h, e);
      Parts(h);
      UnregisteredSeat(h, e.c, e.id, r, ch, x);
    } else if e.Disconnected? {
      StepIs(h, e);
      DisconnectedSeat(h, e.c, r, ch, x);
    } else {
      RoomRequestSeat(h, e, r, ch, x);
    }
  }

  lemma StepIs(h: Hub, e: Event)
    ensures e.UnregistersPeer? ==> Step(h, e) == UnregisterPeer(h, e.c, e.id)
    ensures e.Disconnected? ==> Step(h, e) == Disconnect(h, e.c)
  {
  }
}
