/** The server's hub (hub.go) as a state machine: one step per request, with the locks of the Go
    methods taken as held throughout. Rooms are known by their names, since the room hash is
    injective; ids of new direct-message rooms and voice channels are fresh. */
module HubState {
  import opened Basics
  import opened HubRoom

  datatype Hub = Hub(
    clients: set<Client>, byId: map<string, Client>, peers: map<string, BlePeer>,
    rooms: map<string, Room>, joined: map<Client, set<string>>)

  const EMPTY_HUB := Hub({}, map[], map[], map[], map[])

  /** A client's own set of rooms. */
  function RoomsOf(h: Hub, c: Client): set<string>
  {
    if c in h.joined then h.joined[c] else {}
  }

  // ---------- ids as the Go code orders them ----------

  predicate Less(a: string, b: string)
    decreases |a|
  {
    b != [] && (a == [] || a[0] < b[0] || (a[0] == b[0] && Less(a[1..], b[1..])))
  }

  lemma {:induction false} LessIsTotal(a: string, b: string)
    ensures !(Less(a, b) && Less(b, a))
    ensures a != b ==> Less(a, b) || Less(b, a)
    decreases |a|
  {
    if a != [] && b != [] && a[0] == b[0] {
      LessIsTotal(a[1..], b[1..]);
      assert a == [a[0]] + a[1..] && b == [b[0]] + b[1..];
    }
  }

  /** The order of Go strings: a proper prefix comes first, else the first difference decides. */
  lemma {:induction false} LessExactly(a: string, b: string)
    ensures Less(a, b) <==> exists i: nat :: i <= |a| && i < |b| && a[..i] == b[..i] && (i == |a| || a[i] < b[i])
    decreases |a|
  {
    if a == [] || b == [] || a[0] != b[0] {
      if b != [] && Less(a, b) { assert a[..0] == b[..0]; }
      assert forall i :: 0 < i <= |a| ==> a[..i][0] == a[0];
      assert forall i :: 0 < i <= |b| ==> b[..i][0] == b[0];
    } else {
      LessExactly(a[1..], b[1..]);
      if i: nat :| i <= |a[1..]| && i < |b[1..]| && a[1..][..i] == b[1..][..i] && (i == |a[1..]| || a[1..][i] < b[1..][i]) {
        assert a[..i + 1] == [a[0]] + a[1..][..i] && b[..i + 1] == [b[0]] + b[1..][..i];
        assert i + 1 == |a| || a[i + 1] < b[i + 1];
      }
      if i: nat :| i <= |a| && i < |b| && a[..i] == b[..i] && (i == |a| || a[i] < b[i]) {
        assert i > 0;
        assert a[1..][..i - 1] == a[..i][1..] && b[1..][..i - 1] == b[..i][1..];
        assert i - 1 == |a[1..]| || a[1..][i - 1] < b[1..][i - 1];
      }
    }
  }

  /** The two participants of a direct conversation, in the order both sides agree on. */
  function Pair(a: string, b: string): (string, string)
  {
    if Less(a, b) then (a, b) else (b, a)
  }

  lemma PairIsUnordered(a: string, b: string, c: string, d: string)
    ensures Pair(a, b) == Pair(c, d) <==> {a, b} == {c, d}
  {
    hide Less;
    LessIsTotal(a, b);
    LessIsTotal(c, d);
    assert a in {a, b} && b in {a, b} && c in {c, d} && d in {c, d};
  }

  // ---------- steps ----------

  function SetRoom(h: Hub, r: string, room: Room): Hub
  {
    h.(rooms := h.rooms[r := room])
  }

  function AddMember(h: Hub, r: string, c: Client): Hub
    requires r in h.rooms
  {
    h.(rooms := h.rooms[r := h.rooms[r].(members := h.rooms[r].members + {c})],
       joined := h.joined[c := RoomsOf(h, c) + {r}])
  }

  function Admit(h: Hub, r: string, c: Client): Hub
    requires r in h.rooms
  {
    if c in h.rooms[r].members then h else AddMember(h, r, c)
  }

  function GetOrCreate(h: Hub, name: string, channel: string): Hub
  {
    if name in h.rooms then h else SetRoom(h, name, NewRoom(channel))
  }

  predicate May(room: Room, c: Client)
  {
    room.dm.None? || c.id == room.dm.value.0 || c.id == room.dm.value.1
  }

  function JoinRoom(h: Hub, c: Client, name: string, channel: string): Hub
  {
    var g := GetOrCreate(h, name, channel);
    if May(g.rooms[name], c) then AddMember(g, name, c) else g
  }

  /** The "create_room" request: the flag is set even when the room was there before. */
  function CreateRoom(h: Hub, c: Client, name: string, isPublic: bool, channel: string): Hub
  {
    var g := GetOrCreate(h, name, channel);
    JoinRoom(SetRoom(g, name, g.rooms[name].(isPublic := isPublic)), c, name, channel)
  }

  function DmRooms(h: Hub, pair: (string, string)): set<string>
  {
    set r | r in h.rooms && h.rooms[r].dm == Some(pair)
  }

  /** `r` is the conversation found, or the fresh name of the one created. */
  function StartDM(h: Hub, c: Client, target: string, r: string, channel: string): Hub
    requires target in h.byId ==>
               r in DmRooms(h, Pair(c.id, h.byId[target].id)) || DmRooms(h, Pair(c.id, h.byId[target].id)) == {}
  {
    if target !in h.byId then h else
    var pair := Pair(c.id, h.byId[target].id);
    var g := if DmRooms(h, pair) == {} then SetRoom(h, r, NewRoom(channel).(dm := Some(pair))) else h;
    Admit(Admit(g, r, c), r, h.byId[target])
  }

  function JoinDM(h: Hub, c: Client, r: string): Hub
  {
    if r in h.rooms && h.rooms[r].dm.Some? && May(h.rooms[r], c) then Admit(h, r, c) else h
  }

  predicate InRoom(h: Hub, c: Client, r: string)
  {
    r in h.rooms && c in h.rooms[r].members
  }

  predicate HasChannel(h: Hub, r: string, ch: string)
  {
    r in h.rooms && ch in h.rooms[r].voice
  }

  function SetVoice(h: Hub, r: string, ch: string, v: Voice): Hub
    requires r in h.rooms
  {
    SetRoom(h, r, h.rooms[r].(voice := h.rooms[r].voice[ch := v]))
  }

  function JoinVoice(h: Hub, c: Client, r: string, ch: string): Hub
  {
    if InRoom(h, c, r) && HasChannel(h, r, ch) then
      var v := h.rooms[r].voice[ch];
      SetVoice(h, r, ch, v.(members := v.members + {c}))
    else h
  }

  function LeaveVoiceChannel(h: Hub, c: Client, r: string, ch: string): Hub
  {
    if HasChannel(h, r, ch) && c in h.rooms[r].voice[ch].members then
      SetVoice(h, r, ch, LeaveVoice(h.rooms[r].voice[ch], c))
    else h
  }

  function Speak(h: Hub, c: Client, r: string, ch: string, on: bool): Hub
  {
    if InRoom(h, c, r) && HasChannel(h, r, ch) && c in h.rooms[r].voice[ch].members then
      var v := h.rooms[r].voice[ch];
      SetVoice(h, r, ch, v.(speaking := if on then v.speaking + {c} else v.speaking - {c}))
    else h
  }

  /** A member of the room and the channel speaks afterwards exactly if it said so. */
  lemma SaysSo(h: Hub, c: Client, r: string, ch: string, on: bool)
    ensures var t := Speak(h, c, r, ch, on);
            InRoom(t, c, r) && HasChannel(t, r, ch) && c in t.rooms[r].voice[ch].members ==> (c in t.rooms[r].voice[ch].speaking <==> on)
  {
  }

  lemma SaysSoFor(h: Hub, relay: Client, r: string, ch: string, id: string, on: bool)
    ensures var t := SpeakFor(h, relay, r, ch, id, on);
            InRoom(t, relay, r) && HasChannel(t, r, ch) && id in t.rooms[r].voice[ch].bleMembers
            ==> (id in t.rooms[r].voice[ch].bleSpeaking <==> on)
  {
  }

  /** resolveBlePeer: a relay speaks only for the ids registered to it. */
  predicate Resolves(h: Hub, relay: Client, id: string)
  {
    id != "" && id in h.peers && h.peers[id].relay == relay
  }

  function JoinVoiceFor(h: Hub, relay: Client, r: string, ch: string, id: string): Hub
  {
    if InRoom(h, relay, r) && Resolves(h, relay, id) && HasChannel(h, r, ch) then
      var v := h.rooms[r].voice[ch];
      SetVoice(h, r, ch, v.(bleMembers := v.bleMembers[id := h.peers[id]]))
    else h
  }

  function LeaveVoiceFor(h: Hub, r: string, ch: string, id: string): Hub
  {
    if HasChannel(h, r, ch) && id in h.rooms[r].voice[ch].bleMembers then
      SetVoice(h, r, ch, LeaveBle(h.rooms[r].voice[ch], id))
    else h
  }

  function SpeakFor(h: Hub, relay: Client, r: string, ch: string, id: string, on: bool): Hub
  {
    if InRoom(h, relay, r) && HasChannel(h, r, ch) && id in h.rooms[r].voice[ch].bleMembers then
      var v := h.rooms[r].voice[ch];
      SetVoice(h, r, ch, v.(bleSpeaking := if on then v.bleSpeaking + {id} else v.bleSpeaking - {id}))
    else h
  }

  function StalePeers(h: Hub, relay: Client, id: string): set<string>
  {
    set x | x in h.peers && h.peers[x].relay == relay && x != id
  }

  /** `order` lists the relay's other ids as the map iteration happened to yield them. */
  function RegisterPeer(h: Hub, relay: Client, id: string, order: seq<string>): Hub
  {
    var peer := BlePeer(id, relay);
    h.(peers := (h.peers - (set x | x in order))[id := peer],
       rooms := map r | r in h.rooms :: if r in RoomsOf(h, relay) then PromoteEach(h.rooms[r], order, peer) else h.rooms[r])
  }

  function UnregisterPeer(h: Hub, relay: Client, id: string): Hub
  {
    if !Resolves(h, relay, id) then h
    else
      h.(peers := h.peers - {id},
         rooms := map r | r in h.rooms :: if r in RoomsOf(h, relay) then ForgetPeer(h.rooms[r], id) else h.rooms[r])
  }

  function Connect(h: Hub, c: Client): Hub
  {
    h.(clients := h.clients + {c}, byId := h.byId[c.id := c])
  }

  function OwnedBy(h: Hub, relay: Client): set<string>
  {
    set x | x in h.peers && h.peers[x].relay == relay
  }

  /** What a disconnect leaves of one room. */
  function RoomAfter(h: Hub, r: string, c: Client): Room
    requires r in h.rooms
  {
    var room := DropBleEverywhere(h.rooms[r], OwnedBy(h, c));
    if r in RoomsOf(h, c) then LeaveAllVoice(room, c).(members := room.members - {c}) else room
  }

  function Disconnect(h: Hub, c: Client): Hub
  {
    Hub(h.clients - {c},
        if c in h.clients then h.byId - {c.id} else h.byId,
        h.peers - OwnedBy(h, c),
        map r | r in h.rooms :: RoomAfter(h, r, c),
        h.joined[c := RoomsOf(h, c) - h.rooms.Keys])
  }

  datatype Event =
    | Connected(c: Client)
    | Disconnected(c: Client)
    | JoinsRoom(c: Client, name: string, channel: string)
    | CreatesRoom(c: Client, name: string, isPublic: bool, channel: string)
    | StartsDM(c: Client, target: string, room: string, channel: string)
    | JoinsDM(c: Client, room: string)
    | CreatesChannel(c: Client, room: string, channel: string)
    | JoinsVoice(c: Client, room: string, channel: string)
    | LeavesVoice(c: Client, room: string, channel: string)
    | Speaks(c: Client, room: string, channel: string, on: bool)
    | RegistersPeer(c: Client, id: string, order: seq<string>)
    | UnregistersPeer(c: Client, id: string)
    | PeerJoinsVoice(c: Client, room: string, channel: string, id: string)
    | PeerLeavesVoice(c: Client, room: string, channel: string, id: string)
    | PeerSpeaks(c: Client, room: string, channel: string, id: string, on: bool)
    | SendsPosition(c: Client, room: string, position: nat)
    | SendsPeerPosition(c: Client, room: string, sender: string, position: nat)

  /** A request comes from a connected client; identities and generated ids are fresh; and a found
      conversation and an iteration order are ones the maps really hold. */
  ghost predicate Enabled(h: Hub, e: Event)
  {
    if e.Connected? then e.c.id !in h.byId else
    e.c in h.clients &&
    match e
    case StartsDM(c, target, r, _) =>
      target in h.byId ==> r in DmRooms(h, Pair(c.id, h.byId[target].id))
                           || (DmRooms(h, Pair(c.id, h.byId[target].id)) == {} && r !in h.rooms)
    case CreatesChannel(_, r, ch) => !HasChannel(h, r, ch)
    case RegistersPeer(c, id, order) => id != "" && forall x :: x in order <==> x in StalePeers(h, c, id)
    case _ => true
  }

  function Step(h: Hub, e: Event): Hub
    requires e.StartsDM? && e.target in h.byId ==>
               e.room in DmRooms(h, Pair(e.c.id, h.byId[e.target].id)) || DmRooms(h, Pair(e.c.id, h.byId[e.target].id)) == {}
  {
    match e
    case Connected(c) => Connect(h, c)
    case Disconnected(c) => Disconnect(h, c)
    case JoinsRoom(c, name, ch) => JoinRoom(h, c, name, ch)
    case CreatesRoom(c, name, isPublic, ch) => CreateRoom(h, c, name, isPublic, ch)
    case StartsDM(c, target, r, ch) => StartDM(h, c, target, r, ch)
    case JoinsDM(c, r) => JoinDM(h, c, r)
    case CreatesChannel(c, r, ch) => if InRoom(h, c, r) then SetVoice(h, r, ch, QUIET) else h
    case JoinsVoice(c, r, ch) => JoinVoice(h, c, r, ch)
    case LeavesVoice(c, r, ch) => LeaveVoiceChannel(h, c, r, ch)
    case Speaks(c, r, ch, on) => Speak(h, c, r, ch, on)
    case RegistersPeer(c, id, order) => RegisterPeer(h, c, id, order)
    case UnregistersPeer(c, id) => UnregisterPeer(h, c, id)
    case PeerJoinsVoice(c, r, ch, id) => JoinVoiceFor(h, c, r, ch, id)
    case PeerLeavesVoice(_, r, ch, id) => LeaveVoiceFor(h, r, ch, id)
    case PeerSpeaks(c, r, ch, id, on) => SpeakFor(h, c, r, ch, id, on)
    case SendsPosition(c, r, p) =>
      if InRoom(h, c, r) then SetRoom(h, r, h.rooms[r].(cot := h.rooms[r].cot[c := p])) else h
    case SendsPeerPosition(c, r, sender, p) =>
      if InRoom(h, c, r) && sender != "" then
        SetRoom(h, r, h.rooms[r].(bleCot := h.rooms[r].bleCot[sender := Contact(sender, p)]))
      else h
  }

  ghost function Run(evs: seq<Event>): Hub
    decreases |evs|
  {
    if evs == [] then EMPTY_HUB else
    var h := Run(evs[..|evs| - 1]);
    if Enabled(h, evs[|evs| - 1]) then Step(h, evs[|evs| - 1]) else h
  }

  // ---------- what every step keeps ----------

  ghost predicate IndexInv(h: Hub)
  {
    (forall c :: c in h.clients ==> c.id in h.byId && h.byId[c.id] == c)
    && (forall i :: i in h.byId ==> h.byId[i] in h.clients && h.byId[i].id == i)
  }

  ghost predicate MirrorInv(h: Hub)
  {
    (forall c, r :: r in RoomsOf(h, c) <==> InRoom(h, c, r))
    && (forall r :: r in h.rooms ==> h.rooms[r].members <= h.clients)
  }

  ghost predicate PeersInv(h: Hub)
  {
    (forall x :: x in h.peers ==> h.peers[x].peerId == x && x != "" && h.peers[x].relay in h.clients)
    && (forall x, y :: x in h.peers && y in h.peers && h.peers[x].relay == h.peers[y].relay ==> x == y)
  }

  ghost predicate RoomsInv(h: Hub)
  {
    (forall r :: r in h.rooms ==> RoomOk(h.rooms[r]))
    && (forall r, s :: r in h.rooms && s in h.rooms && h.rooms[r].dm.Some? && h.rooms[r].dm == h.rooms[s].dm ==> r == s)
  }

  ghost predicate HubInv(h: Hub)
  {
    IndexInv(h) && MirrorInv(h) && PeersInv(h) && RoomsInv(h)
  }

  /** A step that keeps clients and memberships and changes each room within its frame. */
  lemma RoomsReplaced(h: Hub, t: Hub)
    requires HubInv(h) && t.clients == h.clients && t.byId == h.byId && t.joined == h.joined
    requires t.rooms.Keys == h.rooms.Keys && PeersInv(t)
    requires forall r :: r in h.rooms ==> RoomOk(t.rooms[r]) && t.rooms[r].members == h.rooms[r].members && t.rooms[r].dm == h.rooms[r].dm
    ensures HubInv(t)
  {
    hide RoomOk, PeersInv;
    forall c, r ensures r in RoomsOf(t, c) <==> InRoom(t, c, r) {
      assert r in RoomsOf(h, c) <==> InRoom(h, c, r);
    }
    forall r | r in t.rooms ensures t.rooms[r].members <= t.clients {
      assert h.rooms[r].members <= h.clients;
    }
  }

  lemma RoomSet(h: Hub, r: string, room: Room)
    requires HubInv(h) && r in h.rooms && RoomOk(room)
    requires room.members == h.rooms[r].members && room.dm == h.rooms[r].dm
    ensures HubInv(SetRoom(h, r, room))
  {
    hide RoomOk, HubInv, IndexInv, MirrorInv, PeersInv;
    assert PeersInv(h) && RoomsInv(h) by { Parts(h); }
    assert PeersInv(SetRoom(h, r, room)) by { SamePeers(h, SetRoom(h, r, room)); }
    RoomsReplaced(h, SetRoom(h, r, room));
  }

  lemma Parts(h: Hub)
    requires HubInv(h)
    ensures IndexInv(h) && MirrorInv(h) && PeersInv(h) && RoomsInv(h)
  {
  }

  lemma SamePeers(h: Hub, t: Hub)
    requires PeersInv(h) && t.peers == h.peers && h.clients <= t.clients
    ensures PeersInv(t)
  {
  }

  lemma VoiceSet(h: Hub, r: string, ch: string, v: Voice)
    requires HubInv(h) && r in h.rooms && VoiceOk(v, h.rooms[r].members)
    ensures HubInv(SetVoice(h, r, ch, v))
  {
    hide VoiceOk, HubInv;
    var room := h.rooms[r].(voice := h.rooms[r].voice[ch := v]);
    assert RoomOk(h.rooms[r]) by { OkRoom(h, r); }
    RoomSet(h, r, room);
  }

  lemma OkRoom(h: Hub, r: string)
    requires HubInv(h) && r in h.rooms
    ensures RoomOk(h.rooms[r])
  {
  }

  lemma RoomCreated(h: Hub, name: string, room: Room)
    requires HubInv(h) && name !in h.rooms && room.members == {} && RoomOk(room)
    requires room.dm.Some? ==> DmRooms(h, room.dm.value) == {}
    ensures HubInv(SetRoom(h, name, room))
  {
    hide RoomOk;
    var t := SetRoom(h, name, room);
    forall c, r ensures r in RoomsOf(t, c) <==> InRoom(t, c, r) {
      assert r in RoomsOf(h, c) <==> InRoom(h, c, r);
    }
    forall r | r in h.rooms && room.dm.Some? ensures h.rooms[r].dm != room.dm {
      assert r !in DmRooms(h, room.dm.value);
    }
  }

  lemma NewRoomOk(channel: string, dm: Option<(string, string)>)
    ensures RoomOk(NewRoom(channel).(dm := dm))
  {
  }

  lemma MemberAdded(h: Hub, r: string, c: Client)
    requires HubInv(h) && r in h.rooms && c in h.clients && May(h.rooms[r], c)
    ensures HubInv(AddMember(h, r, c))
  {
    hide VoiceOk, PeersInv;
    var t := AddMember(h, r, c);
    assert PeersInv(t) by { SamePeers(h, t); }
    assert RoomOk(t.rooms[r]) by { WiderRoom(h.rooms[r], c); }
    forall d, s ensures s in RoomsOf(t, d) <==> InRoom(t, d, s) {
      assert s in RoomsOf(h, d) <==> InRoom(h, d, s);
    }
  }

  lemma WiderRoom(room: Room, c: Client)
    requires RoomOk(room) && May(room, c)
    ensures RoomOk(room.(members := room.members + {c}))
  {
  }

  lemma JoinKeeps(h: Hub, c: Client, name: string, channel: string)
    requires HubInv(h) && c in h.clients
    ensures HubInv(JoinRoom(h, c, name, channel))
  {
    hide HubInv, AddMember;
    CreateKeeps(h, name, channel);
    var g := GetOrCreate(h, name, channel);
    if May(g.rooms[name], c) { MemberAdded(g, name, c); }
  }

  lemma CreateKeeps(h: Hub, name: string, channel: string)
    requires HubInv(h)
    ensures HubInv(GetOrCreate(h, name, channel))
  {
    hide HubInv, RoomOk;
    NewRoomOk(channel, None);
    if name !in h.rooms { RoomCreated(h, name, NewRoom(channel)); }
  }

  lemma FlagKeeps(h: Hub, name: string, isPublic: bool)
    requires HubInv(h) && name in h.rooms
    ensures HubInv(SetRoom(h, name, h.rooms[name].(isPublic := isPublic)))
  {
    hide HubInv;
    OkRoom(h, name);
    RoomSet(h, name, h.rooms[name].(isPublic := isPublic));
  }

  lemma CreateRoomKeeps(h: Hub, c: Client, name: string, isPublic: bool, channel: string)
    requires HubInv(h) && c in h.clients
    ensures HubInv(CreateRoom(h, c, name, isPublic, channel))
  {
    hide HubInv, JoinRoom;
    CreateKeeps(h, name, channel);
    var g := GetOrCreate(h, name, channel);
    FlagKeeps(g, name, isPublic);
    JoinKeeps(SetRoom(g, name, g.rooms[name].(isPublic := isPublic)), c, name, channel);
  }

  lemma AdmitKeeps(h: Hub, r: string, c: Client)
    requires HubInv(h) && r in h.rooms && c in h.clients && May(h.rooms[r], c)
    ensures HubInv(Admit(h, r, c))
    ensures Admit(h, r, c).clients == h.clients && r in Admit(h, r, c).rooms && Admit(h, r, c).rooms[r].dm == h.rooms[r].dm
  {
    hide HubInv;
    if c !in h.rooms[r].members { MemberAdded(h, r, c); }
  }

  lemma StartDMKeeps(h: Hub, c: Client, target: string, r: string, channel: string)
    requires HubInv(h) && c in h.clients && Enabled(h, StartsDM(c, target, r, channel))
    ensures HubInv(StartDM(h, c, target, r, channel))
  {
    hide HubInv, Admit, Less, RoomOk;
    if target in h.byId {
      var d := h.byId[target];
      assert d in h.clients by { Parts(h); }
      var pair := Pair(c.id, d.id);
      NewRoomOk(channel, Some(pair));
      var g := if DmRooms(h, pair) == {} then SetRoom(h, r, NewRoom(channel).(dm := Some(pair))) else h;
      if DmRooms(h, pair) == {} { RoomCreated(h, r, NewRoom(channel).(dm := Some(pair))); }
      assert g.rooms[r].dm == Some(pair);
      AdmitKeeps(g, r, c);
      AdmitKeeps(Admit(g, r, c), r, d);
    }
  }

  lemma VoiceOf(h: Hub, r: string, ch: string)
    requires HubInv(h) && HasChannel(h, r, ch)
    ensures VoiceOk(h.rooms[r].voice[ch], h.rooms[r].members)
  {
    assert RoomOk(h.rooms[r]);
  }

  lemma VoiceStepKeeps(h: Hub, c: Client, r: string, ch: string, id: string, on: bool)
    requires HubInv(h)
    ensures HubInv(JoinVoice(h, c, r, ch)) && HubInv(LeaveVoiceChannel(h, c, r, ch)) && HubInv(Speak(h, c, r, ch, on))
  {
    hide HubInv, SetVoice;
    if HasChannel(h, r, ch) {
      var v := h.rooms[r].voice[ch];
      VoiceOf(h, r, ch);
      VoiceSet(h, r, ch, LeaveVoice(v, c));
      if InRoom(h, c, r) {
        VoiceSet(h, r, ch, v.(members := v.members + {c}));
        if c in v.members {
          VoiceSet(h, r, ch, v.(speaking := if on then v.speaking + {c} else v.speaking - {c}));
        }
      }
    }
  }

  lemma PeerVoiceStepKeeps(h: Hub, c: Client, r: string, ch: string, id: string, on: bool)
    requires HubInv(h)
    ensures HubInv(JoinVoiceFor(h, c, r, ch, id)) && HubInv(LeaveVoiceFor(h, r, ch, id)) && HubInv(SpeakFor(h, c, r, ch, id, on))
  {
    hide HubInv, SetVoice;
    if HasChannel(h, r, ch) {
      var v := h.rooms[r].voice[ch];
      VoiceOf(h, r, ch);
      VoiceSet(h, r, ch, LeaveBle(v, id));
      if Resolves(h, c, id) {
        assert h.peers[id].peerId == id by { Parts(h); }
        VoiceSet(h, r, ch, v.(bleMembers := v.bleMembers[id := h.peers[id]]));
      }
      if id in v.bleMembers {
        VoiceSet(h, r, ch, v.(bleSpeaking := if on then v.bleSpeaking + {id} else v.bleSpeaking - {id}));
      }
    }
  }

  lemma RegisterKeeps(h: Hub, c: Client, id: string, order: seq<string>)
    requires HubInv(h) && Enabled(h, RegistersPeer(c, id, order))
    ensures HubInv(RegisterPeer(h, c, id, order))
  {
    hide HubInv, RoomOk, PeersInv;
    Parts(h);
    var t := RegisterPeer(h, c, id, order);
    forall r | r in h.rooms ensures RoomOk(t.rooms[r]) && SameFrame(h.rooms[r], t.rooms[r]) {
      PromoteEachKeeps(h.rooms[r], order, BlePeer(id, c));
    }
    PeersRegistered(h, c, id, order);
    RoomsReplaced(h, t);
  }

  lemma PeersRegistered(h: Hub, c: Client, id: string, order: seq<string>)
    requires PeersInv(h) && Enabled(h, RegistersPeer(c, id, order))
    ensures PeersInv(RegisterPeer(h, c, id, order))
  {
    hide PromoteEach, RoomsOf;
    var t := RegisterPeer(h, c, id, order);
    forall x | x in t.peers ensures x == id || (x in h.peers && t.peers[x] == h.peers[x] && h.peers[x].relay != c) {
      if x != id { assert x !in StalePeers(h, c, id); }
    }
  }

  lemma UnregisterKeeps(h: Hub, c: Client, id: string)
    requires HubInv(h)
    ensures HubInv(UnregisterPeer(h, c, id))
  {
    hide HubInv, RoomOk;
    Parts(h);
    var t := UnregisterPeer(h, c, id);
    if Resolves(h, c, id) {
      forall r | r in h.rooms ensures RoomOk(t.rooms[r]) && SameFrame(h.rooms[r], t.rooms[r]) {
        ForgettingKeeps(h.rooms[r], id);
      }
      RoomsReplaced(h, t);
    }
  }

  lemma ConnectKeeps(h: Hub, c: Client)
    requires HubInv(h) && c.id !in h.byId
    ensures HubInv(Connect(h, c))
  {
    hide RoomOk;
    var t := Connect(h, c);
    forall d, r ensures r in RoomsOf(t, d) <==> InRoom(t, d, r) {
      assert r in RoomsOf(h, d) <==> InRoom(h, d, r);
    }
  }

  lemma RoomAfterOk(h: Hub, r: string, c: Client)
    requires HubInv(h) && r in h.rooms
    ensures RoomOk(RoomAfter(h, r, c))
    ensures RoomAfter(h, r, c).members == h.rooms[r].members - {c} && RoomAfter(h, r, c).dm == h.rooms[r].dm
  {
    hide RoomOk, PeersInv;
    DroppingKeeps(h.rooms[r], OwnedBy(h, c));
    var room := DropBleEverywhere(h.rooms[r], OwnedBy(h, c));
    RemovalKeeps(room, c);
    assert r in RoomsOf(h, c) <==> InRoom(h, c, r);
  }

  lemma DisconnectKeeps(h: Hub, c: Client)
    requires HubInv(h) && c in h.clients
    ensures HubInv(Disconnect(h, c))
  {
    hide HubInv, RoomOk, RoomAfter;
    Parts(h);
    var t := Disconnect(h, c);
    forall r | r in h.rooms
      ensures RoomOk(t.rooms[r]) && t.rooms[r].members == h.rooms[r].members - {c} && t.rooms[r].dm == h.rooms[r].dm
    {
      RoomAfterOk(h, r, c);
    }
    IndexAfter(h, c);
    MirrorAfter(h, t, c);
    PeersAfter(h, c);
    assert RoomsInv(t);
    Whole(t);
  }

  lemma Whole(h: Hub)
    requires IndexInv(h) && MirrorInv(h) && PeersInv(h) && RoomsInv(h)
    ensures HubInv(h)
  {
  }

  lemma IndexAfter(h: Hub, c: Client)
    requires IndexInv(h) && c in h.clients
    ensures IndexInv(Disconnect(h, c))
  {
    hide RoomAfter, RoomsOf, OwnedBy;
  }

  lemma MirrorAfter(h: Hub, t: Hub, c: Client)
    requires MirrorInv(h) && t.clients == h.clients - {c} && t.rooms.Keys == h.rooms.Keys
    requires forall r :: r in h.rooms ==> t.rooms[r].members == h.rooms[r].members - {c}
    requires t.joined == h.joined[c := RoomsOf(h, c) - h.rooms.Keys]
    ensures MirrorInv(t)
  {
    forall d, r ensures r in RoomsOf(t, d) <==> InRoom(t, d, r) {
      assert r in RoomsOf(h, d) <==> InRoom(h, d, r);
    }
  }

  lemma PeersAfter(h: Hub, c: Client)
    requires PeersInv(h)
    ensures PeersInv(Disconnect(h, c))
  {
    hide RoomAfter, RoomsOf;
  }

  lemma PositionKeeps(h: Hub, c: Client, r: string, sender: string, p: nat)
    requires HubInv(h) && r in h.rooms
    ensures HubInv(SetRoom(h, r, h.rooms[r].(cot := h.rooms[r].cot[c := p])))
    ensures HubInv(SetRoom(h, r, h.rooms[r].(bleCot := h.rooms[r].bleCot[sender := Contact(sender, p)])))
  {
    hide HubInv;
    OkRoom(h, r);
    RoomSet(h, r, h.rooms[r].(cot := h.rooms[r].cot[c := p]));
    RoomSet(h, r, h.rooms[r].(bleCot := h.rooms[r].bleCot[sender := Contact(sender, p)]));
  }

  lemma QuietChannelKeeps(h: Hub, r: string, ch: string)
    requires HubInv(h) && r in h.rooms
    ensures HubInv(SetVoice(h, r, ch, QUIET))
  {
    hide HubInv;
    VoiceSet(h, r, ch, QUIET);
  }

  lemma JoinDMKeeps(h: Hub, c: Client, r: string)
    requires HubInv(h) && c in h.clients
    ensures HubInv(JoinDM(h, c, r))
  {
    hide HubInv, Admit;
    if r in h.rooms && h.rooms[r].dm.Some? && May(h.rooms[r], c) { AdmitKeeps(h, r, c); }
  }

  lemma StepKeeps(h: Hub, e: Event)
    requires HubInv(h) && Enabled(h, e)
    ensures HubInv(Step(h, e))
  {
    hide HubInv, JoinRoom, CreateRoom, StartDM, JoinDM, JoinVoice, LeaveVoiceChannel, Speak, RegisterPeer, UnregisterPeer;
    hide JoinVoiceFor, LeaveVoiceFor, SpeakFor, Disconnect, Connect, SetVoice, SetRoom;
    match e
    case Connected(c) => ConnectKeeps(h, c);
    case Disconnected(c) => DisconnectKeeps(h, c);
    case JoinsRoom(c, name, ch) => JoinKeeps(h, c, name, ch);
    case CreatesRoom(c, name, isPublic, ch) => CreateRoomKeeps(h, c, name, isPublic, ch);
    case StartsDM(c, target, r, ch) => StartDMKeeps(h, c, target, r, ch);
    case JoinsDM(c, r) => JoinDMKeeps(h, c, r);
    case CreatesChannel(c, r, ch) => if InRoom(h, c, r) { QuietChannelKeeps(h, r, ch); }
    case JoinsVoice(c, r, ch) => VoiceStepKeeps(h, c, r, ch, "", true);
    case LeavesVoice(c, r, ch) => VoiceStepKeeps(h, c, r, ch, "", true);
    case Speaks(c, r, ch, on) => VoiceStepKeeps(h, c, r, ch, "", on);
    case RegistersPeer(c, id, order) => RegisterKeeps(h, c, id, order);
    case UnregistersPeer(c, id) => UnregisterKeeps(h, c, id);
    case PeerJoinsVoice(c, r, ch, id) => PeerVoiceStepKeeps(h, c, r, ch, id, true);
    case PeerLeavesVoice(c, r, ch, id) => PeerVoiceStepKeeps(h, c, r, ch, id, true);
    case PeerSpeaks(c, r, ch, id, on) => PeerVoiceStepKeeps(h, c, r, ch, id, on);
    case SendsPosition(c, r, p) => if InRoom(h, c, r) { PositionKeeps(h, c, r, "", p); }
    case SendsPeerPosition(c, r, sender, p) => if InRoom(h, c, r) { PositionKeeps(h, c, r, sender, p); }
  }

  /** Over every run the hub's maps agree with each other. */
  lemma {:induction false} RunKeeps(evs: seq<Event>)
    ensures HubInv(Run(evs))
    decreases |evs|
  {
    hide Step, Enabled;
    if evs != [] {
      var before, e := evs[..|evs| - 1], evs[|evs| - 1];
      RunKeeps(before);
      if Enabled(Run(before), e) { StepKeeps(Run(before), e); }
    }
  }
}
