/** The hub as an object over its rooms (hub.go). Map iterations take any order; the lock-protected
    parts of a method run as one. Each request is tied to its step in HubState. */
module HubService {
  import opened Basics
  import opened HubRoom
  import opened HubState
  import opened RoomVoice

  class ServerHub {
    var clients: set<Client>
    var clientsByID: map<string, Client>
    var blePeers: map<string, BlePeer>
    var rooms: map<string, ServerRoom>
    var clientRooms: map<Client, set<string>>

    ghost function RoomStates(): map<string, Room>
      reads this`rooms, rooms.Values
    {
      map r | r in rooms :: rooms[r].State()
    }

    ghost function State(): Hub
      reads this, rooms.Values
    {
      Hub(clients, clientsByID, blePeers, RoomStates(), clientRooms)
    }

    /** Different names have different rooms. */
    ghost predicate Valid()
      reads this`rooms
    {
      forall r, s :: r in rooms && s in rooms && rooms[r] == rooms[s] ==> r == s
    }

    constructor ()
      ensures Valid()
      ensures State() == EMPTY_HUB
    {
      clients, clientsByID, blePeers, rooms, clientRooms := {}, map[], map[], map[], map[];
    }

    method Register(client: Client)
      requires Valid()
      modifies this`clients, this`clientsByID
      ensures Valid()
      ensures State() == Connect(old(State()), client)
    {
      clients := clients + {client};
      clientsByID := clientsByID[client.id := client];
      assert RoomStates() == old(RoomStates());
    }

    method GetOrCreateRoom(name: string, channelID: string) returns (room: ServerRoom)
      requires Valid()
      modifies this`rooms
      ensures Valid() && name in rooms && room == rooms[name]
      ensures State() == GetOrCreate(old(State()), name, channelID)
      ensures forall r :: r in old(rooms) ==> r in rooms && rooms[r] == old(rooms)[r]
      ensures forall r :: r in rooms && r !in old(rooms) ==> fresh(rooms[r])
    {
      if name in rooms {
        return rooms[name];
      }
      room := new ServerRoom(channelID);
      rooms := rooms[name := room];
      assert RoomStates() == old(RoomStates())[name := NewRoom(channelID)];
    }

    /** The room gets the member and the client gets the room. */
    method AddMemberTo(r: string, client: Client)
      requires Valid() && r in rooms
      modifies this`clientRooms, rooms[r]
      ensures Valid()
      ensures State() == AddMember(old(State()), r, client)
    {
      ghost var before := State();
      rooms[r].AddMember(client);
      var mine := if client in clientRooms then clientRooms[client] else {};
      clientRooms := clientRooms[client := mine + {r}];
      forall s | s in rooms && s != r ensures rooms[s].State() == before.rooms[s] {
        assert rooms[s] != rooms[r];
      }
      OneEntry(before.rooms, RoomStates(), r, before.rooms[r].(members := before.rooms[r].members + {client}));
      SameHub(State(), AddMember(before, r, client));
    }

    method AdmitTo(r: string, client: Client)
      requires Valid() && r in rooms
      modifies this`clientRooms, rooms[r]
      ensures Valid()
      ensures State() == Admit(old(State()), r, client)
    {
      hide AddMember;
      if client !in rooms[r].members {
        AddMemberTo(r, client);
      }
    }

    method JoinRoomNamed(client: Client, roomName: string, channelID: string) returns (joined: bool)
      requires Valid()
      modifies this`rooms, this`clientRooms, rooms.Values
      ensures Valid()
      ensures State() == JoinRoom(old(State()), client, roomName, channelID)
      ensures roomName in State().rooms && (joined <==> May(State().rooms[roomName], client))
      ensures forall r :: r in rooms ==> (r in old(rooms) && rooms[r] == old(rooms)[r]) || fresh(rooms[r])
    {
      hide AddMember;
      var room := GetOrCreateRoom(roomName, channelID);
      if room.dmParticipants.Some? {
        if client.id != room.dmParticipants.value.0 && client.id != room.dmParticipants.value.1 {
          return false;
        }
      }
      AddMemberTo(roomName, client);
      joined := true;
      AddedMember(GetOrCreate(old(State()), roomName, channelID), roomName, client);
    }

    /** The "create_room" request. */
    method CreateRoomNamed(client: Client, name: string, public: bool, channelID: string) returns (joined: bool)
      requires Valid()
      modifies this`rooms, this`clientRooms, rooms.Values
      ensures Valid()
      ensures State() == CreateRoom(old(State()), client, name, public, channelID)
    {
      hide JoinRoom;
      var room := GetOrCreateRoom(name, channelID);
      ghost var before := State();
      room.isPublic := public;
      forall s | s in rooms && s != name ensures rooms[s].State() == before.rooms[s] {
        assert rooms[s] != room;
      }
      OneEntry(before.rooms, RoomStates(), name, before.rooms[name].(isPublic := public));
      SameHub(State(), SetRoom(before, name, before.rooms[name].(isPublic := public)));
      joined := JoinRoomNamed(client, name, channelID);
    }

    /** A conversation of the two people, if there is one; iteration in any order. */
    method FindExistingDM(id1: string, id2: string) returns (found: Option<string>)
      requires Valid()
      ensures found.None? <==> DmRooms(State(), Pair(id1, id2)) == {}
      ensures found.Some? ==> found.value in DmRooms(State(), Pair(id1, id2))
    {
      hide Less;
      LessIsTotal(id1, id2);
      var a, b := id1, id2;
      if Less(id2, id1) {
        a, b := id2, id1;
      }
      var names := rooms.Keys;
      while names != {}
        invariant names <= rooms.Keys
        invariant forall r :: r in rooms && r !in names ==> rooms[r].dmParticipants != Some((a, b))
      {
        var r :| r in names;
        names := names - {r};
        if rooms[r].dmParticipants == Some((a, b)) {
          assert r in DmRooms(State(), Pair(id1, id2));
          return Some(r);
        }
      }
      return None;
    }

    method SetParticipants(r: string, participants: (string, string))
      requires Valid() && r in rooms
      modifies rooms[r]
      ensures Valid()
      ensures State() == SetRoom(old(State()), r, old(rooms[r].State()).(dm := Some(participants)))
    {
      ghost var before := State();
      rooms[r].dmParticipants := Some(participants);
      forall s | s in rooms && s != r ensures rooms[s].State() == before.rooms[s] {
        assert rooms[s] != rooms[r];
      }
      OneEntry(before.rooms, RoomStates(), r, before.rooms[r].(dm := Some(participants)));
      SameHub(State(), SetRoom(before, r, before.rooms[r].(dm := Some(participants))));
    }

    method CreateDM(participants: (string, string), dmName: string, channelID: string)
      requires Valid() && dmName !in rooms
      modifies this`rooms
      ensures Valid()
      ensures State() == SetRoom(old(State()), dmName, NewRoom(channelID).(dm := Some(participants)))
      ensures dmName in rooms && fresh(rooms[dmName])
    {
      hide NewRoom, SetRoom, ServerHub.RoomStates, ServerRoom.State;
      ghost var before := State();
      RoomNames();
      var room := GetOrCreateRoom(dmName, channelID);
      RoomAt(dmName);
      assert State() == SetRoom(before, dmName, NewRoom(channelID));
      SetParticipants(dmName, participants);
      SetTwice(before, dmName, NewRoom(channelID), NewRoom(channelID).(dm := Some(participants)));
    }

    lemma RoomAt(r: string)
      requires r in rooms
      ensures r in State().rooms && State().rooms[r] == rooms[r].State()
    {
    }

    /** The conversation of the two people; `dmName` is the fresh name it gets if it is new. */
    method FindOrCreateDM(id1: string, id2: string, dmName: string, channelID: string) returns (r: string)
      requires Valid() && dmName !in rooms
      modifies this`rooms
      ensures Valid()
      ensures r in if DmRooms(old(State()), Pair(id1, id2)) == {} then {dmName} else DmRooms(old(State()), Pair(id1, id2))
      ensures State() == if DmRooms(old(State()), Pair(id1, id2)) == {}
                         then SetRoom(old(State()), r, NewRoom(channelID).(dm := Some(Pair(id1, id2)))) else old(State())
      ensures r in rooms && ((r in old(rooms) && rooms[r] == old(rooms)[r]) || fresh(rooms[r]))
    {
      hide Less, SetRoom;
      var found := FindExistingDM(id1, id2);
      if found.Some? {
        return found.value;
      }
      CreateDM(if Less(id1, id2) then (id1, id2) else (id2, id1), dmName, channelID);
      return dmName;
    }

    method StartDMWith(client: Client, targetID: string, dmName: string, channelID: string) returns (r: string)
      requires Valid() && dmName !in rooms && client in clients
      modifies this`rooms, this`clientRooms, rooms.Values
      ensures Valid()
      ensures Enabled(old(State()), StartsDM(client, targetID, r, channelID))
      ensures State() == StartDM(old(State()), client, targetID, r, channelID)
    {
      hide Pair, Admit, DmRooms, SetRoom;
      if targetID !in clientsByID {
        return dmName;
      }
      ghost var before := State();
      var target := clientsByID[targetID];
      r := FindOrCreateDM(client.id, target.id, dmName, channelID);
      AdmitTo(r, client);
      AdmitTo(r, target);
    }

    method RejoinDM(client: Client, r: string)
      requires Valid()
      modifies this`clientRooms, rooms.Values
      ensures Valid()
      ensures State() == JoinDM(old(State()), client, r)
    {
      hide Admit;
      if r in rooms && rooms[r].dmParticipants.Some? {
        var participants := rooms[r].dmParticipants.value;
        if client.id == participants.0 || client.id == participants.1 {
          AdmitTo(r, client);
        }
      }
    }

    // ---------- voice ----------

    method SetRoomVoice(r: string, channelID: string, vc: Voice)
      requires Valid() && r in rooms
      modifies rooms[r]
      ensures Valid()
      ensures State() == SetVoice(old(State()), r, channelID, vc)
    {
      ghost var before := State();
      rooms[r].SetVoiceChannel(channelID, vc);
      forall s | s in rooms && s != r ensures rooms[s].State() == before.rooms[s] {
        assert rooms[s] != rooms[r];
      }
      OneEntry(before.rooms, RoomStates(), r, before.rooms[r].(voice := before.rooms[r].voice[channelID := vc]));
      SameHub(State(), SetVoice(before, r, channelID, vc));
    }

    method JoinVoiceOf(client: Client, r: string, channelID: string)
      requires Valid()
      modifies rooms.Values
      ensures Valid()
      ensures State() == JoinVoice(old(State()), client, r, channelID)
    {
      hide SetVoice;
      if r in rooms && client in rooms[r].members && channelID in rooms[r].voiceChannels {
        var vc := rooms[r].voiceChannels[channelID];
        SetRoomVoice(r, channelID, vc.(members := vc.members + {client}));
      }
    }

    method LeaveVoiceOf(client: Client, r: string, channelID: string)
      requires Valid()
      modifies rooms.Values
      ensures Valid()
      ensures State() == LeaveVoiceChannel(old(State()), client, r, channelID)
    {
      hide SetVoice;
      if r in rooms && channelID in rooms[r].voiceChannels {
        var vc := rooms[r].voiceChannels[channelID];
        if client in vc.members {
          SetRoomVoice(r, channelID, vc.(members := vc.members - {client}, speaking := vc.speaking - {client}));
        }
      }
    }

    method SetSpeakingOf(client: Client, r: string, channelID: string, on: bool)
      requires Valid()
      modifies rooms.Values
      ensures Valid()
      ensures State() == Speak(old(State()), client, r, channelID, on)
      ensures var h := State();
              InRoom(h, client, r) && HasChannel(h, r, channelID) && client in h.rooms[r].voice[channelID].members
              ==> (client in h.rooms[r].voice[channelID].speaking <==> on)
    {
      SaysSo(State(), client, r, channelID, on);
      hide SetVoice;
      if r in rooms && client in rooms[r].members && channelID in rooms[r].voiceChannels {
        var vc := rooms[r].voiceChannels[channelID];
        if client in vc.members {
          if on {
            vc := vc.(speaking := vc.speaking + {client});
          } else {
            vc := vc.(speaking := vc.speaking - {client});
          }
          SetRoomVoice(r, channelID, vc);
        }
      }
    }

    method ResolveBlePeer(relay: Client, peerID: string) returns (peer: Option<BlePeer>)
      requires Valid()
      ensures peer == if Resolves(State(), relay, peerID) then Some(blePeers[peerID]) else None
    {
      if peerID == "" || peerID !in blePeers || blePeers[peerID].relay != relay {
        return None;
      }
      return Some(blePeers[peerID]);
    }

    method JoinVoiceFromRelay(relay: Client, r: string, channelID: string, peerID: string)
      requires Valid() && PeersInv(State())
      modifies rooms.Values
      ensures Valid()
      ensures State() == JoinVoiceFor(old(State()), relay, r, channelID, peerID)
    {
      hide SetVoice;
      if r in rooms && relay in rooms[r].members {
        var peer := ResolveBlePeer(relay, peerID);
        if peer.Some? && channelID in rooms[r].voiceChannels {
          var vc := rooms[r].voiceChannels[channelID];
          SetRoomVoice(r, channelID, vc.(bleMembers := vc.bleMembers[peer.value.peerId := peer.value]));
        }
      }
    }

    method LeaveVoiceFromRelay(r: string, channelID: string, peerID: string)
      requires Valid()
      modifies rooms.Values
      ensures Valid()
      ensures State() == LeaveVoiceFor(old(State()), r, channelID, peerID)
    {
      hide SetVoice;
      if r in rooms && channelID in rooms[r].voiceChannels {
        var vc := rooms[r].voiceChannels[channelID];
        if peerID in vc.bleMembers {
          SetRoomVoice(r, channelID, vc.(bleMembers := vc.bleMembers - {peerID}, bleSpeaking := vc.bleSpeaking - {peerID}));
        }
      }
    }

    method SetBleSpeakingOf(relay: Client, r: string, channelID: string, peerID: string, on: bool)
      requires Valid()
      modifies rooms.Values
      ensures Valid()
      ensures State() == SpeakFor(old(State()), relay, r, channelID, peerID, on)
      ensures var h := State();
              InRoom(h, relay, r) && HasChannel(h, r, channelID) && peerID in h.rooms[r].voice[channelID].bleMembers
              ==> (peerID in h.rooms[r].voice[channelID].bleSpeaking <==> on)
    {
      SaysSoFor(State(), relay, r, channelID, peerID, on);
      hide SetVoice;
      if r in rooms && relay in rooms[r].members && channelID in rooms[r].voiceChannels {
        var vc := rooms[r].voiceChannels[channelID];
        if peerID in vc.bleMembers {
          if on {
            vc := vc.(bleSpeaking := vc.bleSpeaking + {peerID});
          } else {
            vc := vc.(bleSpeaking := vc.bleSpeaking - {peerID});
          }
          SetRoomVoice(r, channelID, vc);
        }
      }
    }

    /** `channelID` is the fresh id the channel gets. */
    method CreateVoiceChannel(client: Client, r: string, channelID: string)
      requires Valid()
      modifies rooms.Values
      ensures Valid()
      ensures State() == Step(old(State()), CreatesChannel(client, r, channelID))
    {
      hide SetVoice;
      if r in rooms && client in rooms[r].members {
        SetRoomVoice(r, channelID, QUIET);
      }
    }

    /** The "cot_position" request. `sender` is empty unless the request names a peer by id and
        name; then it is that peer's position, whether or not the hub knows the peer. */
    method SetPosition(client: Client, r: string, sender: string, position: nat)
      requires Valid()
      modifies rooms.Values
      ensures Valid()
      ensures State() == Step(old(State()), if sender == "" then SendsPosition(client, r, position)
                                            else SendsPeerPosition(client, r, sender, position))
    {
      if r in rooms && client in rooms[r].members {
        ghost var before := State();
        if sender != "" {
          rooms[r].SetBleCotPosition(sender, position);
        } else {
          rooms[r].SetCotPosition(client, position);
        }
        forall s | s in rooms && s != r ensures rooms[s].State() == before.rooms[s] {
          assert rooms[s] != rooms[r];
        }
        OneEntry(before.rooms, RoomStates(), r, rooms[r].State());
        SameHub(State(), SetRoom(before, r, rooms[r].State()));
      }
    }

    // ---------- Bluetooth peers ----------

    method PromoteInRoom(room: ServerRoom, staleIDs: seq<string>, peer: BlePeer)
      modifies room
      ensures room.State() == PromoteEach(old(room.State()), staleIDs, peer)
    {
      hide Promote;
      for i := 0 to |staleIDs|
        invariant PromoteEach(room.State(), staleIDs[i..], peer) == PromoteEach(old(room.State()), staleIDs, peer)
      {
        assert staleIDs[i..][0] == staleIDs[i] && staleIDs[i..][1..] == staleIDs[i + 1..];
        room.PromoteBlePeer(staleIDs[i], peer);
      }
    }

    /** Takes the relay's other ids off the map, in iteration order. */
    method TakeStalePeers(relay: Client, peerID: Option<string>) returns (staleIDs: seq<string>)
      modifies this`blePeers
      ensures forall x :: x in staleIDs <==> x in old(blePeers) && old(blePeers)[x].relay == relay && Some(x) != peerID
      ensures blePeers == old(blePeers) - SetOf(staleIDs)
    {
      staleIDs := [];
      var ids := blePeers.Keys;
      while ids != {}
        invariant ids <= blePeers.Keys
        invariant forall x :: x in staleIDs <==>
                    x in old(blePeers) && x !in ids && old(blePeers)[x].relay == relay && Some(x) != peerID
        invariant blePeers == old(blePeers) - SetOf(staleIDs)
      {
        var id :| id in ids;
        ids := ids - {id};
        if blePeers[id].relay == relay && Some(id) != peerID {
          staleIDs := staleIDs + [id];
          blePeers := blePeers - {id};
        }
      }
    }

    /** Promotes in every room of the list, in any order. */
    method PromoteInRooms(mine: set<string>, staleIDs: seq<string>, peer: BlePeer)
      requires Valid()
      modifies rooms.Values
      ensures Valid()
      ensures RoomStates() == PromoteAll(old(RoomStates()), mine, staleIDs, peer)
    {
      hide PromoteEach;
      ghost var before := RoomStates();
      var roomIDs := mine;
      while roomIDs != {}
        invariant roomIDs <= mine
        invariant forall r :: r in rooms ==>
                    rooms[r].State() == if r in mine && r !in roomIDs then PromoteEach(before[r], staleIDs, peer) else before[r]
      {
        var roomID :| roomID in roomIDs;
        roomIDs := roomIDs - {roomID};
        if roomID in rooms {
          PromoteInRoom(rooms[roomID], staleIDs, peer);
        }
      }
    }

    method RegisterBlePeer(relay: Client, peerID: string) returns (staleIDs: seq<string>)
      requires Valid() && relay in clients && peerID != ""
      modifies this`blePeers, rooms.Values
      ensures Valid()
      ensures Enabled(old(State()), RegistersPeer(relay, peerID, staleIDs))
      ensures State() == RegisterPeer(old(State()), relay, peerID, staleIDs)
    {
      hide ServerHub.RoomStates, ServerHub.Valid, PromoteAll, RegisterPeer;
      ghost var before := State();
      staleIDs := TakeStalePeers(relay, Some(peerID));
      blePeers := blePeers[peerID := BlePeer(peerID, relay)];
      PromoteInRooms(if relay in clientRooms then clientRooms[relay] else {}, staleIDs, BlePeer(peerID, relay));
      RegisterInParts(before, State(), relay, peerID, staleIDs);
    }

    method ForgetInRoom(room: ServerRoom, peerID: string)
      modifies room
      ensures room.State() == ForgetPeer(old(room.State()), peerID)
    {
      var before := room.State();
      var channels := room.voiceChannels.Keys;
      while channels != {}
        invariant channels <= room.voiceChannels.Keys == before.voice.Keys
        invariant room.State() == before.(voice := room.voiceChannels)
        invariant forall ch :: ch in before.voice ==>
                    room.voiceChannels[ch] == if ch in channels then before.voice[ch] else LeaveBle(before.voice[ch], peerID)
      {
        var channelID :| channelID in channels;
        channels := channels - {channelID};
        room.LeaveBleVoiceChannel(channelID, peerID);
      }
      room.ClearBleCotPosition(peerID);
      assert room.State().voice == ForgetPeer(before, peerID).voice;
    }

    method ForgetInRooms(mine: set<string>, peerID: string)
      requires Valid()
      modifies rooms.Values
      ensures Valid()
      ensures RoomStates() == map r | r in rooms :: if r in mine then ForgetPeer(old(RoomStates())[r], peerID) else old(RoomStates())[r]
    {
      hide ForgetPeer;
      ghost var before := RoomStates();
      var roomIDs := mine;
      while roomIDs != {}
        invariant roomIDs <= mine
        invariant forall r :: r in rooms ==>
                    rooms[r].State() == if r in mine && r !in roomIDs then ForgetPeer(before[r], peerID) else before[r]
      {
        var roomID :| roomID in roomIDs;
        roomIDs := roomIDs - {roomID};
        if roomID in rooms {
          ForgetInRoom(rooms[roomID], peerID);
        }
      }
    }

    method UnregisterBlePeer(relay: Client, peerID: string)
      requires Valid()
      modifies this`blePeers, rooms.Values
      ensures Valid()
      ensures State() == UnregisterPeer(old(State()), relay, peerID)
    {
      hide ForgetPeer;
      ghost var before := State();
      var peer := ResolveBlePeer(relay, peerID);
      if peer.None? {
        return;
      }
      blePeers := blePeers - {peerID};
      ForgetInRooms(if relay in clientRooms then clientRooms[relay] else {}, peerID);
      SameHub(State(), UnregisterPeer(before, relay, peerID));
    }

    // ---------- disconnecting ----------

    method DropBleInAllRooms(staleIDs: seq<string>)
      requires Valid()
      modifies rooms.Values
      ensures Valid()
      ensures RoomStates() == DropAll(old(RoomStates()), SetOf(staleIDs))
    {
      hide DropBleEverywhere;
      ghost var before := RoomStates();
      if |staleIDs| == 0 {
        forall r | r in rooms ensures DropBleEverywhere(before[r], SetOf(staleIDs)) == before[r] {
          DropNone(before[r], SetOf(staleIDs));
        }
        return;
      }
      var names := rooms.Keys;
      while names != {}
        invariant names <= rooms.Keys
        invariant forall r :: r in rooms ==>
                    rooms[r].State() == if r in names then before[r] else DropBleEverywhere(before[r], SetOf(staleIDs))
      {
        var name :| name in names;
        names := names - {name};
        var left := rooms[name].LeaveAllBleVoiceChannels(staleIDs);
      }
    }

    /** Takes the client out of the rooms of the list; `kept` are those the hub does not have. */
    method RemoveFromRooms(mine: set<string>, client: Client) returns (kept: set<string>)
      requires Valid()
      modifies rooms.Values
      ensures Valid()
      ensures RoomStates() == EmptyAll(old(RoomStates()), mine, client)
      ensures kept == mine - rooms.Keys
    {
      hide Emptied;
      ghost var before := RoomStates();
      var roomIDs := mine;
      kept := mine;
      while roomIDs != {}
        invariant roomIDs <= mine
        invariant kept == mine - ((mine - roomIDs) * rooms.Keys)
        invariant forall r :: r in rooms ==>
                    rooms[r].State() == if r in mine && r !in roomIDs then Emptied(before[r], client) else before[r]
      {
        var roomID :| roomID in roomIDs;
        roomIDs := roomIDs - {roomID};
        if roomID in rooms {
          RemoveFromRoom(rooms[roomID], client);
          kept := kept - {roomID};
        }
      }
    }

    method RemoveFromAllRooms(client: Client)
      requires Valid()
      modifies this`clientRooms, rooms.Values
      ensures Valid()
      ensures RoomStates() == EmptyAll(old(RoomStates()), RoomsOf(old(State()), client), client)
      ensures clientRooms == old(clientRooms)[client := RoomsOf(old(State()), client) - rooms.Keys]
    {
      var kept := RemoveFromRooms(if client in clientRooms then clientRooms[client] else {}, client);
      clientRooms := clientRooms[client := kept];
    }

    lemma RoomNames()
      ensures State().rooms.Keys == rooms.Keys
    {
    }

    method RemoveFromRoom(room: ServerRoom, client: Client)
      modifies room
      ensures room.State() == Emptied(old(room.State()), client)
    {
      hide LeaveVoice;
      var left := room.LeaveAllVoiceChannels(client);
      room.RemoveMember(client);
    }

    /** The unregister branch of the hub's loop. */
    method Unregister(client: Client)
      requires Valid() && client in clients
      modifies this, rooms.Values
      ensures Valid()
      ensures State() == Disconnect(old(State()), client)
    {
      hide ServerHub.RoomStates, ServerHub.Valid, DropAll, EmptyAll, Disconnect, OwnedBy;
      ghost var before := State();
      RoomNames();
      var staleIDs := TakeStalePeers(client, None);
      assert SetOf(staleIDs) == OwnedBy(before, client) by { Owners(before, client, SetOf(staleIDs)); }
      DropBleInAllRooms(staleIDs);
      ghost var mid := State();
      RemoveFromAllRooms(client);
      assert RoomsOf(mid, client) == RoomsOf(before, client);
      if client in clients {
        clients := clients - {client};
        clientsByID := clientsByID - {client.id};
      }
      DisconnectInParts(before, State(), client, mid.rooms);
    }
  }

  lemma Owners(h: Hub, c: Client, ids: set<string>)
    requires forall x :: x in ids <==> x in h.peers && h.peers[x].relay == c
    ensures ids == OwnedBy(h, c)
  {
  }

  ghost function PromoteAll(rooms: map<string, Room>, mine: set<string>, staleIDs: seq<string>, peer: BlePeer): map<string, Room>
  {
    map r | r in rooms :: if r in mine then PromoteEach(rooms[r], staleIDs, peer) else rooms[r]
  }

  lemma RegisterInParts(h: Hub, t: Hub, c: Client, id: string, order: seq<string>)
    requires t.clients == h.clients && t.byId == h.byId && t.joined == h.joined
    requires t.peers == (h.peers - SetOf(order))[id := BlePeer(id, c)]
    requires t.rooms == PromoteAll(h.rooms, RoomsOf(h, c), order, BlePeer(id, c))
    ensures t == RegisterPeer(h, c, id, order)
  {
    hide PromoteEach;
    assert t.rooms == RegisterPeer(h, c, id, order).rooms;
  }

  lemma DisconnectInParts(h: Hub, t: Hub, c: Client, dropped: map<string, Room>)
    requires t.clients == h.clients - {c} && t.byId == (if c in h.clients then h.byId - {c.id} else h.byId)
    requires t.peers == h.peers - OwnedBy(h, c) && t.joined == h.joined[c := RoomsOf(h, c) - h.rooms.Keys]
    requires dropped == DropAll(h.rooms, OwnedBy(h, c))
    requires t.rooms == EmptyAll(dropped, RoomsOf(h, c), c)
    ensures t == Disconnect(h, c)
  {
    hide DropBleEverywhere, LeaveAllVoice;
    assert t.rooms == Disconnect(h, c).rooms;
  }

  ghost function DropAll(rooms: map<string, Room>, ids: set<string>): map<string, Room>
  {
    map r | r in rooms :: DropBleEverywhere(rooms[r], ids)
  }

  ghost function EmptyAll(rooms: map<string, Room>, mine: set<string>, c: Client): map<string, Room>
  {
    map r | r in rooms :: if r in mine then Emptied(rooms[r], c) else rooms[r]
  }

  /** A room once the client has left its channels and the room itself. */
  ghost function Emptied(room: Room, c: Client): Room
  {
    LeaveAllVoice(room, c).(members := room.members - {c})
  }

  lemma SameHub(h: Hub, t: Hub)
    requires h.clients == t.clients && h.byId == t.byId && h.peers == t.peers && h.rooms == t.rooms && h.joined == t.joined
    ensures h == t
  {
  }

  lemma SetTwice(h: Hub, r: string, first: Room, second: Room)
    ensures SetRoom(h, r, first).rooms[r] == first
    ensures SetRoom(SetRoom(h, r, first), r, second) == SetRoom(h, r, second)
  {
    assert h.rooms[r := first][r := second] == h.rooms[r := second];
  }

  lemma OneEntry(before: map<string, Room>, now: map<string, Room>, r: string, room: Room)
    requires now.Keys == before.Keys && r in now && now[r] == room
    requires forall s :: s in before && s != r ==> now[s] == before[s]
    ensures now == before[r := room]
  {
  }

  lemma AddedMember(h: Hub, r: string, c: Client)
    requires r in h.rooms
    ensures InRoom(AddMember(h, r, c), c, r) && AddMember(h, r, c).rooms[r].dm == h.rooms[r].dm
  {
  }
}
