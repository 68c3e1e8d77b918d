/** A room of the server: members, voice channels, Bluetooth peers behind relays and their
    positions (room.go). A client stands for its connection and the id of its identity; display
    names are left out, and so are messages, which RoomHistory models. */
module HubRoom {
  import opened Basics

  datatype Client = Client(handle: nat, id: string)

  datatype BlePeer = BlePeer(peerId: string, relay: Client)

  datatype Voice = Voice(
    members: set<Client>, speaking: set<Client>, bleMembers: map<string, BlePeer>, bleSpeaking: set<string>)

  datatype Contact = Contact(senderId: string, position: nat)

  datatype Room = Room(
    members: set<Client>, voice: map<string, Voice>, cot: map<Client, nat>, bleCot: map<string, Contact>,
    dm: Option<(string, string)>, isPublic: bool)

  const QUIET := Voice({}, {}, map[], {})

  /** A new room has one voice channel, under a fresh id. */
  function NewRoom(channel: string): Room
  {
    Room({}, map[channel := QUIET], map[], map[], None, true)
  }

  // ---------- leaving ----------

  function LeaveVoice(v: Voice, c: Client): Voice
  {
    v.(members := v.members - {c}, speaking := v.speaking - {c})
  }

  function LeaveAllVoice(room: Room, c: Client): Room
  {
    room.(voice := map ch | ch in room.voice ::
            if c in room.voice[ch].members then LeaveVoice(room.voice[ch], c) else room.voice[ch])
  }

  function LeaveBle(v: Voice, id: string): Voice
  {
    v.(bleMembers := v.bleMembers - {id}, bleSpeaking := v.bleSpeaking - {id})
  }

  /** Ids that are not members of a channel keep whatever speaking mark they have there. */
  function DropBle(v: Voice, ids: set<string>): Voice
  {
    v.(bleMembers := v.bleMembers - ids, bleSpeaking := v.bleSpeaking - (ids * v.bleMembers.Keys))
  }

  function DropBleEverywhere(room: Room, ids: set<string>): Room
  {
    room.(voice := map ch | ch in room.voice :: DropBle(room.voice[ch], ids))
  }

  /** What UnregisterBlePeer does to one room. */
  function ForgetPeer(room: Room, id: string): Room
  {
    room.(voice := map ch | ch in room.voice :: LeaveBle(room.voice[ch], id), bleCot := room.bleCot - {id})
  }

  // ---------- promotion ----------

  function PromoteVoice(v: Voice, former: string, peer: BlePeer): Voice
  {
    v.(bleMembers := if former in v.bleMembers then (v.bleMembers - {former})[peer.peerId := peer] else v.bleMembers,
       bleSpeaking := if former in v.bleSpeaking then v.bleSpeaking - {former} + {peer.peerId} else v.bleSpeaking)
  }

  function PromoteCot(cot: map<string, Contact>, former: string, id: string): map<string, Contact>
  {
    if former in cot then (cot - {former})[id := cot[former].(senderId := id)] else cot
  }

  /** Room.PromoteBlePeer for one provisional id. */
  function Promote(room: Room, former: string, peer: BlePeer): Room
  {
    if former == "" || former == peer.peerId then room
    else
      room.(voice := map ch | ch in room.voice :: PromoteVoice(room.voice[ch], former, peer),
            bleCot := PromoteCot(room.bleCot, former, peer.peerId))
  }

  function PromoteEach(room: Room, formers: seq<string>, peer: BlePeer): Room
    decreases |formers|
  {
    if formers == [] then room else PromoteEach(Promote(room, formers[0], peer), formers[1..], peer)
  }

  // ---------- what every room keeps ----------

  ghost predicate VoiceOk(v: Voice, members: set<Client>)
  {
    v.members <= members && v.speaking <= v.members
    && v.bleSpeaking <= v.bleMembers.Keys
    && forall x :: x in v.bleMembers ==> v.bleMembers[x].peerId == x
  }

  ghost predicate RoomOk(room: Room)
  {
    (forall ch :: ch in room.voice ==> VoiceOk(room.voice[ch], room.members))
    && (forall x :: x in room.bleCot ==> room.bleCot[x].senderId == x)
    && (room.dm.Some? ==> forall m :: m in room.members ==> m.id == room.dm.value.0 || m.id == room.dm.value.1)
  }

  /** Everything that makes up a room apart from its voice channels and Bluetooth positions. */
  ghost predicate SameFrame(a: Room, b: Room)
  {
    a.members == b.members && a.cot == b.cot && a.dm == b.dm && a.isPublic == b.isPublic && a.voice.Keys == b.voice.Keys
  }

  lemma DroppingKeeps(room: Room, ids: set<string>)
    requires RoomOk(room)
    ensures RoomOk(DropBleEverywhere(room, ids)) && SameFrame(room, DropBleEverywhere(room, ids))
  {
  }

  lemma ForgettingKeeps(room: Room, id: string)
    requires RoomOk(room)
    ensures RoomOk(ForgetPeer(room, id)) && SameFrame(room, ForgetPeer(room, id))
  {
  }

  /** A client in no channel may leave the room. */
  lemma RemovalKeeps(room: Room, c: Client)
    requires RoomOk(room)
    ensures RoomOk(LeaveAllVoice(room, c).(members := room.members - {c}))
  {
    var t := LeaveAllVoice(room, c).(members := room.members - {c});
    forall ch | ch in t.voice ensures VoiceOk(t.voice[ch], t.members) {
      assert VoiceOk(room.voice[ch], room.members);
    }
  }

  lemma PromoteVoiceKeeps(v: Voice, members: set<Client>, former: string, peer: BlePeer)
    requires VoiceOk(v, members)
    ensures VoiceOk(PromoteVoice(v, former, peer), members)
  {
  }

  lemma PromoteKeeps(room: Room, former: string, peer: BlePeer)
    requires RoomOk(room)
    ensures RoomOk(Promote(room, former, peer)) && SameFrame(room, Promote(room, former, peer))
  {
    hide PromoteVoice, VoiceOk;
    if former != "" && former != peer.peerId {
      forall ch | ch in room.voice ensures VoiceOk(PromoteVoice(room.voice[ch], former, peer), room.members) {
        PromoteVoiceKeeps(room.voice[ch], room.members, former, peer);
      }
    }
  }

  lemma {:induction false} PromoteEachKeeps(room: Room, formers: seq<string>, peer: BlePeer)
    requires RoomOk(room)
    ensures RoomOk(PromoteEach(room, formers, peer)) && SameFrame(room, PromoteEach(room, formers, peer))
    decreases |formers|
  {
    hide RoomOk, Promote;
    if formers != [] {
      PromoteKeeps(room, formers[0], peer);
      PromoteEachKeeps(Promote(room, formers[0], peer), formers[1..], peer);
    }
  }

  // ---------- promotion conserves ----------

  /** Where a key is after promotion: the old ids are gone, the new one is exactly where it or an
      old one was, and every other one is where it was. */
  ghost predicate Moved(before: set<string>, after: set<string>, formers: seq<string>, id: string)
  {
    forall x :: x in after <==> if x == id then id in before || exists o :: o in formers && o in before
                                else x in before && x !in formers
  }

  ghost predicate VoiceMoved(v: Voice, t: Voice, formers: seq<string>, peer: BlePeer)
  {
    t.members == v.members && t.speaking == v.speaking
    && Moved(v.bleMembers.Keys, t.bleMembers.Keys, formers, peer.peerId)
    && Moved(v.bleSpeaking, t.bleSpeaking, formers, peer.peerId)
    && (forall x :: x in t.bleMembers && x != peer.peerId ==> t.bleMembers[x] == v.bleMembers[x])
    && (peer.peerId in t.bleMembers ==>
          t.bleMembers[peer.peerId] == peer || (peer.peerId in v.bleMembers && t.bleMembers[peer.peerId] == v.bleMembers[peer.peerId]))
  }

  /** The position is the one that the new id or one of the old ones had. */
  ghost predicate CameFrom(before: map<string, Contact>, position: nat, formers: seq<string>, id: string)
  {
    exists o :: o in before && (o == id || o in formers) && before[o].position == position
  }

  ghost predicate RoomMoved(room: Room, t: Room, formers: seq<string>, peer: BlePeer)
  {
    SameFrame(room, t)
    && (forall ch :: ch in room.voice ==> VoiceMoved(room.voice[ch], t.voice[ch], formers, peer))
    && Moved(room.bleCot.Keys, t.bleCot.Keys, formers, peer.peerId)
    && (forall x :: x in t.bleCot && x != peer.peerId ==> t.bleCot[x] == room.bleCot[x])
    && (peer.peerId in t.bleCot ==> CameFrom(room.bleCot, t.bleCot[peer.peerId].position, formers, peer.peerId))
  }

  lemma OneVoiceMoves(v: Voice, former: string, peer: BlePeer)
    requires former != peer.peerId
    ensures VoiceMoved(v, PromoteVoice(v, former, peer), [former], peer)
  {
  }

  lemma OneRoomMoves(room: Room, former: string, peer: BlePeer)
    requires former != "" && former != peer.peerId
    ensures RoomMoved(room, Promote(room, former, peer), [former], peer)
  {
    hide VoiceMoved, PromoteVoice;
    var t := Promote(room, former, peer);
    forall ch | ch in room.voice ensures VoiceMoved(room.voice[ch], t.voice[ch], [former], peer) {
      OneVoiceMoves(room.voice[ch], former, peer);
    }
  }

  lemma MovedTwice(a: set<string>, b: set<string>, c: set<string>, formers: seq<string>, id: string)
    requires formers != [] && id !in formers
    requires Moved(a, b, [formers[0]], id) && Moved(b, c, formers[1..], id)
    ensures Moved(a, c, formers, id)
  {
    var first, rest := formers[0], formers[1..];
    assert forall o :: o in formers <==> o == first || o in rest;
    assert forall o :: o in [first] <==> o == first;
    if o :| o in formers && o in a {
      assert o == first || o in b;
    }
    if o :| o in rest && o in b { assert o in formers && o in a; }
  }

  lemma VoiceMovedTwice(u: Voice, v: Voice, w: Voice, formers: seq<string>, peer: BlePeer)
    requires formers != [] && peer.peerId !in formers
    requires VoiceMoved(u, v, [formers[0]], peer) && VoiceMoved(v, w, formers[1..], peer)
    ensures VoiceMoved(u, w, formers, peer)
  {
    hide Moved;
    MovedTwice(u.bleMembers.Keys, v.bleMembers.Keys, w.bleMembers.Keys, formers, peer.peerId);
    MovedTwice(u.bleSpeaking, v.bleSpeaking, w.bleSpeaking, formers, peer.peerId);
    StillThere(v.bleMembers.Keys, w.bleMembers.Keys, formers[1..], peer.peerId);
  }

  lemma StillThere(a: set<string>, b: set<string>, formers: seq<string>, id: string)
    requires Moved(a, b, formers, id)
    ensures forall x :: x in b && x != id ==> x in a
  {
  }

  /** Promotion of any number of provisional ids, in whatever order they are taken. */
  lemma {:induction false} PromotionMoves(room: Room, formers: seq<string>, peer: BlePeer)
    requires "" !in formers && peer.peerId !in formers
    ensures RoomMoved(room, PromoteEach(room, formers, peer), formers, peer)
    decreases |formers|
  {
    hide VoiceMoved, Moved, Promote;
    if formers == [] {
      NothingMoves(room, peer);
    } else {
      var next := Promote(room, formers[0], peer);
      OneRoomMoves(room, formers[0], peer);
      PromotionMoves(next, formers[1..], peer);
      RoomMovedTwice(room, next, PromoteEach(room, formers, peer), formers, peer);
    }
  }

  lemma NothingMoves(room: Room, peer: BlePeer)
    ensures RoomMoved(room, room, [], peer)
  {
  }

  lemma RoomMovedTwice(a: Room, b: Room, c: Room, formers: seq<string>, peer: BlePeer)
    requires formers != [] && peer.peerId !in formers
    requires RoomMoved(a, b, [formers[0]], peer) && RoomMoved(b, c, formers[1..], peer)
    ensures RoomMoved(a, c, formers, peer)
  {
    hide VoiceMoved, Moved;
    forall ch | ch in a.voice ensures VoiceMoved(a.voice[ch], c.voice[ch], formers, peer) {
      VoiceMovedTwice(a.voice[ch], b.voice[ch], c.voice[ch], formers, peer);
    }
    CotMovedTwice(a, b, c, formers, peer);
  }

  lemma CotMovedTwice(a: Room, b: Room, c: Room, formers: seq<string>, peer: BlePeer)
    requires formers != [] && peer.peerId !in formers
    requires RoomMoved(a, b, [formers[0]], peer) && RoomMoved(b, c, formers[1..], peer)
    ensures Moved(a.bleCot.Keys, c.bleCot.Keys, formers, peer.peerId)
    ensures forall x :: x in c.bleCot && x != peer.peerId ==> c.bleCot[x] == a.bleCot[x]
    ensures peer.peerId in c.bleCot ==> CameFrom(a.bleCot, c.bleCot[peer.peerId].position, formers, peer.peerId)
  {
    hide VoiceMoved;
    var id := peer.peerId;
    MovedTwice(a.bleCot.Keys, b.bleCot.Keys, c.bleCot.Keys, formers, id);
    if id in c.bleCot {
      var o :| o in b.bleCot && (o == id || o in formers[1..]) && b.bleCot[o].position == c.bleCot[id].position;
      assert formers[0] in formers;
      if o == id {
        var q :| q in a.bleCot && (q == id || q in [formers[0]]) && a.bleCot[q].position == b.bleCot[id].position;
        assert q == id || q in formers;
      } else {
        assert o in formers && o in a.bleCot;
      }
    }
  }
}
