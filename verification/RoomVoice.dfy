/** A server room as an object whose methods change its maps in place (room.go). Loops over a map
    take its keys in any order. */
module RoomVoice {
  import opened Basics
  import opened HubRoom

  function SetOf(ids: seq<string>): set<string>
  {
    set x | x in ids
  }

  class ServerRoom {
    var members: set<Client>
    var voiceChannels: map<string, Voice>
    var cotPositions: map<Client, nat>
    var bleCotPositions: map<string, Contact>
    var dmParticipants: Option<(string, string)>
    var isPublic: bool

    function State(): Room
      reads this
    {
      Room(members, voiceChannels, cotPositions, bleCotPositions, dmParticipants, isPublic)
    }

    constructor (channelID: string)
      ensures State() == NewRoom(channelID)
    {
      members, voiceChannels, cotPositions, bleCotPositions := {}, map[channelID := QUIET], map[], map[];
      dmParticipants, isPublic := None, true;
    }

    method AddMember(c: Client)
      modifies this
      ensures State() == old(State()).(members := old(members) + {c})
    {
      members := members + {c};
    }

    method RemoveMember(c: Client)
      modifies this
      ensures State() == old(State()).(members := old(members) - {c})
    {
      members := members - {c};
    }

    /** Returns the channels the client was in. */
    method LeaveAllVoiceChannels(c: Client) returns (leftIDs: seq<string>)
      modifies this
      ensures State() == LeaveAllVoice(old(State()), c)
      ensures forall ch :: ch in leftIDs <==> ch in old(voiceChannels) && c in old(voiceChannels)[ch].members
    {
      leftIDs := [];
      var channels := voiceChannels.Keys;
      while channels != {}
        invariant channels <= voiceChannels.Keys == old(voiceChannels.Keys)
        invariant State() == old(State()).(voice := voiceChannels)
        invariant forall ch :: ch in channels ==> voiceChannels[ch] == old(voiceChannels)[ch]
        invariant forall ch :: ch in voiceChannels && ch !in channels ==>
                    voiceChannels[ch] == if c in old(voiceChannels)[ch].members then LeaveVoice(old(voiceChannels)[ch], c)
                                         else old(voiceChannels)[ch]
        invariant forall ch :: ch in leftIDs <==>
                    ch in old(voiceChannels) && ch !in channels && c in old(voiceChannels)[ch].members
      {
        var ch :| ch in channels;
        channels := channels - {ch};
        var vc := voiceChannels[ch];
        if c in vc.members {
          voiceChannels := voiceChannels[ch := vc.(members := vc.members - {c}, speaking := vc.speaking - {c})];
          leftIDs := leftIDs + [ch];
        }
      }
      assert voiceChannels == LeaveAllVoice(old(State()), c).voice;
    }

    /** Drops a set of Bluetooth ids from one channel, one after the other. */
    static method DropFromChannel(vc: Voice, idSet: set<string>) returns (t: Voice, removed: bool)
      ensures t == DropBle(vc, idSet)
      ensures removed <==> idSet * vc.bleMembers.Keys != {}
    {
      t, removed := vc, false;
      var ids := idSet;
      while ids != {}
        invariant ids <= idSet
        invariant t == DropBle(vc, idSet - ids)
        invariant removed <==> (idSet - ids) * vc.bleMembers.Keys != {}
      {
        var id :| id in ids;
        ids := ids - {id};
        ghost var before := idSet - ids - {id};
        assert idSet - ids == before + {id};
        assert id in t.bleMembers <==> id in vc.bleMembers;
        DropOneMore(vc, before, id);
        if id in t.bleMembers {
          t := t.(bleMembers := t.bleMembers - {id}, bleSpeaking := t.bleSpeaking - {id});
          removed := true;
          assert id in (idSet - ids) * vc.bleMembers.Keys;
        } else {
          assert (idSet - ids) * vc.bleMembers.Keys == before * vc.bleMembers.Keys;
        }
      }
      assert idSet - ids == idSet;
    }

    method LeaveAllBleVoiceChannels(peerIDs: seq<string>) returns (leftIDs: seq<string>)
      modifies this
      ensures State() == DropBleEverywhere(old(State()), SetOf(peerIDs))
      ensures forall ch :: ch in leftIDs <==>
                ch in old(voiceChannels) && SetOf(peerIDs) * old(voiceChannels)[ch].bleMembers.Keys != {}
    {
      leftIDs := [];
      if |peerIDs| == 0 {
        DropNone(State(), SetOf(peerIDs));
        return;
      }
      var idSet := SetOf(peerIDs);
      var channels := voiceChannels.Keys;
      while channels != {}
        invariant channels <= voiceChannels.Keys == old(voiceChannels.Keys)
        invariant State() == old(State()).(voice := voiceChannels)
        invariant forall ch :: ch in channels ==> voiceChannels[ch] == old(voiceChannels)[ch]
        invariant forall ch :: ch in voiceChannels && ch !in channels ==> voiceChannels[ch] == DropBle(old(voiceChannels)[ch], idSet)
        invariant forall ch :: ch in leftIDs <==>
                    ch in old(voiceChannels) && ch !in channels && idSet * old(voiceChannels)[ch].bleMembers.Keys != {}
      {
        hide DropBle;
        var ch :| ch in channels;
        channels := channels - {ch};
        var vc, removed := DropFromChannel(voiceChannels[ch], idSet);
        voiceChannels := voiceChannels[ch := vc];
        if removed {
          leftIDs := leftIDs + [ch];
        }
      }
      assert voiceChannels == DropBleEverywhere(old(State()), idSet).voice;
    }

    method LeaveBleVoiceChannel(channelID: string, peerID: string)
      modifies this
      ensures State() == old(State()).(voice := if channelID in old(voiceChannels)
                           then old(voiceChannels)[channelID := LeaveBle(old(voiceChannels)[channelID], peerID)] else old(voiceChannels))
    {
      if channelID in voiceChannels {
        var vc := voiceChannels[channelID];
        voiceChannels := voiceChannels[channelID :=
          vc.(bleMembers := vc.bleMembers - {peerID}, bleSpeaking := vc.bleSpeaking - {peerID})];
      }
    }

    method ClearBleCotPosition(senderID: string)
      modifies this
      ensures State() == old(State()).(bleCot := old(bleCotPositions) - {senderID})
    {
      bleCotPositions := bleCotPositions - {senderID};
    }

    method SetCotPosition(c: Client, position: nat)
      modifies this
      ensures State() == old(State()).(cot := old(cotPositions)[c := position])
    {
      cotPositions := cotPositions[c := position];
    }

    method SetBleCotPosition(senderID: string, position: nat)
      modifies this
      ensures State() == old(State()).(bleCot := old(bleCotPositions)[senderID := Contact(senderID, position)])
    {
      bleCotPositions := bleCotPositions[senderID := Contact(senderID, position)];
    }

    method SetVoiceChannel(channelID: string, vc: Voice)
      modifies this
      ensures State() == old(State()).(voice := old(voiceChannels)[channelID := vc])
    {
      voiceChannels := voiceChannels[channelID := vc];
    }

    /** The provisional id's membership, speaking mark and position go to the final id. */
    method PromoteBlePeer(oldPeerID: string, peer: BlePeer)
      modifies this
      ensures State() == Promote(old(State()), oldPeerID, peer)
    {
      if oldPeerID == "" || oldPeerID == peer.peerId {
        return;
      }
      var channels := voiceChannels.Keys;
      while channels != {}
        invariant channels <= voiceChannels.Keys == old(voiceChannels.Keys)
        invariant State() == old(State()).(voice := voiceChannels)
        invariant forall ch :: ch in channels ==> voiceChannels[ch] == old(voiceChannels)[ch]
        invariant forall ch :: ch in voiceChannels && ch !in channels ==>
                    voiceChannels[ch] == PromoteVoice(old(voiceChannels)[ch], oldPeerID, peer)
      {
        var ch :| ch in channels;
        channels := channels - {ch};
        var vc := voiceChannels[ch];
        if oldPeerID in vc.bleMembers {
          vc := vc.(bleMembers := vc.bleMembers - {oldPeerID});
          vc := vc.(bleMembers := vc.bleMembers[peer.peerId := peer]);
        }
        if oldPeerID in vc.bleSpeaking {
          vc := vc.(bleSpeaking := vc.bleSpeaking - {oldPeerID});
          vc := vc.(bleSpeaking := vc.bleSpeaking + {peer.peerId});
        }
        voiceChannels := voiceChannels[ch := vc];
      }
      assert voiceChannels == Promote(old(State()), oldPeerID, peer).voice;
      if oldPeerID in bleCotPositions {
        var contact := bleCotPositions[oldPeerID];
        bleCotPositions := bleCotPositions - {oldPeerID};
        contact := contact.(senderId := peer.peerId);
        bleCotPositions := bleCotPositions[peer.peerId := contact];
      }
    }
  }

  lemma DropOneMore(vc: Voice, ids: set<string>, id: string)
    ensures var t := DropBle(vc, ids);
            DropBle(vc, ids + {id}) == if id in vc.bleMembers then LeaveBle(t, id) else t
  {
    var t := DropBle(vc, ids);
    assert vc.bleMembers - (ids + {id}) == t.bleMembers - {id};
    assert id in vc.bleMembers ==> (ids + {id}) * vc.bleMembers.Keys == ids * vc.bleMembers.Keys + {id};
    assert id !in vc.bleMembers ==> (ids + {id}) * vc.bleMembers.Keys == ids * vc.bleMembers.Keys && t.bleMembers - {id} == t.bleMembers;
  }

  lemma DropNone(room: Room, ids: set<string>)
    requires ids == {}
    ensures DropBleEverywhere(room, ids) == room
    ensures forall ch :: ch in room.voice ==> ids * room.voice[ch].bleMembers.Keys == {}
  {
    forall ch | ch in room.voice ensures DropBle(room.voice[ch], ids) == room.voice[ch] {
      assert room.voice[ch].bleMembers - {} == room.voice[ch].bleMembers;
    }
    assert DropBleEverywhere(room, ids).voice == room.voice;
  }
}
