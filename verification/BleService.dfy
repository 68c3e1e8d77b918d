/** The link layer of PeatBleService.kt as an object: the write queues, the chunk counter and
    the reassembly buffers are fields that the methods update. Writing a packet to the
    Bluetooth stack appends it to `wire`; a delayed coroutine is counted in `timers`. */
module BleService {
  import opened Basics
  import opened BleChunks
  import opened BleWriteQueue

  class PeatBleService {
    const negotiatedMtu: int
    var audioWriteQueue: seq<bytes>
    var dataWriteQueue: seq<bytes>
    var writeInFlight: bool
    var timers: nat
    var nextChunkId: byte
    var chunkBuffers: Buffers
    var pendingSendCount: nat
    var totalSent: nat
    var wire: seq<bytes>
    ghost var audioFates: seq<bool>
    ghost var dataFates: seq<bool>

    ghost function State(): Queues
      reads this
    {
      Queues(Lane(audioWriteQueue, audioFates), Lane(dataWriteQueue, dataFates), writeInFlight, timers, wire)
    }

    /** The two progress counters say what they are named after. */
    ghost predicate Counted()
      reads this
    {
      pendingSendCount == |audioWriteQueue| + |dataWriteQueue| && totalSent == |wire|
    }

    constructor (mtu: int)
      ensures State() == IDLE && Counted() && nextChunkId == 0 && chunkBuffers == map[] && negotiatedMtu == mtu
    {
      negotiatedMtu := mtu;
      audioWriteQueue, dataWriteQueue, wire := [], [], [];
      writeInFlight, timers, nextChunkId, chunkBuffers := false, 0, 0, map[];
      pendingSendCount, totalSent := 0, 0;
      audioFates, dataFates := [], [];
    }

    method DrainWriteQueue()
      modifies this`audioWriteQueue, this`dataWriteQueue, this`writeInFlight, this`timers, this`pendingSendCount,
               this`totalSent, this`wire, this`audioFates, this`dataFates
      ensures State() == Drain(old(State()))
      ensures old(Counted()) ==> Counted()
    {
      if writeInFlight {
        return;
      }
      var packet: bytes;
      if audioWriteQueue != [] {
        packet, audioWriteQueue := audioWriteQueue[0], audioWriteQueue[1..];
        audioFates := audioFates + [true];
      } else if dataWriteQueue != [] {
        packet, dataWriteQueue := dataWriteQueue[0], dataWriteQueue[1..];
        dataFates := dataFates + [true];
      } else {
        return;
      }
      writeInFlight := true;
      pendingSendCount := |audioWriteQueue| + |dataWriteQueue|;
      totalSent := totalSent + 1;
      wire := wire + [packet];
      timers := timers + 1;
    }

    method EnqueueForSend(packet: bytes)
      modifies this`audioWriteQueue, this`dataWriteQueue, this`writeInFlight, this`timers, this`pendingSendCount,
               this`totalSent, this`wire, this`audioFates, this`dataFates
      ensures State() == Enqueue(old(State()), packet)
      ensures old(Counted()) ==> Counted()
    {
      var isAudio := packet != [] && packet[0] == AUDIO_FRAME_PREFIX;
      if isAudio {
        while |audioWriteQueue| > AUDIO_TRIM
          invariant Trim(Lane(audioWriteQueue, audioFates), AUDIO_TRIM) == Trim(old(State()).audio, AUDIO_TRIM)
          invariant Lane(dataWriteQueue, dataFates) == old(State()).data && wire == old(wire) && totalSent == old(totalSent)
          invariant writeInFlight == old(writeInFlight) && timers == old(timers)
        {
          audioWriteQueue := audioWriteQueue[1..];
          audioFates := audioFates + [false];
        }
        audioWriteQueue := audioWriteQueue + [packet];
      } else {
        while |dataWriteQueue| > DATA_TRIM
          invariant Trim(Lane(dataWriteQueue, dataFates), DATA_TRIM) == Trim(old(State()).data, DATA_TRIM)
          invariant Lane(audioWriteQueue, audioFates) == old(State()).audio && wire == old(wire) && totalSent == old(totalSent)
          invariant writeInFlight == old(writeInFlight) && timers == old(timers)
        {
          dataWriteQueue := dataWriteQueue[1..];
          dataFates := dataFates + [false];
        }
        dataWriteQueue := dataWriteQueue + [packet];
      }
      pendingSendCount := |audioWriteQueue| + |dataWriteQueue|;
      DrainWriteQueue();
    }

    /** The coroutine launched by drainWriteQueue, when its delay is over. */
    method TimerFired()
      requires timers > 0
      modifies this`audioWriteQueue, this`dataWriteQueue, this`writeInFlight, this`timers, this`pendingSendCount,
               this`totalSent, this`wire, this`audioFates, this`dataFates
      ensures State() == Tick(old(State()))
      ensures old(Counted()) ==> Counted()
    {
      timers := timers - 1;
      writeInFlight := false;
      DrainWriteQueue();
    }

    method BroadcastToAllPeers(data: bytes)
      modifies this
      ensures State() == EnqueueAll(old(State()), Packets(data, negotiatedMtu - 3, old(nextChunkId)))
      ensures old(Counted()) ==> Counted()
      ensures chunkBuffers == old(chunkBuffers)
      ensures nextChunkId == if MustFragment(data, negotiatedMtu - 3) then (old(nextChunkId) as int + 1) % 0x100 else old(nextChunkId)
    {
      hide Enqueue, Packet, ChunkCount, Piece;
      var maxWrite := negotiatedMtu - 3;
      if |data| <= maxWrite {
        EnqueueForSend(data);
        EnqueueOne(old(State()), data);
        return;
      }
      if |data| > maxWrite && maxWrite < MIN_CHUNK_WRITE {
        EnqueueForSend(data);
        EnqueueOne(old(State()), data);
        return;
      }
      if |data| > 0 && data[0] == AUDIO_FRAME_PREFIX {
        return;
      }
      var chunkId: byte := nextChunkId;
      var following: byte := (chunkId as int + 1) % 0x100;
      nextChunkId := following;
      ghost var all := Packets(data, maxWrite, chunkId);
      var totalChunks := SentChunks(data, maxWrite);
      for k := 0 to totalChunks
        invariant State() == EnqueueAll(old(State()), all[..k])
        invariant old(Counted()) ==> Counted()
        invariant chunkBuffers == old(chunkBuffers) && nextChunkId == following
      {
        PacketBytes(data, maxWrite, chunkId, k);
        var packet := BuildChunk(data, maxWrite - HEADER, chunkId, k, totalChunks);
        EnqueueForSend(packet);
        EnqueueAllSnoc(old(State()), all[..k], packet);
        assert all[..k + 1] == all[..k] + [packet];
      }
      assert all[..totalChunks] == all;
    }

    /** reassembleOrPassthrough; null is `None`. */
    method ReassembleOrPassthrough(value: bytes) returns (message: Option<bytes>)
      modifies this`chunkBuffers
      ensures (chunkBuffers, message) == Receive(old(chunkBuffers), value)
    {
      hide Assembled;
      if |value| < HEADER || value[0] != CHUNKED {
        return Some(value);
      }
      var chunkId, seqNum, totalChunks := value[1], value[2], value[3];
      if totalChunks == 0 || totalChunks > MAX_ACCEPTED_CHUNKS || seqNum >= totalChunks {
        return None;
      }
      if chunkId !in chunkBuffers {
        chunkBuffers := chunkBuffers[chunkId := seq(totalChunks, _ => None)];
      }
      var chunks := chunkBuffers[chunkId];
      if seqNum >= |chunks| {
        assert chunkBuffers == old(chunkBuffers)[chunkId := chunks];
        return None;
      }
      chunks := chunks[seqNum := Some(value[HEADER..])];
      chunkBuffers := chunkBuffers[chunkId := chunks];
      if Full(chunks) {
        chunkBuffers := chunkBuffers - {chunkId};
        assert chunkBuffers == old(chunkBuffers) - {chunkId};
        var assembled := Assemble(chunks);
        return Some(assembled);
      }
      assert chunkBuffers == old(chunkBuffers)[chunkId := chunks];
      return None;
    }

    /** The periodic clean-up of stale buffers. */
    method ClearChunkBuffers()
      modifies this`chunkBuffers
      ensures chunkBuffers == map[]
    {
      chunkBuffers := map[];
    }
  }

  lemma EnqueueOne(s: Queues, p: bytes)
    ensures EnqueueAll(s, [p]) == Enqueue(s, p)
  {
    hide Enqueue;
    EnqueueAllSnoc(s, [], p);
    assert [] + [p] == [p];
  }

  lemma PacketBytes(data: bytes, maxWrite: int, id: byte, k: nat)
    requires MustFragment(data, maxWrite) && k < SentChunks(data, maxWrite)
    ensures var room := maxWrite - HEADER;
            k * room <= |data|
            && Packet(data, maxWrite, id, k) == [CHUNKED, id, k, SentChunks(data, maxWrite)] + Piece(data, k, room)
  {
    hide Piece;
    ChunkStarts(|data|, maxWrite - HEADER, k);
  }

  /** A chunk packet is a byte array of which the header is written first and the payload copied behind it. */
  method BuildChunk(data: bytes, room: nat, chunkId: byte, k: byte, total: byte) returns (packet: bytes)
    requires room > 0 && k * room <= |data|
    ensures packet == [CHUNKED, chunkId, k, total] + Piece(data, k, room)
  {
    var offset := k * room;
    var end := Min(offset + room, |data|);
    var chunkData := data[offset..end];
    packet := WithHeader(chunkId, k, total, chunkData);
  }

  method WithHeader(chunkId: byte, k: byte, total: byte, chunkData: bytes) returns (packet: bytes)
    ensures packet == [CHUNKED, chunkId, k, total] + chunkData
  {
    var a := new byte[HEADER + |chunkData|];
    a[0], a[1], a[2], a[3] := CHUNKED, chunkId, k, total;
    assert a[..HEADER] == [CHUNKED, chunkId, k, total];
    CopyInto(chunkData, a, HEADER);
    assert a[..HEADER + |chunkData|] == a[..];
    packet := a[..];
  }

  /** The chunks of a full buffer copied into one array at a moving offset. */
  method Assemble(chunks: Slots) returns (assembled: bytes)
    requires Full(chunks)
    ensures assembled == Assembled(chunks)
  {
    ghost var parts := seq(|chunks|, i requires 0 <= i < |chunks| => chunks[i].value);
    var total := 0;
    for i := 0 to |chunks|
      invariant total == |Flatten(parts[..i])|
    {
      total := total + |chunks[i].value|;
      assert parts[..i + 1] == parts[..i] + [chunks[i].value];
      FlattenSnoc(parts[..i], chunks[i].value);
    }
    assert parts[..|chunks|] == parts;
    var a := new byte[total];
    var offset := 0;
    for i := 0 to |chunks|
      invariant offset == |Flatten(parts[..i])| <= total
      invariant a[..offset] == Flatten(parts[..i])
    {
      var chunk := chunks[i].value;
      assert parts[..i + 1] == parts[..i] + [chunk];
      FlattenSnoc(parts[..i], chunk);
      assert parts == parts[..i + 1] + parts[i + 1..];
      FlattenConcat(parts[..i + 1], parts[i + 1..]);
      CopyInto(chunk, a, offset);
      offset := offset + |chunk|;
    }
    assembled := a[..];
  }

  method CopyInto(chunk: bytes, a: array<byte>, offset: nat)
    requires offset + |chunk| <= a.Length
    modifies a
    ensures a[..offset + |chunk|] == old(a[..offset]) + chunk
  {
    for i := 0 to |chunk|
      invariant a[..offset + i] == old(a[..offset]) + chunk[..i]
    {
      a[offset + i] := chunk[i];
    }
  }
}
