/** Fragmentation and reassembly of PeatBleService.kt: the packets a payload is cut into, and
    the receiver's buffers as a step function. */
module BleChunks {
  import opened Basics

  const CHUNKED: byte := 0x01
  const AUDIO_FRAME_PREFIX: byte := 0xAA
  const HEADER := 4
  const MIN_CHUNK_WRITE := 100
  const MAX_SENT_CHUNKS := 255
  const MAX_ACCEPTED_CHUNKS := 64

  // ---------- the sender ----------

  function ChunkCount(size: nat, room: nat): nat
    requires room > 0
  {
    (size + room - 1) / room
  }

  /** Chunk `k` of the payload when each chunk has `room` bytes for it. */
  function Piece(data: bytes, k: nat, room: nat): bytes
  {
    if k * room <= |data| then data[k * room..Min(k * room + room, |data|)] else []
  }

  predicate MustFragment(data: bytes, maxWrite: int)
  {
    |data| > maxWrite >= MIN_CHUNK_WRITE && data[0] != AUDIO_FRAME_PREFIX
  }

  function SentChunks(data: bytes, maxWrite: int): nat
    requires MustFragment(data, maxWrite)
  {
    Min(ChunkCount(|data|, maxWrite - HEADER), MAX_SENT_CHUNKS)
  }

  function Packet(data: bytes, maxWrite: int, id: byte, k: nat): bytes
    requires MustFragment(data, maxWrite) && k < SentChunks(data, maxWrite)
  {
    [CHUNKED, id, k, SentChunks(data, maxWrite)] + Piece(data, k, maxWrite - HEADER)
  }

  /** The packets broadcastToAllPeers hands to the write queue, in order. */
  function Packets(data: bytes, maxWrite: int, id: byte): seq<bytes>
  {
    if |data| <= maxWrite || maxWrite < MIN_CHUNK_WRITE then [data]
    else if data[0] == AUDIO_FRAME_PREFIX then []
    else seq(SentChunks(data, maxWrite), k requires 0 <= k < SentChunks(data, maxWrite) => Packet(data, maxWrite, id, k))
  }

  /** What is sent: the payload as it is if it fits one write, or if writes are too small to be chunked;
      nothing of an audio frame that does not fit; else as many packets as cover the payload, at most 255,
      each a header of four bytes and as much of the payload as fits. */
  lemma SentExactly(data: bytes, maxWrite: int, id: byte)
    ensures var ps := Packets(data, maxWrite, id);
            if |data| <= maxWrite || maxWrite < 100 then ps == [data]
            else if data[0] == 0xAA then ps == []
            else
              var room := maxWrite - 4;
              && 0 < |ps| <= 255 && (|ps| - 1) * room < |data| && (|data| <= |ps| * room || |ps| == 255)
              && forall k: nat :: k < |ps| ==>
                   ps[k][..4] == [0x01, id, k, |ps|] && k * room <= |data| && ps[k][4..] == data[k * room..Min(k * room + room, |data|)]
  {
    hide ChunkCount;
    if |data| > maxWrite >= 100 && data[0] != 0xAA {
      var room, n := maxWrite - HEADER, SentChunks(data, maxWrite);
      assert 0 < ChunkCount(|data|, room) by { SomeChunk(|data|, room); }
      ChunkStarts(|data|, room, 0);
      forall k: nat | k < n ensures k * room < |data| { ChunkStarts(|data|, room, k); }
    }
  }

  lemma SomeChunk(size: nat, room: nat)
    requires size > 0 && room > 0
    ensures ChunkCount(size, room) > 0
  {
  }

  /** Every chunk starts inside the payload, and the chunks reach its end. */
  lemma ChunkStarts(size: nat, room: nat, k: nat)
    requires room > 0 && k < ChunkCount(size, room)
    ensures k * room < size
    ensures size <= ChunkCount(size, room) * room
  {
    var n, r := ChunkCount(size, room), (size + room - 1) % room;
    assert size + room - 1 == n * room + r;
    MulMono(k + 1, n, room);
    assert (k + 1) * room == k * room + room;
  }

  lemma PacketFits(data: bytes, maxWrite: int, id: byte, k: nat)
    requires MustFragment(data, maxWrite) && k < SentChunks(data, maxWrite)
    ensures HEADER < |Packet(data, maxWrite, id, k)| <= maxWrite
  {
    ChunkStarts(|data|, maxWrite - HEADER, k);
  }

  function Pieces(data: bytes, room: nat, k: nat): (r: seq<bytes>)
    ensures |r| == k && forall i :: 0 <= i < k ==> r[i] == Piece(data, i, room)
  {
    if k == 0 then [] else Pieces(data, room, k - 1) + [Piece(data, k - 1, room)]
  }

  /** The pieces of a payload, put end to end, are the payload. */
  lemma {:induction false} PiecesJoin(data: bytes, room: nat, k: nat)
    requires room > 0 && k <= ChunkCount(|data|, room)
    ensures Flatten(Pieces(data, room, k)) == data[..Min(k * room, |data|)]
    decreases k
  {
    hide ChunkCount;
    if k > 0 {
      ChunkStarts(|data|, room, k - 1);
      PiecesJoin(data, room, k - 1);
      FlattenSnoc(Pieces(data, room, k - 1), Piece(data, k - 1, room));
      NextStart(k, room);
    }
  }

  lemma NextStart(k: nat, room: nat)
    requires k > 0
    ensures k * room == (k - 1) * room + room
  {
  }

  // ---------- the receiver ----------

  type Slots = seq<Option<bytes>>
  type Buffers = map<byte, Slots>

  predicate Full(slots: Slots)
  {
    forall i :: 0 <= i < |slots| ==> slots[i].Some?
  }

  function Assembled(slots: Slots): bytes
    requires Full(slots)
  {
    Flatten(seq(|slots|, i requires 0 <= i < |slots| => slots[i].value))
  }

  predicate IsChunk(p: bytes)
  {
    |p| >= HEADER && p[0] == CHUNKED
  }

  /** reassembleOrPassthrough: the buffers afterwards and the message delivered, if any. */
  function Receive(b: Buffers, p: bytes): (Buffers, Option<bytes>)
  {
    if !IsChunk(p) then (b, Some(p)) else
    var id, k, total := p[1], p[2], p[3];
    if total == 0 || total > MAX_ACCEPTED_CHUNKS || k >= total then (b, None) else
    var slots := if id in b then b[id] else seq(total, _ => None);
    if k >= |slots| then (b[id := slots], None) else
    var stored := slots[k := Some(p[HEADER..])];
    if Full(stored) then (b - {id}, Some(Assembled(stored)))
    else (b[id := stored], None)
  }

  function Feed(b: Buffers, arrivals: seq<bytes>): Buffers
    decreases |arrivals|
  {
    if |arrivals| == 0 then b else Feed(Receive(b, arrivals[0]).0, arrivals[1..])
  }

  // ---------- one message among any others ----------

  /** A packet that has nothing to do with chunk id `id`. */
  predicate Foreign(p: bytes, id: byte)
  {
    IsChunk(p) ==> p[1] != id
  }

  datatype Message = Message(data: bytes, maxWrite: int, id: byte) {
    predicate Valid()
    {
      MustFragment(data, maxWrite) && ChunkCount(|data|, maxWrite - HEADER) <= MAX_ACCEPTED_CHUNKS
    }

    function Count(): nat
      requires Valid()
    {
      SentChunks(data, maxWrite)
    }

    function Chunk(k: nat): bytes
      requires Valid() && k < Count()
    {
      Packet(data, maxWrite, id, k)
    }

    predicate Arrival(p: bytes)
      requires Valid()
    {
      Foreign(p, id) || exists k: nat :: k < Count() && p == Chunk(k)
    }

    /** Which chunks are among the arrivals. */
    ghost function Seen(arrivals: seq<bytes>): set<nat>
      requires Valid()
    {
      set k: nat | k < Count() && Chunk(k) in arrivals
    }

    ghost predicate Complete(seen: set<nat>)
      requires Valid()
    {
      forall k: nat :: k < Count() ==> k in seen
    }

    /** The receiver holds exactly the chunks in `seen`. */
    ghost predicate Holds(b: Buffers, seen: set<nat>)
      requires Valid()
    {
      if seen == {} then id !in b
      else id in b && |b[id]| == Count()
           && forall k: nat :: k < Count() ==> b[id][k] == if k in seen then Some(Chunk(k)[HEADER..]) else None
    }
  }

  lemma ChunkIsOurs(m: Message, k: nat)
    requires m.Valid() && k < m.Count()
    ensures var p := m.Chunk(k); IsChunk(p) && p[1] == m.id && p[2] == k && p[3] == m.Count() <= MAX_ACCEPTED_CHUNKS
    ensures m.Chunk(k)[HEADER..] == Piece(m.data, k, m.maxWrite - HEADER)
  {
    hide ChunkCount, Piece;
  }

  /** Another message's packet, or an unchunked one, leaves this message's buffer alone. */
  lemma ForeignKeeps(m: Message, b: Buffers, seen: set<nat>, p: bytes)
    requires m.Valid() && Foreign(p, m.id) && m.Holds(b, seen)
    ensures m.Holds(Receive(b, p).0, seen)
  {
  }

  /** A chunk that is not the last missing one is stored and nothing is delivered. */
  lemma ChunkStored(m: Message, b: Buffers, seen: set<nat>, k: nat)
    requires m.Valid() && k < m.Count() && m.Holds(b, seen) && !m.Complete(seen + {k})
    ensures Receive(b, m.Chunk(k)).1 == None
    ensures m.Holds(Receive(b, m.Chunk(k)).0, seen + {k})
  {
    ChunkIsOurs(m, k);
    var p := m.Chunk(k);
    var slots: Slots := if m.id in b then b[m.id] else seq(m.Count(), _ => None);
    var stored := slots[k := Some(p[HEADER..])];
    var j: nat :| j < m.Count() && j !in seen + {k};
    assert stored[j] == None;
    assert !Full(stored);
  }

  /** The last missing chunk delivers exactly the payload and clears the buffer. */
  lemma LastChunkDelivers(m: Message, b: Buffers, seen: set<nat>, k: nat)
    requires m.Valid() && k < m.Count() && m.Holds(b, seen) && m.Complete(seen + {k})
    ensures Receive(b, m.Chunk(k)).1 == Some(m.data)
    ensures m.id !in Receive(b, m.Chunk(k)).0
  {
    hide Packet, SentChunks, Piece, Pieces, Assembled;
    ChunkIsOurs(m, k);
    var slots: Slots := if m.id in b then b[m.id] else seq(m.Count(), _ => None);
    var stored := slots[k := Some(m.Chunk(k)[HEADER..])];
    forall i: nat | i < m.Count() ensures stored[i] == Some(Piece(m.data, i, m.maxWrite - HEADER)) {
      ChunkIsOurs(m, i);
      assert i in seen + {k};
    }
    FullBufferIsPayload(m, stored);
  }

  lemma FullBufferIsPayload(m: Message, stored: Slots)
    requires m.Valid() && |stored| == m.Count()
    requires forall i: nat :: i < m.Count() ==> stored[i] == Some(Piece(m.data, i, m.maxWrite - HEADER))
    ensures Full(stored) && Assembled(stored) == m.data
  {
    hide Piece;
    var room, n := m.maxWrite - HEADER, m.Count();
    var pieces := Pieces(m.data, room, n);
    assert seq(n, i requires 0 <= i < n => stored[i].value) == pieces;
    WholePayload(m);
  }

  /** Another sender's chunk under the same id: the buffers are kept by chunk id alone. */
  lemma ClashStored(m: Message, o: Message, b: Buffers, seen: set<nat>, k: nat)
    requires m.Valid() && o.Valid() && o.id == m.id && k < m.Count() && k < o.Count()
    requires m.Holds(b, seen) && seen != {} && k !in seen && m.Complete(seen + {k})
    ensures Receive(b, o.Chunk(k)).1 == Some(Flatten(Pieces(m.data, m.maxWrite - HEADER, m.Count())[k := Piece(o.data, k, o.maxWrite - HEADER)]))
    ensures m.id !in Receive(b, o.Chunk(k)).0
  {
    hide Packet, SentChunks, Piece, Pieces;
    ChunkIsOurs(o, k);
    var room := m.maxWrite - HEADER;
    var stored := b[m.id][k := Some(o.Chunk(k)[HEADER..])];
    var mixed := Pieces(m.data, room, m.Count())[k := Piece(o.data, k, o.maxWrite - HEADER)];
    forall i: nat | i < m.Count() ensures stored[i] == Some(mixed[i]) {
      ChunkIsOurs(m, i);
      if i != k { assert i in seen + {k}; }
    }
    assert Full(stored);
    assert seq(|stored|, i requires 0 <= i < |stored| => stored[i].value) == mixed;
  }

  /** When all chunks of a message but one have arrived and the missing one comes from another sender
      that uses the same chunk id, something is delivered: the message itself exactly if the two
      pieces are equal. */
  lemma SameIdMixes(m: Message, o: Message, b: Buffers, seen: set<nat>, k: nat)
    requires m.Valid() && o.Valid() && o.id == m.id && k < m.Count() && k < o.Count()
    requires m.Holds(b, seen) && seen != {} && k !in seen && m.Complete(seen + {k})
    ensures Receive(b, o.Chunk(k)).1.Some?
    ensures Receive(b, o.Chunk(k)).1 == Some(m.data) <==> Piece(o.data, k, o.maxWrite - HEADER) == Piece(m.data, k, m.maxWrite - HEADER)
  {
    hide Packet, SentChunks, Piece, Pieces, Receive;
    var room, n := m.maxWrite - HEADER, m.Count();
    var pieces, other := Pieces(m.data, room, n), Piece(o.data, k, o.maxWrite - HEADER);
    ClashStored(m, o, b, seen, k);
    WholePayload(m);
    OneReplaced(pieces, k, other);
  }

  lemma WholePayload(m: Message)
    requires m.Valid()
    ensures Flatten(Pieces(m.data, m.maxWrite - HEADER, m.Count())) == m.data
  {
    hide Piece;
    PiecesJoin(m.data, m.maxWrite - HEADER, m.Count());
    ChunkStarts(|m.data|, m.maxWrite - HEADER, 0);
    assert m.data[..|m.data|] == m.data;
  }

  /** Joined parts change exactly when one of them does. */
  lemma OneReplaced(parts: seq<bytes>, k: nat, other: bytes)
    requires k < |parts|
    ensures Flatten(parts[k := other]) == Flatten(parts) <==> other == parts[k]
  {
    var a, b := parts[..k], parts[k + 1..];
    assert parts == a + ([parts[k]] + b) && parts[k := other] == a + ([other] + b);
    FlattenConcat(a, [parts[k]] + b);
    FlattenConcat(a, [other] + b);
    FlattenConcat([parts[k]], b);
    FlattenConcat([other], b);
    assert Flatten([parts[k]]) == parts[k] && Flatten([other]) == other by { FlattenOne(parts[k]); FlattenOne(other); }
    Cancels(Flatten(a), parts[k], other, Flatten(b));
  }

  lemma Cancels(a: bytes, x: bytes, y: bytes, b: bytes)
    ensures a + (x + b) == a + (y + b) <==> x == y
  {
    if a + (x + b) == a + (y + b) {
      assert |x| == |y|;
      assert x == (a + (x + b))[|a|..|a| + |x|];
      assert y == (a + (y + b))[|a|..|a| + |y|];
    }
  }

  lemma SeenFirst(m: Message, k: nat, rest: seq<bytes>)
    requires m.Valid() && k < m.Count()
    ensures m.Seen([m.Chunk(k)] + rest) == {k} + m.Seen(rest)
  {
    hide Packet, SentChunks;
    forall i: nat | i < m.Count() && m.Chunk(k) == m.Chunk(i) ensures i == k {
      ChunkIsOurs(m, i);
      ChunkIsOurs(m, k);
    }
  }

  /** The buffers after any arrivals that do not complete the message: in any order, with any
      duplicates, interleaved with packets of other chunk ids and with unchunked packets. */
  lemma {:induction false} HoldsSeen(m: Message, b: Buffers, already: set<nat>, arrivals: seq<bytes>)
    requires m.Valid() && m.Holds(b, already)
    requires forall p :: p in arrivals ==> m.Arrival(p)
    requires !m.Complete(already + m.Seen(arrivals))
    ensures m.Holds(Feed(b, arrivals), already + m.Seen(arrivals))
    decreases |arrivals|
  {
    hide Receive, Packet, SentChunks, Message.Holds;
    if arrivals == [] {
      assert already + m.Seen(arrivals) == already;
    } else {
      var p, rest := arrivals[0], arrivals[1..];
      assert arrivals == [p] + rest && p in arrivals && m.Arrival(p);
      if k: nat :| k < m.Count() && p == m.Chunk(k) {
        SeenFirst(m, k, rest);
        assert already + m.Seen(arrivals) == (already + {k}) + m.Seen(rest);
        ChunkStored(m, b, already, k);
        HoldsSeen(m, Receive(b, p).0, already + {k}, rest);
      } else {
        assert m.Seen(arrivals) == m.Seen(rest);
        ForeignKeeps(m, b, already, p);
        HoldsSeen(m, Receive(b, p).0, already, rest);
      }
    }
  }

  /** The fragmentation round trip. After any arrivals that leave a chunk missing, a chunk that
      still leaves one missing delivers nothing, and the chunk that completes the message
      delivers exactly the payload and removes the buffer entry. */
  lemma FragmentationRoundTrip(m: Message, b: Buffers, arrivals: seq<bytes>, k: nat)
    requires m.Valid() && m.id !in b && k < m.Count()
    requires forall p :: p in arrivals ==> m.Arrival(p)
    requires !m.Complete(m.Seen(arrivals))
    ensures var (after, delivered) := Receive(Feed(b, arrivals), m.Chunk(k));
            if m.Complete(m.Seen(arrivals) + {k}) then delivered == Some(m.data) && m.id !in after
            else delivered == None && m.id in after
  {
    var seen := m.Seen(arrivals);
    assert {} + seen == seen;
    HoldsSeen(m, b, {}, arrivals);
    if m.Complete(seen + {k}) {
      LastChunkDelivers(m, Feed(b, arrivals), seen, k);
    } else {
      ChunkStored(m, Feed(b, arrivals), seen, k);
    }
  }

  // ---------- where the link loses a payload ----------

  /** The sender cuts up to 255 chunks, the receiver takes at most 64: every packet of a longer
      message is thrown away, so the message never arrives. */
  lemma TooManyChunksLost(data: bytes, maxWrite: int, id: byte, b: Buffers, k: nat)
    requires MustFragment(data, maxWrite) && k < SentChunks(data, maxWrite)
    requires ChunkCount(|data|, maxWrite - HEADER) > MAX_ACCEPTED_CHUNKS
    ensures Receive(b, Packet(data, maxWrite, id, k)) == (b, None)
  {
  }

  /** A payload sent in one write arrives unchanged unless it looks like a chunk itself. */
  lemma SingleWrite(data: bytes, maxWrite: int, id: byte, b: Buffers)
    requires |data| <= maxWrite
    ensures Packets(data, maxWrite, id) == [data]
    ensures (Receive(b, data) == (b, Some(data))) <==> !IsChunk(data)
  {
    if IsChunk(data) {
      ChunkNeverWhole(b, data);
    }
  }

  lemma ChunkNeverWhole(b: Buffers, p: bytes)
    requires IsChunk(p)
    ensures Receive(b, p) != (b, Some(p))
  {
    var id, k, total := p[1], p[2], p[3];
    if k < total <= MAX_ACCEPTED_CHUNKS {
      if id in b {
        assert id !in b - {id};
      } else {
        var stored: Slots := seq(total, _ => None)[k := Some(p[HEADER..])];
        if total > 1 {
          assert stored[if k == 0 then 1 else 0] == None;
        } else {
          assert stored == [Some(p[HEADER..])];
          SingleAssembled(p[HEADER..]);
        }
      }
    }
  }

  lemma SingleAssembled(x: bytes)
    ensures Assembled([Some(x)]) == x
  {
    var slots := [Some(x)];
    assert seq(|slots|, i requires 0 <= i < |slots| => slots[i].value) == [x];
    FlattenOne(x);
  }

  /** A duplicate that comes after completion opens a new buffer under the same id, which stays
      until the periodic clean-up or a later message with that id. */
  lemma LateDuplicateLingers(m: Message, b: Buffers, k: nat)
    requires m.Valid() && m.id !in b && k < m.Count()
    ensures var (after, delivered) := Receive(b, m.Chunk(k)); delivered == None && m.Holds(after, {k})
  {
    var other: nat := if k == 0 then 1 else 0;
    ManyChunks(m);
    assert other < m.Count() && other !in {} + {k};
    ChunkStored(m, b, {}, k);
    assert {} + {k} == {k};
  }

  lemma ManyChunks(m: Message)
    requires m.Valid()
    ensures m.Count() >= 2
  {
    var room := m.maxWrite - HEADER;
    var n := ChunkCount(|m.data|, room);
    if n > 0 {
      ChunkStarts(|m.data|, room, 0);
    }
  }
}
