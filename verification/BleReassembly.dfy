/** What the receiver makes of any packets whatever that share a chunk id, by PeatBleService.kt: what
    the buffer of the id holds, what is delivered, and when that is a message as it was sent. */
module BleReassembly {
  import opened Basics
  import opened BleChunks

  type Chunk = p: bytes | IsChunk(p) witness [CHUNKED, 0, 0, 1]

  /** The packets that open the buffer of `id` or go into it. */
  predicate Accepted(p: bytes, id: byte)
  {
    IsChunk(p) && p[1] == id && 0 < p[3] <= MAX_ACCEPTED_CHUNKS && p[2] < p[3]
  }

  /** The payload of the last of some chunks that has number `i`. */
  function LastPiece(s: seq<Chunk>, i: nat): Option<bytes>
  {
    if s == [] then None
    else
      var p := s[|s| - 1];
      if p[2] == i then Some(p[HEADER..]) else LastPiece(s[..|s| - 1], i)
  }

  /** As many slots as the first chunk declares, each with the last piece of its number. */
  function Held(s: seq<Chunk>): (r: Slots)
    requires s != []
    ensures |r| == s[0][3]
  {
    seq(s[0][3], i requires 0 <= i < s[0][3] => LastPiece(s, i))
  }

  predicate Complete(s: seq<Chunk>)
  {
    s != [] && Full(Held(s))
  }

  /** The accepted chunks of `id` since its buffer was opened. */
  function Session(arrivals: seq<bytes>, id: byte): (s: seq<Chunk>)
    ensures !Complete(s)
  {
    if arrivals == [] then []
    else
      var s, p := Session(arrivals[..|arrivals| - 1], id), arrivals[|arrivals| - 1];
      if !Accepted(p, id) then s
      else if Complete(s + [p]) then []
      else s + [p]
  }

  /** The buffer of `id` is what the chunks say. */
  ghost predicate Follows(b: Buffers, s: seq<Chunk>, id: byte)
  {
    if s == [] then id !in b else id in b && b[id] == Held(s)
  }

  // ---------- the buffer follows the chunks ----------

  lemma LastPieceSnoc(s: seq<Chunk>, p: Chunk, i: nat)
    ensures LastPiece(s + [p], i) == if p[2] == i then Some(p[HEADER..]) else LastPiece(s, i)
  {
    assert (s + [p])[..|s|] == s;
  }

  lemma HeldSnoc(s: seq<Chunk>, p: Chunk)
    requires s != []
    ensures Held(s + [p]) == if p[2] < |Held(s)| then Held(s)[p[2] := Some(p[HEADER..])] else Held(s)
  {
    forall i: nat | i < s[0][3] ensures Held(s + [p])[i] == if p[2] == i then Some(p[HEADER..]) else Held(s)[i] {
      LastPieceSnoc(s, p, i);
    }
  }

  lemma HeldFirst(p: Chunk)
    requires p[2] < p[3]
    ensures Held([p]) == seq(p[3], _ => None)[p[2] := Some(p[HEADER..])]
  {
    forall i: nat | i < p[3] ensures Held([p])[i] == if p[2] == i then Some(p[HEADER..]) else None {
      LastPieceSnoc([], p, i);
      assert [] + [p] == [p];
    }
  }

  lemma NotAccepted(b: Buffers, s: seq<Chunk>, p: bytes, id: byte)
    requires Follows(b, s, id) && !Accepted(p, id)
    ensures Follows(Receive(b, p).0, s, id)
  {
    hide Held, Full, Assembled;
  }

  /** An accepted chunk joins the others; the one that completes them delivers the pieces joined,
      and the buffer is gone. */
  lemma AcceptedStored(b: Buffers, s: seq<Chunk>, p: Chunk, id: byte)
    requires Follows(b, s, id) && !Complete(s) && Accepted(p, id)
    ensures var (after, delivered) := Receive(b, p);
            if Complete(s + [p]) then delivered == Some(Assembled(Held(s + [p]))) && id !in after
            else delivered == None && Follows(after, s + [p], id)
  {
    hide Held, Full, Assembled;
    if s == [] {
      assert s + [p] == [p];
      HeldFirst(p);
    } else {
      HeldSnoc(s, p);
    }
  }

  lemma {:induction false} FeedSnoc(b: Buffers, arrivals: seq<bytes>, p: bytes)
    ensures Feed(b, arrivals + [p]) == Receive(Feed(b, arrivals), p).0
    decreases |arrivals|
  {
    hide Receive;
    if arrivals == [] {
      assert arrivals + [p] == [p];
      assert Feed(Receive(b, p).0, []) == Receive(b, p).0;
    } else {
      assert (arrivals + [p])[0] == arrivals[0] && (arrivals + [p])[1..] == arrivals[1..] + [p];
      FeedSnoc(Receive(b, arrivals[0]).0, arrivals[1..], p);
    }
  }

  /** Whatever packets arrive, from any senders and with any headers: there is a buffer for the id
      exactly if an accepted chunk came since the last completion; it has as many slots as the chunk
      that opened it declares, and each slot holds the last piece of its number since then. */
  lemma {:induction false} BufferExactly(b: Buffers, arrivals: seq<bytes>, id: byte)
    requires id !in b
    ensures Follows(Feed(b, arrivals), Session(arrivals, id), id)
    decreases |arrivals|
  {
    hide Receive, Accepted, Complete, Held;
    if arrivals != [] {
      var init, p := arrivals[..|arrivals| - 1], arrivals[|arrivals| - 1];
      assert arrivals == init + [p];
      BufferExactly(b, init, id);
      FeedSnoc(b, init, p);
      if Accepted(p, id) {
        assert IsChunk(p) by { IsAccepted(p, id); }
        AcceptedStored(Feed(b, init), Session(init, id), p, id);
      } else {
        NotAccepted(Feed(b, init), Session(init, id), p, id);
      }
    }
  }

  lemma IsAccepted(p: bytes, id: byte)
    requires Accepted(p, id)
    ensures IsChunk(p)
  {
  }

  // ---------- what is delivered ----------

  /** The pieces of a complete set of chunks, in the order of their numbers. */
  function Parts(s: seq<Chunk>): (r: seq<bytes>)
    requires Complete(s)
    ensures |r| == s[0][3] && forall i: nat :: i < |r| ==> Some(r[i]) == LastPiece(s, i)
    ensures Assembled(Held(s)) == Flatten(r)
  {
    var slots := Held(s);
    seq(|slots|, i requires 0 <= i < |slots| => slots[i].value)
  }

  /** Something is delivered exactly when an accepted chunk leaves no slot empty, and then it is the
      pieces in the slots, joined. */
  lemma DeliveredExactly(b: Buffers, arrivals: seq<bytes>, p: Chunk, id: byte)
    requires id !in b && p[1] == id
    ensures var delivered := Receive(Feed(b, arrivals), p).1; var s := Session(arrivals, id) + [p];
            delivered == if Accepted(p, id) && Complete(s) then Some(Flatten(Parts(s))) else None
  {
    hide Complete, Held, Follows, Assembled, Session;
    BufferExactly(b, arrivals, id);
    if Accepted(p, id) {
      AcceptedStored(Feed(b, arrivals), Session(arrivals, id), p, id);
    }
  }

  /** Where part `i` starts when the parts are joined. */
  function Start(parts: seq<bytes>, i: nat): nat
    requires i <= |parts|
  {
    |Flatten(parts[..i])|
  }

  /** The parts are slices of the data, each from where the one before it ends, up to the end. */
  ghost predicate CutFrom(parts: seq<bytes>, data: bytes)
  {
    Start(parts, |parts|) == |data|
    && forall i: nat :: i < |parts| ==> SliceAt(parts, i, data)
  }

  ghost predicate SliceAt(parts: seq<bytes>, i: nat, data: bytes)
    requires i < |parts|
  {
    Start(parts, i) + |parts[i]| <= |data| && parts[i] == data[Start(parts, i)..Start(parts, i) + |parts[i]|]
  }

  /** All parts but the last are of the same length, and the last is not longer and not empty. */
  ghost predicate Even(parts: seq<bytes>, room: nat)
  {
    parts != []
    && 0 < |parts[|parts| - 1]| <= room
    && forall i: nat :: i < |parts| - 1 ==> |parts[i]| == room
  }

  lemma SplitAt(parts: seq<bytes>, i: nat)
    requires i < |parts|
    ensures Flatten(parts) == Flatten(parts[..i]) + parts[i] + Flatten(parts[i + 1..])
    ensures Start(parts, i + 1) == Start(parts, i) + |parts[i]|
    ensures Flatten(parts[..i + 1]) == Flatten(parts[..i]) + parts[i]
  {
    assert parts[..i + 1] == parts[..i] + [parts[i]];
    FlattenSnoc(parts[..i], parts[i]);
    assert parts == parts[..i + 1] + parts[i + 1..];
    FlattenConcat(parts[..i + 1], parts[i + 1..]);
  }

  lemma {:induction false} JoinedSlices(parts: seq<bytes>, data: bytes, n: nat)
    requires n <= |parts| && Start(parts, n) <= |data|
    requires forall i: nat :: i < n ==> SliceAt(parts, i, data)
    ensures Flatten(parts[..n]) == data[..Start(parts, n)]
    decreases n
  {
    if n > 0 {
      SplitAt(parts, n - 1);
      assert SliceAt(parts, n - 1, data);
      JoinedSlices(parts, data, n - 1);
    }
  }

  lemma JoinedExactly(parts: seq<bytes>, data: bytes)
    ensures Flatten(parts) == data <==> CutFrom(parts, data)
  {
    assert parts[..|parts|] == parts;
    if CutFrom(parts, data) {
      JoinedSlices(parts, data, |parts|);
    }
    if Flatten(parts) == data {
      forall i: nat | i < |parts| ensures SliceAt(parts, i, data) {
        SplitAt(parts, i);
      }
    }
  }

  lemma {:induction false} EvenStart(parts: seq<bytes>, room: nat, k: nat)
    requires Even(parts, room) && k < |parts|
    ensures Start(parts, k) == k * room
    decreases k
  {
    if k > 0 {
      EvenStart(parts, room, k - 1);
      SplitAt(parts, k - 1);
      NextStart(k, room);
    }
  }

  /** There is one way to cut data evenly: the sender's. */
  lemma EvenIsPieces(parts: seq<bytes>, data: bytes, room: nat)
    requires room > 0 && data != []
    ensures Even(parts, room) && Flatten(parts) == data <==> parts == Pieces(data, room, ChunkCount(|data|, room))
  {
    if Even(parts, room) && Flatten(parts) == data {
      EvenPieces(parts, data, room);
    }
    if parts == Pieces(data, room, ChunkCount(|data|, room)) {
      PiecesEven(data, room);
      AllPieces(data, room);
    }
  }

  lemma AllPieces(data: bytes, room: nat)
    requires room > 0 && data != []
    ensures Flatten(Pieces(data, room, ChunkCount(|data|, room))) == data
  {
    PiecesJoin(data, room, ChunkCount(|data|, room));
    SomeChunk(|data|, room);
    ChunkStarts(|data|, room, 0);
    assert data[..|data|] == data;
  }

  /** The number of chunks is the only one by which the last chunk starts inside and reaches the end. */
  lemma CountExactly(size: nat, room: nat, n: nat)
    requires 0 < room && 0 < n && (n - 1) * room < size <= n * room
    ensures ChunkCount(size, room) == n
  {
    NextStart(n, room);
    var r := size - 1 - (n - 1) * room;
    assert size + room - 1 == n * room + r;
    DivUnique(size + room - 1, n, r, room);
  }

  lemma EvenPieces(parts: seq<bytes>, data: bytes, room: nat)
    requires room > 0 && Even(parts, room) && Flatten(parts) == data
    ensures parts == Pieces(data, room, ChunkCount(|data|, room))
  {
    hide ChunkCount, Piece;
    var n := |parts|;
    forall k: nat | k < n ensures parts[k] == Piece(data, k, room) {
      EvenPiece(parts, room, k);
    }
    EvenStart(parts, room, n - 1);
    SplitAt(parts, n - 1);
    assert parts[n..] == [];
    NextStart(n, room);
    CountExactly(|data|, room, n);
  }

  lemma EvenPiece(parts: seq<bytes>, room: nat, k: nat)
    requires room > 0 && Even(parts, room) && k < |parts|
    ensures parts[k] == Piece(Flatten(parts), k, room)
  {
    EvenStart(parts, room, k);
    SplitAt(parts, k);
    if k == |parts| - 1 { assert parts[k + 1..] == []; }
  }

  lemma PieceLength(data: bytes, k: nat, room: nat)
    requires k * room <= |data|
    ensures |Piece(data, k, room)| == Min(room, |data| - k * room)
  {
  }

  lemma PiecesEven(data: bytes, room: nat)
    requires room > 0 && data != []
    ensures Even(Pieces(data, room, ChunkCount(|data|, room)), room)
  {
    hide ChunkCount, Piece;
    var n := ChunkCount(|data|, room);
    SomeChunk(|data|, room);
    ChunkStarts(|data|, room, n - 1);
    NextStart(n, room);
    PieceLength(data, n - 1, room);
    forall i: nat | i < n - 1 ensures |Piece(data, i, room)| == room {
      InnerPiece(data, i, room);
    }
  }

  lemma InnerPiece(data: bytes, i: nat, room: nat)
    requires room > 0 && i + 1 < ChunkCount(|data|, room)
    ensures |Piece(data, i, room)| == room
  {
    hide ChunkCount, Piece;
    ChunkStarts(|data|, room, i + 1);
    NextStart(i + 1, room);
    PieceLength(data, i, room);
  }

  // ---------- when it is a message as it was sent ----------

  /** The buffer is opened for as many chunks as the message has, and the last piece of every
      number is the message's own, whoever sent it. */
  ghost predicate OwnPieces(m: Message, s: seq<Chunk>)
    requires m.Valid()
  {
    s != [] && s[0][3] == m.Count()
    && forall i: nat :: i < m.Count() ==> LastPiece(s, i) == Some(Piece(m.data, i, m.maxWrite - HEADER))
  }

  /** A message is delivered as it was sent exactly if the pieces in the slots are slices of it, each
      from the end of the one before. If they are cut evenly to the message's size, that is so
      exactly if the opening chunk declares the message's count and every last piece is its own. */
  lemma IntactExactly(m: Message, b: Buffers, arrivals: seq<bytes>, p: Chunk)
    requires m.Valid() && m.id !in b && Accepted(p, m.id)
    ensures var delivered := Receive(Feed(b, arrivals), p).1; var s := Session(arrivals, m.id) + [p];
            && (delivered == Some(m.data) <==> Complete(s) && CutFrom(Parts(s), m.data))
            && (delivered == Some(m.data) && Even(Parts(s), m.maxWrite - HEADER) <==> OwnPieces(m, s))
  {
    hide Receive, Feed, Session, Complete, Parts, Even, CutFrom, Accepted, OwnPieces, Message.Valid;
    var s := Session(arrivals, m.id) + [p];
    DeliveredExactly(b, arrivals, p, m.id) by { Numbered(p, m.id); }
    if Complete(s) {
      JoinedExactly(Parts(s), m.data);
      OwnExactly(m, s);
    } else if OwnPieces(m, s) {
      OwnComplete(m, s);
    }
  }

  lemma Numbered(p: Chunk, id: byte)
    requires Accepted(p, id)
    ensures p[1] == id
  {
  }

  lemma OwnComplete(m: Message, s: seq<Chunk>)
    requires m.Valid() && OwnPieces(m, s)
    ensures Complete(s)
  {
    hide Message.Valid, Message.Count, Piece;
  }

  lemma OwnExactly(m: Message, s: seq<Chunk>)
    requires m.Valid() && Complete(s)
    ensures Flatten(Parts(s)) == m.data && Even(Parts(s), m.maxWrite - HEADER) <==> OwnPieces(m, s)
  {
    hide Even, Piece, Complete, ChunkCount;
    var room := m.maxWrite - HEADER;
    var parts, pieces := Parts(s), Pieces(m.data, room, m.Count());
    EvenIsPieces(parts, m.data, room);
    if OwnPieces(m, s) {
      forall i: nat | i < |parts| ensures parts[i] == pieces[i] {
        assert Some(parts[i]) == LastPiece(s, i);
      }
      assert parts == pieces;
    }
    if parts == pieces {
      assert s != [];
      forall i: nat | i < m.Count() ensures LastPiece(s, i) == Some(Piece(m.data, i, room)) {
        assert Some(parts[i]) == LastPiece(s, i);
      }
    }
  }

  /** A chunk of some message cut to `maxWrite` and into `count` chunks. */
  ghost predicate CutAlike(q: Chunk, maxWrite: int, count: nat)
  {
    exists o: Message, k: nat ::
      o.Valid() && o.maxWrite == maxWrite && o.Count() == count && k < count && q == o.Chunk(k)
  }

  /** Among messages of one write size and one number of chunks, in whatever order and however often
      their chunks come, the message is delivered exactly if every last piece is its own. */
  lemma AlikeIntactExactly(m: Message, b: Buffers, arrivals: seq<bytes>, p: Chunk)
    requires m.Valid() && m.id !in b && Accepted(p, m.id)
    requires var s := Session(arrivals, m.id) + [p]; forall q :: q in s ==> CutAlike(q, m.maxWrite, s[0][3])
    ensures Receive(Feed(b, arrivals), p).1 == Some(m.data) <==> OwnPieces(m, Session(arrivals, m.id) + [p])
  {
    hide Receive, Feed, Session, Complete, Parts, Even, CutFrom, Accepted, OwnPieces, CutAlike;
    var s := Session(arrivals, m.id) + [p];
    IntactExactly(m, b, arrivals, p);
    if Complete(s) {
      AlikeEven(s, m.maxWrite);
    }
  }

  lemma AlikeEven(s: seq<Chunk>, maxWrite: int)
    requires Complete(s) && forall q :: q in s ==> CutAlike(q, maxWrite, s[0][3])
    requires maxWrite >= MIN_CHUNK_WRITE
    ensures Even(Parts(s), maxWrite - HEADER)
  {
    hide CutAlike, Full, LastPiece;
    var parts, n := Parts(s), s[0][3];
    forall i: nat | i < n ensures 0 < |parts[i]| <= maxWrite - HEADER && (i < n - 1 ==> |parts[i]| == maxWrite - HEADER) {
      assert Some(parts[i]) == LastPiece(s, i);
      var q := LastAmong(s, i);
      AlikeLength(q, maxWrite, n);
    }
    AlikeLength(s[0], maxWrite, n);
  }

  ghost function LastAmong(s: seq<Chunk>, i: nat): (q: Chunk)
    requires LastPiece(s, i).Some?
    ensures q in s && q[2] == i && LastPiece(s, i) == Some(q[HEADER..])
  {
    if s[|s| - 1][2] == i then s[|s| - 1] else LastAmong(s[..|s| - 1], i)
  }

  lemma AlikeLength(q: Chunk, maxWrite: int, n: nat)
    requires CutAlike(q, maxWrite, n)
    ensures var room := maxWrite - HEADER; n > 0 && 0 < |q[HEADER..]| <= room && (q[2] < n - 1 ==> |q[HEADER..]| == room)
  {
    hide ChunkCount, Piece;
    var o: Message, k: nat :|
      o.Valid() && o.maxWrite == maxWrite && o.Count() == n && k < n && q == o.Chunk(k);
    var room := maxWrite - HEADER;
    ChunkIsOurs(o, k);
    ChunkStarts(|o.data|, room, k);
    PieceLength(o.data, k, room);
    if k < n - 1 {
      InnerPiece(o.data, k, room);
    }
  }

  // ---------- an old chunk before the message ----------

  /** What the arrivals deliver, in order. */
  function Delivered(b: Buffers, arrivals: seq<bytes>): seq<bytes>
  {
    if arrivals == [] then []
    else
      var init := arrivals[..|arrivals| - 1];
      Delivered(b, init)
      + match Receive(Feed(b, init), arrivals[|arrivals| - 1]).1 { case Some(x) => [x] case None => [] }
  }

  /** The chunks of a message from number `first` to before number `end`, in order. */
  function Run(m: Message, first: nat, end: nat): (r: seq<Chunk>)
    requires m.Valid() && first <= end <= m.Count()
    ensures |r| == end - first && forall i: nat :: i < |r| ==> r[i] == m.Chunk(first + i)
    decreases end
  {
    if first == end then [] else Run(m, first, end - 1) + [m.Chunk(end - 1)]
  }

  ghost predicate Without(s: seq<Chunk>, id: byte, missing: nat)
  {
    (forall q :: q in s ==> Accepted(q, id) && q[2] != missing)
    && (s != [] ==> missing < s[0][3])
  }

  lemma {:induction false} NeverNumbered(s: seq<Chunk>, i: nat)
    requires forall q :: q in s ==> q[2] != i
    ensures LastPiece(s, i) == None
  {
    if s != [] { NeverNumbered(s[..|s| - 1], i); }
  }

  lemma Incomplete(s: seq<Chunk>, id: byte, missing: nat)
    requires Without(s, id, missing)
    ensures !Complete(s)
  {
    if s != [] {
      NeverNumbered(s, missing);
      assert Held(s)[missing] == None;
    }
  }

  /** After a completion, chunks that leave a number out deliver nothing. */
  lemma {:induction false} Quiet(b: Buffers, before: seq<bytes>, more: seq<Chunk>, id: byte, missing: nat)
    requires id !in b && Session(before, id) == [] && Without(more, id, missing)
    ensures Session(before + more, id) == more && Delivered(b, before + more) == Delivered(b, before)
    decreases |more|
  {
    hide Receive, Feed, Complete, Accepted;
    if more == [] {
      assert before + more == before;
    } else {
      var init, p := more[..|more| - 1], more[|more| - 1];
      assert before + more == (before + init) + [p] && more == init + [p];
      assert ((before + more)[..|before + more| - 1]) == before + init;
      Quiet(b, before, init, id, missing);
      Incomplete(more, id, missing);
      DeliveredExactly(b, before + init, p, id) by { Numbered(p, id); }
    }
  }

  lemma Completes(b: Buffers, before: seq<bytes>, p: Chunk, id: byte)
    requires id !in b && Accepted(p, id) && Complete(Session(before, id) + [p])
    ensures Session(before + [p], id) == []
    ensures Delivered(b, before + [p]) == Delivered(b, before) + [Flatten(Parts(Session(before, id) + [p]))]
  {
    hide Receive, Feed, Complete, Accepted;
    assert (before + [p])[..|before|] == before;
    DeliveredExactly(b, before, p, id) by { Numbered(p, id); }
  }

  /** How many chunks of another message complete the buffer that chunk `j` of `total` opened. */
  function Needed(total: nat, j: nat): nat
    requires j < total
  {
    if j == total - 1 then total - 1 else total
  }

  lemma OldFirstWithout(m: Message, o: Message, j: nat, k: nat)
    requires m.Valid() && o.Valid() && o.id == m.id && j < o.Count() && k <= m.Count() && k < Needed(o.Count(), j)
    ensures Without([o.Chunk(j)] + Run(m, 0, k), m.id, Needed(o.Count(), j) - 1)
  {
    hide Packet, SentChunks;
    var s := [o.Chunk(j)] + Run(m, 0, k);
    ChunkIsOurs(o, j);
    forall q | q in s ensures Accepted(q, m.id) && q[2] != Needed(o.Count(), j) - 1 {
      if q in Run(m, 0, k) {
        var i: nat :| i < k && q == Run(m, 0, k)[i];
        ChunkIsOurs(m, i);
      }
    }
  }

  lemma LaterRunWithout(m: Message, from: nat)
    requires m.Valid() && 0 < from <= m.Count()
    ensures Without(Run(m, from, m.Count()), m.id, 0)
  {
    hide Packet, SentChunks;
    var s := Run(m, from, m.Count());
    forall q | q in s ensures Accepted(q, m.id) && q[2] != 0 {
      var i: nat :| i < |s| && q == s[i];
      ChunkIsOurs(m, from + i);
    }
    if s != [] { ChunkIsOurs(m, from); }
  }

  lemma {:induction false} RunPieces(m: Message, x: Chunk, k: nat, i: nat)
    requires m.Valid() && k <= m.Count()
    ensures LastPiece([x] + Run(m, 0, k), i)
         == if i < k then Some(Piece(m.data, i, m.maxWrite - HEADER)) else LastPiece([x], i)
    decreases k
  {
    hide Packet, SentChunks, Piece, LastPiece;
    if k == 0 {
      assert [x] + Run(m, 0, k) == [x];
    } else {
      ChunkIsOurs(m, k - 1);
      assert [x] + Run(m, 0, k) == ([x] + Run(m, 0, k - 1)) + [m.Chunk(k - 1)];
      LastPieceSnoc([x] + Run(m, 0, k - 1), m.Chunk(k - 1), i);
      RunPieces(m, x, k - 1, i);
    }
  }

  function OldPiece(o: Message, j: nat): seq<bytes>
    requires o.Valid() && j < o.Count()
  {
    if j == o.Count() - 1 then [Piece(o.data, j, o.maxWrite - HEADER)] else []
  }

  lemma OldFirstParts(m: Message, o: Message, j: nat)
    requires m.Valid() && o.Valid() && o.id == m.id && j < o.Count() && Needed(o.Count(), j) <= m.Count()
    ensures var k := Needed(o.Count(), j); var s := [o.Chunk(j)] + Run(m, 0, k);
            Complete(s) && Parts(s) == Pieces(m.data, m.maxWrite - HEADER, k) + OldPiece(o, j)
  {
    hide Packet, SentChunks, Piece, Pieces;
    var x, k := o.Chunk(j), Needed(o.Count(), j);
    var s := [x] + Run(m, 0, k);
    var parts := Pieces(m.data, m.maxWrite - HEADER, k) + OldPiece(o, j);
    ChunkIsOurs(o, j);
    forall i: nat | i < o.Count() ensures LastPiece(s, i) == Some(parts[i]) {
      RunPieces(m, x, k, i);
      if i >= k {
        LastPieceSnoc([], x, i);
        assert [] + [x] == [x];
      }
    }
    assert Complete(s);
    assert Parts(s) == parts;
  }

  /** An old chunk opens the buffer, then all chunks of a message with the same chunk id come in order.
      At most one payload is delivered: the pieces of the message as far as the old chunk's count
      needs them, and after them the old piece if its number is the last of that count. */
  lemma OldChunkFirst(m: Message, o: Message, b: Buffers, j: nat)
    requires m.Valid() && o.Valid() && o.id == m.id && m.id !in b && j < o.Count()
    ensures var room, k := m.maxWrite - HEADER, Needed(o.Count(), j);
            Delivered(b, [o.Chunk(j)] + Run(m, 0, m.Count()))
            == if k <= m.Count() then [m.data[..Min(k * room, |m.data|)] + Flatten(OldPiece(o, j))] else []
  {
    hide Receive, Feed, Packet, SentChunks, Piece, Pieces, Accepted, OldPiece, Session, Delivered, Min;
    var n, k := m.Count(), Needed(o.Count(), j);
    if k <= n {
      ManyChunks(o);
      OldCompletes(m, o, b, j);
      RestQuiet(m, o, b, j);
      FlattenConcat(Pieces(m.data, m.maxWrite - HEADER, k), OldPiece(o, j));
      FirstPieces(m, k);
    } else {
      OldGathers(m, o, b, j, n);
    }
  }

  /** As long as a chunk is needed, the chunks are kept and nothing is delivered. */
  lemma OldGathers(m: Message, o: Message, b: Buffers, j: nat, k: nat)
    requires m.Valid() && o.Valid() && o.id == m.id && m.id !in b && j < o.Count()
    requires k <= m.Count() && k < Needed(o.Count(), j)
    ensures var init := [o.Chunk(j)] + Run(m, 0, k);
            IsChunk(o.Chunk(j)) && Session(init, m.id) == init && Delivered(b, init) == []
  {
    hide Receive, Feed, Packet, SentChunks, Complete, Accepted, Without, Session, Delivered;
    ChunkAccepted(o, j);
    StartsEmpty(b, m.id);
    var x: Chunk := o.Chunk(j);
    var init: seq<Chunk> := [x] + Run(m, 0, k);
    OldFirstWithout(m, o, j, k);
    Quiet(b, [], init, m.id, Needed(o.Count(), j) - 1);
    assert [] + init == init;
  }

  lemma OldCompletes(m: Message, o: Message, b: Buffers, j: nat)
    requires m.Valid() && o.Valid() && o.id == m.id && m.id !in b && j < o.Count() && Needed(o.Count(), j) <= m.Count()
    ensures var k := Needed(o.Count(), j); var s := [o.Chunk(j)] + Run(m, 0, k);
            && Session(s, m.id) == []
            && Delivered(b, s) == [Flatten(Pieces(m.data, m.maxWrite - HEADER, k) + OldPiece(o, j))]
  {
    hide Receive, Feed, Packet, SentChunks, Piece, Pieces, Complete, Accepted, OldPiece, Session, Delivered;
    var k := Needed(o.Count(), j);
    ManyChunks(o);
    OldGathers(m, o, b, j, k - 1);
    ChunkAccepted(m, k - 1);
    var init, p := [o.Chunk(j)] + Run(m, 0, k - 1), m.Chunk(k - 1);
    OldFirstParts(m, o, j);
    assert init + [p] == [o.Chunk(j)] + Run(m, 0, k);
    Completes(b, init, p, m.id);
  }

  lemma RestQuiet(m: Message, o: Message, b: Buffers, j: nat)
    requires m.Valid() && o.Valid() && m.id !in b && j < o.Count() && 0 < Needed(o.Count(), j) <= m.Count()
    requires Session([o.Chunk(j)] + Run(m, 0, Needed(o.Count(), j)), m.id) == []
    ensures Delivered(b, [o.Chunk(j)] + Run(m, 0, m.Count())) == Delivered(b, [o.Chunk(j)] + Run(m, 0, Needed(o.Count(), j)))
  {
    hide Receive, Feed, Packet, SentChunks, Complete, Accepted, Without, Session, Delivered;
    var n, k := m.Count(), Needed(o.Count(), j);
    LaterRunWithout(m, k);
    var first, rest := [o.Chunk(j)] + Run(m, 0, k), Run(m, k, n);
    Quiet(b, first, rest, m.id, 0);
    assert [o.Chunk(j)] + Run(m, 0, n) == first + rest;
  }

  lemma StartsEmpty(b: Buffers, id: byte)
    ensures Session([], id) == [] && Delivered(b, []) == []
  {
  }

  lemma ChunkAccepted(m: Message, k: nat)
    requires m.Valid() && k < m.Count()
    ensures IsChunk(m.Chunk(k)) && Accepted(m.Chunk(k), m.id)
  {
    hide Packet;
    ChunkIsOurs(m, k);
  }

  lemma FirstPieces(m: Message, k: nat)
    requires m.Valid() && k <= m.Count()
    ensures Flatten(Pieces(m.data, m.maxWrite - HEADER, k)) == m.data[..Min(k * (m.maxWrite - HEADER), |m.data|)]
  {
    PiecesJoin(m.data, m.maxWrite - HEADER, k);
  }

  /** So the message comes through exactly if the old chunk declares the message's own count and is
      overwritten, or is the last of its count and carries all the rest of the message. */
  lemma OldChunkIntactExactly(m: Message, o: Message, b: Buffers, j: nat)
    requires m.Valid() && o.Valid() && o.id == m.id && m.id !in b && j < o.Count()
    ensures m.data in Delivered(b, [o.Chunk(j)] + Run(m, 0, m.Count()))
       <==> if j < o.Count() - 1 then o.Count() == m.Count()
            else m.data[Min(j * (m.maxWrite - HEADER), |m.data|)..] == Piece(o.data, j, o.maxWrite - HEADER)
  {
    hide Receive, Feed, Packet, SentChunks, Piece, Delivered, Min;
    OldChunkFirst(m, o, b, j);
    if j < o.Count() - 1 {
      PrefixIsAll(m, o.Count());
      assert Flatten(OldPiece(o, j)) == [];
    } else {
      FlattenOne(Piece(o.data, j, o.maxWrite - HEADER));
      PrefixAndRest(m, j, Piece(o.data, j, o.maxWrite - HEADER)) by { OldIsNotEmpty(o, j); }
    }
  }

  lemma PrefixIsAll(m: Message, k: nat)
    requires m.Valid()
    ensures k <= m.Count() ==> (m.data[..Min(k * (m.maxWrite - HEADER), |m.data|)] + [] == m.data <==> k == m.Count())
  {
    hide SentChunks;
    if k < m.Count() { StartsInside(m, k); }
    ReachesEnd(m);
  }

  lemma PrefixAndRest(m: Message, k: nat, last: bytes)
    requires m.Valid() && last != []
    ensures var cut := Min(k * (m.maxWrite - HEADER), |m.data|);
            k <= m.Count() && m.data[..cut] + last == m.data <==> m.data[cut..] == last
  {
    hide SentChunks;
    var room := m.maxWrite - HEADER;
    var cut := Min(k * room, |m.data|);
    if k > m.Count() {
      ReachesEnd(m);
      MulMono(m.Count(), k, room);
    }
    assert m.data == m.data[..cut] + m.data[cut..];
    SamePrefix(m.data[..cut], last, m.data[cut..]);
  }

  lemma SamePrefix(a: bytes, x: bytes, y: bytes)
    ensures a + x == a + y <==> x == y
  {
    assert (a + x)[|a|..] == x && (a + y)[|a|..] == y;
  }

  lemma StartsInside(m: Message, k: nat)
    requires m.Valid() && k < m.Count()
    ensures k * (m.maxWrite - HEADER) < |m.data|
  {
    ChunkStarts(|m.data|, m.maxWrite - HEADER, k);
  }

  lemma ReachesEnd(m: Message)
    requires m.Valid()
    ensures m.Count() * (m.maxWrite - HEADER) >= |m.data|
  {
    ManyChunks(m);
    ChunkStarts(|m.data|, m.maxWrite - HEADER, 0);
  }

  lemma OldIsNotEmpty(o: Message, j: nat)
    requires o.Valid() && j < o.Count()
    ensures Piece(o.data, j, o.maxWrite - HEADER) != []
  {
    hide Piece;
    StartsInside(o, j);
    PieceLength(o.data, j, o.maxWrite - HEADER);
  }
}
