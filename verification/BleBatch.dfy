/** Length-prefixed audio batches of BleVoiceService.kt. */
module BleBatch {
  import opened Basics

  const FRAME_LIMIT := 0x1_0000

  function Header(size: nat): bytes
  {
    [size % 0x100, size / 0x100 % 0x100]
  }

  /** The 16-bit length the two header bytes stand for, low byte first. */
  function FrameLen(lo: byte, hi: byte): nat
  {
    (lo as int) + (hi as int) * 0x100
  }

  lemma LenOfHeader(size: nat)
    ensures FrameLen(size % 0x100, size / 0x100 % 0x100) == size % FRAME_LIMIT
  {
    var q, lo := size / 0x100, size % 0x100;
    var p, hi := q / 0x100, q % 0x100;
    TwoDigits(size, q, lo, p, hi);
  }

  lemma TwoDigits(size: nat, q: nat, lo: nat, p: nat, hi: nat)
    requires size == q * 0x100 + lo && lo < 0x100 && q == p * 0x100 + hi && hi < 0x100
    ensures size % FRAME_LIMIT == lo + hi * 0x100
  {
    DivUnique(size, p, lo + hi * 0x100, FRAME_LIMIT);
  }

  function BatchBytes(frames: seq<bytes>): bytes
  {
    if frames == [] then [] else Header(|frames[0]|) + frames[0] + BatchBytes(frames[1..])
  }

  datatype Batch = Batch(frames: seq<bytes>, rest: bytes)

  /** The frames read from the front of a packet, and what is left when no whole frame follows. */
  function Frames(packet: bytes): Batch
    decreases |packet|
  {
    if |packet| < 2 then Batch([], packet)
    else
      var len := FrameLen(packet[0], packet[1]);
      if 2 + len > |packet| then Batch([], packet)
      else
        var tail := Frames(packet[2 + len..]);
        Batch([packet[2..2 + len]] + tail.frames, tail.rest)
  }

  lemma FrontFrame(f: bytes, rest: bytes)
    requires |f| < FRAME_LIMIT
    ensures var s := Header(|f|) + f + rest;
            Frames(s) == Batch([f] + Frames(rest).frames, Frames(rest).rest)
  {
    var s := Header(|f|) + f + rest;
    LenOfHeader(|f|);
    assert s[0] == |f| % 0x100 && s[1] == |f| / 0x100 % 0x100;
    assert FrameLen(s[0], s[1]) == |f|;
    hide FrameLen, Header;
    assert s[2..2 + |f|] == f && s[2 + |f|..] == rest;
  }

  /** Reading a batch gives back exactly the frames, empty ones included, and leaves nothing;
      and that is so exactly when no frame is too long for its 16-bit length. */
  lemma {:induction false} BatchRoundTrip(frames: seq<bytes>)
    ensures Frames(BatchBytes(frames)) == Batch(frames, []) <==> forall f :: f in frames ==> |f| < FRAME_LIMIT
    decreases |frames|
  {
    if frames != [] {
      var f, t := frames[0], frames[1..];
      assert frames == [f] + t;
      BatchRoundTrip(t);
      if |f| < FRAME_LIMIT {
        FrontFrame(f, BatchBytes(t));
      } else {
        LongFrameCut(f, BatchBytes(t));
        assert f in frames;
      }
    }
  }

  lemma LongFrameCut(f: bytes, rest: bytes)
    requires |f| >= FRAME_LIMIT
    ensures var fs := Frames(Header(|f|) + f + rest).frames; |fs| > 0 && |fs[0]| < |f|
  {
    var s := Header(|f|) + f + rest;
    assert s[0] == |f| % 0x100 && s[1] == |f| / 0x100 % 0x100;
    LenOfHeader(|f|);
    assert FrameLen(s[0], s[1]) < FRAME_LIMIT;
  }

  /** On any packet the frames read are the packet's own bytes, and nothing that could still be
      read is left over. */
  lemma {:induction false} ParseExact(packet: bytes)
    ensures var b := Frames(packet);
            packet == BatchBytes(b.frames) + b.rest
            && (|b.rest| < 2 || 2 + FrameLen(b.rest[0], b.rest[1]) > |b.rest|)
    decreases |packet|
  {
    hide FrameLen, Header;
    if |packet| >= 2 && 2 + FrameLen(packet[0], packet[1]) <= |packet| {
      var len := FrameLen(packet[0], packet[1]);
      ParseExact(packet[2 + len..]);
      var t := Frames(packet[2 + len..]);
      CutFront(packet, len);
      BatchFront(packet[2..2 + len], t.frames, t.rest);
    }
  }

  lemma CutFront(packet: bytes, len: nat)
    requires 2 + len <= |packet| && len == FrameLen(packet[0], packet[1])
    ensures packet == Header(len) + packet[2..2 + len] + packet[2 + len..]
  {
    HeaderBytes(packet[0], packet[1]);
    hide Header, FrameLen;
  }

  lemma BatchFront(f: bytes, frames: seq<bytes>, rest: bytes)
    ensures BatchBytes([f] + frames) + rest == Header(|f|) + f + (BatchBytes(frames) + rest)
  {
    hide Header;
    assert ([f] + frames)[1..] == frames;
  }

  lemma HeaderBytes(lo: byte, hi: byte)
    ensures Header(FrameLen(lo, hi)) == [lo, hi]
  {
  }

  // ---------- the loops ----------

  method BuildBatchPacket(frames: seq<bytes>) returns (packet: array<byte>)
    ensures fresh(packet) && packet[..] == BatchBytes(frames)
  {
    var totalSize := 0;
    for i := 0 to |frames|
      invariant totalSize == |BatchBytes(frames[..i])|
    {
      totalSize := totalSize + 2 + |frames[i]|;
      BatchSnoc(frames, i);
    }
    assert frames[..|frames|] == frames;
    packet := new byte[totalSize];
    var offset := 0;
    for i := 0 to |frames|
      invariant offset == |BatchBytes(frames[..i])| <= totalSize
      invariant packet[..offset] == BatchBytes(frames[..i])
    {
      var f := frames[i];
      BatchSnoc(frames, i);
      BatchPrefix(frames, i + 1);
      WriteFrame(packet, offset, f);
      offset := offset + 2 + |f|;
    }
  }

  method WriteFrame(packet: array<byte>, offset: nat, f: bytes)
    requires offset + 2 + |f| <= packet.Length
    modifies packet
    ensures packet[..offset + 2 + |f|] == old(packet[..offset]) + (Header(|f|) + f)
  {
    packet[offset] := |f| % 0x100;
    packet[offset + 1] := |f| / 0x100 % 0x100;
    for i := 0 to |f|
      invariant packet[..offset + 2 + i] == old(packet[..offset]) + (Header(|f|) + f[..i])
    {
      packet[offset + 2 + i] := f[i];
    }
  }

  lemma {:induction false} BatchConcat(a: seq<bytes>, b: seq<bytes>)
    ensures BatchBytes(a + b) == BatchBytes(a) + BatchBytes(b)
    decreases |a|
  {
    if a == [] {
      assert a + b == b;
    } else {
      assert (a + b)[1..] == a[1..] + b;
      BatchConcat(a[1..], b);
    }
  }

  lemma BatchSnoc(frames: seq<bytes>, i: nat)
    requires i < |frames|
    ensures BatchBytes(frames[..i + 1]) == BatchBytes(frames[..i]) + (Header(|frames[i]|) + frames[i])
  {
    assert frames[..i + 1] == frames[..i] + [frames[i]];
    BatchConcat(frames[..i], [frames[i]]);
    assert BatchBytes([frames[i]]) == Header(|frames[i]|) + frames[i] + BatchBytes([]);
  }

  lemma BatchPrefix(frames: seq<bytes>, i: nat)
    requires i <= |frames|
    ensures |BatchBytes(frames[..i])| <= |BatchBytes(frames)|
  {
    assert frames == frames[..i] + frames[i..];
    BatchConcat(frames[..i], frames[i..]);
  }

  lemma NextFrame(s: bytes, done: seq<bytes>)
    requires |s| >= 2
    ensures var len := FrameLen(s[0], s[1]);
            done + Frames(s).frames ==
            if 2 + len > |s| then done else (done + [s[2..2 + len]]) + Frames(s[2 + len..]).frames
  {
    hide FrameLen;
  }

  /** The parse loop of playBatchPacket; `opusFrames` is what it hands on, in order. */
  method PlayBatchPacket(packet: array<byte>) returns (opusFrames: seq<bytes>)
    ensures opusFrames == Frames(packet[..]).frames
  {
    hide FrameLen, Frames;
    opusFrames := [];
    var offset := 0;
    ghost var all := packet[..];
    assert packet[0..] == all && [] + Frames(all).frames == Frames(all).frames;
    while offset + 2 <= packet.Length
      invariant offset <= packet.Length
      invariant opusFrames + Frames(packet[offset..]).frames == Frames(all).frames
    {
      ghost var was := packet[offset..];
      NextFrame(was, opusFrames);
      var len := FrameLen(packet[offset], packet[offset + 1]);
      offset := offset + 2;
      if offset + len > packet.Length {
        return;
      }
      assert was[2..2 + len] == packet[offset..offset + len] && was[2 + len..] == packet[offset + len..];
      opusFrames := opusFrames + [packet[offset..offset + len]];
      offset := offset + len;
    }
    TooShort(packet[offset..]);
  }

  lemma TooShort(s: bytes)
    requires |s| < 2
    ensures Frames(s).frames == []
  {
  }
}
