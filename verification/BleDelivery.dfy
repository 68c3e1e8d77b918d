/** The two halves of the link put together: what broadcastToAllPeers queues on an idle link
    is written out in order and reassembled by the receiver. */
module BleDelivery {
  import opened Basics
  import opened BleChunks
  import opened BleWriteQueue

  /** Data packets offered to an idle link: the first is on the wire, the others wait in order. */
  lemma {:induction false} QueuedInOrder(s: Queues, ps: seq<bytes>)
    requires Disciplined(s) && !s.inFlight && 1 <= |ps| <= DATA_TRIM + 2
    requires forall p :: p in ps ==> !IsAudio(p)
    ensures var t := EnqueueAll(s, ps);
            t.wire == s.wire + [ps[0]] && t.data.queue == ps[1..] && t.audio.queue == [] && Disciplined(t) && t.inFlight
    decreases |ps|
  {
    hide IsAudio;
    var n := |ps| - 1;
    var p := ps[n];
    EnqueueAllSnoc(s, ps[..n], p);
    assert ps == ps[..n] + [p];
    if n == 0 {
      assert EnqueueAll(s, ps[..0]) == s;
      assert Trim(s.data, DATA_TRIM) == s.data && [] + [p] == [p];
    } else {
      QueuedInOrder(s, ps[..n]);
      var t := EnqueueAll(s, ps[..n]);
      assert Trim(t.data, DATA_TRIM) == t.data;
      assert ps[..n][1..] + [p] == ps[1..];
    }
  }

  /** A message of at most 64 chunks, broadcast on an idle link and given time, is on the wire
      chunk by chunk, and the receiver that is fed the wire in that order delivers it at the
      last chunk. */
  lemma DeliveredEndToEnd(m: Message, s: Queues, b: Buffers)
    requires m.Valid() && Disciplined(s) && !s.inFlight && m.id !in b
    ensures var packets := Packets(m.data, m.maxWrite, m.id);
            var queued := EnqueueAll(s, packets);
            var n := |packets|;
            n == m.Count() >= 2
            && Ticks(queued, |queued.audio.queue| + |queued.data.queue| + 1).wire == s.wire + packets
            && Receive(Feed(b, packets[..n - 1]), packets[n - 1]).1 == Some(m.data)
  {
    hide Packet, Receive, Feed, Ticks, Enqueue, ChunkCount;
    var packets := Packets(m.data, m.maxWrite, m.id);
    var n := m.Count();
    ManyChunks(m);
    assert |packets| == n && forall k :: 0 <= k < n ==> packets[k] == m.Chunk(k);
    forall p | p in packets ensures !IsAudio(p) {
      var k :| 0 <= k < n && p == packets[k];
      ChunkIsOurs(m, k);
    }
    QueuedInOrder(s, packets);
    TimersDrain(EnqueueAll(s, packets));
    assert [packets[0]] + [] + packets[1..] == packets;
    var first, last := packets[..n - 1], n - 1;
    SeenFirstChunks(m, packets, last);
    FragmentationRoundTrip(m, b, first, last);
  }

  lemma SeenFirstChunks(m: Message, packets: seq<bytes>, last: nat)
    requires m.Valid() && |packets| == m.Count() == last + 1
    requires forall k :: 0 <= k < m.Count() ==> packets[k] == m.Chunk(k)
    ensures forall p :: p in packets[..last] ==> m.Arrival(p)
    ensures !m.Complete(m.Seen(packets[..last])) && m.Complete(m.Seen(packets[..last]) + {last})
  {
    hide Packet, ChunkCount;
    var first := packets[..last];
    forall p | p in first ensures m.Arrival(p) {
      var k :| 0 <= k < last && p == first[k];
      assert p == m.Chunk(k);
    }
    forall k: nat | k < m.Count() ensures k in m.Seen(first) <==> k != last {
      ChunkIsOurs(m, k);
      if k < last {
        assert first[k] == m.Chunk(k);
      } else if m.Chunk(k) in first {
        var j :| 0 <= j < last && first[j] == m.Chunk(k);
        ChunkIsOurs(m, j);
      }
    }
    assert last < m.Count() && last !in m.Seen(first);
  }
}
