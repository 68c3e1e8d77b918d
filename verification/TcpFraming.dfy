/** The event extraction of handleTCPConn in server/cot_bridge.go: a byte stream, read in
    pieces of any size, is cut after each "</event>". */
module TcpFraming {
  import opened Basics

  const END_TAG: bytes := [0x3C, 0x2F, 0x65, 0x76, 0x65, 0x6E, 0x74, 0x3E]  // </event>
  const START_TAG: bytes := [0x3C, 0x65, 0x76, 0x65, 0x6E, 0x74]            // <event

  predicate OccursAt(s: bytes, pat: bytes, i: nat)
  {
    i + |pat| <= |s| && s[i..i + |pat|] == pat
  }

  /** strings.Index from position `i` on: the first occurrence. */
  function IndexFrom(s: bytes, pat: bytes, i: nat): (r: Option<nat>)
    requires i <= |s|
    ensures r.Some? ==> i <= r.value && OccursAt(s, pat, r.value) && forall k :: i <= k < r.value ==> !OccursAt(s, pat, k)
    ensures r.None? ==> forall k :: i <= k ==> !OccursAt(s, pat, k)
    decreases |s| - i
  {
    if OccursAt(s, pat, i) then Some(i)
    else if i == |s| then None
    else IndexFrom(s, pat, i + 1)
  }

  function Index(s: bytes, pat: bytes): (r: Option<nat>)
    ensures r.Some? ==> OccursAt(s, pat, r.value) && forall k :: 0 <= k < r.value ==> !OccursAt(s, pat, k)
    ensures r.None? ==> forall k :: 0 <= k ==> !OccursAt(s, pat, k)
  {
    IndexFrom(s, pat, 0)
  }

  // ---------- one-shot cutting ----------

  datatype Cutting = Cutting(pieces: seq<bytes>, residual: bytes)

  function Cut(s: bytes): Cutting
    decreases |s|
  {
    match Index(s, END_TAG)
    case None => Cutting([], s)
    case Some(i) =>
      var n := i + |END_TAG|;
      var c := Cut(s[n..]);
      Cutting([s[..n]] + c.pieces, c.residual)
  }

  /** What a piece hands to handleXmlCot: its suffix from the first "<event", if there is one. */
  function EventOf(p: bytes): seq<bytes>
  {
    match Index(p, START_TAG)
    case None => []
    case Some(i) => [p[i..]]
  }

  function EventsOf(pieces: seq<bytes>): seq<bytes>
  {
    if pieces == [] then [] else EventOf(pieces[0]) + EventsOf(pieces[1..])
  }

  /** A piece ends with the end tag and contains it nowhere else. */
  ghost predicate Terminated(p: bytes)
  {
    |p| >= |END_TAG| && OccursAt(p, END_TAG, |p| - |END_TAG|)
    && forall k: nat :: k < |p| - |END_TAG| ==> !OccursAt(p, END_TAG, k)
  }

  ghost predicate NoEnd(s: bytes)
  {
    forall k: nat :: !OccursAt(s, END_TAG, k)
  }

  // ---------- what the cutting is ----------

  lemma OccursInPrefix(p: bytes, rest: bytes, pat: bytes, k: nat)
    requires k + |pat| <= |p|
    ensures OccursAt(p + rest, pat, k) == OccursAt(p, pat, k)
  {
    assert (p + rest)[k..k + |pat|] == p[k..k + |pat|];
  }

  /** A terminated piece in front of a stream is what is cut off first. */
  lemma CutFirst(p: bytes, rest: bytes)
    requires Terminated(p)
    ensures Cut(p + rest) == Cutting([p] + Cut(rest).pieces, Cut(rest).residual)
  {
    var i, s := |p| - |END_TAG|, p + rest;
    forall k: nat | k <= i ensures OccursAt(s, END_TAG, k) == OccursAt(p, END_TAG, k) {
      OccursInPrefix(p, rest, END_TAG, k);
    }
    assert Index(s, END_TAG) == Some(i);
    assert s[..|p|] == p && s[|p|..] == rest;
  }

  /** A stream is cut in front of its first piece, or holds no end tag at all. */
  lemma CutCases(s: bytes) returns (p: bytes, rest: bytes)
    ensures if p == [] then NoEnd(s) && Cut(s) == Cutting([], s)
            else s == p + rest && Terminated(p)
  {
    match Index(s, END_TAG)
    case None => p, rest := [], s;
    case Some(i) =>
      p, rest := s[..i + |END_TAG|], s[i + |END_TAG|..];
      assert s == p + rest;
      forall k: nat | k <= i ensures OccursAt(s, END_TAG, k) == OccursAt(p, END_TAG, k) {
        OccursInPrefix(p, rest, END_TAG, k);
      }
  }

  /** Cutting loses nothing, every piece holds exactly one end tag, at its end, and the residual
      holds none. */
  lemma {:induction false} CutExact(s: bytes)
    ensures var c := Cut(s);
            Flatten(c.pieces) + c.residual == s && NoEnd(c.residual) && forall p :: p in c.pieces ==> Terminated(p)
    decreases |s|
  {
    hide Terminated, Cut, NoEnd;
    var p, rest := CutCases(s);
    if p != [] {
      CutFirst(p, rest);
      CutExact(rest);
      assert ([p] + Cut(rest).pieces)[1..] == Cut(rest).pieces;
    }
  }

  /** And it is the only way to cut the stream like that. */
  lemma {:induction false} CutUnique(pieces: seq<bytes>, residual: bytes)
    requires NoEnd(residual) && forall p :: p in pieces ==> Terminated(p)
    ensures Cut(Flatten(pieces) + residual) == Cutting(pieces, residual)
    decreases |pieces|
  {
    hide Terminated;
    if pieces == [] {
      assert Flatten(pieces) + residual == residual;
    } else {
      var p, rest := pieces[0], Flatten(pieces[1..]) + residual;
      assert Flatten(pieces) + residual == p + rest;
      CutFirst(p, rest);
      CutUnique(pieces[1..], residual);
    }
  }

  // ---------- segmentation ----------

  /** Bytes that arrive later only continue what the residual began. */
  lemma {:induction false} CutContinues(x: bytes, y: bytes)
    ensures var c := Cut(x);
            var d := Cut(c.residual + y);
            Cut(x + y) == Cutting(c.pieces + d.pieces, d.residual)
    decreases |x|
  {
    hide Terminated, Cut, NoEnd;
    var p, t := CutCases(x);
    if p != [] {
      CutContinues(t, y);
      CutFirst(p, t);
      CutFirst(p, t + y);
      assert x + y == p + (t + y);
    }
  }

  /** The connection's state after a series of reads: the buffer and the pieces taken out. */
  function ReadAll(c: Cutting, chunks: seq<bytes>): Cutting
    decreases |chunks|
  {
    if chunks == [] then c
    else
      var d := Cut(c.residual + chunks[0]);
      ReadAll(Cutting(c.pieces + d.pieces, d.residual), chunks[1..])
  }

  /** However the stream is split into reads, the pieces taken out and the buffer left are those
      of cutting the whole stream at once. */
  lemma {:induction false} SegmentationIrrelevant(before: bytes, chunks: seq<bytes>)
    ensures ReadAll(Cut(before), chunks) == Cut(before + Flatten(chunks))
    decreases |chunks|
  {
    hide Cut;
    if chunks == [] {
      assert before + Flatten(chunks) == before;
    } else {
      CutContinues(before, chunks[0]);
      SegmentationIrrelevant(before + chunks[0], chunks[1..]);
      assert before + Flatten(chunks) == (before + chunks[0]) + Flatten(chunks[1..]);
    }
  }

  /** Two splits of the same stream hand the same events on. */
  lemma SplitsAgree(chunks: seq<bytes>, chunks2: seq<bytes>)
    requires Flatten(chunks) == Flatten(chunks2)
    ensures ReadAll(Cutting([], []), chunks) == ReadAll(Cutting([], []), chunks2) == Cut(Flatten(chunks))
  {
    assert Cut([]) == Cutting([], []);
    SegmentationIrrelevant([], chunks);
    SegmentationIrrelevant([], chunks2);
    assert [] + Flatten(chunks) == Flatten(chunks);
  }

  // ---------- what is handed on ----------

  /** The first start tag of a piece begins at `i`. */
  ghost predicate FirstStart(p: bytes, i: nat)
  {
    OccursAt(p, START_TAG, i) && forall k: nat :: k < i ==> !OccursAt(p, START_TAG, k)
  }

  /** A piece without a start tag hands on nothing, another one itself from its first start tag on. */
  ghost predicate Hands(p: bytes, events: seq<bytes>)
  {
    if forall i: nat :: !OccursAt(p, START_TAG, i) then events == []
    else exists i: nat :: i <= |p| && FirstStart(p, i) && events == [p[i..]]
  }

  /** The pieces hand on the events, in order. */
  ghost predicate HandsAll(pieces: seq<bytes>, events: seq<bytes>)
    decreases |pieces|
  {
    if pieces == [] then events == []
    else exists k: nat :: k <= |events| && Hands(pieces[0], events[..k]) && HandsAll(pieces[1..], events[k..])
  }

  /** The stream is pieces that each end with their only end tag, and a rest without one; and these
      pieces hand on the events. */
  ghost predicate HandedOn(stream: bytes, events: seq<bytes>)
  {
    exists pieces: seq<bytes>, residual: bytes ::
      stream == Flatten(pieces) + residual && NoEnd(residual) && (forall p :: p in pieces ==> Terminated(p)) && HandsAll(pieces, events)
  }

  lemma HandsExactly(p: bytes, events: seq<bytes>)
    ensures Hands(p, events) <==> events == EventOf(p)
  {
    hide OccursAt;
    match Index(p, START_TAG)
    case None =>
    case Some(i) =>
      assert FirstStart(p, i) && i <= |p| by { StartFits(p); }
      assert forall j: nat :: FirstStart(p, j) ==> j == i;
  }

  lemma StartFits(p: bytes)
    ensures match Index(p, START_TAG) case None => true case Some(i) => i <= |p|
  {
  }

  lemma {:induction false} HandsAllExactly(pieces: seq<bytes>, events: seq<bytes>)
    ensures HandsAll(pieces, events) <==> events == EventsOf(pieces)
    decreases |pieces|
  {
    hide Hands, EventOf;
    if pieces != [] {
      var first := EventOf(pieces[0]);
      if k: nat :| k <= |events| && Hands(pieces[0], events[..k]) && HandsAll(pieces[1..], events[k..]) {
        HandsExactly(pieces[0], events[..k]);
        HandsAllExactly(pieces[1..], events[k..]);
        assert events == events[..k] + events[k..];
      }
      if events == EventsOf(pieces) {
        assert events[..|first|] == first && events[|first|..] == EventsOf(pieces[1..]);
        HandsExactly(pieces[0], first);
        HandsAllExactly(pieces[1..], events[|first|..]);
      }
    }
  }

  /** The events handed on are determined by the bytes received: they are those of the cut pieces. */
  lemma EventsExactly(stream: bytes, events: seq<bytes>)
    ensures HandedOn(stream, events) <==> events == EventsOf(Cut(stream).pieces)
  {
    hide Terminated, NoEnd, Cut, HandsAll, EventsOf;
    if HandedOn(stream, events) {
      var pieces: seq<bytes>, residual: bytes :|
        stream == Flatten(pieces) + residual && NoEnd(residual) && (forall p :: p in pieces ==> Terminated(p)) && HandsAll(pieces, events);
      CutUnique(pieces, residual);
      HandsAllExactly(pieces, events);
    }
    CutExact(stream);
    HandsAllExactly(Cut(stream).pieces, events);
  }

  /** Every event handed on begins with a start tag and ends with its only end tag. */
  lemma {:induction false} EventsWellFormed(pieces: seq<bytes>, events: seq<bytes>)
    requires HandsAll(pieces, events) && forall p :: p in pieces ==> Terminated(p)
    ensures |events| <= |pieces| && forall e :: e in events ==> START_TAG <= e && Terminated(e)
    decreases |pieces|
  {
    hide Terminated, Hands;
    if pieces != [] {
      var k: nat :| k <= |events| && Hands(pieces[0], events[..k]) && HandsAll(pieces[1..], events[k..]);
      OneWellFormed(pieces[0], events[..k]);
      EventsWellFormed(pieces[1..], events[k..]);
      assert events == events[..k] + events[k..];
    }
  }

  lemma OneWellFormed(p: bytes, events: seq<bytes>)
    requires Terminated(p) && Hands(p, events)
    ensures |events| <= 1 && forall e :: e in events ==> START_TAG <= e && Terminated(e)
  {
    if events != [] {
      var i: nat :| i <= |p| && FirstStart(p, i) && events == [p[i..]];
      SuffixTerminated(p, i);
    }
  }

  /** A start tag in a piece begins before its end tag, so that the suffix holds the whole end tag. */
  lemma SuffixTerminated(p: bytes, i: nat)
    requires Terminated(p) && i <= |p| && OccursAt(p, START_TAG, i)
    ensures START_TAG <= p[i..] && Terminated(p[i..])
  {
    var e := |p| - |END_TAG|;
    assert forall k :: e <= k < |p| ==> p[k] == p[e..][k - e] == END_TAG[k - e];
    assert p[i] == p[i..i + |START_TAG|][0] && p[i + 1] == p[i..i + |START_TAG|][1];
    assert i <= e;
    assert p[i..][e - i..] == p[e..];
    forall k: nat | k < e - i ensures !OccursAt(p[i..], END_TAG, k) {
      assert !OccursAt(p, END_TAG, i + k);
      assert p[i..][k..k + |END_TAG|] == p[i + k..i + k + |END_TAG|];
    }
  }

  /** Two splits of the same stream hand the same events on, those of the stream. */
  lemma SameEvents(chunks: seq<bytes>, chunks2: seq<bytes>)
    requires Flatten(chunks) == Flatten(chunks2)
    ensures EventsOf(ReadAll(Cutting([], []), chunks).pieces) == EventsOf(ReadAll(Cutting([], []), chunks2).pieces)
    ensures HandedOn(Flatten(chunks), EventsOf(ReadAll(Cutting([], []), chunks).pieces))
  {
    hide HandedOn, EventsOf, Cut, ReadAll;
    SplitsAgree(chunks, chunks2);
    EventsExactly(Flatten(chunks), EventsOf(Cut(Flatten(chunks)).pieces));
  }

  lemma {:induction false} EventsSnoc(a: seq<bytes>, p: bytes)
    ensures EventsOf(a + [p]) == EventsOf(a) + EventOf(p)
    decreases |a|
  {
    hide EventOf;
    if a == [] {
      assert a + [p] == [p] && [p][1..] == [];
      assert EventsOf([p]) == EventOf(p) + [];
    } else {
      assert (a + [p])[1..] == a[1..] + [p];
      EventsSnoc(a[1..], p);
    }
  }

  lemma TakePiece(buf: bytes, taken: seq<bytes>)
    ensures match Index(buf, END_TAG)
      case None => Cut(buf) == Cutting([], buf)
      case Some(i) =>
        var n := i + |END_TAG|;
        0 < n <= |buf|
        && taken + Cut(buf).pieces == (taken + [buf[..n]]) + Cut(buf[n..]).pieces
        && Cut(buf).residual == Cut(buf[n..]).residual
  {
    CutUnfold(buf);
    hide Cut, Index;
  }

  lemma CutUnfold(buf: bytes)
    ensures match Index(buf, END_TAG)
      case None => Cut(buf) == Cutting([], buf)
      case Some(i) =>
        var n := i + |END_TAG|;
        0 < n <= |buf| && Cut(buf) == Cutting([buf[..n]] + Cut(buf[n..]).pieces, Cut(buf[n..]).residual)
  {
    hide Index, OccursAt;
    if Index(buf, END_TAG).Some? {
      IndexFits(buf);
    }
  }

  lemma IndexFits(buf: bytes)
    ensures match Index(buf, END_TAG) case None => true case Some(i) => i + |END_TAG| <= |buf|
  {
  }

  // ---------- the connection ----------

  /** One TCP connection: its buffer, the arguments of the calls of handleXmlCot so far, and all
      bytes received. */
  class TcpConn {
    var buf: bytes
    var handled: seq<bytes>
    ghost var received: bytes
    ghost var state: Cutting

    ghost predicate Valid()
      reads this
    {
      buf == state.residual && handled == EventsOf(state.pieces) && NoEnd(buf) && state == Cut(received)
    }

    constructor ()
      ensures Valid() && state == Cutting([], []) && received == [] && handled == []
    {
      buf, handled, received, state := [], [], [], Cutting([], []);
    }

    /** One successful read, and the inner loop that empties the buffer of complete events. */
    method OnRead(chunk: bytes)
      requires Valid()
      modifies this
      ensures Valid() && state == ReadAll(old(state), [chunk])
      ensures received == old(received) + chunk && HandedOn(received, handled)
    {
      hide NoEnd, Cut, EventsOf, Index, HandedOn;
      buf := buf + chunk;
      ghost var all, before := buf, state.pieces;
      ghost var taken := [];
      assert before + taken == before;
      assert [] + Cut(buf).pieces == Cut(buf).pieces;
      while true
        invariant handled == EventsOf(before + taken)
        invariant Cut(all) == Cutting(taken + Cut(buf).pieces, Cut(buf).residual)
        invariant state == old(state) && received == old(received)
        decreases |buf|
      {
        TakePiece(buf, taken);
        var idx := Index(buf, END_TAG);
        if idx.None? {
          break;
        }
        var n := idx.value + |END_TAG|;
        var eventStr := buf[..n];
        EventsSnoc(before + taken, eventStr);
        assert before + taken + [eventStr] == before + (taken + [eventStr]);
        taken := taken + [eventStr];
        buf := buf[n..];
        var start := Index(eventStr, START_TAG);
        if start.None? {
          continue;
        }
        handled := handled + [eventStr[start.value..]];
      }
      CutExact(buf);
      state := Cutting(before + taken, buf);
      assert taken + [] == taken;
      ReadOne(old(state), chunk);
      CutContinues(received, chunk);
      received := received + chunk;
      EventsExactly(received, handled);
    }
  }

  lemma ReadOne(c: Cutting, chunk: bytes)
    ensures var d := Cut(c.residual + chunk); ReadAll(c, [chunk]) == Cutting(c.pieces + d.pieces, d.residual)
  {
    hide Cut;
    assert [chunk][1..] == [];
    var d := Cut(c.residual + chunk);
    assert ReadAll(Cutting(c.pieces + d.pieces, d.residual), []) == Cutting(c.pieces + d.pieces, d.residual);
  }
}
