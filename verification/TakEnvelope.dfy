/** The scan of the TAK envelope (protoExtractMessage in server/tak_proto.go). It walks records like
    the decoders, but slices only the field it looks for: past any other length-delimited field it
    just adds the length to the position, and an `int` sum that wraps leads backwards. */
module TakEnvelope {
  import opened Basics
  import opened TakVarint
  import opened TakRecords
  import opened PositionLoop

  /** What the function does in the end: return nil, return the message, panic, or go on for ever. */
  datatype Extraction = Nil | Message(data: bytes) | Panics | Endless

  /** `pos += int(length)` for a sum of 2^63 or more: it wraps around once. */
  function WrappedEnd(at: nat, length: uint64): int
  {
    at + length - TWO_64
  }

  /** One turn of the loop. Slicing the field, or slicing from a negative position in the next turn,
      panics. */
  function TurnAt(s: bytes, field: nat, pos: nat): (p: Point<Extraction>)
    ensures p.At? ==> pos < |s| && p.pos <= |s|
    ensures p != Stop(Endless)
  {
    if pos >= |s| then Stop(Nil) else
    OverflowHeader(s[pos..], pos);
    match NextRecord(s[pos..], pos)
    case Malformed => Stop(Nil)
    case Got(r, n) => if r.BytesField? && r.field == field then Stop(Message(r.data)) else At(pos + n)
    case Overflow(other, header, length) =>
      var end := WrappedEnd(pos + header, length);
      if other == field || end < 0 then Stop(Panics) else At(end)
  }

  function Scanner(s: bytes, field: nat): Turn<Extraction>
  {
    (pos: nat) => TurnAt(s, field, pos)
  }

  /** A scan that has not ended after |s| + 1 turns never does (PositionLoop.EndlessExactly). */
  function Extract(s: bytes, field: nat): Extraction
  {
    match Turns(Scanner(s, field), |s| + 1) case At(_) => Endless case Stop(r) => r
  }

  lemma ScansWithin(s: bytes, field: nat)
    ensures Within(Scanner(s, field), |s|)
  {
    hide NextRecord;
  }

  lemma {:induction false} NeverEndsEndless(s: bytes, field: nat, k: nat)
    ensures Turns(Scanner(s, field), k) != Stop(Endless)
  {
    hide TurnAt;
    if k > 0 { NeverEndsEndless(s, field, k - 1); }
  }

  /** After the first turn has ended the scan. */
  lemma EndsAtOnce(s: bytes, field: nat, r: Extraction)
    requires TurnAt(s, field, 0) == Stop(r)
    ensures Extract(s, field) == r
  {
    hide TurnAt;
    var f := Scanner(s, field);
    assert Turns(f, 1) == Stop(r);
    StopStays(f, 1, |s| + 1);
  }

  lemma FirstRecordFound(s: bytes, field: nat, data: bytes)
    requires s != [] && NextRecord(s, 0).Got? && NextRecord(s, 0).rec == BytesField(field, data)
    ensures Extract(s, field) == Message(data)
  {
    hide NextRecord, Extract;
    assert s[0..] == s;
    EndsAtOnce(s, field, Message(data));
  }

  // ---------- the same in terms of the bytes ----------

  /** At p stands a whole record of another kind that ends at q, or a length-delimited record of
      another field whose length wraps the position to q. */
  predicate Leads(s: bytes, field: nat, p: nat, q: nat)
  {
    p < |s| &&
    match NextRecord(s[p..], p)
    case Malformed => false
    case Got(r, n) => q == p + n && !(r.BytesField? && r.field == field)
    case Overflow(other, header, length) => other != field && q == WrappedEnd(p + header, length)
  }

  /** Places that one record after the other leads to, from the start of the bytes on. */
  ghost predicate Trail(s: bytes, field: nat, trail: seq<nat>)
  {
    trail != [] && trail[0] == 0 && forall i :: 0 <= i < |trail| - 1 ==> Leads(s, field, trail[i], trail[i + 1])
  }

  ghost predicate LeadsTo(s: bytes, field: nat, p: nat)
  {
    exists trail :: Trail(s, field, trail) && trail[|trail| - 1] == p
  }

  /** The records lead back to a place they have led to before. */
  ghost predicate Circles(s: bytes, field: nat)
  {
    exists trail, i: nat :: Trail(s, field, trail) && i < |trail| - 1 && trail[i] == trail[|trail| - 1]
  }

  predicate HasMessage(s: bytes, field: nat, p: nat, data: bytes)
  {
    p < |s| && NextRecord(s[p..], p).Got? && NextRecord(s[p..], p).rec == BytesField(field, data)
  }

  /** A length that overflows, of the field itself or wrapping to before the start. */
  predicate BadLength(s: bytes, field: nat, p: nat)
  {
    p < |s| &&
    match NextRecord(s[p..], p)
    case Overflow(other, header, length) => other == field || WrappedEnd(p + header, length) < 0
    case _ => false
  }

  predicate NoRecord(s: bytes, p: nat)
  {
    p >= |s| || NextRecord(s[p..], p).Malformed?
  }

  lemma LeadsIsTurn(s: bytes, field: nat, p: nat)
    ensures forall q: nat :: Leads(s, field, p, q) <==> TurnAt(s, field, p) == At(q)
    ensures forall d :: HasMessage(s, field, p, d) <==> TurnAt(s, field, p) == Stop(Message(d))
    ensures BadLength(s, field, p) <==> TurnAt(s, field, p) == Stop(Panics)
    ensures NoRecord(s, p) <==> TurnAt(s, field, p) == Stop(Nil)
  {
    hide NextRecord;
  }

  lemma TrailIsPath(s: bytes, field: nat, trail: seq<nat>)
    ensures Trail(s, field, trail) <==> Path(Scanner(s, field), trail)
  {
    hide TurnAt, Leads;
    forall p: nat, q: nat ensures Leads(s, field, p, q) <==> Scanner(s, field)(p) == At(q) {
      LeadsIsTurn(s, field, p);
    }
  }

  lemma LeadsToIsReaches(s: bytes, field: nat, p: nat)
    ensures LeadsTo(s, field, p) <==> Reaches(Scanner(s, field), p)
  {
    hide Trail, Path;
    forall trail ensures Trail(s, field, trail) <==> Path(Scanner(s, field), trail) {
      TrailIsPath(s, field, trail);
    }
    forall trail ensures Trail(s, field, trail) ==> trail != [] { TrailNonEmpty(s, field, trail); }
  }

  lemma TrailNonEmpty(s: bytes, field: nat, trail: seq<nat>)
    ensures Trail(s, field, trail) ==> trail != []
  {
  }

  lemma CirclesIsLoops(s: bytes, field: nat)
    ensures Circles(s, field) <==> Loops(Scanner(s, field))
  {
    hide Trail, Path;
    forall trail ensures Trail(s, field, trail) <==> Path(Scanner(s, field), trail) {
      TrailIsPath(s, field, trail);
    }
    forall trail ensures Trail(s, field, trail) ==> trail != [] { TrailNonEmpty(s, field, trail); }
  }

  ghost predicate LeadsToBadLength(s: bytes, field: nat)
  {
    exists p: nat :: LeadsTo(s, field, p) && BadLength(s, field, p)
  }

  ghost predicate LeadsToNothing(s: bytes, field: nat)
  {
    exists p: nat :: LeadsTo(s, field, p) && NoRecord(s, p)
  }

  ghost predicate LeadsToMessage(s: bytes, field: nat, data: bytes)
  {
    exists p: nat :: LeadsTo(s, field, p) && HasMessage(s, field, p, data)
  }

  /** The scan ends with this result exactly when the records lead to where a turn ends it so. */
  lemma EndsExactly(s: bytes, field: nat, r: Extraction)
    requires r != Endless
    ensures Extract(s, field) == r <==> exists p: nat :: LeadsTo(s, field, p) && TurnAt(s, field, p) == Stop(r)
  {
    hide TurnAt, LeadsTo, Turns, Within, Reaches;
    var f := Scanner(s, field);
    ScansWithin(s, field);
    OutcomeExactly(f, |s|, r);
    forall p: nat ensures LeadsTo(s, field, p) <==> Reaches(f, p) { LeadsToIsReaches(s, field, p); }
    forall p: nat ensures f(p) == TurnAt(s, field, p) { }
  }

  lemma EndlessExactly(s: bytes, field: nat)
    ensures Extract(s, field) == Endless <==> Circles(s, field)
  {
    hide TurnAt, Turns, Within, Circles, Loops;
    ScansWithin(s, field);
    NeverEndsEndless(s, field, |s| + 1);
    OutcomeExactly(Scanner(s, field), |s|, Nil);
    CirclesIsLoops(s, field);
  }

  lemma MessageExactly(s: bytes, field: nat, data: bytes)
    ensures Extract(s, field) == Message(data) <==> LeadsToMessage(s, field, data)
  {
    hide TurnAt, LeadsTo, Extract, HasMessage;
    EndsExactly(s, field, Message(data));
    forall p: nat ensures HasMessage(s, field, p, data) <==> TurnAt(s, field, p) == Stop(Message(data)) {
      LeadsIsTurn(s, field, p);
    }
  }

  /** The scan goes on for ever exactly when the records lead in a circle; it panics, returns the
      message, or returns nil exactly when they lead to a bad length, to the field, or to a place
      where no record stands. */
  lemma ExtractExactly(s: bytes, field: nat, data: bytes)
    ensures Extract(s, field) == Endless <==> Circles(s, field)
    ensures Extract(s, field) == Panics <==> LeadsToBadLength(s, field)
    ensures Extract(s, field) == Nil <==> LeadsToNothing(s, field)
    ensures Extract(s, field) == Message(data) <==> LeadsToMessage(s, field, data)
  {
    hide TurnAt, LeadsTo, Circles, Extract, BadLength, NoRecord, LeadsToMessage;
    EndlessExactly(s, field);
    MessageExactly(s, field, data);
    EndsExactly(s, field, Panics);
    EndsExactly(s, field, Nil);
    forall p: nat
      ensures BadLength(s, field, p) <==> TurnAt(s, field, p) == Stop(Panics)
      ensures NoRecord(s, p) <==> TurnAt(s, field, p) == Stop(Nil)
    {
      LeadsIsTurn(s, field, p);
    }
  }

  // ---------- without overflowing lengths ----------

  predicate OverflowsHere(s: bytes, p: nat)
  {
    p < |s| && NextRecord(s[p..], p).Overflow?
  }

  /** No record the scan is led to declares an overflowing length. */
  ghost predicate MeetsNoOverflow(s: bytes, field: nat)
  {
    forall p: nat :: LeadsTo(s, field, p) ==> !OverflowsHere(s, p)
  }

  /** Then the scan only moves forward and comes to an end. */
  lemma ForwardReturns(s: bytes, field: nat)
    requires MeetsNoOverflow(s, field)
    ensures Extract(s, field).Nil? || Extract(s, field).Message?
  {
    hide LeadsTo, Extract, BadLength, OverflowsHere, Circles, NoRecord, LeadsToMessage;
    ExtractExactly(s, field, []);
    forall p: nat | LeadsTo(s, field, p) ensures !BadLength(s, field, p) {
      BadOverflows(s, field, p);
    }
    NoCircles(s, field);
  }

  lemma BadOverflows(s: bytes, field: nat, p: nat)
    ensures BadLength(s, field, p) ==> OverflowsHere(s, p)
  {
    hide NextRecord;
  }

  lemma NoCircles(s: bytes, field: nat)
    requires MeetsNoOverflow(s, field)
    ensures !Circles(s, field)
  {
    hide MeetsNoOverflow, Leads;
    if Circles(s, field) {
      var trail, i: nat :| Trail(s, field, trail) && i < |trail| - 1 && trail[i] == trail[|trail| - 1];
      Rising(s, field, trail, i, |trail| - 1);
    }
  }

  lemma {:induction false} Rising(s: bytes, field: nat, trail: seq<nat>, i: nat, j: nat)
    requires Trail(s, field, trail) && i < j < |trail| && MeetsNoOverflow(s, field)
    ensures trail[i] < trail[j]
    decreases j
  {
    hide NextRecord;
    assert Trail(s, field, trail[..j]) && trail[..j][j - 1] == trail[j - 1];
    assert LeadsTo(s, field, trail[j - 1]);
    assert Leads(s, field, trail[j - 1], trail[j]);
    if i < j - 1 { Rising(s, field, trail, i, j - 1); }
  }
}
