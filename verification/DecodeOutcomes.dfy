/** When DecodeTakProto returns: the exact condition on the bytes for each way it can end, among them
    a panic and a loop that never ends. */
module DecodeOutcomes {
  import opened Basics
  import opened TakVarint
  import opened TakRecords
  import opened PositionLoop
  import opened TakEnvelope
  import opened TakProto

  // ---------- the records a decoder reads ----------

  /** The record `r` stands at k, behind whole records. */
  predicate Stands(s: bytes, off: nat, k: nat, r: Record)
  {
    k < |s| && Whole(s[..k], off) && NextRecord(s[k..], off + k).Got? && NextRecord(s[k..], off + k).rec == r
  }

  lemma StandsFound(s: bytes, off: nat, r: Record) returns (k: nat)
    requires r in Parse(s, off).recs
    ensures Stands(s, off, k, r)
  {
    hide NextRecord, Parse, Whole;
    var i :| 0 <= i < |Parse(s, off).recs| && Parse(s, off).recs[i] == r;
    k := PlaceOf(s, off, i);
    ParseSplit(s, off, k);
    FirstRecord(s[k..], off + k);
  }

  lemma FirstRecord(s: bytes, off: nat)
    requires Parse(s, off).recs != []
    ensures s != [] && NextRecord(s, off).Got? && NextRecord(s, off).rec == Parse(s, off).recs[0]
  {
    hide NextRecord;
  }

  lemma StandsParsed(s: bytes, off: nat, k: nat, r: Record)
    requires Stands(s, off, k, r)
    ensures r in Parse(s, off).recs
  {
    hide NextRecord;
    ParseSplit(s, off, k);
    assert Parse(s[k..], off + k).recs[0] == r;
  }

  // ---------- when a decoder panics ----------

  /** An update that panics on certain records makes its loop panic exactly when one of them is read
      or a length overflows. */
  lemma {:induction false} LoopPanicsExactly<T(!new)>(f: Update<T>, bad: Record -> bool, v: T, s: bytes, off: nat)
    requires forall u, r :: f(u, r).Panicked? <==> bad(r)
    ensures Run(f, v, s, off).Panicked? <==> Parse(s, off).overflow || exists r :: r in Parse(s, off).recs && bad(r)
    decreases |s|
  {
    hide NextRecord;
    if s != [] {
      match NextRecord(s, off)
      case Malformed =>
      case Overflow(_, _, _) =>
      case Got(r, n) =>
        var p := Parse(s[n..], off + n);
        assert Parse(s, off).recs == [r] + p.recs;
        match f(v, r) {
          case Panicked => assert r in Parse(s, off).recs;
          case Ok(w) => LoopPanicsExactly(f, bad, w, s[n..], off + n);
        }
    }
  }

  /** Some declared length, behind whole records, ends beyond 2^63. */
  ghost predicate Breaks(s: bytes)
  {
    exists k :: OverflowsAt(s, 0, k)
  }

  ghost predicate DetailBreaks(s: bytes)
  {
    Breaks(s) || exists k, r :: Stands(s, 0, k, r) && r.BytesField? && (r.field == 2 || r.field == 3) && Breaks(r.data)
  }

  ghost predicate EventBreaks(s: bytes)
  {
    Breaks(s) || exists k, r :: Stands(s, 0, k, r) && r.BytesField? && r.field == 15 && DetailBreaks(r.data)
  }

  predicate BadDetailRecord(r: Record)
  {
    r.BytesField? && (r.field == 2 || r.field == 3) && Parse(r.data, 0).overflow
  }

  predicate BadDetail(s: bytes)
  {
    Parse(s, 0).overflow || exists r :: r in Parse(s, 0).recs && BadDetailRecord(r)
  }

  predicate BadEventRecord(r: Record)
  {
    r.BytesField? && r.field == 15 && BadDetail(r.data)
  }

  lemma ContactPanics(v: Event, s: bytes)
    ensures Run(ContactField, v, s, 0).Panicked? <==> Parse(s, 0).overflow
    ensures Run(GroupField, v, s, 0).Panicked? <==> Parse(s, 0).overflow
  {
    hide Run, Parse;
    LoopPanicsExactly(ContactField, r => false, v, s, 0);
    LoopPanicsExactly(GroupField, r => false, v, s, 0);
  }

  lemma DetailPanics(v: Event, s: bytes)
    ensures Run(DetailField, v, s, 0).Panicked? <==> BadDetail(s)
  {
    hide Run, Parse, FindDroid;
    forall u, r ensures DetailField(u, r).Panicked? <==> BadDetailRecord(r) {
      if r.BytesField? { ContactPanics(u, r.data); }
    }
    LoopPanicsExactly(DetailField, BadDetailRecord, v, s, 0);
  }

  lemma EventPanics(v: Event, s: bytes)
    ensures Run(EventField, v, s, 0).Panicked? <==>
            Parse(s, 0).overflow || exists r :: r in Parse(s, 0).recs && BadEventRecord(r)
  {
    hide Run, Parse, BadDetail;
    forall u, r ensures EventField(u, r).Panicked? <==> BadEventRecord(r) {
      if r.BytesField? && r.field == 15 { DetailPanics(u, r.data); }
    }
    LoopPanicsExactly(EventField, BadEventRecord, v, s, 0);
  }

  lemma DetailBreaksExactly(s: bytes)
    ensures BadDetail(s) <==> DetailBreaks(s)
  {
    hide Parse, Stands, OverflowsAt;
    OverflowExactly(s, 0);
    if r :| r in Parse(s, 0).recs && BadDetailRecord(r) {
      var k := StandsFound(s, 0, r);
      OverflowExactly(r.data, 0);
    }
    if k, r :| Stands(s, 0, k, r) && r.BytesField? && (r.field == 2 || r.field == 3) && Breaks(r.data) {
      StandsParsed(s, 0, k, r);
      OverflowExactly(r.data, 0);
      assert BadDetailRecord(r);
    }
  }

  /** A CotEvent makes the decoder panic exactly when a length overflows in the event, in a Detail, or
      in a Contact or Group of a Detail. */
  lemma EventBreaksExactly(v: Event, s: bytes)
    ensures Run(EventField, v, s, 0).Panicked? <==> EventBreaks(s)
  {
    hide Run, Parse, Stands, OverflowsAt, BadDetail, DetailBreaks;
    EventPanics(v, s);
    OverflowExactly(s, 0);
    if r :| r in Parse(s, 0).recs && BadEventRecord(r) {
      var k := StandsFound(s, 0, r);
      DetailBreaksExactly(r.data);
    }
    if k, r :| Stands(s, 0, k, r) && r.BytesField? && r.field == 15 && DetailBreaks(r.data) {
      StandsParsed(s, 0, k, r);
      DetailBreaksExactly(r.data);
      assert BadEventRecord(r);
    }
  }

  // ---------- the whole decoder ----------

  const COT := 2

  /** For every buffer: DecodeTakProto loops for ever exactly when the envelope's records lead in a
      circle, panics exactly when they lead to a bad length or to a CotEvent that breaks, returns an
      event exactly when they lead to one that does not, and nil for the rest. */
  lemma DecodeExactly(buf: bytes)
    ensures Decode(buf) == Hung <==> MAGIC <= buf && Circles(buf[3..], COT)
    ensures Decode(buf) == Crashed <==>
            MAGIC <= buf && (LeadsToBadLength(buf[3..], COT) || exists cot :: LeadsToMessage(buf[3..], COT, cot) && EventBreaks(cot))
    ensures Decode(buf).Decoded? <==> MAGIC <= buf && exists cot :: LeadsToMessage(buf[3..], COT, cot) && !EventBreaks(cot)
    ensures Decode(buf) == NotTak <==> !(MAGIC <= buf) || LeadsToNothing(buf[3..], COT)
  {
    hide Run, Extract, EventBreaks, Circles, LeadsToMessage, LeadsToBadLength, LeadsToNothing;
    if MAGIC <= buf {
      var s := buf[3..];
      ExtractExactly(s, COT, []);
      forall cot ensures Extract(s, COT) == Message(cot) <==> LeadsToMessage(s, COT, cot) {
        MessageExactly(s, COT, cot);
      }
      forall cot ensures Run(EventField, EMPTY_EVENT, cot, 0).Panicked? <==> EventBreaks(cot) {
        EventBreaksExactly(EMPTY_EVENT, cot);
      }
    }
  }

  /** It returns, with nil or an event, whenever no overflowing length is met in the envelope and
      none in the CotEvent found there. */
  lemma NoOverflowReturns(buf: bytes)
    requires MAGIC <= buf ==> MeetsNoOverflow(buf[3..], COT)
    requires MAGIC <= buf ==> forall cot :: LeadsToMessage(buf[3..], COT, cot) ==> !EventBreaks(cot)
    ensures Decode(buf) == NotTak || Decode(buf).Decoded?
  {
    hide Run, Extract, EventBreaks, Circles, LeadsToMessage, LeadsToBadLength, LeadsToNothing, MeetsNoOverflow;
    if MAGIC <= buf {
      ForwardReturns(buf[3..], COT);
      DecodeExactly(buf);
      forall cot | Extract(buf[3..], COT) == Message(cot) ensures LeadsToMessage(buf[3..], COT, cot) {
        MessageExactly(buf[3..], COT, cot);
      }
    }
  }

  // ---------- inputs ----------

  /** A record of another field whose length takes the scan back to its own start. */
  lemma BackToStart(s: bytes)
    requires s != [] && NextRecord(s, 0).Overflow? && NextRecord(s, 0).field != COT
    requires WrappedEnd(NextRecord(s, 0).header, NextRecord(s, 0).length) == 0
    ensures Extract(s, COT) == Endless
  {
    hide NextRecord;
    assert s[0..] == s;
    assert Turns(Scanner(s, COT), 1) == At(0);
    Cycles(Scanner(s, COT), 0, 1, |s| + 1);
  }

  lemma LongVarints()
    ensures VarintBytes(TWO_64 - 11) == [0xF5, 0xFF, 0xFF, 0xFF, 0xFF, 0xFF, 0xFF, 0xFF, 0xFF, 0x01]
    ensures VarintBytes(TWO_64 - 1) == [0xFF, 0xFF, 0xFF, 0xFF, 0xFF, 0xFF, 0xFF, 0xFF, 0xFF, 0x01]
  {
    hide VarintBytes;
    ShortVarint(1);
    LongerVarint(0xFF, 1, 0x7F);
    LongerVarint(0x7FFF, 0xFF, 0x7F);
    LongerVarint(0x3F_FFFF, 0x7FFF, 0x7F);
    LongerVarint(0x1FFF_FFFF, 0x3F_FFFF, 0x7F);
    LongerVarint(0xF_FFFF_FFFF, 0x1FFF_FFFF, 0x7F);
    LongerVarint(0x7FF_FFFF_FFFF, 0xF_FFFF_FFFF, 0x7F);
    LongerVarint(0x3_FFFF_FFFF_FFFF, 0x7FF_FFFF_FFFF, 0x7F);
    LongerVarint(0x1FF_FFFF_FFFF_FFFF, 0x3_FFFF_FFFF_FFFF, 0x7F);
    LongerVarint(TWO_64 - 1, 0x1FF_FFFF_FFFF_FFFF, 0x7F);
    LongerVarint(TWO_64 - 11, 0x1FF_FFFF_FFFF_FFFF, 0x75);
  }

  lemma LongerVarint(v: nat, q: nat, low: nat)
    requires v == q * 0x80 + low && low < 0x80 && q > 0
    ensures VarintBytes(v) == [low + 0x80] + VarintBytes(q)
  {
    DivUnique(v, q, low, 0x80);
  }

  /** The header of a length-delimited field 1 whose length is 2^63 or more. */
  lemma LongHeader(v: uint64, rest: bytes)
    requires v >= TWO_63
    ensures NextRecord([0x0A] + VarintBytes(v) + rest, 0) == Overflow(1, 1 + |VarintBytes(v)|, v)
  {
    hide VarintLen, VarintValue, VarintBytes;
    assert VarintBytes(0x0A) == [0x0A] by { ShortVarint(0x0A); }
    assert [0x0A] + VarintBytes(v) + rest == [0x0A] + (VarintBytes(v) + rest);
    TagReads(0x0A, VarintBytes(v) + rest);
    TagReads(v, rest);
  }

  lemma ShortVarint(v: nat)
    requires v < 0x80
    ensures VarintBytes(v) == [v]
  {
  }

  /** A CotEvent whose declared length is 2^63 or more is sliced all the same: a panic. */
  lemma LengthOverflowPanics(v: uint64, rest: bytes)
    requires v >= TWO_63
    ensures Decode(MAGIC + (VarintBytes(0x12) + (VarintBytes(v) + rest))) == Crashed
  {
    hide VarintBytes, VarintLen, VarintValue, Run;
    var t := VarintBytes(v) + rest;
    var s := VarintBytes(0x12) + t;
    assert (MAGIC + s)[3..] == s && MAGIC <= MAGIC + s;
    TagReads(0x12, t);
    TagReads(v, rest);
    assert s[0..] == s;
    EndsAtOnce(s, COT, Panics);
  }

  /** Fourteen bytes, and whatever follows them, on which the decoder never returns. */
  lemma NeverReturns(rest: bytes)
    ensures Decode(MAGIC + ([0x0A, 0xF5, 0xFF, 0xFF, 0xFF, 0xFF, 0xFF, 0xFF, 0xFF, 0xFF, 0x01] + rest)) == Hung
  {
    hide NextRecord, VarintBytes, Extract, Run;
    var s := [0x0A, 0xF5, 0xFF, 0xFF, 0xFF, 0xFF, 0xFF, 0xFF, 0xFF, 0xFF, 0x01] + rest;
    LongVarints();
    LongHeader(TWO_64 - 11, rest);
    assert s == [0x0A] + VarintBytes(TWO_64 - 11) + rest;
    BackToStart(s);
    assert (MAGIC + s)[3..] == s;
  }

  /** And fourteen that overflow, step back by one byte and end with nil. */
  lemma OverflowsToNil()
    ensures Decode(MAGIC + [0x0A, 0xFF, 0xFF, 0xFF, 0xFF, 0xFF, 0xFF, 0xFF, 0xFF, 0xFF, 0x01]) == NotTak
  {
    hide NextRecord, VarintBytes, Run;
    var s := [0x0A, 0xFF, 0xFF, 0xFF, 0xFF, 0xFF, 0xFF, 0xFF, 0xFF, 0xFF, 0x01];
    LongVarints();
    LongHeader(TWO_64 - 1, []);
    assert s == [0x0A] + VarintBytes(TWO_64 - 1) + [];
    assert s[0..] == s && s[10..] == [0x01];
    TagAlone();
    var f := Scanner(s, COT);
    assert f(0) == At(10) && f(10) == Stop(Nil);
    assert Turns(f, 1) == At(10);
    assert Turns(f, 2) == Stop(Nil);
    StopStays(f, 2, |s| + 1);
    assert (MAGIC + s)[3..] == s;
  }

  lemma TagAlone()
    ensures NextRecord([0x01], 10) == Malformed
  {
    assert [0x01][1..] == [];
  }
}
