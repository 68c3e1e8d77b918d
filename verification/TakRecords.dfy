/** The record structure that every decoder of server/tak_proto.go walks: a tag varint, then a
    payload chosen by the wire type (Protocol Buffers Encoding specification, section
    "Message Structure"). A decoder is a fold of a per-record update over the records;
    everything here holds for any update, so for all four decoders at once. */
module TakRecords {
  import opened Basics
  import opened TakVarint

  datatype Record =
    | VarintField(field: nat, value: uint64)
    | Fixed64Field(field: nat, bits: uint64)
    | BytesField(field: nat, data: bytes)
    | Fixed32Field(field: nat, raw: bytes)

  /** What the decoder meets at a position: a record with its size, bytes it gives up on, or a
      declared length whose end does not fit in an `int`, so that the sum wraps to a position
      before the data; `header` bytes of tag and length have been read by then. */
  datatype Scan = Malformed | Overflow(field: nat, header: nat, length: uint64) | Got(rec: Record, size: nat)

  datatype Outcome<+T> = Ok(value: T) | Panicked

  type Update<!T> = (T, Record) -> Outcome<T>

  /** The record at the start of `s`, where `s` is what is left of a buffer from `off` on. */
  function NextRecord(s: bytes, off: nat): (r: Scan)
    ensures r.Got? ==> 0 < r.size <= |s|
  {
    var n := VarintLen(s);
    if n == 0 then Malformed
    else Payload(VarintValue(s) / 8, VarintValue(s) % 8, n, s[n..], off + n)
  }

  /** The payload `t` of a record whose tag took `n` bytes; `pos` is where it starts. */
  function Payload(field: nat, wireType: nat, n: nat, t: bytes, pos: nat): (r: Scan)
    requires n > 0
    ensures r.Got? ==> n <= r.size <= n + |t|
  {
    var m := VarintLen(t);
    match wireType
    case 0 => if m == 0 then Malformed else Got(VarintField(field, VarintValue(t)), n + m)
    case 1 => if |t| < 8 then Malformed else Got(Fixed64Field(field, Word64(t[..8])), n + 8)
    case 2 =>
      if m == 0 then Malformed
      else Delimited(field, n + m, VarintValue(t), t[m..], pos + m)
    case 5 => if |t| < 4 then Malformed else Got(Fixed32Field(field, t[..4]), n + 4)
    case _ => Malformed
  }

  function Delimited(field: nat, n: nat, length: uint64, u: bytes, pos: nat): (r: Scan)
    ensures r.Got? ==> n <= r.size <= n + |u|
  {
    if pos + length >= TWO_63 then Overflow(field, n, length)
    else if length > |u| then Malformed
    else Got(BytesField(field, u[..length]), n + length)
  }

  /** Tag and length of a record whose end overflows are within the bytes. */
  lemma OverflowHeader(s: bytes, off: nat)
    ensures match NextRecord(s, off)
      case Overflow(_, header, length) => 0 < header <= |s| && off + header + length >= TWO_63
      case _ => true
  {
    hide VarintLen, VarintValue;
  }

  function Word64(s: bytes): uint64
    requires |s| == 8
  {
    LeInRange(s); Pow2Of64();
    LeValue(s)
  }

  /** A decoder loop from `off` on: records are consumed and applied until the buffer ends or
      a malformed record stops it. */
  function Run<T>(f: Update<T>, v: T, s: bytes, off: nat): Outcome<T>
    decreases |s|
  {
    if s == [] then Ok(v) else
    match NextRecord(s, off)
    case Malformed => Ok(v)
    case Overflow(_, _, _) => Panicked
    case Got(r, n) =>
      match f(v, r)
      case Panicked => Panicked
      case Ok(w) => Run(f, w, s[n..], off + n)
  }

  // ---------- the fold it refines ----------

  datatype Parsed = Parsed(recs: seq<Record>, overflow: bool)

  /** The longest well-formed prefix, as records, and whether an overflowing length follows. */
  function Parse(s: bytes, off: nat): Parsed
    decreases |s|
  {
    if s == [] then Parsed([], false) else
    match NextRecord(s, off)
    case Malformed => Parsed([], false)
    case Overflow(_, _, _) => Parsed([], true)
    case Got(r, n) =>
      var p := Parse(s[n..], off + n);
      Parsed([r] + p.recs, p.overflow)
  }

  function Fold<T>(f: Update<T>, o: Outcome<T>, recs: seq<Record>): Outcome<T>
    decreases |recs|
  {
    if recs == [] || o.Panicked? then o else Fold(f, f(o.value, recs[0]), recs[1..])
  }

  /** Every decoder loop is the fold of its update over the longest well-formed prefix,
      unless an overflowing length makes it panic. */
  lemma {:induction false} RunIsFold<T>(f: Update<T>, v: T, s: bytes, off: nat)
    ensures Run(f, v, s, off) ==
            var p := Parse(s, off);
            if p.overflow then Panicked else Fold(f, Ok(v), p.recs)
    decreases |s|
  {
    hide NextRecord;
    if s != [] {
      match NextRecord(s, off)
      case Malformed =>
      case Overflow(_, _, _) =>
      case Got(r, n) =>
        var p := Parse(s, off);
        assert p.recs[0] == r && p.recs[1..] == Parse(s[n..], off + n).recs;
        match f(v, r)
        case Panicked =>
        case Ok(w) => RunIsFold(f, w, s[n..], off + n);
    }
  }

  // ---------- records can be read wherever they stand ----------

  lemma VarintExtends(s: bytes, rest: bytes)
    requires VarintLen(s) > 0
    ensures VarintLen(s + rest) == VarintLen(s) && VarintValue(s + rest) == VarintValue(s)
  {
    var n := VarintLen(s);
    assert forall i :: 0 <= i < |s| ==> (s + rest)[i] == s[i];
    assert VarintLen(s + rest) == n;
    assert (s + rest)[..n] == s[..n];
  }

  lemma DelimitedExtends(field: nat, n: nat, length: uint64, u: bytes, rest: bytes, pos: nat)
    requires Delimited(field, n, length, u, pos).Got?
    ensures Delimited(field, n, length, u + rest, pos) == Delimited(field, n, length, u, pos)
  {
    assert (u + rest)[..length] == u[..length];
  }

  lemma PayloadExtends(field: nat, wireType: nat, n: nat, t: bytes, rest: bytes, pos: nat)
    requires n > 0 && Payload(field, wireType, n, t, pos).Got?
    ensures Payload(field, wireType, n, t + rest, pos) == Payload(field, wireType, n, t, pos)
  {
    hide VarintLen, VarintValue, Word64, Delimited;
    var m := VarintLen(t);
    if wireType == 0 {
      VarintExtends(t, rest);
    } else if wireType == 1 {
      assert (t + rest)[..8] == t[..8];
    } else if wireType == 2 {
      VarintExtends(t, rest);
      assert (t + rest)[m..] == t[m..] + rest;
      DelimitedExtends(field, n + m, VarintValue(t), t[m..], rest, pos + m);
    } else {
      assert (t + rest)[..4] == t[..4];
    }
  }

  lemma RecordExtends(s: bytes, rest: bytes, off: nat)
    requires NextRecord(s, off).Got?
    ensures NextRecord(s + rest, off) == NextRecord(s, off)
  {
    hide VarintLen, VarintValue, Payload;
    VarintExtends(s, rest);
    var n, tag := VarintLen(s), VarintValue(s);
    assert (s + rest)[n..] == s[n..] + rest;
    PayloadExtends(tag / 8, tag % 8, n, s[n..], rest, off + n);
  }

  /** Moving a record towards the start of its buffer can only remove an overflow. */
  lemma RecordShifts(s: bytes, off: nat, off': nat)
    requires off <= off' && !NextRecord(s, off').Overflow?
    ensures NextRecord(s, off) == NextRecord(s, off')
  {
  }

  /** `s` is a run of whole records. */
  predicate Whole(s: bytes, off: nat)
    decreases |s|
  {
    s == [] ||
    match NextRecord(s, off)
    case Got(_, n) => Whole(s[n..], off + n)
    case _ => false
  }

  function Then<T>(o: Outcome<T>, f: Update<T>, s: bytes, off: nat): Outcome<T>
  {
    match o
    case Panicked => Panicked
    case Ok(w) => Run(f, w, s, off)
  }

  /** After a run of whole records the decoder goes on from the state they left. */
  lemma {:induction false} RunConcat<T>(f: Update<T>, v: T, a: bytes, b: bytes, off: nat)
    requires Whole(a, off)
    ensures Run(f, v, a + b, off) == Then(Run(f, v, a, off), f, b, off + |a|)
    decreases |a|
  {
    hide NextRecord;
    if a == [] {
      assert a + b == b;
    } else {
      var r := NextRecord(a, off);
      RecordExtends(a, b, off);
      assert (a + b)[r.size..] == a[r.size..] + b;
      match f(v, r.rec)
      case Panicked =>
      case Ok(w) => RunConcat(f, w, a[r.size..], b, off + r.size);
    }
  }

  /** Bytes that do not start a record leave the result of the records before them. */
  lemma MalformedTail<T>(f: Update<T>, v: T, a: bytes, tail: bytes)
    requires Whole(a, 0) && NextRecord(tail, |a|).Malformed?
    ensures Run(f, v, a + tail, 0) == Run(f, v, a, 0)
  {
    hide NextRecord;
    RunConcat(f, v, a, tail, 0);
  }

  lemma {:induction false} RunShifts<T>(f: Update<T>, v: T, s: bytes, off: nat, off': nat)
    requires off <= off' && !Parse(s, off').overflow
    ensures Run(f, v, s, off) == Run(f, v, s, off')
    decreases |s|
  {
    hide NextRecord;
    if s != [] {
      RecordShifts(s, off, off');
      match NextRecord(s, off)
      case Got(r, n) =>
        match f(v, r) {
          case Panicked =>
          case Ok(w) => RunShifts(f, w, s[n..], off + n, off' + n);
        }
      case _ =>
    }
  }

  /** A well-formed record that the update ignores can stand at any record boundary. */
  lemma InsertIgnored<T(!new)>(f: Update<T>, v: T, a: bytes, w: bytes, b: bytes)
    requires Whole(a, 0)
    requires var r := NextRecord(w, |a|); r.Got? && r.size == |w| && forall u :: f(u, r.rec) == Ok(u)
    requires !Parse(b, |a| + |w|).overflow
    ensures Run(f, v, a + w + b, 0) == Run(f, v, a + b, 0)
  {
    hide NextRecord;
    var r := NextRecord(w, |a|);
    assert w[r.size..] == [];
    assert a + w + b == a + (w + b);
    RunConcat(f, v, a, w + b, 0);
    RunConcat(f, v, a, b, 0);
    match Run(f, v, a, 0)
    case Panicked =>
    case Ok(u) =>
      RunConcat(f, u, w, b, |a|);
      assert Run(f, u, w, |a|) == Ok(u);
      RunShifts(f, u, b, |a|, |a| + |w|);
  }

  /** A decoder panics outright exactly when, after some whole records, it meets a length
      whose end passes 2^63. */
  lemma {:induction false} OverflowExactly(s: bytes, off: nat)
    ensures Parse(s, off).overflow <==> exists k :: OverflowsAt(s, off, k)
    decreases |s|
  {
    hide NextRecord;
    if Parse(s, off).overflow {
      var k := OverflowFound(s, off);
    }
    if k :| OverflowsAt(s, off, k) {
      OverflowParsed(s, off, k);
    }
  }

  predicate OverflowsAt(s: bytes, off: nat, k: nat)
  {
    k < |s| && Whole(s[..k], off) && NextRecord(s[k..], off + k).Overflow?
  }

  /** The whole records at the front are read first, then what follows them. */
  lemma {:induction false} ParseConcat(a: bytes, b: bytes, off: nat)
    requires Whole(a, off)
    ensures Parse(a + b, off).recs == Parse(a, off).recs + Parse(b, off + |a|).recs
    ensures Parse(a + b, off).overflow == Parse(b, off + |a|).overflow
    decreases |a|
  {
    hide NextRecord, Parse;
    if a == [] {
      assert a + b == b;
      ParseEnd(off);
    } else {
      var n := NextRecord(a, off).size;
      RecordExtends(a, b, off);
      assert (a + b)[n..] == a[n..] + b;
      ParseConcat(a[n..], b, off + n);
      JoinNext(a, b, off);
    }
  }

  lemma JoinNext(a: bytes, b: bytes, off: nat)
    requires a != [] && NextRecord(a, off).Got? && NextRecord(a + b, off) == NextRecord(a, off)
    requires (a + b)[NextRecord(a, off).size..] == a[NextRecord(a, off).size..] + b
    ensures var n := NextRecord(a, off).size; var p, q := Parse(a[n..], off + n), Parse(a[n..] + b, off + n);
            && Parse(a, off) == Parsed([NextRecord(a, off).rec] + p.recs, p.overflow)
            && Parse(a + b, off) == Parsed([NextRecord(a, off).rec] + q.recs, q.overflow)
  {
    hide NextRecord, Parse;
    ParseNext(a, off);
    ParseNext(a + b, off);
  }

  lemma ParseEnd(off: nat)
    ensures Parse([], off) == Parsed([], false)
  {
  }

  lemma ParseNext(s: bytes, off: nat)
    requires s != [] && NextRecord(s, off).Got?
    ensures var r := NextRecord(s, off); var p := Parse(s[r.size..], off + r.size);
            Parse(s, off) == Parsed([r.rec] + p.recs, p.overflow)
  {
    hide NextRecord;
  }

  lemma ParseSplit(s: bytes, off: nat, k: nat)
    requires k <= |s| && Whole(s[..k], off)
    ensures Parse(s, off).recs == Parse(s[..k], off).recs + Parse(s[k..], off + k).recs
    ensures Parse(s, off).overflow == Parse(s[k..], off + k).overflow
  {
    hide Parse, Whole;
    ParseConcat(s[..k], s[k..], off);
    assert s[..k] + s[k..] == s;
  }

  /** Where record `i` of those read stands, or where reading stops after the last. */
  lemma {:induction false} PlaceOf(s: bytes, off: nat, i: nat) returns (k: nat)
    requires i <= |Parse(s, off).recs|
    ensures k <= |s| && Whole(s[..k], off) && |Parse(s[..k], off).recs| == i
    decreases |s|
  {
    hide NextRecord;
    if i == 0 {
      k := 0;
    } else {
      var n := NextRecord(s, off).size;
      var j := PlaceOf(s[n..], off + n, i - 1);
      k := n + j;
      PrefixRecord(s, k, off);
      assert s[..k][n..] == s[n..][..j];
    }
  }

  lemma OverflowFound(s: bytes, off: nat) returns (k: nat)
    requires Parse(s, off).overflow
    ensures OverflowsAt(s, off, k)
  {
    hide NextRecord;
    k := PlaceOf(s, off, |Parse(s, off).recs|);
    ParseSplit(s, off, k);
  }

  lemma OverflowParsed(s: bytes, off: nat, k: nat)
    requires OverflowsAt(s, off, k)
    ensures Parse(s, off).overflow
  {
    hide NextRecord;
    ParseSplit(s, off, k);
  }

  lemma VarintPrefix(s: bytes, k: nat)
    requires 0 < VarintLen(s) <= k <= |s|
    ensures VarintLen(s[..k]) == VarintLen(s) && VarintValue(s[..k]) == VarintValue(s)
  {
    hide VarintValue;
    VarintPrefixEnds(s, k);
    VarintExtends(s[..k], s[k..]);
    assert s[..k] + s[k..] == s;
  }

  lemma VarintPrefixEnds(s: bytes, k: nat)
    requires 0 < VarintLen(s) <= k <= |s|
    ensures VarintLen(s[..k]) > 0
  {
    var n := VarintLen(s);
    assert s[..k][n - 1] == s[n - 1] < 0x80;
  }

  lemma PrefixRecord(s: bytes, k: nat, off: nat)
    requires NextRecord(s, off).Got? && NextRecord(s, off).size <= k <= |s|
    ensures NextRecord(s[..k], off) == NextRecord(s, off)
  {
    hide VarintLen, VarintValue, Payload;
    var n, tag := VarintLen(s), VarintValue(s);
    VarintPrefix(s, k);
    assert s[..k][n..] == s[n..][..k - n];
    PayloadPrefix(tag / 8, tag % 8, n, s[n..], k - n, off + n);
  }

  lemma PayloadPrefix(field: nat, wireType: nat, n: nat, t: bytes, k: nat, pos: nat)
    requires n > 0 && k <= |t|
    requires var r := Payload(field, wireType, n, t, pos); r.Got? && r.size <= n + k
    ensures Payload(field, wireType, n, t[..k], pos) == Payload(field, wireType, n, t, pos)
  {
    hide VarintLen, VarintValue, LeValue;
    var m := VarintLen(t);
    if wireType == 0 {
      VarintPrefix(t, k);
    } else if wireType == 1 {
      assert t[..k][..8] == t[..8];
    } else if wireType == 2 {
      VarintPrefix(t, k);
      var length := VarintValue(t);
      assert t[..k][m..][..length] == t[m..][..length];
    } else {
      assert t[..k][..4] == t[..4];
    }
  }

  // ---------- records as the encoder writes them ----------

  function ProtoBytes(field: nat, data: bytes): (s: bytes)
    ensures |s| > 0
  {
    VarintBytes(field * 8 + 2) + VarintBytes(|data|) + data
  }

  function ProtoDouble(field: nat, bits: uint64): (s: bytes)
    ensures |s| > 0
  {
    VarintBytes(field * 8 + 1) + LeBytes(bits, 8)
  }

  lemma TagReads(tag: uint64, rest: bytes)
    ensures var s, e := VarintBytes(tag) + rest, VarintBytes(tag);
            VarintLen(s) == |e| && VarintValue(s) == tag && s[|e|..] == rest
  {
    VarintRoundTrip(tag, rest);
    assert (VarintBytes(tag) + rest)[|VarintBytes(tag)|..] == rest;
  }

  lemma ProtoBytesReads(field: nat, data: bytes, off: nat)
    requires field < 100 && off + |ProtoBytes(field, data)| < TWO_63
    ensures NextRecord(ProtoBytes(field, data), off) == Got(BytesField(field, data), |ProtoBytes(field, data)|)
  {
    hide VarintLen, VarintValue, VarintBytes, Payload;
    var t := VarintBytes(|data|) + data;
    assert ProtoBytes(field, data) == VarintBytes(field * 8 + 2) + t;
    TagReads(field * 8 + 2, t);
    TagSplits(field, 2);
    PayloadReads(field, |VarintBytes(field * 8 + 2)|, data, off + |VarintBytes(field * 8 + 2)|);
  }

  lemma TagSplits(field: nat, wireType: nat)
    requires wireType < 8
    ensures (field * 8 + wireType) / 8 == field && (field * 8 + wireType) % 8 == wireType
  {
    DivUnique(field * 8 + wireType, field, wireType, 8);
  }

  lemma PayloadReads(field: nat, n: nat, data: bytes, pos: nat)
    requires n > 0 && |data| < TWO_63 && pos + |VarintBytes(|data|)| + |data| < TWO_63
    ensures Payload(field, 2, n, VarintBytes(|data|) + data, pos) == Got(BytesField(field, data), n + |VarintBytes(|data|)| + |data|)
  {
    hide VarintLen, VarintValue, VarintBytes;
    TagReads(|data|, data);
    assert data[..|data|] == data;
  }

  lemma ProtoDoubleReads(field: nat, bits: uint64, off: nat)
    requires field < 100
    ensures NextRecord(ProtoDouble(field, bits), off) == Got(Fixed64Field(field, bits), |ProtoDouble(field, bits)|)
  {
    hide VarintLen, VarintValue, VarintBytes, LeBytes, Payload;
    TagReads(field * 8 + 1, LeBytes(bits, 8));
    TagSplits(field, 1);
    WordReads(field, |VarintBytes(field * 8 + 1)|, bits, off + |VarintBytes(field * 8 + 1)|);
  }

  lemma WordReads(field: nat, n: nat, bits: uint64, pos: nat)
    requires n > 0
    ensures Payload(field, 1, n, LeBytes(bits, 8), pos) == Got(Fixed64Field(field, bits), n + 8)
  {
    hide VarintLen, VarintValue, LeBytes, LeValue;
    var t := LeBytes(bits, 8);
    assert t[..8] == t;
    assert bits < Pow2(8 * 8) by { Pow2Of64(); }
    LeRoundTrip(bits, 8);
  }

  /** One encoded record in front: the update is applied and the decoder goes on behind it. */
  lemma RunRecord<T>(f: Update<T>, v: T, w: bytes, rest: bytes, off: nat)
    requires var r := NextRecord(w, off); r.Got? && r.size == |w|
    ensures Run(f, v, w + rest, off) == Then(f(v, NextRecord(w, off).rec), f, rest, off + |w|)
  {
    hide NextRecord;
    assert w[|w|..] == [];
    RecordExtends(w, rest, off);
    assert (w + rest)[|w|..] == rest;
  }

  lemma RunBytes<T>(f: Update<T>, v: T, field: nat, data: bytes, rest: bytes, off: nat)
    requires field < 100 && off + |ProtoBytes(field, data)| < TWO_63
    ensures Run(f, v, ProtoBytes(field, data) + rest, off)
         == Then(f(v, BytesField(field, data)), f, rest, off + |ProtoBytes(field, data)|)
  {
    hide NextRecord;
    ProtoBytesReads(field, data, off);
    RunRecord(f, v, ProtoBytes(field, data), rest, off);
  }

  lemma RunDouble<T>(f: Update<T>, v: T, field: nat, bits: uint64, rest: bytes, off: nat)
    requires field < 100
    ensures Run(f, v, ProtoDouble(field, bits) + rest, off)
         == Then(f(v, Fixed64Field(field, bits)), f, rest, off + |ProtoDouble(field, bits)|)
  {
    hide NextRecord;
    ProtoDoubleReads(field, bits, off);
    RunRecord(f, v, ProtoDouble(field, bits), rest, off);
  }
}
