/** The record format itself, said of the bytes alone (Protocol Buffers Encoding specification, sections
    "Base 128 Varints" and "Message Structure"), and that the decoders of server/tak_proto.go read
    exactly the records of wire types 0, 1, 2 and 5, and give up on everything else. */
module WireFormat {
  import opened Basics
  import opened TakVarint
  import opened TakRecords
  import opened TakEnvelope
  import opened TakProto

  // ---------- the format ----------

  /** Groups with the high bit set and a last one without it, ten at most. */
  predicate IsVarint(w: bytes)
  {
    0 < |w| <= 10 && w[|w| - 1] < 0x80 && forall i :: 0 <= i < |w| - 1 ==> w[i] >= 0x80
  }

  function Number(w: bytes): uint64
  {
    Base128(w) % TWO_64
  }

  predicate WireTypeIs(r: Record, wireType: nat)
  {
    match r
    case VarintField(_, _) => wireType == 0
    case Fixed64Field(_, _) => wireType == 1
    case BytesField(_, _) => wireType == 2
    case Fixed32Field(_, _) => wireType == 5
  }

  ghost predicate IsPayload(t: bytes, r: Record)
  {
    match r
    case VarintField(_, v) => IsVarint(t) && Number(t) == v
    case Fixed64Field(_, bits) => |t| == 8 && LeValue(t) == bits
    case BytesField(_, data) => exists m: nat :: m <= |t| && IsVarint(t[..m]) && Number(t[..m]) == |data| && t[m..] == data
    case Fixed32Field(_, raw) => |t| == 4 && t == raw
  }

  /** The first `n` bytes are a tag, and the others the payload. */
  ghost predicate TagAndPayload(w: bytes, r: Record, n: nat)
  {
    n <= |w| && IsVarint(w[..n]) && Number(w[..n]) / 8 == r.field && WireTypeIs(r, Number(w[..n]) % 8) && IsPayload(w[n..], r)
  }

  ghost predicate IsRecord(w: bytes, r: Record)
  {
    exists n: nat :: TagAndPayload(w, r, n)
  }

  /** No varint starts here. */
  ghost predicate NoVarint(s: bytes)
  {
    forall n: nat :: n <= |s| ==> !IsVarint(s[..n])
  }

  ghost predicate TooLong(t: bytes, m: nat, pos: nat)
  {
    m <= |t| && IsVarint(t[..m]) && Number(t[..m]) > |t| - m && pos + m + Number(t[..m]) < TWO_63
  }

  /** The payload is cut off, or there is no such wire type. */
  ghost predicate Broken(wireType: nat, t: bytes, pos: nat)
  {
    match wireType
    case 0 => NoVarint(t)
    case 1 => |t| < 8
    case 2 => NoVarint(t) || exists m: nat :: TooLong(t, m, pos)
    case 5 => |t| < 4
    case _ => true
  }

  ghost predicate BrokenAfter(s: bytes, n: nat, off: nat)
  {
    n <= |s| && IsVarint(s[..n]) && Broken(Number(s[..n]) % 8, s[n..], off + n)
  }

  // ---------- varints ----------

  lemma VarintAtMostOne(s: bytes, n: nat, k: nat)
    requires n <= |s| && k <= |s| && IsVarint(s[..n]) && IsVarint(s[..k])
    ensures n == k
  {
    assert forall i :: 0 <= i < n ==> s[..n][i] == s[i];
    assert forall i :: 0 <= i < k ==> s[..k][i] == s[i];
  }

  lemma VarintLenExactly(s: bytes, n: nat)
    requires n <= |s|
    ensures IsVarint(s[..n]) <==> n > 0 && VarintLen(s) == n
    ensures n > 0 && VarintLen(s) == n ==> VarintValue(s) == Number(s[..n])
  {
    hide FirstFinal, Base128;
    var k := VarintLen(s);
    assert forall i :: 0 <= i < n ==> s[..n][i] == s[i];
    if k > 0 {
      assert IsVarint(s[..k]);
      if IsVarint(s[..n]) { VarintAtMostOne(s, n, k); }
    }
  }

  lemma NoVarintExactly(s: bytes)
    ensures NoVarint(s) <==> VarintLen(s) == 0
  {
    hide VarintLen, VarintValue;
    VarintLenExactly(s, VarintLen(s));
    if VarintLen(s) == 0 {
      forall n: nat | n <= |s| ensures !IsVarint(s[..n]) { VarintLenExactly(s, n); }
    }
  }

  // ---------- records are read exactly where the format has them ----------

  /** The payload takes the first `k` bytes of `t`, and its end fits in an `int`. */
  ghost predicate PayloadStands(field: nat, wireType: nat, t: bytes, pos: nat, r: Record, k: nat)
  {
    k <= |t| && r.field == field && WireTypeIs(r, wireType) && IsPayload(t[..k], r) && (r.BytesField? ==> pos + k < TWO_63)
  }

  lemma NumberRead(field: nat, n: nat, t: bytes, pos: nat, r: Record, k: nat)
    requires n > 0
    ensures Payload(field, 0, n, t, pos) == Got(r, n + k) <==> PayloadStands(field, 0, t, pos, r, k)
  {
    hide VarintLen, VarintValue, Number, IsVarint;
    if k <= |t| { VarintLenExactly(t, k); }
    VarintLenExactly(t, VarintLen(t));
  }

  lemma FixedRead(field: nat, wireType: nat, n: nat, t: bytes, pos: nat, r: Record, k: nat)
    requires n > 0 && wireType != 0 && wireType != 2
    ensures Payload(field, wireType, n, t, pos) == Got(r, n + k) <==> PayloadStands(field, wireType, t, pos, r, k)
  {
    hide VarintLen, VarintValue, LeValue;
    if wireType == 1 && |t| >= 8 { assert t[..8] == t[..8][..8]; }
  }

  lemma DataRead(field: nat, n: nat, t: bytes, pos: nat, r: Record, k: nat)
    requires n > 0
    ensures Payload(field, 2, n, t, pos) == Got(r, n + k) <==> PayloadStands(field, 2, t, pos, r, k)
  {
    hide VarintLen, VarintValue, Number, IsVarint;
    var m := VarintLen(t);
    VarintLenExactly(t, m);
    if Payload(field, 2, n, t, pos) == Got(r, n + k) {
      assert t[..k][..m] == t[..m] && t[..k][m..] == t[m..][..k - m];
    }
    if PayloadStands(field, 2, t, pos, r, k) {
      var j: nat :| j <= k && IsVarint(t[..k][..j]) && Number(t[..k][..j]) == |r.data| && t[..k][j..] == r.data;
      assert t[..k][..j] == t[..j] && t[..k][j..] == t[j..][..k - j];
      VarintLenExactly(t, j);
    }
  }

  lemma PayloadRead(field: nat, wireType: nat, n: nat, t: bytes, pos: nat, r: Record, k: nat)
    requires n > 0
    ensures Payload(field, wireType, n, t, pos) == Got(r, n + k) <==> PayloadStands(field, wireType, t, pos, r, k)
  {
    hide Payload, PayloadStands;
    if wireType == 0 {
      NumberRead(field, n, t, pos, r, k);
    } else if wireType == 2 {
      DataRead(field, n, t, pos, r, k);
    } else {
      FixedRead(field, wireType, n, t, pos, r, k);
    }
  }

  /** A decoder reads the record `r` of `n` bytes exactly if the format has it there; a string or message
      must also end before 2^63. */
  lemma ReadsExactly(s: bytes, off: nat, r: Record, n: nat)
    ensures NextRecord(s, off) == Got(r, n)
       <==> n <= |s| && IsRecord(s[..n], r) && (r.BytesField? ==> off + n < TWO_63)
  {
    hide VarintLen, VarintValue, Payload, IsPayload, IsVarint, Number;
    var m := VarintLen(s);
    VarintLenExactly(s, m);
    if NextRecord(s, off) == Got(r, n) {
      PayloadRead(VarintValue(s) / 8, VarintValue(s) % 8, m, s[m..], off + m, r, n - m);
      assert s[..n][..m] == s[..m] && s[..n][m..] == s[m..][..n - m];
      assert TagAndPayload(s[..n], r, m);
    }
    if n <= |s| && IsRecord(s[..n], r) && (r.BytesField? ==> off + n < TWO_63) {
      var j: nat :| TagAndPayload(s[..n], r, j);
      assert s[..n][..j] == s[..j] && s[..n][j..] == s[j..][..n - j];
      VarintLenExactly(s, j);
      PayloadRead(VarintValue(s) / 8, VarintValue(s) % 8, j, s[j..], off + j, r, n - j);
    }
  }

  lemma BrokenExactly(field: nat, wireType: nat, n: nat, t: bytes, pos: nat)
    requires n > 0
    ensures Payload(field, wireType, n, t, pos).Malformed? <==> Broken(wireType, t, pos)
  {
    hide VarintLen, VarintValue, Number, IsVarint, LeValue, NoVarint;
    NoVarintExactly(t);
    var m := VarintLen(t);
    VarintLenExactly(t, m);
    if wireType == 2 {
      if m > 0 && VarintValue(t) > |t| - m && pos + m + VarintValue(t) < TWO_63 { assert TooLong(t, m, pos); }
      if k: nat :| TooLong(t, k, pos) { VarintLenExactly(t, k); }
    }
  }

  /** A decoder gives up exactly where no tag ends, the payload is cut off, or the wire type is none of
      0, 1, 2 and 5. */
  lemma GivesUpExactly(s: bytes, off: nat)
    ensures NextRecord(s, off).Malformed? <==> NoVarint(s) || exists n: nat :: BrokenAfter(s, n, off)
  {
    hide VarintLen, VarintValue, Payload, Broken, IsVarint, Number, NoVarint;
    NoVarintExactly(s);
    var m := VarintLen(s);
    VarintLenExactly(s, m);
    if m > 0 {
      BrokenExactly(VarintValue(s) / 8, VarintValue(s) % 8, m, s[m..], off + m);
      if NextRecord(s, off).Malformed? { assert BrokenAfter(s, m, off); }
    }
    if n: nat :| BrokenAfter(s, n, off) { VarintLenExactly(s, n); }
  }

  ghost predicate OverlongAfter(s: bytes, off: nat, field: nat, header: nat, length: uint64, n: nat)
  {
    n <= header <= |s| && IsVarint(s[..n]) && Number(s[..n]) / 8 == field && Number(s[..n]) % 8 == 2
    && IsVarint(s[n..header]) && Number(s[n..header]) == length && off + header + length >= TWO_63
  }

  /** And it meets an overflow exactly where a declared length ends at 2^63 or later. */
  lemma OverflowsOnly(s: bytes, off: nat, field: nat, header: nat, length: uint64)
    ensures NextRecord(s, off) == Overflow(field, header, length) <==> exists n: nat :: OverlongAfter(s, off, field, header, length, n)
  {
    hide VarintLen, VarintValue, IsVarint, Number;
    var m := VarintLen(s);
    var k := VarintLen(s[m..]);
    VarintLenExactly(s, m);
    VarintLenExactly(s[m..], k);
    assert s[m..][..k] == s[m..m + k];
    if NextRecord(s, off) == Overflow(field, header, length) {
      assert OverlongAfter(s, off, field, header, length, m);
    }
    if n: nat :| OverlongAfter(s, off, field, header, length, n) {
      VarintLenExactly(s, n);
      assert s[n..][..header - n] == s[n..header];
      VarintLenExactly(s[n..], header - n);
    }
  }

  // ---------- records that are not used ----------

  lemma {:induction false} WholeConcat(a: bytes, b: bytes, off: nat)
    requires Whole(a, off)
    ensures Whole(a + b, off) <==> Whole(b, off + |a|)
    decreases |a|
  {
    hide NextRecord;
    if a == [] {
      assert a + b == b;
    } else {
      var n := NextRecord(a, off).size;
      RecordExtends(a, b, off);
      assert (a + b)[n..] == a[n..] + b;
      WholeConcat(a[n..], b, off + n);
    }
  }

  lemma OneWhole(w: bytes, off: nat)
    requires NextRecord(w, off).Got? && NextRecord(w, off).size == |w|
    ensures Whole(w, off)
  {
    hide NextRecord;
    assert w[|w|..] == [];
  }

  /** Whole records that end before 2^63 can be moved: no length in them overflows. */
  lemma {:induction false} WholeFits(b: bytes, off: nat, off': nat)
    requires Whole(b, off) && off' + |b| < TWO_63
    ensures !Parse(b, off').overflow
    decreases |b|
  {
    hide NextRecord;
    if b != [] {
      var r, n := NextRecord(b, off).rec, NextRecord(b, off).size;
      ReadsExactly(b, off, r, n);
      ReadsExactly(b, off', r, n);
      WholeFits(b[n..], off + n, off' + n);
    }
  }

  lemma StringWhole(field: nat, data: bytes, rest: bytes, off: nat)
    requires field < 100 && off + |OptBytes(field, data)| < TWO_63 && Whole(rest, off + |OptBytes(field, data)|)
    ensures Whole(OptBytes(field, data) + rest, off)
  {
    hide NextRecord, ProtoBytes;
    if data == [] {
      assert OptBytes(field, data) + rest == rest;
    } else {
      ProtoBytesReads(field, data, off);
      OneWhole(ProtoBytes(field, data), off);
      WholeConcat(ProtoBytes(field, data), rest, off);
    }
  }

  lemma DoubleWhole(field: nat, bits: uint64, rest: bytes, off: nat)
    requires field < 100 && Whole(rest, off + |ProtoDouble(field, bits)|)
    ensures Whole(ProtoDouble(field, bits) + rest, off)
  {
    hide NextRecord, ProtoDouble;
    ProtoDoubleReads(field, bits, off);
    OneWhole(ProtoDouble(field, bits), off);
    WholeConcat(ProtoDouble(field, bits), rest, off);
  }

  lemma PositionWhole(e: Event, off: nat)
    requires off + |PositionBytes(e)| < TWO_63
    ensures Whole(PositionBytes(e), off)
  {
    hide NextRecord, ProtoDouble, ProtoBytes, Whole, DetailBytes;
    var d := OptBytes(15, DetailBytes(e));
    var t14 := ProtoDouble(14, e.le) + d;
    var t13 := ProtoDouble(13, e.ce) + t14;
    var t12 := ProtoDouble(12, e.hae) + t13;
    var t11 := ProtoDouble(11, e.lon) + t12;
    var o1 := off + |ProtoDouble(10, e.lat)|;
    var o2 := o1 + |ProtoDouble(11, e.lon)|;
    var o3 := o2 + |ProtoDouble(12, e.hae)|;
    var o4 := o3 + |ProtoDouble(13, e.ce)|;
    var o5 := o4 + |ProtoDouble(14, e.le)|;
    assert Whole([], o5 + |d|) by { NothingWhole(o5 + |d|); }
    StringWhole(15, DetailBytes(e), [], o5);
    assert d + [] == d;
    DoubleWhole(14, e.le, d, o4);
    DoubleWhole(13, e.ce, t14, o3);
    DoubleWhole(12, e.hae, t13, o2);
    DoubleWhole(11, e.lon, t12, o1);
    DoubleWhole(10, e.lat, t11, off);
  }

  lemma NothingWhole(off: nat)
    ensures Whole([], off)
  {
  }

  lemma EventWhole(e: Event)
    requires |EventBytes(e)| < TWO_63
    ensures Whole(EventBytes(e), 0)
  {
    hide NextRecord, PositionBytes, ProtoBytes, Whole;
    var p := PositionBytes(e);
    var a, b, c := OptBytes(1, e.kind), OptBytes(4, e.how), OptBytes(5, e.uid);
    PositionWhole(e, |a| + |b| + |c|);
    StringWhole(5, e.uid, p, |a| + |b|);
    StringWhole(4, e.how, c + p, |a|);
    StringWhole(1, e.kind, b + (c + p), 0);
  }

  /** A record that the decoder does not use, by the format and whatever its bytes, may stand at any
      record boundary of an encoded event: the whole message decodes to the event all the same. */
  lemma UnusedAnywhere(e: Event, a: bytes, b: bytes, w: bytes, r: Record)
    requires a + b == EventBytes(e) && Whole(a, 0) && IsRecord(w, r) && !Used(r)
    requires |ProtoBytes(2, a + w + b)| + |MAGIC| < TWO_63
    ensures Decode(MAGIC + ProtoBytes(2, a + w + b)) == Decoded(e)
  {
    hide Run, NextRecord, EventBytes, VarintBytes, Extract, IsRecord, Whole, Used;
    var body := ProtoBytes(2, a + w + b);
    assert (MAGIC + body)[3..] == body && MAGIC <= MAGIC + body;
    ProtoBytesReads(2, a + w + b, 0);
    FirstRecordFound(body, 2, a + w + b);
    assert w[..|w|] == w;
    ReadsExactly(w, |a|, r, |w|);
    EventWhole(e);
    WholeConcat(a, b, 0);
    WholeFits(b, |a|, |a| + |w|);
    UnusedRecordIgnored(EMPTY_EVENT, a, w, b);
    EventRoundTrip(e);
  }

  /** The sendTime of an event: field 6, a varint. */
  function SendTime(v: uint64): bytes
  {
    VarintBytes(6 * 8) + VarintBytes(v)
  }

  lemma VarintWritten(v: uint64)
    ensures IsVarint(VarintBytes(v)) && Number(VarintBytes(v)) == v
  {
    hide VarintBytes, VarintLen, VarintValue, IsVarint, Number;
    var w := VarintBytes(v);
    VarintRoundTrip(v, []);
    assert w + [] == w && w[..|w|] == w;
    VarintLenExactly(w, |w|);
  }

  /** What the encoder would write for a varint field is such a record, and so is any fixed 32-bit one. */
  lemma OtherRecords(field: nat, v: uint64, raw: bytes)
    requires field * 8 + 5 < TWO_64 && |raw| == 4
    ensures IsRecord(VarintBytes(field * 8) + VarintBytes(v), VarintField(field, v))
    ensures IsRecord(VarintBytes(field * 8 + 5) + raw, Fixed32Field(field, raw))
  {
    hide VarintBytes, IsVarint, Number;
    var t0, t5, p := VarintBytes(field * 8), VarintBytes(field * 8 + 5), VarintBytes(v);
    VarintWritten(field * 8);
    VarintWritten(field * 8 + 5);
    VarintWritten(v);
    TagSplits(field, 0);
    TagSplits(field, 5);
    assert (t0 + p)[..|t0|] == t0 && (t0 + p)[|t0|..] == p;
    assert (t5 + raw)[..|t5|] == t5 && (t5 + raw)[|t5|..] == raw;
    assert TagAndPayload(t0 + p, VarintField(field, v), |t0|);
    assert TagAndPayload(t5 + raw, Fixed32Field(field, raw), |t5|);
  }

  lemma SendTimeIgnored(e: Event, a: bytes, b: bytes, v: uint64)
    requires a + b == EventBytes(e) && Whole(a, 0)
    requires |ProtoBytes(2, a + SendTime(v) + b)| + |MAGIC| < TWO_63
    ensures Decode(MAGIC + ProtoBytes(2, a + SendTime(v) + b)) == Decoded(e)
  {
    hide Decode, EventBytes, Whole, ProtoBytes, IsRecord, VarintBytes;
    OtherRecords(6, v, [0, 0, 0, 0]);
    UnusedAnywhere(e, a, b, SendTime(v), VarintField(6, v));
  }
}
