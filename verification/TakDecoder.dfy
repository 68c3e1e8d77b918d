/** The loops of server/tak_proto.go: four index-driven decoders over one event object, the scan of
    the envelope, and the encoder that appends to a growing slice. A panic of the Go code is the
    out-parameter `panicked`; a loop of it that never ends is an outcome as well. */
module TakDecoder {
  import opened Basics
  import opened TakVarint
  import opened TakRecords
  import opened PositionLoop
  import opened TakEnvelope
  import opened TakProto
  import opened WireFormat

  /** `int(length)`: the bits of a uint64 read as a signed 64-bit number. */
  function ToInt64(v: uint64): int
  {
    if v < TWO_63 then v else v - TWO_64
  }

  /** The sum of two `int`s, wrapping. */
  function AddInt64(a: int, b: int): int
    requires -TWO_63 <= a < TWO_63 && -TWO_63 <= b < TWO_63
  {
    if a + b >= TWO_63 then a + b - TWO_64 else if a + b < -TWO_63 then a + b + TWO_64 else a + b
  }

  /** Both are what 64-bit two's complement has: the one signed number that differs from the exact value
      by a multiple of 2^64. For a length it is where TakEnvelope has the wrapped position. */
  lemma WrapExactly(at: nat, length: uint64, x: int)
    requires at < TWO_63
    ensures x == AddInt64(at, ToInt64(length)) <==> -TWO_63 <= x < TWO_63 && exists k: int :: x == at + length + WholeTurns(k)
    ensures at + length >= TWO_63 ==> AddInt64(at, ToInt64(length)) == WrappedEnd(at, length)
  {
    var y := AddInt64(at, ToInt64(length));
    assert y == at + length + WholeTurns(if y == at + length then 0 else -1);
    if k: int :| x == at + length + WholeTurns(k) && -TWO_63 <= x < TWO_63 {
      assert y == x;
    }
  }

  function WholeTurns(k: int): int
  {
    k * TWO_64
  }

  class TakCotEvent {
    var uid: bytes
    var kind: bytes
    var callsign: bytes
    var how: bytes
    var lat: uint64
    var lon: uint64
    var hae: uint64
    var ce: uint64
    var le: uint64
    var team: bytes
    var role: bytes

    function Value(): Event
      reads this
    {
      Event(uid, kind, callsign, how, lat, lon, hae, ce, le, team, role)
    }

    constructor ()
      ensures Value() == EMPTY_EVENT
    {
      uid, kind, callsign, how, team, role := [], [], [], [], [], [];
      lat, lon, hae, ce, le := 0, 0, 0, 0, 0;
    }
  }

  /** The switch on the wire type that the loops repeat: the record at `pos`, with the bounds test in
      wrapping `int` arithmetic, as the code has it. Where the sum has wrapped to before the data,
      the four decoders slice and panic; what the envelope scan does is up to ExtractMessage. */
  method ReadRecord(buf: slice, pos: nat) returns (r: Scan)
    requires pos < |buf|
    ensures r == NextRecord(buf[pos..], pos)
    ensures match r
      case Got(rec, n) => pos + n <= |buf| && IsRecord(buf[pos..pos + n], rec)
      case Malformed => NoVarint(buf[pos..]) || exists n: nat :: BrokenAfter(buf[pos..], n, pos)
      case Overflow(field, header, length) => exists n: nat :: OverlongAfter(buf[pos..], pos, field, header, length, n)
  {
    hide VarintLen, VarintValue, Payload, IsRecord, NoVarint, BrokenAfter, OverlongAfter;
    MeetsTheFormat(buf, pos);
    var tag, n := DecodeVarint(buf[pos..]);
    if n == 0 {
      return Malformed;
    }
    assert buf[pos..][n..] == buf[pos + n..];
    r := ReadPayload(buf, tag / 8, tag % 8, n, pos + n);
  }

  lemma MeetsTheFormat(buf: slice, pos: nat)
    requires pos < |buf|
    ensures match NextRecord(buf[pos..], pos)
      case Got(rec, n) => pos + n <= |buf| && IsRecord(buf[pos..pos + n], rec)
      case Malformed => NoVarint(buf[pos..]) || exists n: nat :: BrokenAfter(buf[pos..], n, pos)
      case Overflow(field, header, length) => exists n: nat :: OverlongAfter(buf[pos..], pos, field, header, length, n)
  {
    hide NextRecord, IsRecord, NoVarint, BrokenAfter, OverlongAfter;
    match NextRecord(buf[pos..], pos)
    case Got(rec, n) =>
      ReadsExactly(buf[pos..], pos, rec, n);
      assert buf[pos..][..n] == buf[pos..pos + n];
    case Malformed => GivesUpExactly(buf[pos..], pos);
    case Overflow(field, header, length) => OverflowsOnly(buf[pos..], pos, field, header, length);
  }

  method ReadPayload(buf: slice, field: nat, wireType: nat, n: nat, at: nat) returns (r: Scan)
    requires n > 0 && at <= |buf|
    ensures r == Payload(field, wireType, n, buf[at..], at)
  {
    hide VarintLen, VarintValue, LeValue;
    var t := buf[at..];
    match wireType
    case 0 =>
      var val, m := DecodeVarint(t);
      r := if m == 0 then Malformed else Got(VarintField(field, val), n + m);
    case 1 =>
      if at + 8 > |buf| {
        return Malformed;
      }
      assert buf[at..at + 8] == t[..8];
      r := Got(Fixed64Field(field, Word64(buf[at..at + 8])), n + 8);
    case 2 =>
      var length, m := DecodeVarint(t);
      if m == 0 {
        return Malformed;
      }
      assert buf[at + m..] == t[m..];
      r := ReadDelimited(buf, field, n + m, length, at + m);
    case 5 =>
      if at + 4 > |buf| {
        return Malformed;
      }
      assert buf[at..at + 4] == t[..4];
      r := Got(Fixed32Field(field, buf[at..at + 4]), n + 4);
    case _ =>
      r := Malformed;
  }

  method ReadDelimited(buf: slice, field: nat, n: nat, length: uint64, at: nat) returns (r: Scan)
    requires at <= |buf|
    ensures r == Delimited(field, n, length, buf[at..], at)
  {
    var end := AddInt64(at, ToInt64(length));
    if end > |buf| {
      return Malformed;
    }
    if end < at {
      return Overflow(field, n, length);
    }
    assert end == at + length;
    assert buf[at..end] == buf[at..][..length];
    r := Got(BytesField(field, buf[at..end]), n + length);
  }

  /** What is left to do from `pos` on. */
  ghost function Left(f: Update<Event>, v: Event, buf: slice, pos: nat): Outcome<Event>
    requires pos <= |buf|
  {
    Run(f, v, buf[pos..], pos)
  }

  lemma Resume(f: Update<Event>, v: Event, buf: slice, pos: nat)
    requires pos < |buf|
    ensures Left(f, v, buf, pos) ==
      match NextRecord(buf[pos..], pos)
      case Malformed => Ok(v)
      case Overflow(_, _, _) => Panicked
      case Got(r, n) => (match f(v, r) case Panicked => Panicked case Ok(w) => Left(f, w, buf, pos + n))
  {
    hide NextRecord;
    if NextRecord(buf[pos..], pos).Got? {
      var n := NextRecord(buf[pos..], pos).size;
      assert buf[pos..][n..] == buf[pos + n..];
    }
  }

  method DecodeContact(buf: slice, ev: TakCotEvent) returns (panicked: bool)
    modifies ev
    ensures match Run(ContactField, old(ev.Value()), buf, 0)
      case Panicked => panicked
      case Ok(w) => !panicked && ev.Value() == w
  {
    hide Run, NextRecord;
    var pos := 0;
    assert buf[0..] == buf;
    while pos < |buf|
      invariant pos <= |buf|
      invariant Left(ContactField, ev.Value(), buf, pos) == Run(ContactField, old(ev.Value()), buf, 0)
    {
      Resume(ContactField, ev.Value(), buf, pos);
      var scan := ReadRecord(buf, pos);
      match scan
      case Malformed => return false;
      case Overflow(_, _, _) => return true;
      case Got(r, n) =>
        pos := pos + n;
        if r.BytesField? && r.field == 4 {
          ev.callsign := r.data;
        }
    }
    assert buf[pos..] == [];
    RunEnd(ContactField, ev.Value(), pos);
    return false;
  }

  method DecodeGroup(buf: slice, ev: TakCotEvent) returns (panicked: bool)
    modifies ev
    ensures match Run(GroupField, old(ev.Value()), buf, 0)
      case Panicked => panicked
      case Ok(w) => !panicked && ev.Value() == w
  {
    hide Run, NextRecord;
    var pos := 0;
    assert buf[0..] == buf;
    while pos < |buf|
      invariant pos <= |buf|
      invariant Left(GroupField, ev.Value(), buf, pos) == Run(GroupField, old(ev.Value()), buf, 0)
    {
      Resume(GroupField, ev.Value(), buf, pos);
      var scan := ReadRecord(buf, pos);
      match scan
      case Malformed => return false;
      case Overflow(_, _, _) => return true;
      case Got(r, n) =>
        pos := pos + n;
        if r.BytesField? && r.field == 1 {
          ev.team := r.data;
        } else if r.BytesField? && r.field == 2 {
          ev.role := r.data;
        }
    }
    assert buf[pos..] == [];
    RunEnd(GroupField, ev.Value(), pos);
    return false;
  }

  method DecodeDetail(buf: slice, ev: TakCotEvent) returns (panicked: bool)
    modifies ev
    ensures match Run(DetailField, old(ev.Value()), buf, 0)
      case Panicked => panicked
      case Ok(w) => !panicked && ev.Value() == w
  {
    hide Run, NextRecord, FindDroid;
    var pos := 0;
    assert buf[0..] == buf;
    while pos < |buf|
      invariant pos <= |buf|
      invariant Left(DetailField, ev.Value(), buf, pos) == Run(DetailField, old(ev.Value()), buf, 0)
    {
      Resume(DetailField, ev.Value(), buf, pos);
      var scan := ReadRecord(buf, pos);
      match scan
      case Malformed => return false;
      case Overflow(_, _, _) => return true;
      case Got(r, n) =>
        pos := pos + n;
        DataFits(buf[pos - n..], pos - n);
        panicked := ApplyDetail(r, ev);
        if panicked {
          return;
        }
    }
    assert buf[pos..] == [];
    RunEnd(DetailField, ev.Value(), pos);
    return false;
  }

  /** The switch on the field number inside decodeDetail. */
  method ApplyDetail(r: Record, ev: TakCotEvent) returns (panicked: bool)
    requires r.BytesField? ==> |r.data| < TWO_63
    modifies ev
    ensures match DetailField(old(ev.Value()), r)
      case Panicked => panicked
      case Ok(w) => !panicked && ev.Value() == w
  {
    hide Run, FindDroid;
    panicked := false;
    if r.BytesField? {
      match r.field
      case 1 =>
        if ev.callsign == [] {
          var m := FindDroid(r.data, 0);
          if m.Some? { ev.callsign := m.value; }
        }
      case 2 => panicked := DecodeContact(r.data, ev);
      case 3 => panicked := DecodeGroup(r.data, ev);
      case _ =>
    }
  }

  method DecodeCotEvent(buf: slice) returns (panicked: bool, ev: TakCotEvent)
    ensures fresh(ev)
    ensures match Run(EventField, EMPTY_EVENT, buf, 0)
      case Panicked => panicked
      case Ok(w) => !panicked && ev.Value() == w
  {
    hide Run, NextRecord;
    ev := new TakCotEvent();
    var pos := 0;
    assert buf[0..] == buf;
    while pos < |buf|
      invariant pos <= |buf|
      invariant Left(EventField, ev.Value(), buf, pos) == Run(EventField, EMPTY_EVENT, buf, 0)
    {
      Resume(EventField, ev.Value(), buf, pos);
      var scan := ReadRecord(buf, pos);
      match scan
      case Malformed => return false, ev;
      case Overflow(_, _, _) => return true, ev;
      case Got(r, n) =>
        pos := pos + n;
        DataFits(buf[pos - n..], pos - n);
        panicked := ApplyEvent(r, ev);
        if panicked {
          return;
        }
    }
    assert buf[pos..] == [];
    RunEnd(EventField, ev.Value(), pos);
    panicked := false;
  }

  /** The two switches on the field number inside decodeCotEvent. */
  method ApplyEvent(r: Record, ev: TakCotEvent) returns (panicked: bool)
    requires r.BytesField? ==> |r.data| < TWO_63
    modifies ev
    ensures match EventField(old(ev.Value()), r)
      case Panicked => panicked
      case Ok(w) => !panicked && ev.Value() == w
  {
    hide Run;
    panicked := false;
    if r.Fixed64Field? {
      match r.field
      case 10 => ev.lat := r.bits;
      case 11 => ev.lon := r.bits;
      case 12 => ev.hae := r.bits;
      case 13 => ev.ce := r.bits;
      case 14 => ev.le := r.bits;
      case _ =>
    } else if r.BytesField? {
      match r.field
      case 1 => ev.kind := r.data;
      case 4 => ev.how := r.data;
      case 5 => ev.uid := r.data;
      case 15 => panicked := DecodeDetail(r.data, ev);
      case _ =>
    }
  }

  /** protoExtractMessage. The count of turns is not in the source: it stands for the loop that goes
      on for ever, which it does exactly if it is still going after |buf| + 1 turns. */
  method ExtractMessage(buf: slice, targetField: nat) returns (found: Extraction)
    ensures found == Extract(buf, targetField)
  {
    hide NextRecord, TurnAt;
    ghost var f := Scanner(buf, targetField);
    var pos: int := 0;
    var turns := 0;
    while pos < |buf| && turns < |buf| + 1
      invariant 0 <= pos <= |buf| && turns <= |buf| + 1
      invariant Turns(f, turns) == At(pos)
      decreases |buf| + 1 - turns
    {
      var scan := ReadRecord(buf, pos);
      OverflowHeader(buf[pos..], pos);
      OneTurn(buf, pos, targetField);
      turns := turns + 1;
      match scan
      case Malformed =>
        StopStays(f, turns, |buf| + 1);
        return Nil;
      case Got(r, n) =>
        if r.BytesField? && r.field == targetField {
          StopStays(f, turns, |buf| + 1);
          return Message(r.data);
        }
        pos := pos + n;
      case Overflow(field, header, length) =>
        var end := AddInt64(pos + header, ToInt64(length));
        if field == targetField || end < 0 {
          StopStays(f, turns, |buf| + 1);
          return Panics;
        }
        pos := end;
    }
    if pos < |buf| {
      return Endless;
    }
    TurnAtEnd(buf, targetField);
    if turns == |buf| + 1 {
      NoTurnAtEnd(buf, targetField);
    } else {
      StopStays(f, turns + 1, |buf| + 1);
    }
    return Nil;
  }

  lemma OneTurn(buf: slice, pos: nat, field: nat)
    requires pos < |buf|
    ensures match NextRecord(buf[pos..], pos)
      case Malformed => TurnAt(buf, field, pos) == Stop(Nil)
      case Got(r, n) =>
        TurnAt(buf, field, pos) == if r.BytesField? && r.field == field then Stop(Message(r.data)) else At(pos + n)
      case Overflow(other, header, length) =>
        pos + header < TWO_63
        && var end := AddInt64(pos + header, ToInt64(length));
           TurnAt(buf, field, pos) == if other == field || end < 0 then Stop(Panics) else At(end)
  {
    hide NextRecord;
    OverflowHeader(buf[pos..], pos);
  }

  lemma TurnAtEnd(buf: slice, field: nat)
    ensures TurnAt(buf, field, |buf|) == Stop(Nil)
  {
  }

  /** After so many turns the scan cannot have just arrived at the end. */
  lemma NoTurnAtEnd(buf: slice, field: nat)
    ensures Turns(Scanner(buf, field), |buf| + 1) != At(|buf|)
  {
    hide TurnAt, Within;
    var f := Scanner(buf, field);
    if Turns(f, |buf| + 1) == At(|buf|) {
      TurnAtEnd(buf, field);
      ScansWithin(buf, field);
      var i, j := Revisits(f, |buf|);
      Cycles(f, i, j, |buf| + 2);
    }
  }

  datatype Fate = Returned | Panicking | Running

  /** DecodeTakProto: nil is `None`. */
  method DecodeTakProto(buf: slice) returns (fate: Fate, ev: Option<TakCotEvent>)
    ensures match Decode(buf)
      case NotTak => fate == Returned && ev == None
      case Crashed => fate == Panicking
      case Hung => fate == Running
      case Decoded(w) => fate == Returned && ev.Some? && fresh(ev.value) && ev.value.Value() == w
  {
    hide Run, Extract;
    if |buf| < 3 || buf[0] != 0xBF || buf[1] != 0x01 || buf[2] != 0xBF {
      return Returned, None;
    }
    assert MAGIC <= buf;
    var cot := ExtractMessage(buf[3..], 2);
    match cot
    case Nil => return Returned, None;
    case Panics => return Panicking, None;
    case Endless => return Running, None;
    case Message(data) =>
      MessageFits(buf[3..], 2, data);
      var panicked, decoded := DecodeCotEvent(data);
      return if panicked then Panicking else Returned, Some(decoded);
  }

  lemma MessageFits(s: bytes, field: nat, data: bytes)
    requires Extract(s, field) == Message(data)
    ensures |data| <= |s|
  {
    hide Extract, LeadsTo;
    MessageExactly(s, field, data);
    var p: nat :| LeadsTo(s, field, p) && HasMessage(s, field, p, data);
    DataFits(s[p..], p);
  }

  lemma DataFits(s: bytes, off: nat)
    ensures match NextRecord(s, off) case Got(BytesField(_, d), n) => |d| <= n <= |s| case _ => true
  {
    hide VarintLen, VarintValue;
  }

  // ---------- the encoder ----------

  method AppendProtoBytes(buf: bytes, field: nat, data: bytes) returns (out: bytes)
    requires field < 100 && |data| < TWO_63
    ensures out == buf + ProtoBytes(field, data)
  {
    hide VarintBytes;
    out := AppendVarint(buf, field * 8 + 2);
    out := AppendVarint(out, |data|);
    out := out + data;
  }

  method AppendProtoDouble(buf: bytes, field: nat, bits: uint64) returns (out: bytes)
    requires field < 100
    ensures out == buf + ProtoDouble(field, bits)
  {
    hide VarintBytes, LeBytes;
    out := AppendVarint(buf, field * 8 + 1);
    out := out + LeBytes(bits, 8);
  }

  /** EncodeTakProto; the slices it builds have to fit in memory as Go slices do. */
  method EncodeTakProto(e: Event) returns (out: bytes)
    requires |Encode(e)| < TWO_63
    ensures out == Encode(e)
  {
    hide ProtoBytes, PositionBytes, DetailBytes, GroupBytes;
    SizesFit(e);
    var detail := EncodeDetail(e);
    var cot := [];
    if e.kind != [] { cot := AppendProtoBytes(cot, 1, e.kind); }
    if e.how != [] { cot := AppendProtoBytes(cot, 4, e.how); }
    if e.uid != [] { cot := AppendProtoBytes(cot, 5, e.uid); }
    assert cot == OptBytes(1, e.kind) + OptBytes(4, e.how) + OptBytes(5, e.uid);
    ghost var head := cot;
    cot := AppendPosition(cot, e, detail);
    assert cot == EventBytes(e);
    var tak := AppendProtoBytes([], 2, cot);
    out := MAGIC + tak;
  }

  method AppendPosition(head: bytes, e: Event, detail: bytes) returns (cot: bytes)
    requires detail == DetailBytes(e) && |detail| < TWO_63
    ensures cot == head + PositionBytes(e)
  {
    hide ProtoBytes, ProtoDouble, DetailBytes;
    cot := AppendProtoDouble(head, 10, e.lat);
    cot := AppendProtoDouble(cot, 11, e.lon);
    cot := AppendProtoDouble(cot, 12, e.hae);
    cot := AppendProtoDouble(cot, 13, e.ce);
    cot := AppendProtoDouble(cot, 14, e.le);
    if |detail| > 0 { cot := AppendProtoBytes(cot, 15, detail); }
    assert cot == head + PositionBytes(e);
  }

  method EncodeDetail(e: Event) returns (detail: bytes)
    requires |e.callsign| < TWO_63 && |e.team| < TWO_63 && |e.role| < TWO_63
    requires |ProtoBytes(4, e.callsign)| < TWO_63 || e.callsign == []
    requires |GroupBytes(e)| < TWO_63
    ensures detail == DetailBytes(e)
  {
    hide ProtoBytes;
    detail := [];
    if e.callsign != [] {
      var contact := AppendProtoBytes([], 4, e.callsign);
      detail := AppendProtoBytes(detail, 2, contact);
      assert contact == ProtoBytes(4, e.callsign);
    }
    ghost var contactPart := if e.callsign == [] then [] else ProtoBytes(2, ProtoBytes(4, e.callsign));
    assert detail == contactPart;
    if e.team != [] || e.role != [] {
      var group := [];
      if e.team != [] { group := AppendProtoBytes(group, 1, e.team); }
      if e.role != [] { group := AppendProtoBytes(group, 2, e.role); }
      assert group == GroupBytes(e) && group != [];
      detail := AppendProtoBytes(detail, 3, group);
    } else {
      assert GroupBytes(e) == [];
    }
    assert detail == contactPart + OptBytes(3, GroupBytes(e));
  }

  lemma DataShorter(field: nat, data: bytes)
    ensures |data| <= |ProtoBytes(field, data)|
    ensures |data| <= |OptBytes(field, data)|
  {
  }

  lemma SizesFit(e: Event)
    requires |Encode(e)| < TWO_63
    ensures |EventBytes(e)| < TWO_63 && |DetailBytes(e)| < TWO_63 && |GroupBytes(e)| < TWO_63
    ensures |e.kind| < TWO_63 && |e.how| < TWO_63 && |e.uid| < TWO_63
    ensures |e.callsign| < TWO_63 && |e.team| < TWO_63 && |e.role| < TWO_63
    ensures |ProtoBytes(4, e.callsign)| < TWO_63 || e.callsign == []
  {
    hide ProtoBytes, ProtoDouble;
    DataShorter(2, EventBytes(e));
    DataShorter(1, e.kind);
    DataShorter(4, e.how);
    DataShorter(5, e.uid);
    DataShorter(15, DetailBytes(e));
    DataShorter(3, GroupBytes(e));
    DataShorter(1, e.team);
    DataShorter(2, e.role);
    DataShorter(2, ProtoBytes(4, e.callsign));
    DataShorter(4, e.callsign);
  }

  // ---------- the whole codec ----------

  /** Encoding an event and decoding the bytes gives the event back, at the level of the methods. */
  method RoundTrip(e: Event) returns (ev: Option<TakCotEvent>)
    requires |Encode(e)| < TWO_63
    ensures ev.Some? && fresh(ev.value) && ev.value.Value() == e
  {
    var wire := EncodeTakProto(e);
    CodecRoundTrip(e);
    var fate: Fate;
    fate, ev := DecodeTakProto(wire);
  }
}
