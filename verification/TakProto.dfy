/** The TAK message of server/tak_proto.go: what each field means, the encoder's output as a
    value, and the round trip through the four nested messages. */
module TakProto {
  import opened Basics
  import opened TakVarint
  import opened TakRecords
  import opened TakEnvelope

  /** The eleven fields of a TakCotEvent. A float64 is its 64 bits, a string its bytes. */
  datatype Event = Event(
    uid: bytes, kind: bytes, callsign: bytes, how: bytes,
    lat: uint64, lon: uint64, hae: uint64, ce: uint64, le: uint64,
    team: bytes, role: bytes)

  const EMPTY_EVENT := Event([], [], [], [], 0, 0, 0, 0, 0, [], [])
  const MAGIC: bytes := [0xBF, 0x01, 0xBF]

  /** nil, a panic, a loop that never ends, or an event. */
  datatype Decoded = NotTak | Crashed | Hung | Decoded(event: Event)

  // ---------- the droid regex: Droid="([^"]+)" ----------

  const QUOTE: byte := 0x22
  const DROID: bytes := [0x44, 0x72, 0x6F, 0x69, 0x64, 0x3D, 0x22]

  predicate IsDroid(s: bytes, i: nat, j: nat)
  {
    i + |DROID| < j < |s| && s[i..i + |DROID|] == DROID && s[j] == QUOTE
    && forall k :: i + |DROID| <= k < j ==> s[k] != QUOTE
  }

  ghost predicate IsLeftmost(s: bytes, i: nat, a: nat, b: nat)
  {
    i <= a && IsDroid(s, a, b) && forall a': nat, b': nat :: i <= a' < a ==> !IsDroid(s, a', b')
  }

  /** The position of the first quote from `i` on, or |s|. */
  function NextQuote(s: bytes, i: nat): (j: nat)
    requires i <= |s|
    ensures i <= j <= |s| && (j < |s| ==> s[j] == QUOTE)
    ensures forall k :: i <= k < j ==> s[k] != QUOTE
    decreases |s| - i
  {
    if i == |s| || s[i] == QUOTE then i else NextQuote(s, i + 1)
  }

  /** `r` is the captured group of the leftmost match from `i` on, if there is one. */
  ghost predicate DroidFrom(s: bytes, i: nat, r: Option<bytes>)
  {
    match r
    case None => forall a: nat, b: nat :: i <= a ==> !IsDroid(s, a, b)
    case Some(v) => exists a: nat, b: nat :: IsLeftmost(s, i, a, b) && v == s[a + |DROID|..b]
  }

  function FindDroid(s: bytes, i: nat): (r: Option<bytes>)
    requires i <= |s|
    ensures DroidFrom(s, i, r)
    decreases |s| - i
  {
    if i + |DROID| > |s| then None
    else
      var q := NextQuote(s, i + |DROID|);
      if s[i..i + |DROID|] == DROID && IsDroid(s, i, q) then
        assert IsLeftmost(s, i, i, q);
        Some(s[i + |DROID|..q])
      else
        var r := FindDroid(s, i + 1);
        SkipPosition(s, i, r);
        r
  }

  /** No match starts at `i` unless it ends at the next quote. */
  lemma SkipPosition(s: bytes, i: nat, r: Option<bytes>)
    requires i + |DROID| <= |s| && !IsDroid(s, i, NextQuote(s, i + |DROID|))
    requires DroidFrom(s, i + 1, r)
    ensures DroidFrom(s, i, r)
  {
    DroidEnds(s, i);
    if r.Some? {
      var a: nat, b: nat :| IsLeftmost(s, i + 1, a, b) && r.value == s[a + |DROID|..b];
      assert IsLeftmost(s, i, a, b);
    }
  }

  lemma DroidEnds(s: bytes, i: nat)
    requires i + |DROID| <= |s|
    ensures forall b: nat :: IsDroid(s, i, b) ==> b == NextQuote(s, i + |DROID|)
  {
  }

  // ---------- the per-record updates of the four decoders ----------

  function ContactField(ev: Event, r: Record): Outcome<Event>
  {
    match r
    case BytesField(4, data) => Ok(ev.(callsign := data))
    case _ => Ok(ev)
  }

  function GroupField(ev: Event, r: Record): Outcome<Event>
  {
    match r
    case BytesField(1, data) => Ok(ev.(team := data))
    case BytesField(2, data) => Ok(ev.(role := data))
    case _ => Ok(ev)
  }

  function DetailField(ev: Event, r: Record): Outcome<Event>
  {
    match r
    case BytesField(1, data) =>
      if ev.callsign == [] && FindDroid(data, 0).Some?
      then Ok(ev.(callsign := FindDroid(data, 0).value)) else Ok(ev)
    case BytesField(2, data) => Run(ContactField, ev, data, 0)
    case BytesField(3, data) => Run(GroupField, ev, data, 0)
    case _ => Ok(ev)
  }

  function EventField(ev: Event, r: Record): Outcome<Event>
  {
    match r
    case Fixed64Field(10, v) => Ok(ev.(lat := v))
    case Fixed64Field(11, v) => Ok(ev.(lon := v))
    case Fixed64Field(12, v) => Ok(ev.(hae := v))
    case Fixed64Field(13, v) => Ok(ev.(ce := v))
    case Fixed64Field(14, v) => Ok(ev.(le := v))
    case BytesField(1, data) => Ok(ev.(kind := data))
    case BytesField(4, data) => Ok(ev.(how := data))
    case BytesField(5, data) => Ok(ev.(uid := data))
    case BytesField(15, data) => Run(DetailField, ev, data, 0)
    case _ => Ok(ev)
  }

  function Decode(buf: bytes): Decoded
  {
    if !(MAGIC <= buf) then NotTak else
    match Extract(buf[3..], 2)
    case Nil => NotTak
    case Panics => Crashed
    case Endless => Hung
    case Message(cot) =>
      match Run(EventField, EMPTY_EVENT, cot, 0)
      case Panicked => Crashed
      case Ok(ev) => Decoded(ev)
  }

  // ---------- what the encoder writes ----------

  function OptBytes(field: nat, data: bytes): bytes
  {
    if data == [] then [] else ProtoBytes(field, data)
  }

  function GroupBytes(e: Event): bytes
  {
    OptBytes(1, e.team) + OptBytes(2, e.role)
  }

  function DetailBytes(e: Event): bytes
  {
    (if e.callsign == [] then [] else ProtoBytes(2, ProtoBytes(4, e.callsign)))
    + OptBytes(3, GroupBytes(e))
  }

  function PositionBytes(e: Event): bytes
  {
    ProtoDouble(10, e.lat) + (ProtoDouble(11, e.lon) + (ProtoDouble(12, e.hae)
    + (ProtoDouble(13, e.ce) + (ProtoDouble(14, e.le) + OptBytes(15, DetailBytes(e))))))
  }

  function EventBytes(e: Event): bytes
  {
    OptBytes(1, e.kind) + (OptBytes(4, e.how) + (OptBytes(5, e.uid) + PositionBytes(e)))
  }

  function Encode(e: Event): bytes
  {
    MAGIC + ProtoBytes(2, EventBytes(e))
  }

  // ---------- the round trip, innermost message first ----------

  /** An optional string field followed by `rest`, for an update that stores it. */
  lemma RunOptBytes(f: Update<Event>, v: Event, w: Event, field: nat, data: bytes, rest: bytes, off: nat)
    requires field < 100 && off + |OptBytes(field, data)| < TWO_63
    requires if data == [] then w == v else f(v, BytesField(field, data)) == Ok(w)
    ensures Run(f, v, OptBytes(field, data) + rest, off) == Run(f, w, rest, off + |OptBytes(field, data)|)
  {
    hide Run;
    if data == [] {
      assert OptBytes(field, data) + rest == rest;
    } else {
      RunBytes(f, v, field, data, rest, off);
    }
  }

  lemma RunEnd<T>(f: Update<T>, v: T, off: nat)
    ensures Run(f, v, [], off) == Ok(v)
  {
  }

  lemma ContactRoundTrip(v: Event, callsign: bytes)
    requires |ProtoBytes(4, callsign)| < TWO_63
    ensures Run(ContactField, v, ProtoBytes(4, callsign), 0) == Ok(v.(callsign := callsign))
  {
    hide NextRecord;
    var w := v.(callsign := callsign);
    RunBytes(ContactField, v, 4, callsign, [], 0);
    assert ProtoBytes(4, callsign) + [] == ProtoBytes(4, callsign);
    RunEnd(ContactField, w, |ProtoBytes(4, callsign)|);
  }

  lemma GroupRoundTrip(v: Event, e: Event)
    requires |GroupBytes(e)| < TWO_63 && v.team == v.role == []
    ensures Run(GroupField, v, GroupBytes(e), 0) == Ok(v.(team := e.team, role := e.role))
  {
    hide Run, NextRecord, ProtoBytes, OptBytes;
    var a, b := OptBytes(1, e.team), OptBytes(2, e.role);
    var v1 := v.(team := e.team);
    var v2 := v1.(role := e.role);
    TeamAndRole(v, e.team);
    TeamAndRole(v1, e.role);
    RunOptBytes(GroupField, v, v1, 1, e.team, b, 0);
    RunOptBytes(GroupField, v1, v2, 2, e.role, [], |a|);
    assert b + [] == b;
    RunEnd(GroupField, v2, |a| + |b|);
  }

  lemma TeamAndRole(v: Event, data: bytes)
    ensures GroupField(v, BytesField(1, data)) == Ok(v.(team := data))
    ensures GroupField(v, BytesField(2, data)) == Ok(v.(role := data))
  {
  }

  lemma DetailRoundTrip(v: Event, e: Event)
    requires |DetailBytes(e)| < TWO_63 && v.callsign == v.team == v.role == []
    ensures Run(DetailField, v, DetailBytes(e), 0) == Ok(v.(callsign := e.callsign, team := e.team, role := e.role))
  {
    hide Run, NextRecord;
    var contact := if e.callsign == [] then [] else ProtoBytes(2, ProtoBytes(4, e.callsign));
    var group := OptBytes(3, GroupBytes(e));
    var v1 := v.(callsign := e.callsign);
    var v2 := v1.(team := e.team, role := e.role);
    assert Run(DetailField, v, contact + group, 0) == Run(DetailField, v1, group, |contact|) by {
      if e.callsign == [] {
        assert contact + group == group;
      } else {
        ContactRoundTrip(v, e.callsign);
        RunBytes(DetailField, v, 2, ProtoBytes(4, e.callsign), group, 0);
      }
    }
    if GroupBytes(e) != [] {
      GroupRoundTrip(v1, e);
    }
    RunOptBytes(DetailField, v1, v2, 3, GroupBytes(e), [], |contact|);
    assert group + [] == group;
    RunEnd(DetailField, v2, |contact| + |group|);
  }

  lemma PositionRoundTrip(v: Event, e: Event, off: nat)
    requires off + |PositionBytes(e)| < TWO_63 && v.callsign == v.team == v.role == []
    ensures Run(EventField, v, PositionBytes(e), off) == Ok(e.(uid := v.uid, kind := v.kind, how := v.how))
  {
    hide Run, NextRecord, ProtoDouble;
    var d := OptBytes(15, DetailBytes(e));
    var t14 := ProtoDouble(14, e.le) + d;
    var t13 := ProtoDouble(13, e.ce) + t14;
    var t12 := ProtoDouble(12, e.hae) + t13;
    var t11 := ProtoDouble(11, e.lon) + t12;
    var v1 := v.(lat := e.lat);
    var v2 := v1.(lon := e.lon);
    var v3 := v2.(hae := e.hae);
    var v4 := v3.(ce := e.ce);
    var v5 := v4.(le := e.le);
    var v6 := v5.(callsign := e.callsign, team := e.team, role := e.role);
    RunDouble(EventField, v, 10, e.lat, t11, off);
    var o1 := off + |ProtoDouble(10, e.lat)|;
    RunDouble(EventField, v1, 11, e.lon, t12, o1);
    var o2 := o1 + |ProtoDouble(11, e.lon)|;
    RunDouble(EventField, v2, 12, e.hae, t13, o2);
    var o3 := o2 + |ProtoDouble(12, e.hae)|;
    RunDouble(EventField, v3, 13, e.ce, t14, o3);
    var o4 := o3 + |ProtoDouble(13, e.ce)|;
    RunDouble(EventField, v4, 14, e.le, d, o4);
    var o5 := o4 + |ProtoDouble(14, e.le)|;
    if DetailBytes(e) == [] {
      assert e.callsign == e.team == e.role == [];
    } else {
      DetailRoundTrip(v5, e);
    }
    RunOptBytes(EventField, v5, v6, 15, DetailBytes(e), [], o5);
    assert d + [] == d;
    RunEnd(EventField, v6, o5 + |d|);
  }

  lemma EventRoundTrip(e: Event)
    requires |EventBytes(e)| < TWO_63
    ensures Run(EventField, EMPTY_EVENT, EventBytes(e), 0) == Ok(e)
  {
    hide Run, NextRecord, PositionBytes;
    var p := PositionBytes(e);
    var a, b, c := OptBytes(1, e.kind), OptBytes(4, e.how), OptBytes(5, e.uid);
    var v1 := EMPTY_EVENT.(kind := e.kind);
    var v2 := v1.(how := e.how);
    var v3 := v2.(uid := e.uid);
    RunOptBytes(EventField, EMPTY_EVENT, v1, 1, e.kind, b + (c + p), 0);
    RunOptBytes(EventField, v1, v2, 4, e.how, c + p, |a|);
    RunOptBytes(EventField, v2, v3, 5, e.uid, p, |a| + |b|);
    PositionRoundTrip(v3, e, |a| + |b| + |c|);
  }

  /** Decoding what EncodeTakProto wrote gives back all eleven fields, for every event whose
      encoding is a Go slice. */
  lemma CodecRoundTrip(e: Event)
    requires |Encode(e)| < TWO_63
    ensures Decode(Encode(e)) == Decoded(e)
  {
    hide Run, NextRecord, EventBytes, VarintBytes, Extract;
    var body := ProtoBytes(2, EventBytes(e));
    assert Encode(e)[3..] == body && MAGIC <= Encode(e);
    ProtoBytesReads(2, EventBytes(e), 0);
    FirstRecordFound(body, 2, EventBytes(e));
    EventRoundTrip(e);
  }

  /** Does decodeCotEvent look at this record? */
  predicate Used(r: Record)
  {
    match r
    case Fixed64Field(n, _) => 10 <= n <= 14
    case BytesField(n, _) => n in {1, 4, 5, 15}
    case _ => false
  }

  /** A well-formed record with an unused field number or wire type may stand at any record
      boundary of the CotEvent without changing what is decoded. */
  lemma UnusedRecordIgnored(v: Event, a: bytes, w: bytes, b: bytes)
    requires Whole(a, 0)
    requires var r := NextRecord(w, |a|); r.Got? && r.size == |w| && !Used(r.rec)
    requires !Parse(b, |a| + |w|).overflow
    ensures Run(EventField, v, a + w + b, 0) == Run(EventField, v, a + b, 0)
  {
    hide NextRecord, Run;
    InsertIgnored(EventField, v, a, w, b);
  }

  predicate SameScalars(v: Event, w: Event)
  {
    v.uid == w.uid && v.kind == w.kind && v.how == w.how && v.lat == w.lat && v.lon == w.lon
    && v.hae == w.hae && v.ce == w.ce && v.le == w.le
  }

  /** A Detail message writes callsign, team and role only; its sub-messages less. */
  lemma {:induction false} DetailKeeps(v: Event, s: bytes, off: nat)
    ensures match Run(DetailField, v, s, off) case Panicked => true case Ok(w) => SameScalars(v, w)
    decreases |s|
  {
    hide NextRecord, SameScalars;
    KeepsSelf(v);
    if s != [] && NextRecord(s, off).Got? {
      var r, n := NextRecord(s, off).rec, NextRecord(s, off).size;
      match DetailField(v, r)
      case Panicked =>
      case Ok(u) =>
        assert SameScalars(v, u) by {
          if r.BytesField? && r.field == 2 { ContactKeeps(v, r.data, 0); }
          else if r.BytesField? && r.field == 3 { GroupKeeps(v, r.data, 0); }
          else { KeepsCallsign(v, u); }
        }
        DetailKeeps(u, s[n..], off + n);
        match Run(DetailField, u, s[n..], off + n) { case Panicked => case Ok(w) => KeepsTrans(v, u, w); }
    }
  }

  lemma KeepsSelf(v: Event)
    ensures SameScalars(v, v)
  {
  }

  lemma KeepsTrans(u: Event, v: Event, w: Event)
    requires SameScalars(u, v) && SameScalars(v, w)
    ensures SameScalars(u, w)
  {
  }

  lemma KeepsCallsign(v: Event, u: Event)
    requires u == v.(callsign := u.callsign, team := u.team, role := u.role)
    ensures SameScalars(v, u)
  {
  }

  /** A Contact message changes nothing but the callsign, a Group message team and role only. */
  lemma {:induction false} ContactKeeps(v: Event, s: bytes, off: nat)
    ensures match Run(ContactField, v, s, off)
      case Panicked => true
      case Ok(w) => SameScalars(v, w) && w.team == v.team && w.role == v.role
    decreases |s|
  {
    hide NextRecord;
    if s != [] && NextRecord(s, off).Got? {
      var r, n := NextRecord(s, off).rec, NextRecord(s, off).size;
      match ContactField(v, r)
      case Ok(u) => ContactKeeps(u, s[n..], off + n);
    }
  }

  lemma {:induction false} GroupKeeps(v: Event, s: bytes, off: nat)
    ensures match Run(GroupField, v, s, off)
      case Panicked => true
      case Ok(w) => SameScalars(v, w) && w.callsign == v.callsign
    decreases |s|
  {
    hide NextRecord;
    if s != [] && NextRecord(s, off).Got? {
      var r, n := NextRecord(s, off).rec, NextRecord(s, off).size;
      match GroupField(v, r)
      case Ok(u) => GroupKeeps(u, s[n..], off + n);
    }
  }

  /** Two different events never have the same encoding. */
  lemma EncodeInjective(e: Event, e': Event)
    requires |Encode(e)| < TWO_63 && Encode(e) == Encode(e')
    ensures e == e'
  {
    CodecRoundTrip(e);
    CodecRoundTrip(e');
  }
}
