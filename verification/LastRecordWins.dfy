/** Which record of a CotEvent decides each of the eleven fields: the last one that sets it, through
    all nested messages. */
module LastRecordWins {
  import opened Basics
  import opened TakVarint
  import opened TakRecords
  import opened TakProto

  /** The data of the last length-delimited record with this number, or the default. */
  function LastBytes(recs: seq<Record>, field: nat, default: bytes): bytes
  {
    if recs == [] then default
    else
      var r := recs[|recs| - 1];
      if r.BytesField? && r.field == field then r.data else LastBytes(recs[..|recs| - 1], field, default)
  }

  function LastWord(recs: seq<Record>, field: nat, default: uint64): uint64
  {
    if recs == [] then default
    else
      var r := recs[|recs| - 1];
      if r.Fixed64Field? && r.field == field then r.bits else LastWord(recs[..|recs| - 1], field, default)
  }

  lemma {:induction false} FoldSnoc<T>(f: Update<T>, o: Outcome<T>, recs: seq<Record>, r: Record)
    ensures Fold(f, o, recs + [r]) == (match Fold(f, o, recs) case Panicked => Panicked case Ok(v) => f(v, r))
    decreases |recs|
  {
    if recs == [] || o.Panicked? {
      assert recs == [] ==> ([r])[1..] == [] && recs + [r] == [r];
    } else {
      assert (recs + [r])[1..] == recs[1..] + [r];
      FoldSnoc(f, f(o.value, recs[0]), recs[1..], r);
    }
  }

  /** The records of the message nested in a record with this number. */
  function InnerOf(r: Record, field: nat): seq<Record>
  {
    if r.BytesField? && r.field == field then Parse(r.data, 0).recs else []
  }

  /** The records of all messages nested in records with this number, in order. */
  function Inner(recs: seq<Record>, field: nat): seq<Record>
  {
    if recs == [] then []
    else
      Inner(recs[..|recs| - 1], field) + InnerOf(recs[|recs| - 1], field)
  }

  /** One record of a Detail: a Contact sets the callsign outright, the droid attribute only fills
      it in. */
  function CallsignOf(r: Record, before: bytes): bytes
  {
    match r
    case BytesField(1, xml) => if before == [] && FindDroid(xml, 0).Some? then FindDroid(xml, 0).value else before
    case BytesField(2, contact) => LastBytes(Parse(contact, 0).recs, 4, before)
    case _ => before
  }

  /** The callsign after the records of the Detail messages. */
  function Callsign(details: seq<Record>, default: bytes): bytes
  {
    if details == [] then default
    else
      CallsignOf(details[|details| - 1], Callsign(details[..|details| - 1], default))
  }

  lemma {:induction false} LastBytesConcat(a: seq<Record>, b: seq<Record>, field: nat, default: bytes)
    ensures LastBytes(a + b, field, default) == LastBytes(b, field, LastBytes(a, field, default))
    decreases |b|
  {
    if b == [] {
      assert a + b == a;
    } else {
      assert (a + b)[..|a + b| - 1] == a + b[..|b| - 1];
      LastBytesConcat(a, b[..|b| - 1], field, default);
    }
  }

  lemma InnerSnoc(recs: seq<Record>, r: Record, field: nat)
    ensures Inner(recs + [r], field) == Inner(recs, field) + InnerOf(r, field)
  {
    hide Parse;
    assert (recs + [r])[..|recs|] == recs;
  }

  lemma {:induction false} InnerConcat(a: seq<Record>, b: seq<Record>, field: nat)
    ensures Inner(a + b, field) == Inner(a, field) + Inner(b, field)
    decreases |b|
  {
    hide Inner, InnerOf;
    if b == [] {
      assert a + b == a;
      InnerOfNone(field);
    } else {
      var init, r := b[..|b| - 1], b[|b| - 1];
      assert b == init + [r] && a + b == (a + init) + [r];
      InnerSnoc(a + init, r, field);
      InnerSnoc(init, r, field);
      InnerConcat(a, init, field);
    }
  }

  lemma InnerOfNone(field: nat)
    ensures Inner([], field) == []
  {
  }

  lemma CallsignSnoc(details: seq<Record>, r: Record, default: bytes)
    ensures Callsign(details + [r], default) == CallsignOf(r, Callsign(details, default))
  {
    hide Parse, LastBytes, FindDroid;
    assert (details + [r])[..|details|] == details;
  }

  lemma {:induction false} CallsignConcat(a: seq<Record>, b: seq<Record>, default: bytes)
    ensures Callsign(a + b, default) == Callsign(b, Callsign(a, default))
    decreases |b|
  {
    hide CallsignOf, Callsign;
    if b == [] {
      assert a + b == a;
      CallsignOfNone(Callsign(a, default));
    } else {
      var init, r := b[..|b| - 1], b[|b| - 1];
      assert b == init + [r] && a + b == (a + init) + [r];
      CallsignSnoc(a + init, r, default);
      CallsignSnoc(init, r, Callsign(a, default));
      CallsignConcat(a, init, default);
    }
  }

  lemma CallsignOfNone(default: bytes)
    ensures Callsign([], default) == default
  {
  }

  lemma {:induction false} ContactLastWins(v: Event, recs: seq<Record>)
    ensures match Fold(ContactField, Ok(v), recs)
      case Panicked => false
      case Ok(w) => w == v.(callsign := LastBytes(recs, 4, v.callsign))
    decreases |recs|
  {
    if recs != [] {
      var init, r := recs[..|recs| - 1], recs[|recs| - 1];
      assert recs == init + [r];
      FoldSnoc(ContactField, Ok(v), init, r);
      ContactLastWins(v, init);
    }
  }

  lemma {:induction false} GroupLastWins(v: Event, recs: seq<Record>)
    ensures match Fold(GroupField, Ok(v), recs)
      case Panicked => false
      case Ok(w) => w == v.(team := LastBytes(recs, 1, v.team), role := LastBytes(recs, 2, v.role))
    decreases |recs|
  {
    if recs != [] {
      var init, r := recs[..|recs| - 1], recs[|recs| - 1];
      assert recs == init + [r];
      FoldSnoc(GroupField, Ok(v), init, r);
      GroupLastWins(v, init);
    }
  }

  /** What the Detail records make of callsign, team and role. */
  ghost predicate DetailOf(v: Event, w: Event, details: seq<Record>)
  {
    w.callsign == Callsign(details, v.callsign)
    && w.team == LastBytes(Inner(details, 3), 1, v.team)
    && w.role == LastBytes(Inner(details, 3), 2, v.role)
  }

  lemma OneDetail(v: Event, r: Record)
    ensures match DetailField(v, r) case Panicked => true case Ok(w) => DetailOf(v, w, [r])
  {
    hide Run, FindDroid, DetailOf;
    OneOf(v, r);
    if r.BytesField? && r.field == 2 {
      OneContact(v, r.data);
    } else if r.BytesField? && r.field == 3 {
      OneGroup(v, r.data);
    } else {
      OneOther(v, r);
    }
  }

  /** What a single record amounts to. */
  lemma OneOf(v: Event, r: Record)
    ensures Inner([r], 3) == InnerOf(r, 3) && Callsign([r], v.callsign) == CallsignOf(r, v.callsign)
  {
    hide InnerOf, CallsignOf;
    InnerSnoc([], r, 3);
    InnerOfNone(3);
    CallsignSnoc([], r, v.callsign);
    CallsignOfNone(v.callsign);
    assert [] + [r] == [r];
  }

  lemma OneContact(v: Event, contact: bytes)
    ensures match Run(ContactField, v, contact, 0) case Panicked => true case Ok(w) => DetailOf(v, w, [BytesField(2, contact)])
  {
    hide Run, Parse, Fold, FindDroid, LastBytes, Inner, Callsign;
    OneOf(v, BytesField(2, contact));
    LastOfNone(1, v.team);
    LastOfNone(2, v.role);
    RunIsFold(ContactField, v, contact, 0);
    ContactLastWins(v, Parse(contact, 0).recs);
  }

  lemma OneGroup(v: Event, group: bytes)
    ensures match Run(GroupField, v, group, 0) case Panicked => true case Ok(w) => DetailOf(v, w, [BytesField(3, group)])
  {
    hide Run, Parse, Fold, FindDroid, LastBytes, Inner, Callsign;
    OneOf(v, BytesField(3, group));
    RunIsFold(GroupField, v, group, 0);
    GroupLastWins(v, Parse(group, 0).recs);
  }

  lemma OneOther(v: Event, r: Record)
    requires !(r.BytesField? && (r.field == 2 || r.field == 3))
    ensures match DetailField(v, r) case Panicked => true case Ok(w) => DetailOf(v, w, [r])
  {
    hide FindDroid, LastBytes, Inner, Callsign;
    OneOf(v, r);
    LastOfNone(1, v.team);
    LastOfNone(2, v.role);
  }

  lemma LastOfNone(field: nat, default: bytes)
    ensures LastBytes([], field, default) == default
  {
  }

  lemma DetailTwice(u: Event, v: Event, w: Event, a: seq<Record>, b: seq<Record>)
    requires DetailOf(u, v, a) && DetailOf(v, w, b)
    ensures DetailOf(u, w, a + b)
  {
    hide Callsign, LastBytes, Inner;
    CallsignConcat(a, b, u.callsign);
    InnerConcat(a, b, 3);
    LastBytesConcat(Inner(a, 3), Inner(b, 3), 1, u.team);
    LastBytesConcat(Inner(a, 3), Inner(b, 3), 2, u.role);
  }

  lemma DetailOfNone(v: Event)
    ensures DetailOf(v, v, [])
  {
  }

  lemma {:induction false} DetailLastWins(v: Event, details: seq<Record>)
    ensures match Fold(DetailField, Ok(v), details) case Panicked => true case Ok(w) => DetailOf(v, w, details)
    decreases |details|
  {
    hide DetailOf, DetailField;
    DetailOfNone(v);
    if details != [] {
      var init, r := details[..|details| - 1], details[|details| - 1];
      assert details == init + [r];
      FoldSnoc(DetailField, Ok(v), init, r);
      DetailLastWins(v, init);
      match Fold(DetailField, Ok(v), init)
      case Panicked =>
      case Ok(u) =>
        OneDetail(u, r);
        match DetailField(u, r) { case Panicked => case Ok(w) => DetailTwice(v, u, w, init, [r]); }
    }
  }

  /** Callsign, team and role come from the last records that set them in any Contact or Group of
      any Detail message, with the droid attribute filling in an empty callsign. */
  lemma {:induction false} NestedLastWins(v: Event, recs: seq<Record>)
    ensures match Fold(EventField, Ok(v), recs) case Panicked => true case Ok(w) => DetailOf(v, w, Inner(recs, 15))
    decreases |recs|
  {
    hide DetailOf, Run;
    DetailOfNone(v);
    if recs != [] {
      var init, r := recs[..|recs| - 1], recs[|recs| - 1];
      assert recs == init + [r];
      FoldSnoc(EventField, Ok(v), init, r);
      NestedLastWins(v, init);
      match Fold(EventField, Ok(v), init)
      case Panicked =>
      case Ok(u) => NestedStep(v, u, init, r);
    }
  }

  lemma NestedStep(v: Event, u: Event, init: seq<Record>, r: Record)
    requires DetailOf(v, u, Inner(init, 15))
    ensures match EventField(u, r) case Panicked => true case Ok(w) => DetailOf(v, w, Inner(init + [r], 15))
  {
    hide DetailOf, Run, Inner;
    InnerSnoc(init, r, 15);
    if r.BytesField? && r.field == 15 {
      NestedDetail(v, u, Inner(init, 15), r);
    } else {
      assert Inner(init + [r], 15) == Inner(init, 15);
      match EventField(u, r)
      case Ok(w) => SameDetail(v, u, w, Inner(init, 15));
    }
  }

  lemma NestedDetail(v: Event, u: Event, before: seq<Record>, r: Record)
    requires DetailOf(v, u, before) && r.BytesField? && r.field == 15
    ensures match EventField(u, r) case Panicked => true case Ok(w) => DetailOf(v, w, before + InnerOf(r, 15))
  {
    hide DetailOf, Run, Parse, Fold;
    assert EventField(u, r) == Run(DetailField, u, r.data, 0);
    RunIsFold(DetailField, u, r.data, 0);
    DetailLastWins(u, Parse(r.data, 0).recs);
    match Run(DetailField, u, r.data, 0)
    case Panicked =>
    case Ok(w) => DetailTwice(v, u, w, before, Parse(r.data, 0).recs);
  }

  lemma SameDetail(v: Event, u: Event, w: Event, details: seq<Record>)
    requires DetailOf(v, u, details) && w.callsign == u.callsign && w.team == u.team && w.role == u.role
    ensures DetailOf(v, w, details)
  {
  }

  /** Repeated fields are last-wins: the eight fields of the event itself come from their last records. */
  lemma {:induction false} EventLastWins(v: Event, recs: seq<Record>)
    ensures match Fold(EventField, Ok(v), recs)
      case Panicked => true
      case Ok(w) =>
        w.uid == LastBytes(recs, 5, v.uid) && w.kind == LastBytes(recs, 1, v.kind) && w.how == LastBytes(recs, 4, v.how)
        && w.lat == LastWord(recs, 10, v.lat) && w.lon == LastWord(recs, 11, v.lon) && w.hae == LastWord(recs, 12, v.hae)
        && w.ce == LastWord(recs, 13, v.ce) && w.le == LastWord(recs, 14, v.le)
    decreases |recs|
  {
    if recs != [] {
      var init, r := recs[..|recs| - 1], recs[|recs| - 1];
      assert recs == init + [r];
      FoldSnoc(EventField, Ok(v), init, r);
      EventLastWins(v, init);
      match Fold(EventField, Ok(v), init)
      case Panicked =>
      case Ok(w) =>
        if r.BytesField? && r.field == 15 { DetailKeeps(w, r.data, 0); }
    }
  }

  /** The decoder, field by field: each of the eleven comes from the last record that sets it. */
  lemma DecodedFields(cot: bytes)
    ensures match Run(EventField, EMPTY_EVENT, cot, 0)
      case Panicked => true
      case Ok(w) =>
        var recs := Parse(cot, 0).recs;
        var details := Inner(recs, 15);
        w == Event(LastBytes(recs, 5, []), LastBytes(recs, 1, []), Callsign(details, []), LastBytes(recs, 4, []),
                   LastWord(recs, 10, 0), LastWord(recs, 11, 0), LastWord(recs, 12, 0), LastWord(recs, 13, 0), LastWord(recs, 14, 0),
                   LastBytes(Inner(details, 3), 1, []), LastBytes(Inner(details, 3), 2, []))
  {
    hide Run, Fold, Parse, Inner, Callsign, LastBytes, LastWord;
    RunIsFold(EventField, EMPTY_EVENT, cot, 0);
    EventLastWins(EMPTY_EVENT, Parse(cot, 0).recs);
    NestedLastWins(EMPTY_EVENT, Parse(cot, 0).recs);
  }
}
