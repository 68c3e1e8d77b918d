/** Which copy of a message wins in the client's merge, field by field, and in which order messages with the
    same timestamp stand. */
module MergeOutcome {
  import opened Basics
  import opened MessageMerge

  // ---------- which copy wins ----------

  function LastCopy(ms: seq<Message>, id: string): Option<Message>
  {
    if ms == [] then None
    else if ms[|ms| - 1].id == id then Some(ms[|ms| - 1])
    else LastCopy(ms[..|ms| - 1], id)
  }

  /** The value of a field in the last copy that has it. */
  function LastField(ms: seq<Message>, id: string, f: string): Option<string>
  {
    if ms == [] then None
    else
      var m := ms[|ms| - 1];
      if m.id == id && f in m.fields then Some(m.fields[f]) else LastField(ms[..|ms| - 1], id, f)
  }

  /** The fields of a message are those of its last known copy, overlaid by every incoming one in turn; its
      time is the last copy's. */
  ghost predicate Outcome(existing: seq<Message>, incoming: seq<Message>, m: Message)
  {
    var base, last := LastCopy(existing, m.id), LastCopy(incoming, m.id);
    && (last.Some? || base.Some?)
    && m.timestamp == (if last.Some? then last.value.timestamp else base.value.timestamp)
    && forall f :: Field(m, f) ==
         if LastField(incoming, m.id, f).Some? then LastField(incoming, m.id, f)
         else if base.Some? then Field(base.value, f) else None
  }

  function Field(m: Message, f: string): Option<string>
  {
    if f in m.fields then Some(m.fields[f]) else None
  }

  function Lookup(byId: seq<Message>, id: string): Option<Message>
  {
    match IndexById(byId, id) case None => None case Some(i) => Some(byId[i])
  }

  lemma LookupUnique(byId: seq<Message>, i: nat)
    requires UniqueIds(byId) && i < |byId|
    ensures Lookup(byId, byId[i].id) == Some(byId[i])
  {
    assert byId[i] in byId;
    var j := IndexById(byId, byId[i].id).value;
    if i != j { OnlyAt(byId, i, j); }
  }

  lemma LookupSet(byId: seq<Message>, i: nat, m: Message, id: string)
    requires UniqueIds(byId) && i < |byId| && m.id == byId[i].id
    ensures UniqueIds(byId[i := m])
    ensures Lookup(byId[i := m], id) == if id == m.id then Some(m) else Lookup(byId, id)
  {
    var t := byId[i := m];
    assert UniqueIds(t);
    if id == m.id {
      LookupUnique(t, i);
    } else if j: nat :| j < |byId| && byId[j].id == id {
      LookupUnique(byId, j);
      LookupUnique(t, j);
    } else {
      assert IndexById(t, id).None? && IndexById(byId, id).None?;
    }
  }

  lemma LookupAdd(byId: seq<Message>, m: Message, id: string)
    requires UniqueIds(byId) && IndexById(byId, m.id).None?
    ensures UniqueIds(byId + [m])
    ensures Lookup(byId + [m], id) == if id == m.id then Some(m) else Lookup(byId, id)
  {
    var t := byId + [m];
    forall i | 0 <= i < |byId| ensures byId[i].id != m.id { assert byId[i] in byId; }
    assert UniqueIds(t);
    if id == m.id {
      LookupUnique(t, |byId|);
    } else if j: nat :| j < |byId| && byId[j].id == id {
      LookupUnique(byId, j);
      LookupUnique(t, j);
    } else {
      assert IndexById(t, id).None? && IndexById(byId, id).None?;
    }
  }

  lemma LookupPut(byId: seq<Message>, m: Message, id: string)
    requires UniqueIds(byId)
    ensures UniqueIds(Put(byId, m)) && Lookup(Put(byId, m), id) == if id == m.id then Some(m) else Lookup(byId, id)
  {
    hide IndexById, Lookup, UniqueIds;
    match IndexById(byId, m.id)
    case None => LookupAdd(byId, m, id);
    case Some(i) => LookupSet(byId, i, m, id);
  }

  lemma LookupMerged(byId: seq<Message>, m: Message, id: string)
    requires UniqueIds(byId)
    ensures UniqueIds(Merged(byId, m))
    ensures Lookup(Merged(byId, m), id)
         == if id != m.id then Lookup(byId, id)
            else match Lookup(byId, id) { case None => Some(m) case Some(prev) => Some(Spread(prev, m)) }
  {
    hide IndexById, UniqueIds;
    match IndexById(byId, m.id)
    case None => LookupAdd(byId, m, id);
    case Some(i) => LookupSet(byId, i, Spread(byId[i], m), id);
  }

  lemma {:induction false} FromListSnoc(byId: seq<Message>, ms: seq<Message>, m: Message)
    ensures FromList(byId, ms + [m]) == Put(FromList(byId, ms), m)
    decreases |ms|
  {
    hide Put;
    if ms == [] {
      assert ms + [m] == [m] && [m][1..] == [];
    } else {
      assert (ms + [m])[1..] == ms[1..] + [m];
      FromListSnoc(Put(byId, ms[0]), ms[1..], m);
    }
  }

  lemma {:induction false} MergeAllSnoc(byId: seq<Message>, ms: seq<Message>, m: Message)
    ensures MergeAll(byId, ms + [m]) == Merged(MergeAll(byId, ms), m)
    decreases |ms|
  {
    hide Merged;
    if ms == [] {
      assert ms + [m] == [m] && [m][1..] == [];
    } else {
      assert (ms + [m])[1..] == ms[1..] + [m];
      MergeAllSnoc(Merged(byId, ms[0]), ms[1..], m);
    }
  }

  lemma {:induction false} MapOfList(ms: seq<Message>, id: string)
    ensures UniqueIds(FromList([], ms)) && Lookup(FromList([], ms), id) == LastCopy(ms, id)
    decreases |ms|
  {
    hide Put, UniqueIds, Lookup;
    if ms == [] {
      NothingIn(id);
    } else {
      var init, m := ms[..|ms| - 1], ms[|ms| - 1];
      assert ms == init + [m];
      MapOfList(init, id);
      FromListSnoc([], init, m);
      LookupPut(FromList([], init), m, id);
    }
  }

  lemma NothingIn(id: string)
    ensures UniqueIds([]) && Lookup([], id) == None
  {
  }

  /** What the Map holds for an id once the incoming copies have been merged. */
  ghost predicate MapOutcome(existing: seq<Message>, incoming: seq<Message>, id: string, r: Option<Message>)
  {
    match r
    case None => LastCopy(existing, id).None? && LastCopy(incoming, id).None?
    case Some(m) => m.id == id && Outcome(existing, incoming, m)
  }

  lemma {:induction false} MapExactly(existing: seq<Message>, incoming: seq<Message>, id: string)
    ensures var byId := MergeAll(FromList([], existing), incoming);
            UniqueIds(byId) && MapOutcome(existing, incoming, id, Lookup(byId, id))
    decreases |incoming|
  {
    hide Merged, UniqueIds, Lookup, FromList, MapOutcome;
    if incoming == [] {
      MapOfList(existing, id);
      CopyIs(existing, id);
      StartsSo(existing, id, Lookup(FromList([], existing), id));
    } else {
      var init, m := incoming[..|incoming| - 1], incoming[|incoming| - 1];
      assert incoming == init + [m];
      MapExactly(existing, init, id);
      var byId := MergeAll(FromList([], existing), init);
      MergeAllSnoc(FromList([], existing), init, m);
      LookupMerged(byId, m, id);
      OneMore(existing, init, m, id, Lookup(byId, id), Lookup(Merged(byId, m), id));
    }
  }

  lemma {:induction false} CopyIs(ms: seq<Message>, id: string)
    ensures match LastCopy(ms, id) case None => true case Some(m) => m.id == id
  {
    if ms != [] { CopyIs(ms[..|ms| - 1], id); }
  }

  lemma StartsSo(existing: seq<Message>, id: string, r: Option<Message>)
    requires r == LastCopy(existing, id) && (r.Some? ==> r.value.id == id)
    ensures MapOutcome(existing, [], id, r)
  {
  }

  lemma {:induction false} NoCopyNoField(ms: seq<Message>, id: string, f: string)
    ensures LastCopy(ms, id).None? ==> LastField(ms, id, f).None?
  {
    if ms != [] { NoCopyNoField(ms[..|ms| - 1], id, f); }
  }

  lemma OneMore(existing: seq<Message>, init: seq<Message>, m: Message, id: string, before: Option<Message>, r: Option<Message>)
    requires MapOutcome(existing, init, id, before)
    requires r == if id != m.id then before
                  else match before { case None => Some(m) case Some(prev) => Some(Spread(prev, m)) }
    ensures MapOutcome(existing, init + [m], id, r)
  {
    var all := init + [m];
    assert all[..|all| - 1] == init && all[|all| - 1] == m;
    forall f ensures LastField(all, id, f) == if m.id == id && f in m.fields then Some(m.fields[f]) else LastField(init, id, f) {
    }
    forall f ensures LastCopy(init, id).None? ==> LastField(init, id, f).None? { NoCopyNoField(init, id, f); }
    if r.Some? { CopyIs(existing, id); CopyIs(init, id); }
  }

  /** In every merge, each message has the fields and the time of its outcome. */
  lemma OutcomeExactly(existing: seq<Message>, incoming: seq<Message>, m: Message)
    requires m in MergeMessages(existing, incoming)
    ensures Outcome(existing, incoming, m)
  {
    hide Outcome, Lookup, MergeAll, FromList;
    var byId := MergeAll(FromList([], existing), incoming);
    SortKeeps(byId);
    assert m in Elements(SortByTimestamp(byId)) && m in Elements(byId);
    var i :| 0 <= i < |byId| && byId[i] == m;
    MapExactly(existing, incoming, m.id);
    LookupUnique(byId, i);
  }

  // ---------- ties ----------

  /** The ids of a list in the order in which they first occur. */
  function FirstSeen(ms: seq<Message>): seq<string>
  {
    if ms == [] then []
    else
      var before, id := FirstSeen(ms[..|ms| - 1]), ms[|ms| - 1].id;
      if id in before then before else before + [id]
  }

  function IdList(ms: seq<Message>): (r: seq<string>)
    ensures |r| == |ms| && forall i :: 0 <= i < |r| ==> r[i] == ms[i].id
  {
    seq(|ms|, i requires 0 <= i < |ms| => ms[i].id)
  }

  /** The messages of one time, in order. */
  function AtTime(ms: seq<Message>, time: nat): seq<Message>
  {
    if ms == [] then []
    else
      var m := ms[|ms| - 1];
      AtTime(ms[..|ms| - 1], time) + if m.timestamp == time then [m] else []
  }

  lemma ListedOnce(byId: seq<Message>, m: Message)
    ensures IdList(Put(byId, m)) == if m.id in IdList(byId) then IdList(byId) else IdList(byId) + [m.id]
    ensures IdList(Merged(byId, m)) == if m.id in IdList(byId) then IdList(byId) else IdList(byId) + [m.id]
  {
    match IndexById(byId, m.id)
    case None => assert m.id !in IdList(byId) by { Unlisted(byId, m.id); }
    case Some(i) => assert IdList(byId)[i] == m.id;
  }

  lemma Unlisted(byId: seq<Message>, id: string)
    requires forall m :: m in byId ==> m.id != id
    ensures id !in IdList(byId)
  {
  }

  lemma {:induction false} MapOrder(existing: seq<Message>, incoming: seq<Message>)
    ensures IdList(MergeAll(FromList([], existing), incoming)) == FirstSeen(existing + incoming)
    decreases |existing| + |incoming|
  {
    hide Put, Merged;
    if incoming != [] {
      var init, m := incoming[..|incoming| - 1], incoming[|incoming| - 1];
      assert incoming == init + [m] && (existing + incoming)[..|existing + incoming| - 1] == existing + init;
      MapOrder(existing, init);
      MergeAllSnoc(FromList([], existing), init, m);
      ListedOnce(MergeAll(FromList([], existing), init), m);
    } else if existing != [] {
      var init, m := existing[..|existing| - 1], existing[|existing| - 1];
      assert existing == init + [m] && existing + [] == existing && init + [] == init;
      MapOrder(init, []);
      FromListSnoc([], init, m);
      ListedOnce(FromList([], init), m);
    }
  }

  lemma AtTimeSnoc(ms: seq<Message>, m: Message, time: nat)
    ensures AtTime(ms + [m], time) == AtTime(ms, time) + if m.timestamp == time then [m] else []
  {
    assert (ms + [m])[..|ms|] == ms;
  }

  lemma {:induction false} InsertStable(s: seq<Message>, m: Message, time: nat)
    ensures AtTime(Insert(s, m), time) == AtTime(s, time) + if m.timestamp == time then [m] else []
    decreases |s|
  {
    hide AtTime;
    if s == [] || s[|s| - 1].timestamp <= m.timestamp {
      AtTimeSnoc(s, m, time);
    } else {
      var init, last := s[..|s| - 1], s[|s| - 1];
      assert s == init + [last];
      InsertStable(init, m, time);
      AtTimeSnoc(init, last, time);
      AtTimeSnoc(Insert(init, m), last, time);
    }
  }

  lemma {:induction false} SortStable(ms: seq<Message>, time: nat)
    ensures AtTime(SortByTimestamp(ms), time) == AtTime(ms, time)
    decreases |ms|
  {
    if ms != [] {
      SortStable(ms[..|ms| - 1], time);
      InsertStable(SortByTimestamp(ms[..|ms| - 1]), ms[|ms| - 1], time);
    }
  }

  /** Messages with the same time stand in the order in which their ids first occurred, in the list that
      was there and then in the incoming one. */
  lemma TiesExactly(existing: seq<Message>, incoming: seq<Message>) returns (seen: seq<Message>)
    ensures IdList(seen) == FirstSeen(existing + incoming)
    ensures var r := MergeMessages(existing, incoming);
            multiset(r) == multiset(seen) && forall time: nat :: AtTime(r, time) == AtTime(seen, time)
  {
    hide MergeAll, FromList, SortByTimestamp;
    seen := MergeAll(FromList([], existing), incoming);
    MapOrder(existing, incoming);
    SortFacts(seen);
    forall time: nat ensures AtTime(SortByTimestamp(seen), time) == AtTime(seen, time) { SortStable(seen, time); }
  }
}
