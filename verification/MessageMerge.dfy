/** The client's merge of chat messages in chatStore.ts: a Map by id, then a stable sort by
    timestamp. */
module MessageMerge {
  import opened Basics

  /** A message object: `{ ...prev, ...msg }` lets the fields of `msg` win. */
  datatype Message = Message(id: string, timestamp: nat, fields: map<string, string>)

  function Spread(prev: Message, msg: Message): Message
  {
    Message(msg.id, msg.timestamp, prev.fields + msg.fields)
  }

  // ---------- a JavaScript Map keyed by id, in insertion order ----------

  function IndexById(ms: seq<Message>, id: string): (r: Option<nat>)
    ensures r.Some? ==> r.value < |ms| && ms[r.value].id == id
    ensures r.None? ==> forall m :: m in ms ==> m.id != id
    decreases |ms|
  {
    if ms == [] then None
    else if ms[0].id == id then Some(0)
    else match IndexById(ms[1..], id) case None => None case Some(i) => Some(i + 1)
  }

  /** `byId.set(msg.id, value)`. */
  function Put(byId: seq<Message>, m: Message): seq<Message>
  {
    match IndexById(byId, m.id)
    case None => byId + [m]
    case Some(i) => byId[i := m]
  }

  /** `new Map(existing.map(...))`. */
  function FromList(byId: seq<Message>, ms: seq<Message>): seq<Message>
    decreases |ms|
  {
    if ms == [] then byId else FromList(Put(byId, ms[0]), ms[1..])
  }

  function Merged(byId: seq<Message>, m: Message): seq<Message>
  {
    match IndexById(byId, m.id)
    case None => byId + [m]
    case Some(i) => byId[i := Spread(byId[i], m)]
  }

  function MergeAll(byId: seq<Message>, incoming: seq<Message>): seq<Message>
    decreases |incoming|
  {
    if incoming == [] then byId else MergeAll(Merged(byId, incoming[0]), incoming[1..])
  }

  // ---------- the sort ----------

  /** Insert behind every message with the same or an earlier timestamp. */
  function Insert(sorted: seq<Message>, m: Message): seq<Message>
    decreases |sorted|
  {
    if sorted == [] || sorted[|sorted| - 1].timestamp <= m.timestamp then sorted + [m]
    else Insert(sorted[..|sorted| - 1], m) + [sorted[|sorted| - 1]]
  }

  /** Array.prototype.sort by timestamp, which is stable. */
  function SortByTimestamp(ms: seq<Message>): seq<Message>
    decreases |ms|
  {
    if ms == [] then [] else Insert(SortByTimestamp(ms[..|ms| - 1]), ms[|ms| - 1])
  }

  function MergeMessages(existing: seq<Message>, incoming: seq<Message>): seq<Message>
  {
    SortByTimestamp(MergeAll(FromList([], existing), incoming))
  }

  // ---------- one entry per id, sorted, ids the union ----------

  ghost predicate UniqueIds(ms: seq<Message>)
  {
    forall i, j :: 0 <= i < j < |ms| ==> ms[i].id != ms[j].id
  }

  ghost predicate Sorted(ms: seq<Message>)
  {
    forall i, j :: 0 <= i < j < |ms| ==> ms[i].timestamp <= ms[j].timestamp
  }

  ghost function Ids(ms: seq<Message>): set<string>
  {
    set m | m in ms :: m.id
  }

  ghost function Elements(ms: seq<Message>): set<Message>
  {
    set m | m in ms
  }

  lemma {:induction false} InsertFacts(s: seq<Message>, m: Message)
    requires Sorted(s)
    ensures Sorted(Insert(s, m)) && multiset(Insert(s, m)) == multiset(s) + multiset{m}
    decreases |s|
  {
    hide Sorted;
    if s == [] {
      SortedEnd([], m);
    } else {
      var init, last := s[..|s| - 1], s[|s| - 1];
      SortedFront(s);
      assert s == init + [last];
      if last.timestamp <= m.timestamp {
        SortedEnd(s, m);
      } else {
        InsertFacts(init, m);
        var t := Insert(init, m);
        forall x | x in t ensures x.timestamp <= last.timestamp {
          assert x in multiset(t);
          assert x in init || x == m;
        }
        SortedEnd(t, last);
      }
    }
  }

  lemma SortedEnd(s: seq<Message>, m: Message)
    requires Sorted(s) && forall x :: x in s ==> x.timestamp <= m.timestamp
    ensures Sorted(s + [m])
  {
  }

  lemma SortedFront(s: seq<Message>)
    requires Sorted(s) && s != []
    ensures Sorted(s[..|s| - 1]) && forall x :: x in s ==> x.timestamp <= s[|s| - 1].timestamp
  {
  }

  lemma {:induction false} SortFacts(ms: seq<Message>)
    ensures Sorted(SortByTimestamp(ms)) && multiset(SortByTimestamp(ms)) == multiset(ms)
    decreases |ms|
  {
    if ms != [] {
      SortFacts(ms[..|ms| - 1]);
      InsertFacts(SortByTimestamp(ms[..|ms| - 1]), ms[|ms| - 1]);
      assert ms == ms[..|ms| - 1] + [ms[|ms| - 1]];
    }
  }

  lemma SortKeeps(ms: seq<Message>)
    ensures var s := SortByTimestamp(ms);
            |s| == |ms| && Elements(s) == Elements(ms) && Ids(s) == Ids(ms) && (UniqueIds(ms) ==> UniqueIds(s))
  {
    SortFacts(ms);
    var s := SortByTimestamp(ms);
    assert |s| == |multiset(s)| == |multiset(ms)| == |ms|;
    forall m ensures m in s <==> m in ms {
      assert m in s <==> m in multiset(s);
      assert m in ms <==> m in multiset(ms);
    }
    if UniqueIds(ms) { UniqueAsMultiset(ms, s); }
  }

  lemma UniqueAsMultiset(ms: seq<Message>, s: seq<Message>)
    requires UniqueIds(ms) && multiset(ms) == multiset(s)
    ensures UniqueIds(s)
  {
    forall i, j | 0 <= i < j < |s| && s[i].id == s[j].id ensures false {
      TwoOccurrences(s, i, j);
      assert s[i] in multiset(ms) && s[j] in multiset(ms);
      OneOccurrence(ms, s[i], s[j]);
    }
  }

  /** Two positions with the same id: either two different messages, or one that occurs twice. */
  lemma TwoOccurrences(s: seq<Message>, i: nat, j: nat)
    requires i < j < |s|
    ensures s[i] != s[j] || multiset(s)[s[i]] >= 2
  {
    assert s == s[..i] + [s[i]] + s[i + 1..j] + [s[j]] + s[j + 1..];
  }

  lemma {:induction false} OneOccurrence(ms: seq<Message>, x: Message, y: Message)
    requires UniqueIds(ms) && x in multiset(ms) && y in multiset(ms) && x.id == y.id
    ensures x == y && multiset(ms)[x] == 1
    decreases |ms|
  {
    var init, last := ms[..|ms| - 1], ms[|ms| - 1];
    assert ms == init + [last];
    if x.id == last.id {
      assert x !in init && y !in init && last !in init;
      assert x !in multiset(init) && y !in multiset(init);
    } else {
      OneOccurrence(init, x, y);
    }
  }

  lemma PutFacts(byId: seq<Message>, m: Message)
    requires UniqueIds(byId)
    ensures UniqueIds(Put(byId, m)) && Ids(Put(byId, m)) == Ids(byId) + {m.id}
    ensures UniqueIds(Merged(byId, m)) && Ids(Merged(byId, m)) == Ids(byId) + {m.id}
  {
    match IndexById(byId, m.id)
    case None =>
    case Some(i) =>
      assert byId[i] in byId;
      IdsReplaced(byId, i, m);
      IdsReplaced(byId, i, Spread(byId[i], m));
  }

  lemma IdsReplaced(byId: seq<Message>, i: nat, m: Message)
    requires i < |byId| && m.id == byId[i].id
    ensures Ids(byId[i := m]) == Ids(byId)
  {
    var t := byId[i := m];
    forall x | x in byId ensures x.id in Ids(t) {
      var k :| 0 <= k < |byId| && byId[k] == x;
      assert t[k] in t;
    }
    forall x | x in t ensures x.id in Ids(byId) {
      var k :| 0 <= k < |t| && t[k] == x;
      assert byId[k] in byId;
    }
  }

  lemma {:induction false} FromListFacts(byId: seq<Message>, ms: seq<Message>)
    requires UniqueIds(byId)
    ensures UniqueIds(FromList(byId, ms)) && Ids(FromList(byId, ms)) == Ids(byId) + Ids(ms)
    decreases |ms|
  {
    hide Put;
    if ms != [] {
      PutFacts(byId, ms[0]);
      FromListFacts(Put(byId, ms[0]), ms[1..]);
      assert Ids(ms) == {ms[0].id} + Ids(ms[1..]) by { assert ms == [ms[0]] + ms[1..]; }
    }
  }

  lemma {:induction false} MergeAllFacts(byId: seq<Message>, ms: seq<Message>)
    requires UniqueIds(byId)
    ensures UniqueIds(MergeAll(byId, ms)) && Ids(MergeAll(byId, ms)) == Ids(byId) + Ids(ms)
    decreases |ms|
  {
    hide Merged;
    if ms != [] {
      PutFacts(byId, ms[0]);
      MergeAllFacts(Merged(byId, ms[0]), ms[1..]);
      assert Ids(ms) == {ms[0].id} + Ids(ms[1..]) by { assert ms == [ms[0]] + ms[1..]; }
    }
  }

  /** The merge has one entry per id, sorted by timestamp, and its ids are those of both lists. */
  lemma MergeShape(existing: seq<Message>, incoming: seq<Message>)
    ensures var r := MergeMessages(existing, incoming);
            UniqueIds(r) && Sorted(r) && Ids(r) == Ids(existing) + Ids(incoming)
  {
    FromListFacts([], existing);
    var byId := FromList([], existing);
    MergeAllFacts(byId, incoming);
    SortKeeps(MergeAll(byId, incoming));
    SortFacts(MergeAll(byId, incoming));
  }

  // ---------- merging the same messages again changes nothing ----------

  /** What becomes of an entry when a list is merged over it. */
  function Absorb(e: Message, ms: seq<Message>): (r: Message)
    ensures r.id == e.id
    decreases |ms|
  {
    if ms == [] then e else Absorb(if ms[0].id == e.id then Spread(e, ms[0]) else e, ms[1..])
  }

  function Gather(ms: seq<Message>, id: string): map<string, string>
    decreases |ms|
  {
    if ms == [] then map[] else (if ms[0].id == id then ms[0].fields else map[]) + Gather(ms[1..], id)
  }

  function LastTime(time: nat, ms: seq<Message>, id: string): nat
    decreases |ms|
  {
    if ms == [] then time else LastTime(if ms[0].id == id then ms[0].timestamp else time, ms[1..], id)
  }

  lemma {:induction false} AbsorbForm(e: Message, ms: seq<Message>)
    ensures Absorb(e, ms) == Message(e.id, LastTime(e.timestamp, ms, e.id), e.fields + Gather(ms, e.id))
    decreases |ms|
  {
    if ms == [] {
      assert e.fields + map[] == e.fields;
    } else {
      var f := if ms[0].id == e.id then Spread(e, ms[0]) else e;
      AbsorbForm(f, ms[1..]);
      MapAssoc(e.fields, if ms[0].id == e.id then ms[0].fields else map[], Gather(ms[1..], e.id));
      assert e.fields + map[] == e.fields;
    }
  }

  lemma MapAssoc(a: map<string, string>, b: map<string, string>, c: map<string, string>)
    ensures (a + b) + c == a + (b + c)
  {
  }

  lemma {:induction false} LastTimeTwice(time: nat, other: nat, ms: seq<Message>, id: string)
    ensures LastTime(LastTime(time, ms, id), ms, id) == LastTime(time, ms, id)
    ensures LastTime(time, ms, id) == LastTime(other, ms, id) || (LastTime(time, ms, id) == time && LastTime(other, ms, id) == other)
    decreases |ms|
  {
    if ms != [] {
      if ms[0].id == id {
        LastTimeTwice(ms[0].timestamp, LastTime(time, ms, id), ms[1..], id);
      } else {
        LastTimeTwice(time, other, ms[1..], id);
      }
    }
  }

  lemma AbsorbTwice(e: Message, ms: seq<Message>)
    ensures Absorb(Absorb(e, ms), ms) == Absorb(e, ms)
  {
    AbsorbForm(e, ms);
    AbsorbForm(Absorb(e, ms), ms);
    LastTimeTwice(e.timestamp, 0, ms, e.id);
    var g := Gather(ms, e.id);
    assert (e.fields + g) + g == e.fields + g;
  }

  lemma SpreadSelf(m: Message)
    ensures Spread(m, m) == m
  {
    assert m.fields + m.fields == m.fields;
  }

  /** Every entry of a merged Map has absorbed the whole list. */
  lemma {:induction false} EntryAbsorbed(byId: seq<Message>, ms: seq<Message>, i: nat) returns (x: Message)
    requires UniqueIds(byId) && i < |MergeAll(byId, ms)|
    ensures MergeAll(byId, ms)[i] == Absorb(x, ms)
    ensures |byId| <= |MergeAll(byId, ms)|
    ensures if i < |byId| then x == byId[i] else x.id !in Ids(byId)
    decreases |ms|
  {
    if ms == [] {
      x := byId[i];
    } else {
      var m, next := ms[0], Merged(byId, ms[0]);
      PutFacts(byId, m);
      var y := EntryAbsorbed(next, ms[1..], i);
      match IndexById(byId, m.id) {
        case None =>
          SpreadSelf(m);
          x := y;
          if i < |byId| { assert byId[i] in byId; }
        case Some(j) =>
          x := if i < |byId| then byId[i] else y;
          if i < |byId| && i != j { OnlyAt(byId, i, j); }
          if i >= |byId| { assert m.id in Ids(next); }
      }
    }
  }

  lemma OnlyAt(ms: seq<Message>, i: nat, j: nat)
    requires UniqueIds(ms) && i < |ms| && j < |ms| && i != j
    ensures ms[i].id != ms[j].id
  {
    if i < j {} else {}
  }

  lemma {:induction false} KnownIdsAddNothing(byId: seq<Message>, ms: seq<Message>)
    requires UniqueIds(byId) && Ids(ms) <= Ids(byId)
    ensures |MergeAll(byId, ms)| == |byId|
    decreases |ms|
  {
    if ms != [] {
      assert ms[0] in ms && ms[0].id in Ids(ms);
      var x :| x in byId && x.id == ms[0].id;
      PutFacts(byId, ms[0]);
      forall m | m in ms[1..] ensures m.id in Ids(byId) { assert m in ms && m.id in Ids(ms); }
      KnownIdsAddNothing(Merged(byId, ms[0]), ms[1..]);
    }
  }

  lemma {:induction false} FromListSame(done: seq<Message>, ms: seq<Message>)
    requires UniqueIds(done + ms)
    ensures FromList(done, ms) == done + ms
    decreases |ms|
  {
    if ms == [] {
      assert done + ms == done;
    } else {
      forall m | m in done ensures m.id != ms[0].id {
        var k :| 0 <= k < |done| && done[k] == m;
        assert (done + ms)[k] == m && (done + ms)[|done|] == ms[0];
      }
      assert IndexById(done, ms[0].id).None?;
      assert (done + [ms[0]]) + ms[1..] == done + ms;
      FromListSame(done + [ms[0]], ms[1..]);
    }
  }

  lemma {:induction false} SortSorted(ms: seq<Message>)
    requires Sorted(ms)
    ensures SortByTimestamp(ms) == ms
    decreases |ms|
  {
    if ms != [] {
      var init := ms[..|ms| - 1];
      SortSorted(init);
      assert ms == init + [ms[|ms| - 1]];
      if init != [] { assert init[|init| - 1] == ms[|ms| - 2]; }
    }
  }

  /** Merging a list a second time changes nothing, whatever copies it holds. */
  lemma MergeIdempotent(existing: seq<Message>, incoming: seq<Message>)
    ensures var r := MergeMessages(existing, incoming); MergeMessages(r, incoming) == r
  {
    hide Absorb, SortByTimestamp, MergeAll, FromList;
    MergeShape(existing, incoming);
    FromListFacts([], existing);
    var byId := FromList([], existing);
    var merged := MergeAll(byId, incoming);
    var r := SortByTimestamp(merged);
    SortKeeps(merged);
    assert [] + r == r;
    FromListSame([], r);
    KnownIdsAddNothing(r, incoming);
    var again := MergeAll(r, incoming);
    forall i | 0 <= i < |r| ensures again[i] == r[i] {
      assert r[i] in Elements(r) && r[i] in Elements(merged);
      EntryStays(byId, r, incoming, i);
    }
    assert again == r;
    SortSorted(r);
  }

  lemma EntryStays(byId: seq<Message>, r: seq<Message>, incoming: seq<Message>, i: nat)
    requires UniqueIds(byId) && UniqueIds(r) && i < |r| == |MergeAll(r, incoming)| && r[i] in MergeAll(byId, incoming)
    ensures MergeAll(r, incoming)[i] == r[i]
  {
    hide Absorb, MergeAll, UniqueIds;
    var merged := MergeAll(byId, incoming);
    var j :| 0 <= j < |merged| && merged[j] == r[i];
    var x := EntryAbsorbed(byId, incoming, j);
    AbsorbTwice(x, incoming);
    var y := EntryAbsorbed(r, incoming, i);
  }

  // ---------- convergence ----------

  /** setRoomHistory with a batch, addMessage with a batch of one. */
  function Deliver(state: seq<Message>, batches: seq<seq<Message>>): seq<Message>
    decreases |batches|
  {
    if batches == [] then state else Deliver(MergeMessages(state, batches[0]), batches[1..])
  }

  /** Copies of one message are identical. */
  ghost predicate Consistent(u: set<Message>)
  {
    forall x, y :: x in u && y in u && x.id == y.id ==> x == y
  }

  ghost predicate DistinctTimes(u: set<Message>)
  {
    forall x, y :: x in u && y in u && x.timestamp == y.timestamp ==> x == y
  }

  lemma {:induction false} MergeElements(byId: seq<Message>, ms: seq<Message>)
    requires UniqueIds(byId) && Consistent(Elements(byId) + Elements(ms))
    ensures Elements(MergeAll(byId, ms)) == Elements(byId) + Elements(ms)
    decreases |ms|
  {
    if ms != [] {
      var m := ms[0];
      assert ms == [m] + ms[1..];
      assert Elements(Merged(byId, m)) == Elements(byId) + {m} by { OneMerged(byId, m); }
      PutFacts(byId, m);
      assert Elements(ms) == {m} + Elements(ms[1..]);
      MergeElements(Merged(byId, m), ms[1..]);
    }
  }

  lemma OneMerged(byId: seq<Message>, m: Message)
    requires UniqueIds(byId) && Consistent(Elements(byId) + {m})
    ensures Elements(Merged(byId, m)) == Elements(byId) + {m}
  {
    match IndexById(byId, m.id)
    case None =>
    case Some(i) =>
      assert byId[i] in Elements(byId) && byId[i] == m;
      SpreadSelf(m);
      assert byId[i := m] == byId;
  }

  lemma {:induction false} DeliverElements(state: seq<Message>, batches: seq<seq<Message>>)
    requires UniqueIds(state) && Sorted(state) && Consistent(Elements(state) + Elements(Flatten(batches)))
    ensures var r := Deliver(state, batches);
            UniqueIds(r) && Sorted(r) && Elements(r) == Elements(state) + Elements(Flatten(batches))
    decreases |batches|
  {
    hide MergeMessages, UniqueIds, Sorted, Consistent, Elements;
    if batches == [] {
      NoElements(state);
    } else {
      var b, rest := batches[0], Flatten(batches[1..]);
      ElementsConcat(b, rest);
      ConsistentPart(Elements(state), Elements(b), Elements(rest));
      DeliverOne(state, b);
      assert Elements(state) + (Elements(b) + Elements(rest)) == (Elements(state) + Elements(b)) + Elements(rest);
      DeliverElements(MergeMessages(state, b), batches[1..]);
    }
  }

  lemma NoElements(state: seq<Message>)
    ensures Elements(state) + Elements([]) == Elements(state)
  {
  }

  lemma ElementsConcat(a: seq<Message>, b: seq<Message>)
    ensures Elements(a + b) == Elements(a) + Elements(b)
  {
  }

  lemma ConsistentPart(a: set<Message>, b: set<Message>, c: set<Message>)
    requires Consistent(a + (b + c))
    ensures Consistent(a + b)
  {
  }

  lemma DeliverOne(state: seq<Message>, b: seq<Message>)
    requires UniqueIds(state) && Sorted(state) && Consistent(Elements(state) + Elements(b))
    ensures var r := MergeMessages(state, b);
            UniqueIds(r) && Sorted(r) && Elements(r) == Elements(state) + Elements(b)
  {
    hide MergeAll, SortByTimestamp;
    MergeShape(state, b);
    assert [] + state == state;
    FromListSame([], state);
    MergeElements(state, b);
    SortKeeps(MergeAll(state, b));
  }

  /** A set of messages with distinct timestamps has one sorted list. */
  lemma {:induction false} SortedUnique(a: seq<Message>, b: seq<Message>)
    requires UniqueIds(a) && UniqueIds(b) && Sorted(a) && Sorted(b)
    requires Elements(a) == Elements(b) && DistinctTimes(Elements(a))
    ensures a == b
    decreases |a|
  {
    hide DistinctTimes, Elements, Sorted, UniqueIds;
    EmptyTogether(a, b);
    if a != [] {
      SameHead(a, b);
      TailElements(a);
      TailElements(b);
      SubsetDistinct(Elements(a), Elements(a[1..]));
      SortedUnique(a[1..], b[1..]);
      assert a == [a[0]] + a[1..] && b == [b[0]] + b[1..];
    }
  }

  lemma EmptyTogether(a: seq<Message>, b: seq<Message>)
    requires Elements(a) == Elements(b)
    ensures a == [] <==> b == []
  {
    assert a != [] ==> a[0] in Elements(a);
    assert b != [] ==> b[0] in Elements(b);
  }

  lemma SubsetDistinct(a: set<Message>, b: set<Message>)
    requires DistinctTimes(a) && b <= a
    ensures DistinctTimes(b)
  {
  }

  lemma SameHead(a: seq<Message>, b: seq<Message>)
    requires a != [] && b != [] && Sorted(a) && Sorted(b)
    requires Elements(a) == Elements(b) && DistinctTimes(Elements(a))
    ensures a[0] == b[0]
  {
    assert a[0] in Elements(a) && b[0] in Elements(b);
    assert a[0] in b && b[0] in a;
    var i :| 0 <= i < |b| && b[i] == a[0];
    var j :| 0 <= j < |a| && a[j] == b[0];
    assert a[0].timestamp <= a[j].timestamp && b[0].timestamp <= b[i].timestamp;
  }

  lemma TailElements(a: seq<Message>)
    requires UniqueIds(a) && a != []
    ensures Elements(a[1..]) == Elements(a) - {a[0]} && UniqueIds(a[1..])
    ensures Sorted(a) ==> Sorted(a[1..])
  {
    assert a == [a[0]] + a[1..];
    forall m | m in a[1..] ensures m != a[0] {
      var k :| 0 <= k < |a[1..]| && a[1..][k] == m;
      assert a[k + 1] == m;
    }
  }

  /** Whatever the order, the batching and the duplication in which two clients receive the same
      messages, they end with the same list, if copies are identical and timestamps distinct. */
  lemma Convergence(batches: seq<seq<Message>>, others: seq<seq<Message>>)
    requires Elements(Flatten(batches)) == Elements(Flatten(others))
    requires Consistent(Elements(Flatten(batches))) && DistinctTimes(Elements(Flatten(batches)))
    ensures Deliver([], batches) == Deliver([], others)
  {
    var u := Elements(Flatten(batches));
    assert Elements([]) + u == u;
    DeliverElements([], batches);
    DeliverElements([], others);
    SortedUnique(Deliver([], batches), Deliver([], others));
  }

  // ---------- ties ----------

  /** How many messages stay in front of one with this timestamp. */
  function Before(s: seq<Message>, time: nat): (k: nat)
    ensures k <= |s|
    decreases |s|
  {
    if s == [] || s[|s| - 1].timestamp <= time then |s| else Before(s[..|s| - 1], time)
  }

  lemma {:induction false} InsertAt(s: seq<Message>, m: Message)
    ensures var k := Before(s, m.timestamp); Insert(s, m) == s[..k] + [m] + s[k..]
    ensures var k := Before(s, m.timestamp);
            (k > 0 ==> s[k - 1].timestamp <= m.timestamp) && forall i :: k <= i < |s| ==> s[i].timestamp > m.timestamp
    decreases |s|
  {
    if s != [] && s[|s| - 1].timestamp > m.timestamp {
      InsertAt(s[..|s| - 1], m);
      var k := Before(s, m.timestamp);
      assert s[..|s| - 1][..k] == s[..k] && s[k..] == s[..|s| - 1][k..] + [s[|s| - 1]];
    }
  }

  /** Two messages that are new to a client arrive in either order: the client ends with the same
      list exactly when their timestamps differ. */
  lemma ArrivalOrderExactly(state: seq<Message>, x: Message, y: Message)
    requires UniqueIds(state) && Sorted(state) && x.id != y.id && x.id !in Ids(state) && y.id !in Ids(state)
    ensures Deliver(state, [[x], [y]]) == Deliver(state, [[y], [x]]) <==> x.timestamp != y.timestamp
  {
    hide MergeMessages, Insert;
    DeliverTwo(state, x, y);
    DeliverTwo(state, y, x);
    if x.timestamp == y.timestamp {
      TieKept(state, x, y);
      TieKept(state, y, x);
      var k := Before(state, x.timestamp);
      assert Insert(Insert(state, x), y)[k] == x;
      assert Insert(Insert(state, y), x)[k] == y;
    } else {
      InsertsCommute(state, x, y);
    }
  }

  lemma DeliverTwo(state: seq<Message>, x: Message, y: Message)
    requires UniqueIds(state) && Sorted(state) && x.id != y.id && x.id !in Ids(state) && y.id !in Ids(state)
    ensures Deliver(state, [[x], [y]]) == Insert(Insert(state, x), y)
  {
    hide MergeMessages, Insert;
    MergeNew(state, x);
    var t := Insert(state, x);
    forall m | m in t ensures m.id != y.id { assert m in multiset(t); assert m in state || m == x; }
    MergeNew(t, y);
    assert [[x], [y]][1..] == [[y]] && [[y]][1..] == [];
    assert Deliver(state, [[x], [y]]) == Deliver(t, [[y]]) == Deliver(Insert(t, y), []);
  }

  lemma MergeNew(state: seq<Message>, m: Message)
    requires UniqueIds(state) && Sorted(state) && m.id !in Ids(state)
    ensures MergeMessages(state, [m]) == Insert(state, m)
    ensures UniqueIds(Insert(state, m)) && Sorted(Insert(state, m))
    ensures multiset(Insert(state, m)) == multiset(state) + multiset{m}
  {
    hide Insert;
    assert [] + state == state;
    FromListSame([], state);
    forall i | 0 <= i < |state| ensures state[i].id != m.id { assert state[i] in state; }
    assert IndexById(state, m.id).None?;
    assert [m][1..] == [];
    assert MergeAll(state, [m]) == MergeAll(state + [m], []) == state + [m];
    assert (state + [m])[..|state|] == state;
    SortSorted(state);
    InsertFacts(state, m);
    MergeShape(state, [m]);
  }

  lemma TieKept(s: seq<Message>, x: Message, y: Message)
    requires x.timestamp == y.timestamp && Sorted(s)
    ensures var k := Before(s, x.timestamp); |Insert(Insert(s, x), y)| > k && Insert(Insert(s, x), y)[k] == x
  {
    hide Insert, Before;
    InsertAt(s, x);
    var k, t := Before(s, x.timestamp), Insert(s, x);
    InsertAt(t, y);
    var j := Before(t, y.timestamp);
    assert t[k] == x;
    assert j > k;
  }

  lemma InsertsCommute(s: seq<Message>, x: Message, y: Message)
    requires x.timestamp != y.timestamp && Sorted(s)
    ensures Insert(Insert(s, x), y) == Insert(Insert(s, y), x)
  {
    if x.timestamp < y.timestamp { EarlierFirst(s, x, y); } else { EarlierFirst(s, y, x); }
  }

  lemma {:induction false} EarlierFirst(s: seq<Message>, x: Message, y: Message)
    requires x.timestamp < y.timestamp && Sorted(s)
    ensures Insert(Insert(s, x), y) == Insert(Insert(s, y), x)
    decreases |s|
  {
    hide Insert;
    if s == [] || s[|s| - 1].timestamp <= y.timestamp {
      LastAfterInsert(s, x, y.timestamp);
      InsertAtEnd(s, y);
      InsertAtEnd(Insert(s, x), y);
      InsertInFront(s, y, x);
    } else {
      var init, last := s[..|s| - 1], s[|s| - 1];
      assert s == init + [last];
      EarlierFirst(init, x, y);
      InsertInFront(init, last, x);
      InsertInFront(init, last, y);
      InsertInFront(Insert(init, x), last, y);
      InsertInFront(Insert(init, y), last, x);
    }
  }

  lemma InsertAtEnd(s: seq<Message>, m: Message)
    requires s == [] || s[|s| - 1].timestamp <= m.timestamp
    ensures Insert(s, m) == s + [m]
  {
  }

  lemma InsertInFront(s: seq<Message>, last: Message, m: Message)
    requires last.timestamp > m.timestamp
    ensures Insert(s + [last], m) == Insert(s, m) + [last]
  {
    assert (s + [last])[..|s|] == s;
  }

  lemma LastAfterInsert(s: seq<Message>, x: Message, time: nat)
    requires x.timestamp <= time && (s == [] || s[|s| - 1].timestamp <= time)
    ensures var t := Insert(s, x); t != [] && t[|t| - 1].timestamp <= time
  {
  }

  // ---------- the store ----------

  /** One room of the store. */
  class RoomStore {
    var messages: seq<Message>
    var unread: nat

    constructor ()
      ensures messages == [] && unread == 0
    {
      messages, unread := [], 0;
    }

    method SetRoomHistory(batch: seq<Message>)
      modifies this`messages
      ensures messages == MergeMessages(old(messages), batch)
    {
      messages := MergeLists(messages, batch);
    }

    /** An id that is already there, an active room and one's own message are not counted. */
    method AddMessage(message: Message, isActive: bool, isSelf: bool)
      modifies this
      ensures messages == MergeMessages(old(messages), [message])
      ensures unread == old(unread) + (if message.id in Ids(old(messages)) || isActive || isSelf then 0 else 1)
    {
      var alreadyExists := IndexById(messages, message.id).Some?;
      assert alreadyExists <==> message.id in Ids(messages);
      messages := MergeLists(messages, [message]);
      unread := if alreadyExists || isActive || isSelf then unread else unread + 1;
    }
  }

  method MergeLists(existing: seq<Message>, incoming: seq<Message>) returns (merged: seq<Message>)
    ensures merged == MergeMessages(existing, incoming)
  {
    var byId: seq<Message> := [];
    for i := 0 to |existing|
      invariant FromList(byId, existing[i..]) == FromList([], existing)
    {
      byId := Put(byId, existing[i]);
      assert existing[i..][1..] == existing[i + 1..];
    }
    assert existing[|existing|..] == [];
    ghost var start := byId;
    for i := 0 to |incoming|
      invariant MergeAll(byId, incoming[i..]) == MergeAll(start, incoming)
    {
      var msg := incoming[i];
      assert incoming[i..][0] == msg && incoming[i..][1..] == incoming[i + 1..];
      var prev := IndexById(byId, msg.id);
      byId := if prev.Some? then byId[prev.value := Spread(byId[prev.value], msg)] else byId + [msg];
    }
    assert incoming[|incoming|..] == [];
    merged := SortByTimestamp(byId);
  }
}
