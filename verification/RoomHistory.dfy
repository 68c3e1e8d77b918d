/** The message history of a room in server/room.go: a window of the last 1000 messages that
    edits, deletions, reactions and pins update in place. */
module RoomHistory {
  import opened Basics

  const MAX_MESSAGES := 1000

  datatype Message = Message(
    id: string, sender: string, senderName: string, timestamp: nat, replyTo: Option<string>,
    content: string, editedAt: Option<nat>, deleted: bool, reactions: map<string, seq<string>>, pinned: bool)

  /** The part of a message that no operation changes. */
  datatype Key = Key(id: string, sender: string, senderName: string, timestamp: nat, replyTo: Option<string>)

  function KeyOf(m: Message): Key
  {
    Key(m.id, m.sender, m.senderName, m.timestamp, m.replyTo)
  }

  /** A message as NewChatMessage makes it. */
  function Fresh(k: Key, content: string): Message
  {
    Message(k.id, k.sender, k.senderName, k.timestamp, k.replyTo, content, None, false, map[], false)
  }

  datatype History = History(messages: seq<Message>, pinnedMessages: set<string>)

  const EMPTY := History([], {})

  datatype Op =
    | Add(key: Key, content: string)
    | Edit(id: string, sender: string, content: string, now: nat)
    | Delete(id: string, sender: string)
    | React(id: string, sender: string, emoji: string)
    | Unreact(id: string, sender: string, emoji: string)
    | Pin(id: string)
    | Unpin(id: string)

  /** The first index of a message with this id. */
  function Find(ms: seq<Message>, id: string, from: nat := 0): (r: Option<nat>)
    requires from <= |ms|
    ensures r.Some? ==> from <= r.value < |ms| && ms[r.value].id == id && forall k :: from <= k < r.value ==> ms[k].id != id
    ensures r.None? ==> forall k :: from <= k < |ms| ==> ms[k].id != id
    decreases |ms| - from
  {
    if from == |ms| then None else if ms[from].id == id then Some(from) else Find(ms, id, from + 1)
  }

  function IndexOf(xs: seq<string>, x: string, from: nat := 0): (r: Option<nat>)
    requires from <= |xs|
    ensures r.Some? ==> from <= r.value < |xs| && xs[r.value] == x && x !in xs[from..r.value]
    ensures r.None? ==> x !in xs[from..]
    decreases |xs| - from
  {
    if from == |xs| then None else if xs[from] == x then Some(from) else IndexOf(xs, x, from + 1)
  }

  function Reactors(m: Message, emoji: string): seq<string>
  {
    if emoji in m.reactions then m.reactions[emoji] else []
  }

  /** The map after one sender's reaction is taken out of a list at index j. */
  function DropReactor(m: Message, emoji: string, j: nat): map<string, seq<string>>
    requires j < |Reactors(m, emoji)|
  {
    var rest := Reactors(m, emoji)[..j] + Reactors(m, emoji)[j + 1..];
    if rest == [] then m.reactions - {emoji} else m.reactions[emoji := rest]
  }

  /** The message an operation puts in place of `m`, the one with its id; None when it is refused. */
  function Change(m: Message, op: Op): Option<Message>
  {
    match op
    case Add(_, _) => None
    case Edit(_, sender, content, now) =>
      if m.sender != sender || m.deleted then None else Some(m.(content := content, editedAt := Some(now)))
    case Delete(_, sender) =>
      if m.sender != sender then None else Some(m.(deleted := true, content := "", pinned := false))
    case React(_, sender, emoji) =>
      if m.deleted then None
      else if sender in Reactors(m, emoji) then Some(m)
      else Some(m.(reactions := m.reactions[emoji := Reactors(m, emoji) + [sender]]))
    case Unreact(_, sender, emoji) =>
      (match IndexOf(Reactors(m, emoji), sender)
       case None => None
       case Some(j) => Some(m.(reactions := DropReactor(m, emoji, j))))
    case Pin(_) => if m.deleted then None else Some(m.(pinned := true))
    case Unpin(_) => Some(m.(pinned := false))
  }

  function Window(ms: seq<Message>): seq<Message>
  {
    if |ms| > MAX_MESSAGES then ms[|ms| - MAX_MESSAGES..] else ms
  }

  function Apply(h: History, op: Op): History
  {
    if op.Add? then
      if Find(h.messages, op.key.id).Some? then h
      else h.(messages := Window(h.messages + [Fresh(op.key, op.content)]))
    else
      match Find(h.messages, op.id)
      case None => h
      case Some(i) =>
        match Change(h.messages[i], op)
        case None => h
        case Some(m) =>
          History(h.messages[i := m],
                  if op.Pin? then h.pinnedMessages + {op.id}
                  else if op.Delete? || op.Unpin? then h.pinnedMessages - {op.id}
                  else h.pinnedMessages)
  }

  function Run(ops: seq<Op>): History
  {
    if ops == [] then EMPTY else Apply(Run(ops[..|ops| - 1]), ops[|ops| - 1])
  }

  // ---------- what every run keeps ----------

  ghost predicate NoDuplicates(xs: seq<string>)
  {
    forall i, j :: 0 <= i < j < |xs| ==> xs[i] != xs[j]
  }

  ghost predicate GoodMessage(m: Message)
  {
    (m.deleted ==> m.content == "" && !m.pinned)
    && forall e :: e in m.reactions ==> m.reactions[e] != [] && NoDuplicates(m.reactions[e])
  }

  ghost predicate UniqueIds(ms: seq<Message>)
  {
    forall i, j :: 0 <= i < j < |ms| ==> ms[i].id != ms[j].id
  }

  ghost predicate Inv(h: History)
  {
    |h.messages| <= MAX_MESSAGES && UniqueIds(h.messages)
    && (forall m :: m in h.messages ==> GoodMessage(m))
    && forall m :: m in h.messages && m.pinned ==> m.id in h.pinnedMessages
  }

  lemma ChangeGood(m: Message, op: Op)
    requires GoodMessage(m) && Change(m, op).Some?
    ensures GoodMessage(Change(m, op).value) && KeyOf(Change(m, op).value) == KeyOf(m)
    ensures m.deleted ==> Change(m, op).value.deleted
    ensures Change(m, op).value.pinned ==> op.Pin? || (m.pinned && !op.Delete? && !op.Unpin?)
  {
    var w := Change(m, op).value;
    if op.Unreact? {
      var xs := Reactors(m, op.emoji);
      var j := IndexOf(xs, op.sender).value;
      var rest := xs[..j] + xs[j + 1..];
      assert NoDuplicates(xs) && NoDuplicates(rest);
    } else if op.React? && w != m {
      assert NoDuplicates(Reactors(m, op.emoji) + [op.sender]);
    }
  }

  lemma ApplyKeepsInv(h: History, op: Op)
    requires Inv(h)
    ensures Inv(Apply(h, op))
  {
    hide GoodMessage, Change;
    if op.Add? {
      if Find(h.messages, op.key.id).None? {
        assert GoodMessage(Fresh(op.key, op.content)) by { FreshGood(op.key, op.content); }
      }
    } else if i :| Find(h.messages, op.id) == Some(i) {
      var m := h.messages[i];
      if Change(m, op).Some? {
        ChangeGood(m, op);
        var t := Apply(h, op);
        assert KeyOf(t.messages[i]).id == op.id;
        forall k | 0 <= k < |t.messages| && t.messages[k].pinned ensures t.messages[k].id in t.pinnedMessages {
          if k != i { assert h.messages[k].id != op.id; }
        }
      }
    }
  }

  lemma FreshGood(k: Key, content: string)
    ensures GoodMessage(Fresh(k, content))
  {
  }

  /** Over every run: at most 1000 messages, unique ids, deleted entries empty and unpinned,
      reaction lists non-empty and duplicate-free, and a pinned flag is in PinnedMessages. */
  lemma {:induction false} RunKeepsInv(ops: seq<Op>)
    ensures Inv(Run(ops))
    decreases |ops|
  {
    hide Apply, GoodMessage;
    if ops != [] {
      RunKeepsInv(ops[..|ops| - 1]);
      ApplyKeepsInv(Run(ops[..|ops| - 1]), ops[|ops| - 1]);
    }
  }

  // ---------- the window is the end of the accepted log ----------

  function Keys(ms: seq<Message>): (r: seq<Key>)
    ensures |r| == |ms| && forall i :: 0 <= i < |r| ==> r[i] == KeyOf(ms[i])
  {
    seq(|ms|, i requires 0 <= i < |ms| => KeyOf(ms[i]))
  }

  function Accepts(h: History, op: Op): bool
  {
    op.Add? && forall m :: m in h.messages ==> m.id != op.key.id
  }

  /** Every message ever accepted, oldest first. */
  function AcceptedLog(ops: seq<Op>): seq<Key>
  {
    if ops == [] then []
    else
      var before, op := ops[..|ops| - 1], ops[|ops| - 1];
      AcceptedLog(before) + (if Accepts(Run(before), op) then [op.key] else [])
  }

  function LastOf(log: seq<Key>, n: nat): seq<Key>
  {
    if |log| > n then log[|log| - n..] else log
  }

  lemma KeysAfter(h: History, op: Op)
    requires Inv(h)
    ensures Keys(Apply(h, op).messages) ==
            if Accepts(h, op) then LastOf(Keys(h.messages) + [op.key], MAX_MESSAGES) else Keys(h.messages)
  {
    hide Change, GoodMessage;
    if op.Add? {
      if Accepts(h, op) {
        assert Find(h.messages, op.key.id).None?;
      } else {
        var m :| m in h.messages && m.id == op.key.id;
        assert Find(h.messages, op.key.id).Some?;
      }
    } else if i :| Find(h.messages, op.id) == Some(i) {
      if Change(h.messages[i], op).Some? {
        assert h.messages[i] in h.messages;
        ChangeGood(h.messages[i], op);
      }
    }
  }

  /** The history is always the last min(1000, n) entries of the n messages accepted, in order,
      with their ids, senders and timestamps. */
  lemma {:induction false} WindowOfLog(ops: seq<Op>)
    ensures Keys(Run(ops).messages) == LastOf(AcceptedLog(ops), MAX_MESSAGES)
    decreases |ops|
  {
    hide Apply, GoodMessage, Accepts;
    if ops != [] {
      var before, op := ops[..|ops| - 1], ops[|ops| - 1];
      WindowOfLog(before);
      RunKeepsInv(before);
      KeysAfter(Run(before), op);
      if !Accepts(Run(before), op) {
        assert AcceptedLog(ops) == AcceptedLog(before);
      }
    }
  }

  // ---------- one operation touches one entry ----------

  /** Anything but an add leaves every entry but the one it names as it is, and that entry keeps
      its id, sender, name, timestamp and place. */
  lemma OneEntryTouched(h: History, op: Op, k: nat)
    requires Inv(h) && !op.Add? && k < |h.messages|
    ensures |Apply(h, op).messages| == |h.messages|
    ensures KeyOf(Apply(h, op).messages[k]) == KeyOf(h.messages[k])
    ensures h.messages[k].id != op.id ==> Apply(h, op).messages[k] == h.messages[k]
    ensures h.messages[k].deleted ==> Apply(h, op).messages[k].deleted
  {
    hide Change, GoodMessage;
    match Find(h.messages, op.id)
    case None =>
    case Some(i) =>
      if Change(h.messages[i], op).Some? { ChangeGood(h.messages[i], op); }
  }

  /** An add leaves every entry as it is; one that is accepted into a full window moves the entries
      down by one and lets the oldest go. */
  lemma AddKeepsEntries(h: History, op: Op, k: nat)
    requires Inv(h) && op.Add? && k < |h.messages|
    ensures var shift := if Accepts(h, op) && |h.messages| == MAX_MESSAGES then 1 else 0;
            k >= shift ==> k - shift < |Apply(h, op).messages| && Apply(h, op).messages[k - shift] == h.messages[k]
    ensures Apply(h, op).pinnedMessages == h.pinnedMessages
  {
    hide GoodMessage;
    if Accepts(h, op) {
      assert Find(h.messages, op.key.id).None?;
    } else {
      assert Find(h.messages, op.key.id).Some?;
    }
  }

  /** A deleted entry stays deleted, empty and unpinned for as long as it is in the window. */
  lemma {:induction false} DeletedForGood(h: History, ops: seq<Op>, k: nat)
    requires Inv(h) && k < |h.messages| && h.messages[k].deleted
    ensures var t := ApplyAll(h, ops);
            forall m :: m in t.messages && m.id == h.messages[k].id && !Readded(h, ops, m.id) ==> m.deleted && m.content == "" && !m.pinned
    decreases |ops|
  {
    hide Apply, Change;
    var id := h.messages[k].id;
    if ops == [] {
      forall m | m in h.messages && m.id == id ensures m == h.messages[k] {}
    } else {
      var u := Apply(h, ops[0]);
      ApplyKeepsInv(h, ops[0]);
      if ops[0].Add? {
        AddKeepsEntries(h, ops[0], k);
        var shift := if Accepts(h, ops[0]) && |h.messages| == MAX_MESSAGES then 1 else 0;
        if k >= shift {
          DeletedForGood(u, ops[1..], k - shift);
        } else {
          Gone(h, ops[0]);
          if !Readded(u, ops[1..], id) { StaysGone(u, ops[1..], id); }
        }
      } else {
        OneEntryTouched(h, ops[0], k);
        DeletedForGood(u, ops[1..], k);
      }
    }
  }

  function ApplyAll(h: History, ops: seq<Op>): History
    decreases |ops|
  {
    if ops == [] then h else ApplyAll(Apply(h, ops[0]), ops[1..])
  }

  /** Was the id accepted again during these operations? */
  function Readded(h: History, ops: seq<Op>, id: string): bool
    decreases |ops|
  {
    ops != [] && ((Accepts(h, ops[0]) && ops[0].key.id == id) || Readded(Apply(h, ops[0]), ops[1..], id))
  }

  lemma Gone(h: History, op: Op)
    requires Inv(h) && Accepts(h, op) && |h.messages| == MAX_MESSAGES && op.key.id != h.messages[0].id
    ensures forall m :: m in Apply(h, op).messages ==> m.id != h.messages[0].id
  {
    assert Find(h.messages, op.key.id).None?;
    assert Apply(h, op).messages == h.messages[1..] + [Fresh(op.key, op.content)];
  }

  lemma {:induction false} StaysGone(h: History, ops: seq<Op>, id: string)
    requires Inv(h) && (forall m :: m in h.messages ==> m.id != id) && !Readded(h, ops, id)
    ensures forall m :: m in ApplyAll(h, ops).messages ==> m.id != id
    decreases |ops|
  {
    hide Apply, GoodMessage;
    if ops != [] {
      var u := Apply(h, ops[0]);
      ApplyKeepsInv(h, ops[0]);
      KeysAfter(h, ops[0]);
      forall m | m in u.messages ensures m.id != id {
        var j :| 0 <= j < |u.messages| && u.messages[j] == m;
        assert Keys(u.messages)[j].id == m.id;
        if Accepts(h, ops[0]) {
          var all := Keys(h.messages) + [ops[0].key];
          assert Keys(u.messages)[j] in all;
        } else {
          assert Keys(h.messages)[j].id == h.messages[j].id;
        }
      }
      StaysGone(u, ops[1..], id);
    }
  }

  // ---------- pins and eviction ----------

  predicate Pinned(h: History, id: string)
  {
    exists m :: m in h.messages && m.id == id && m.pinned
  }

  ghost predicate PinsAgree(h: History)
  {
    forall id :: id in h.pinnedMessages <==> Pinned(h, id)
  }

  /** An id in PinnedMessages that no message in the window carries with a pinned flag. */
  predicate Stray(h: History, id: string)
  {
    id in h.pinnedMessages && !Pinned(h, id)
  }

  /** An add pushes a pinned message out of a full window. */
  predicate Evicts(h: History, op: Op, id: string)
  {
    Accepts(h, op) && |h.messages| == MAX_MESSAGES && h.messages[0].id == id && h.messages[0].pinned
  }

  /** A pin, an unpin or a deletion of a message in the window is accepted. */
  predicate Settles(h: History, op: Op, id: string)
  {
    (op.Pin? || op.Unpin? || op.Delete?) && op.id == id
    && match Find(h.messages, id) { case None => false case Some(i) => Change(h.messages[i], op).Some? }
  }

  lemma StrayAfter(h: History, op: Op, id: string)
    requires Inv(h)
    ensures Stray(Apply(h, op), id) <==> Evicts(h, op, id) || (Stray(h, id) && !Settles(h, op, id))
  {
    hide GoodMessage, Change;
    if op.Add? {
      PinsAfterAdd(h, op, id);
    } else {
      PinsAfterChange(h, op, id);
    }
  }

  lemma PinsAfterAdd(h: History, op: Op, id: string)
    requires Inv(h) && op.Add?
    ensures Apply(h, op).pinnedMessages == h.pinnedMessages
    ensures Pinned(Apply(h, op), id) <==> Pinned(h, id) && !Evicts(h, op, id)
    ensures Evicts(h, op, id) ==> id in h.pinnedMessages
  {
    hide GoodMessage;
    var t := Apply(h, op);
    if Accepts(h, op) {
      assert Find(h.messages, op.key.id).None?;
      var added := Fresh(op.key, op.content);
      if |h.messages| < MAX_MESSAGES {
        assert t.messages == h.messages + [added];
      } else {
        var oldest := h.messages[0];
        assert t.messages == h.messages[1..] + [added];
        assert forall m :: m in h.messages <==> m == oldest || m in h.messages[1..];
        assert forall m :: m in h.messages[1..] ==> m.id != oldest.id;
        assert oldest in h.messages;
      }
    } else {
      assert Find(h.messages, op.key.id).Some?;
    }
  }

  lemma PinsAfterChange(h: History, op: Op, id: string)
    requires Inv(h) && !op.Add?
    ensures Stray(Apply(h, op), id) <==> Stray(h, id) && !Settles(h, op, id)
  {
    hide GoodMessage, Change, Pinned;
    match Find(h.messages, op.id)
    case None =>
    case Some(i) =>
      if Change(h.messages[i], op).Some? {
        ChangePins(h.messages[i], op);
        Replaced(h, Apply(h, op), i, id);
        if Pinned(h, id) { PinnedKnown(h, id); }
      }
  }

  lemma ChangePins(m: Message, op: Op)
    requires Change(m, op).Some?
    ensures var w := Change(m, op).value;
            w.id == m.id && w.pinned == (op.Pin? || (m.pinned && !op.Delete? && !op.Unpin?))
  {
  }

  lemma PinnedKnown(h: History, id: string)
    requires Inv(h) && Pinned(h, id)
    ensures id in h.pinnedMessages
  {
  }

  lemma Replaced(h: History, t: History, i: nat, id: string)
    requires UniqueIds(h.messages) && i < |h.messages|
    requires |t.messages| == |h.messages| && t.messages == h.messages[i := t.messages[i]] && t.messages[i].id == h.messages[i].id
    ensures Pinned(t, id) <==> if id == h.messages[i].id then t.messages[i].pinned else Pinned(h, id)
    ensures id == h.messages[i].id ==> (Pinned(h, id) <==> h.messages[i].pinned)
  {
    if Pinned(t, id) {
      var k :| 0 <= k < |t.messages| && t.messages[k].id == id && t.messages[k].pinned;
      assert k != i ==> h.messages[k] == t.messages[k] && h.messages[k] in h.messages;
    }
    if Pinned(h, id) {
      var k :| 0 <= k < |h.messages| && h.messages[k].id == id && h.messages[k].pinned;
      assert k != i ==> h.messages[k] == t.messages[k] && t.messages[k] in t.messages;
    }
    assert t.messages[i] in t.messages && h.messages[i] in h.messages;
  }

  ghost function EvictsAt(ops: seq<Op>, id: string): nat -> bool
  {
    (i: nat) => i < |ops| && Evicts(Run(ops[..i]), ops[i], id)
  }

  ghost function SettlesAt(ops: seq<Op>, id: string): nat -> bool
  {
    (i: nat) => i < |ops| && Settles(Run(ops[..i]), ops[i], id)
  }

  lemma {:induction false} StrayExactly(ops: seq<Op>, id: string)
    ensures Stray(Run(ops), id) <==> Since(|ops|, EvictsAt(ops, id), SettlesAt(ops, id))
    decreases |ops|
  {
    hide Apply, Inv, Evicts, Settles, Stray;
    if ops == [] {
      assert !Stray(EMPTY, id) by { NoStrayAtFirst(id); }
    } else {
      var n := |ops| - 1;
      StrayExactly(ops[..n], id);
      RunKeepsInv(ops[..n]);
      StrayAfter(Run(ops[..n]), ops[n], id);
      forall i: nat | i < n
        ensures EvictsAt(ops, id)(i) == EvictsAt(ops[..n], id)(i) && SettlesAt(ops, id)(i) == SettlesAt(ops[..n], id)(i)
      {
        assert ops[..n][..i] == ops[..i];
      }
      SinceNext(n, EvictsAt(ops[..n], id), SettlesAt(ops[..n], id), EvictsAt(ops, id), SettlesAt(ops, id));
    }
  }

  lemma NoStrayAtFirst(id: string)
    ensures !Stray(EMPTY, id)
  {
  }

  lemma AgreeIsNoStray(h: History)
    requires Inv(h)
    ensures PinsAgree(h) <==> forall id :: !Stray(h, id)
  {
    hide Inv, Pinned;
    forall id | Pinned(h, id) ensures id in h.pinnedMessages { PinnedKnown(h, id); }
    if forall id :: !Stray(h, id) {
      forall id ensures id in h.pinnedMessages <==> Pinned(h, id) { assert !Stray(h, id); }
    }
  }

  /** Over every run: PinnedMessages and the flags agree exactly if every message that was evicted while
      pinned has come back and been pinned, unpinned or deleted since: eviction does not clean up. */
  lemma PinsAgreeExactly(ops: seq<Op>)
    ensures PinsAgree(Run(ops)) <==> forall id :: !Since(|ops|, EvictsAt(ops, id), SettlesAt(ops, id))
  {
    hide Run, Inv, PinsAgree, Stray, EvictsAt, SettlesAt;
    RunKeepsInv(ops);
    AgreeIsNoStray(Run(ops));
    forall id ensures Stray(Run(ops), id) <==> Since(|ops|, EvictsAt(ops, id), SettlesAt(ops, id)) {
      StrayExactly(ops, id);
    }
  }

  /** Of all operations only an add that evicts a pinned message makes them disagree. */
  lemma PinsAgreeAfter(h: History, op: Op)
    requires Inv(h) && PinsAgree(h)
    ensures PinsAgree(Apply(h, op)) <==> !(Accepts(h, op) && |h.messages| == MAX_MESSAGES && h.messages[0].pinned)
  {
    hide Apply, Inv, PinsAgree, Stray, Settles, Accepts;
    AgreeIsNoStray(h);
    AgreeIsNoStray(Apply(h, op)) by { ApplyKeepsInv(h, op); }
    forall id ensures Stray(Apply(h, op), id) <==> Evicts(h, op, id) {
      StrayAfter(h, op, id);
    }
    if Accepts(h, op) && |h.messages| == MAX_MESSAGES && h.messages[0].pinned {
      assert Evicts(h, op, h.messages[0].id);
    }
  }

  // ---------- a run that evicts a pinned message ----------

  function Numbered(n: nat): Key
  {
    Key(seq(n, _ => 'x'), "", "", 0, None)
  }

  /** One message, pinned, and then more of them. */
  function PinnedThenMore(n: nat): seq<Op>
  {
    if n == 0 then [Add(Numbered(0), "first"), Pin("")] else PinnedThenMore(n - 1) + [Add(Numbered(n), "more")]
  }

  ghost predicate Filling(h: History, n: nat)
  {
    |h.messages| == n + 1 && h.messages[0].id == "" && h.messages[0].pinned && forall m :: m in h.messages ==> |m.id| <= n
  }

  lemma {:induction false} WindowFills(n: nat)
    requires n < MAX_MESSAGES
    ensures Filling(Run(PinnedThenMore(n)), n)
  {
    hide Apply, Filling, Numbered;
    if n == 0 {
      PinnedFirst();
      assert Filling(Run(PinnedThenMore(0)), 0) by { OneFills(Run(PinnedThenMore(0))); }
    } else {
      WindowFills(n - 1);
      var before := PinnedThenMore(n - 1);
      assert PinnedThenMore(n)[..|before|] == before;
      FillsByOne(Run(before), n);
    }
  }

  lemma OneFills(h: History)
    requires h.messages == [Fresh(Numbered(0), "first").(pinned := true)]
    ensures Filling(h, 0)
  {
    assert Numbered(0).id == "";
  }

  lemma FillsByOne(h: History, n: nat)
    requires 0 < n < MAX_MESSAGES && Filling(h, n - 1)
    ensures Filling(Apply(h, Add(Numbered(n), "more")), n)
  {
    var op := Add(Numbered(n), "more");
    assert |op.key.id| == n;
    assert Find(h.messages, op.key.id).None?;
  }

  lemma PinnedFirst()
    ensures Run(PinnedThenMore(0)).messages == [Fresh(Numbered(0), "first").(pinned := true)]
  {
    var a, p := Add(Numbered(0), "first"), Pin("");
    var ops := PinnedThenMore(0);
    assert ops[..1] == [a] && [a][..0] == [];
    assert Run([a]) == Apply(EMPTY, a);
    assert Run(ops) == Apply(Run([a]), p);
    assert Numbered(0).id == "";
  }

  /** After a pinned message and 1000 others, PinnedMessages still names it, and it is gone. */
  lemma PinnedEvicted()
    ensures var h := Run(PinnedThenMore(MAX_MESSAGES)); Stray(h, "") && !PinsAgree(h)
  {
    hide Apply, Inv, Find;
    WindowFills(MAX_MESSAGES - 1);
    var before, op := PinnedThenMore(MAX_MESSAGES - 1), Add(Numbered(MAX_MESSAGES), "more");
    assert PinnedThenMore(MAX_MESSAGES)[..|before|] == before;
    assert |op.key.id| == MAX_MESSAGES;
    RunKeepsInv(before);
    StrayAfter(Run(before), op, "");
  }

  // ---------- the room ----------

  class Room {
    var messages: seq<Message>
    var pinnedMessages: set<string>

    function State(): History
      reads this
    {
      History(messages, pinnedMessages)
    }

    constructor ()
      ensures State() == EMPTY
    {
      messages, pinnedMessages := [], {};
    }

    /** The scan every method starts with: `for i := range r.Messages`. */
    method Scan(id: string) returns (found: Option<nat>)
      ensures found == Find(messages, id)
    {
      for i := 0 to |messages|
        invariant Find(messages, id, i) == Find(messages, id)
      {
        if messages[i].id == id {
          return Some(i);
        }
      }
      return None;
    }

    method AddMessage(key: Key, content: string)
      modifies this
      ensures State() == Apply(old(State()), Add(key, content))
    {
      var found := Scan(key.id);
      if found.Some? {
        return;
      }
      messages := messages + [Fresh(key, content)];
      if |messages| > MAX_MESSAGES {
        messages := messages[|messages| - MAX_MESSAGES..];
      }
    }

    method EditMessage(messageId: string, senderId: string, newContent: string, now: nat) returns (ok: bool)
      modifies this
      ensures State() == Apply(old(State()), Edit(messageId, senderId, newContent, now))
      ensures ok <==> Find(old(messages), messageId).Some?
                      && var m := old(messages)[Find(old(messages), messageId).value]; m.sender == senderId && !m.deleted
      ensures ok ==> exists i :: 0 <= i < |messages| && messages[i].id == messageId && messages[i].content == newContent
                                 && messages[i].editedAt == Some(now)
    {
      var found := Scan(messageId);
      if found.None? {
        return false;
      }
      var i := found.value;
      if messages[i].sender != senderId {
        return false;
      }
      if messages[i].deleted {
        return false;
      }
      messages := messages[i := messages[i].(content := newContent, editedAt := Some(now))];
      assert messages[i].id == messageId;
      return true;
    }

    method DeleteMessage(messageId: string, senderId: string) returns (ok: bool)
      modifies this
      ensures State() == Apply(old(State()), Delete(messageId, senderId))
      ensures ok <==> Find(old(messages), messageId).Some? && old(messages)[Find(old(messages), messageId).value].sender == senderId
    {
      var found := Scan(messageId);
      if found.None? || messages[found.value].sender != senderId {
        return false;
      }
      var i := found.value;
      messages := messages[i := messages[i].(deleted := true, content := "")];
      pinnedMessages := pinnedMessages - {messageId};
      messages := messages[i := messages[i].(pinned := false)];
      return true;
    }

    method AddReaction(messageId: string, senderId: string, emoji: string) returns (reactions: map<string, seq<string>>, ok: bool)
      modifies this
      ensures State() == Apply(old(State()), React(messageId, senderId, emoji))
      ensures ok <==> Find(old(messages), messageId).Some? && !old(messages)[Find(old(messages), messageId).value].deleted
      ensures ok ==> Find(messages, messageId).Some? && reactions == messages[Find(messages, messageId).value].reactions
                     && senderId in Reactors(messages[Find(messages, messageId).value], emoji)
    {
      var found := Scan(messageId);
      if found.None? || messages[found.value].deleted {
        return map[], false;
      }
      var i := found.value;
      var m := messages[i];
      var senders := Reactors(m, emoji);
      for j := 0 to |senders|
        invariant senderId !in senders[..j]
        invariant messages == old(messages) && pinnedMessages == old(pinnedMessages)
      {
        if senders[j] == senderId {
          assert Change(m, React(messageId, senderId, emoji)) == Some(m);
          return m.reactions, true;
        }
      }
      assert senders[..|senders|] == senders;
      messages := messages[i := m.(reactions := m.reactions[emoji := senders + [senderId]])];
      SameFind(old(messages), i, messages[i], messageId);
      return messages[i].reactions, true;
    }

    method RemoveReaction(messageId: string, senderId: string, emoji: string) returns (reactions: map<string, seq<string>>, ok: bool)
      modifies this
      ensures State() == Apply(old(State()), Unreact(messageId, senderId, emoji))
      ensures ok <==> Find(old(messages), messageId).Some? && senderId in Reactors(old(messages)[Find(old(messages), messageId).value], emoji)
      ensures ok ==> Find(messages, messageId).Some? && reactions == messages[Find(messages, messageId).value].reactions
    {
      var found := Scan(messageId);
      if found.None? {
        return map[], false;
      }
      var i := found.value;
      var m := messages[i];
      var senders := Reactors(m, emoji);
      for j := 0 to |senders|
        invariant IndexOf(senders, senderId, j) == IndexOf(senders, senderId)
        invariant messages == old(messages) && pinnedMessages == old(pinnedMessages)
      {
        if senders[j] == senderId {
          assert IndexOf(senders, senderId) == Some(j);
          var rest := senders[..j] + senders[j + 1..];
          messages := messages[i := m.(reactions := m.reactions[emoji := rest])];
          if |rest| == 0 {
            messages := messages[i := m.(reactions := m.reactions[emoji := rest] - {emoji})];
            assert m.reactions[emoji := rest] - {emoji} == m.reactions - {emoji};
          }
          SameFind(old(messages), i, messages[i], messageId);
          return messages[i].reactions, true;
        }
      }
      return m.reactions, false;
    }

    /** The source goes on past a deleted match; with unique ids there is no other. */
    method PinMessage(messageId: string) returns (ok: bool)
      modifies this
      ensures State() == Apply(old(State()), Pin(messageId))
      ensures ok <==> Find(old(messages), messageId).Some? && !old(messages)[Find(old(messages), messageId).value].deleted
      ensures ok ==> messageId in pinnedMessages
    {
      var found := Scan(messageId);
      if found.None? || messages[found.value].deleted {
        return false;
      }
      messages := messages[found.value := messages[found.value].(pinned := true)];
      pinnedMessages := pinnedMessages + {messageId};
      return true;
    }

    method UnpinMessage(messageId: string) returns (ok: bool)
      modifies this
      ensures State() == Apply(old(State()), Unpin(messageId))
      ensures ok <==> Find(old(messages), messageId).Some?
      ensures ok ==> messageId !in pinnedMessages
    {
      var found := Scan(messageId);
      if found.None? {
        return false;
      }
      messages := messages[found.value := messages[found.value].(pinned := false)];
      pinnedMessages := pinnedMessages - {messageId};
      return true;
    }
  }

  lemma SameFind(ms: seq<Message>, i: nat, m: Message, id: string)
    requires Find(ms, id) == Some(i) && m.id == id
    ensures Find(ms[i := m], id) == Some(i)
  {
    var t := ms[i := m];
    assert t[i].id == id;
    assert forall k :: 0 <= k < i ==> t[k] == ms[k];
  }
}
