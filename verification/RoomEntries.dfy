/** What every entry of a room's window is after any run, told by the operations that were accepted: its
    text, when it was edited, whether it is deleted or pinned, and who has reacted to it. */
module RoomEntries {
  import opened Basics
  import opened RoomHistory

  datatype Kind =
    | Adding | Editing | Deleting | Pinning | Unpinning
    | Reacting(sender: string, emoji: string)
    | Unreacting(sender: string, emoji: string)

  function KindOf(op: Op): Kind
  {
    match op
    case Add(_, _) => Adding
    case Edit(_, _, _, _) => Editing
    case Delete(_, _) => Deleting
    case React(_, sender, emoji) => Reacting(sender, emoji)
    case Unreact(_, sender, emoji) => Unreacting(sender, emoji)
    case Pin(_) => Pinning
    case Unpin(_) => Unpinning
  }

  function Target(op: Op): string
  {
    if op.Add? then op.key.id else op.id
  }

  /** Who may do what to a message in the window. */
  predicate Allows(m: Message, op: Op)
  {
    match op
    case Add(_, _) => false
    case Edit(_, sender, _, _) => sender == m.sender && !m.deleted
    case Delete(_, sender) => sender == m.sender
    case React(_, _, _) => !m.deleted
    case Unreact(_, sender, emoji) => emoji in m.reactions && sender in m.reactions[emoji]
    case Pin(_) => !m.deleted
    case Unpin(_) => true
  }

  /** An add is accepted if no message in the window has its id, anything else if one does and allows it. */
  ghost predicate Accepted(h: History, op: Op)
  {
    if op.Add? then forall m :: m in h.messages ==> m.id != op.key.id
    else exists m :: m in h.messages && m.id == op.id && Allows(m, op)
  }

  /** Where in the run an operation of one of these kinds on message `id` was accepted. */
  ghost function At(ops: seq<Op>, id: string, kinds: set<Kind>): nat -> bool
  {
    (i: nat) => i < |ops| && KindOf(ops[i]) in kinds && Target(ops[i]) == id && Accepted(Run(ops[..i]), ops[i])
  }

  /** `i` is the last such place. */
  ghost predicate LastAt(ops: seq<Op>, id: string, kinds: set<Kind>, i: nat)
  {
    At(ops, id, kinds)(i) && forall j: nat :: i < j < |ops| ==> !At(ops, id, kinds)(j)
  }

  /** Some reaction or mark was set since the message was added, and has not been taken back. */
  ghost predicate Stands(ops: seq<Op>, id: string, on: set<Kind>, off: set<Kind>)
  {
    Since(|ops|, At(ops, id, on), At(ops, id, off + {Adding}))
  }

  predicate Reacted(m: Message, sender: string, emoji: string)
  {
    emoji in m.reactions && sender in m.reactions[emoji]
  }

  // ---------- one operation ----------

  /** What an accepted operation makes of its message. */
  predicate Becomes(m: Message, op: Op, w: Message)
  {
    KeyOf(w) == KeyOf(m)
    && w.content == (match op case Edit(_, _, text, _) => text case Delete(_, _) => "" case _ => m.content)
    && w.editedAt == (if op.Edit? then Some(op.now) else m.editedAt)
    && w.deleted == (m.deleted || op.Delete?)
    && w.pinned == (op.Pin? || (m.pinned && !op.Unpin? && !op.Delete?))
  }

  ghost predicate ReactionsBecome(m: Message, op: Op, w: Message)
  {
    forall s, e :: Reacted(w, s, e) <==>
      KindOf(op) == Reacting(s, e) || (Reacted(m, s, e) && KindOf(op) != Unreacting(s, e))
  }

  lemma ChangeIs(m: Message, op: Op)
    requires GoodMessage(m) && !op.Add?
    ensures Change(m, op).Some? <==> Allows(m, op)
    ensures Allows(m, op) ==> Becomes(m, op, Change(m, op).value)
  {
    if op.Unreact? {
      assert Reactors(m, op.emoji)[0..] == Reactors(m, op.emoji);
    }
  }

  lemma ReactionsAre(m: Message, op: Op)
    requires GoodMessage(m) && Allows(m, op)
    ensures Change(m, op).Some? && ReactionsBecome(m, op, Change(m, op).value)
  {
    ChangeIs(m, op);
    if op.Unreact? {
      var xs := Reactors(m, op.emoji);
      var j := IndexOf(xs, op.sender).value;
      Dropped(xs, j);
    }
  }

  lemma Dropped(xs: seq<string>, j: nat)
    requires NoDuplicates(xs) && j < |xs|
    ensures forall s :: s in xs[..j] + xs[j + 1..] <==> s in xs && s != xs[j]
  {
    assert xs == xs[..j] + [xs[j]] + xs[j + 1..];
  }

  lemma AcceptedAdd(h: History, op: Op)
    requires op.Add?
    ensures Accepted(h, op) <==> Find(h.messages, op.key.id).None?
    ensures Accepted(h, op) <==> Accepts(h, op)
  {
  }

  lemma AcceptedOther(h: History, op: Op)
    requires Inv(h) && !op.Add?
    ensures Accepted(h, op) <==> match Find(h.messages, op.id) { case None => false case Some(i) => Allows(h.messages[i], op) }
  {
    hide GoodMessage, Allows;
    if m :| m in h.messages && m.id == op.id && Allows(m, op) {
      var k :| 0 <= k < |h.messages| && h.messages[k] == m;
      var i := Find(h.messages, op.id).value;
      assert i == k;
    }
  }

  /** Where an entry of the window comes from: a message just added, or the entry of the same id as it
      was before, unless the operation named it and was accepted. */
  ghost predicate Comes(h: History, op: Op, w: Message, m: Message)
  {
    m in h.messages && m.id == w.id && GoodMessage(m)
    && if !op.Add? && op.id == w.id && Accepted(h, op) then Allows(m, op) && Becomes(m, op, w) && ReactionsBecome(m, op, w)
       else w == m && !(op.Add? && op.key.id == w.id && Accepted(h, op))
  }

  predicate JustAdded(op: Op, w: Message)
  {
    op.Add? && KeyOf(w) == op.key && w.content == op.content && w.editedAt == None && !w.deleted && !w.pinned && w.reactions == map[]
  }

  lemma EntryFrom(h: History, op: Op, w: Message)
    requires Inv(h) && w in Apply(h, op).messages
    ensures (JustAdded(op, w) && Accepted(h, op)) || exists m :: Comes(h, op, w, m)
  {
    hide GoodMessage, Becomes, ReactionsBecome, Allows, Accepted, Change;
    if op.Add? {
      AddedFrom(h, op, w);
    } else {
      ChangedFrom(h, op, w);
    }
  }

  lemma AddedFrom(h: History, op: Op, w: Message)
    requires Inv(h) && op.Add? && w in Apply(h, op).messages
    ensures (JustAdded(op, w) && Accepted(h, op)) || Comes(h, op, w, w)
  {
    hide GoodMessage, Becomes, ReactionsBecome, Allows;
    AcceptedAdd(h, op);
    if Accepted(h, op) {
      var all := h.messages + [Fresh(op.key, op.content)];
      assert w in all;
    }
  }

  lemma ChangedFrom(h: History, op: Op, w: Message)
    requires Inv(h) && !op.Add? && w in Apply(h, op).messages
    ensures exists m :: Comes(h, op, w, m)
  {
    hide GoodMessage, Becomes, ReactionsBecome, Allows, Accepted, Change;
    AcceptedOther(h, op);
    var t := Apply(h, op);
    match Find(h.messages, op.id)
    case None => assert Comes(h, op, w, w);
    case Some(i) =>
      var m := h.messages[i];
      assert m in h.messages;
      ChangeIs(m, op);
      if Allows(m, op) {
        ReactionsAre(m, op);
        var k :| 0 <= k < |t.messages| && t.messages[k] == w;
        if k == i {
          SameId(m, op, w);
          assert Comes(h, op, w, m);
        } else {
          assert Comes(h, op, w, w);
        }
      } else {
        assert Comes(h, op, w, w);
      }
  }

  lemma SameId(m: Message, op: Op, w: Message)
    requires Becomes(m, op, w)
    ensures w.id == m.id
  {
    assert KeyOf(w).id == KeyOf(m).id;
  }

  // ---------- over runs ----------

  lemma AtBefore(ops: seq<Op>, id: string, kinds: set<Kind>, n: nat)
    requires |ops| == n + 1
    ensures forall i: nat :: i < n ==> At(ops, id, kinds)(i) == At(ops[..n], id, kinds)(i)
    ensures At(ops, id, kinds)(n) <==> KindOf(ops[n]) in kinds && Target(ops[n]) == id && Accepted(Run(ops[..n]), ops[n])
  {
    hide Run, Accepted;
    forall i: nat | i < n ensures At(ops, id, kinds)(i) == At(ops[..n], id, kinds)(i) {
      assert ops[..n][..i] == ops[..i];
    }
  }

  lemma StandsNext(ops: seq<Op>, id: string, on: set<Kind>, off: set<Kind>, n: nat)
    requires |ops| == n + 1
    ensures Stands(ops, id, on, off) <==>
            At(ops, id, on)(n) || (Stands(ops[..n], id, on, off) && !At(ops, id, off + {Adding})(n))
  {
    hide At;
    AtBefore(ops, id, on, n);
    AtBefore(ops, id, off + {Adding}, n);
    SinceNext(n, At(ops[..n], id, on), At(ops[..n], id, off + {Adding}), At(ops, id, on), At(ops, id, off + {Adding}));
  }

  lemma LastNext(ops: seq<Op>, id: string, kinds: set<Kind>, n: nat, i: nat)
    requires |ops| == n + 1
    requires if At(ops, id, kinds)(n) then i == n else LastAt(ops[..n], id, kinds, i)
    ensures LastAt(ops, id, kinds, i)
  {
    hide Accepted, Run;
    AtBefore(ops, id, kinds, n);
  }

  /** The entry's text, its edit time and the unchanging part of it. */
  ghost predicate TextTold(ops: seq<Op>, w: Message, a: nat, i: nat)
  {
    LastAt(ops, w.id, {Adding}, a) && ops[a].key == KeyOf(w)
    && LastAt(ops, w.id, {Adding, Editing}, i)
    && w.editedAt == (if ops[i].Edit? then Some(ops[i].now) else None)
    && w.content == (if w.deleted then "" else ops[i].content)
  }

  /** Over every run, an entry of the window has the key it was last added with; its text is the one of
      the last accepted edit since then, or else the one it was added with, and empty if it is deleted;
      its edit time is that edit's. */
  lemma {:induction false} TextExactly(ops: seq<Op>, w: Message)
    requires w in Run(ops).messages
    ensures exists a: nat, i: nat :: TextTold(ops, w, a, i)
    decreases |ops|
  {
    hide Apply, Inv, Comes, JustAdded, TextTold, At, LastAt, Accepted;
    var n := |ops| - 1;
    var h, op := Run(ops[..n]), ops[n];
    RunKeepsInv(ops[..n]);
    EntryFrom(h, op, w);
    if JustAdded(op, w) && Accepted(h, op) {
      TextAdded(ops, w, n);
    } else {
      var m :| Comes(h, op, w, m);
      MemberOf(h, op, w, m);
      TextExactly(ops[..n], m);
      var a: nat, i: nat :| TextTold(ops[..n], m, a, i);
      TextKept(ops, w, m, a, i, n);
    }
  }

  lemma MemberOf(h: History, op: Op, w: Message, m: Message)
    requires Comes(h, op, w, m)
    ensures m in h.messages && m.id == w.id
  {
  }

  lemma TextAdded(ops: seq<Op>, w: Message, n: nat)
    requires |ops| == n + 1 && JustAdded(ops[n], w) && Accepted(Run(ops[..n]), ops[n])
    ensures TextTold(ops, w, n, n)
  {
    hide Accepted, Run;
    assert KeyOf(w).id == w.id;
    LastNext(ops, w.id, {Adding}, n, n);
    LastNext(ops, w.id, {Adding, Editing}, n, n);
  }

  lemma TextKept(ops: seq<Op>, w: Message, m: Message, a: nat, i: nat, n: nat)
    requires |ops| == n + 1 && TextTold(ops[..n], m, a, i) && Comes(Run(ops[..n]), ops[n], w, m)
    ensures TextTold(ops, w, a, if ops[n].Edit? && At(ops, w.id, {Editing})(n) then n else i)
  {
    hide Accepted, Run, ReactionsBecome;
    AtBefore(ops, w.id, {Adding}, n);
    AtBefore(ops, w.id, {Editing}, n);
    AtBefore(ops, w.id, {Adding, Editing}, n);
    LastNext(ops, w.id, {Adding}, n, a);
    LastNext(ops, w.id, {Adding, Editing}, n, if ops[n].Edit? && At(ops, w.id, {Editing})(n) then n else i);
  }

  /** Over every run, an entry of the window is deleted exactly if a deletion was accepted since its add;
      pinned exactly if a pin was, and no unpin or deletion after it; and someone is listed for a
      reaction exactly if they reacted so and have not taken it back. */
  lemma {:induction false} MarksExactly(ops: seq<Op>, w: Message)
    requires w in Run(ops).messages
    ensures w.deleted <==> Stands(ops, w.id, {Deleting}, {})
    ensures w.pinned <==> Stands(ops, w.id, {Pinning}, {Unpinning, Deleting})
    ensures forall s, e :: Reacted(w, s, e) <==> Stands(ops, w.id, {Reacting(s, e)}, {Unreacting(s, e)})
    decreases |ops|
  {
    hide Apply, Inv, Comes, JustAdded, At, Stands, Accepted, Reacted;
    var n := |ops| - 1;
    var h, op := Run(ops[..n]), ops[n];
    RunKeepsInv(ops[..n]);
    EntryFrom(h, op, w);
    StandsNext(ops, w.id, {Deleting}, {}, n);
    StandsNext(ops, w.id, {Pinning}, {Unpinning, Deleting}, n);
    if JustAdded(op, w) && Accepted(h, op) {
      NoMarks(ops, w, n);
      forall s, e ensures Reacted(w, s, e) <==> Stands(ops, w.id, {Reacting(s, e)}, {Unreacting(s, e)}) {
        StandsNext(ops, w.id, {Reacting(s, e)}, {Unreacting(s, e)}, n);
        NoReactions(ops, w, n, s, e);
      }
    } else {
      var m :| Comes(h, op, w, m);
      MemberOf(h, op, w, m);
      MarksExactly(ops[..n], m);
      MarksKept(ops, w, m, n);
      forall s, e ensures Reacted(w, s, e) <==> Stands(ops, w.id, {Reacting(s, e)}, {Unreacting(s, e)}) {
        StandsNext(ops, w.id, {Reacting(s, e)}, {Unreacting(s, e)}, n);
        ReactionsKept(ops, w, m, n, s, e);
      }
    }
  }

  lemma NoMarks(ops: seq<Op>, w: Message, n: nat)
    requires |ops| == n + 1 && JustAdded(ops[n], w) && Accepted(Run(ops[..n]), ops[n])
    ensures !w.deleted && !At(ops, w.id, {Deleting})(n) && At(ops, w.id, {} + {Adding})(n)
    ensures !w.pinned && !At(ops, w.id, {Pinning})(n) && At(ops, w.id, {Unpinning, Deleting} + {Adding})(n)
  {
    assert KeyOf(w).id == w.id;
  }

  lemma NoReactions(ops: seq<Op>, w: Message, n: nat, s: string, e: string)
    requires |ops| == n + 1 && JustAdded(ops[n], w) && Accepted(Run(ops[..n]), ops[n])
    ensures !Reacted(w, s, e) && !At(ops, w.id, {Reacting(s, e)})(n) && At(ops, w.id, {Unreacting(s, e)} + {Adding})(n)
  {
    assert KeyOf(w).id == w.id;
  }

  lemma MarksKept(ops: seq<Op>, w: Message, m: Message, n: nat)
    requires |ops| == n + 1 && Comes(Run(ops[..n]), ops[n], w, m)
    ensures w.deleted <==> At(ops, w.id, {Deleting})(n) || (m.deleted && !At(ops, w.id, {} + {Adding})(n))
    ensures w.pinned <==> At(ops, w.id, {Pinning})(n) || (m.pinned && !At(ops, w.id, {Unpinning, Deleting} + {Adding})(n))
  {
    hide Accepted, Run, ReactionsBecome, GoodMessage, Allows;
  }

  lemma ReactionsKept(ops: seq<Op>, w: Message, m: Message, n: nat, s: string, e: string)
    requires |ops| == n + 1 && Comes(Run(ops[..n]), ops[n], w, m)
    ensures Reacted(w, s, e) <==> At(ops, w.id, {Reacting(s, e)})(n) || (Reacted(m, s, e) && !At(ops, w.id, {Unreacting(s, e)} + {Adding})(n))
  {
    hide Accepted, Run, Becomes, GoodMessage, Allows, Reacted;
  }

  // ---------- the order of reactions ----------

  predicate Precedes(m: Message, e: string, s: string, t: string)
  {
    exists p, q :: 0 <= p < q < |Reactors(m, e)| && Reactors(m, e)[p] == s && Reactors(m, e)[q] == t
  }

  /** The reaction was accepted here when the sender was not listed, and has not been taken back. */
  ghost predicate EnteredAt(ops: seq<Op>, id: string, s: string, e: string, i: nat)
  {
    i < |ops| && At(ops, id, {Reacting(s, e)})(i) && !Stands(ops[..i], id, {Reacting(s, e)}, {Unreacting(s, e)})
    && forall j: nat :: i < j < |ops| ==> !At(ops, id, {Unreacting(s, e), Adding})(j)
  }

  lemma PrecedesFrom(h: History, op: Op, w: Message, m: Message, e: string, s: string, t: string)
    requires Inv(h) && m in h.messages && m.id == w.id && w in Apply(h, op).messages && Precedes(w, e, s, t) && s != t
    requires Comes(h, op, w, m)
    ensures Precedes(m, e, s, t) || (Reacted(m, s, e) && !Reacted(m, t, e) && KindOf(op) == Reacting(t, e))
  {
    hide GoodMessage, Becomes, ReactionsBecome, Allows, Accepted, Apply;
    if !op.Add? && op.id == w.id && Accepted(h, op) {
      IsChange(h, op, w, m);
      PrecedesChanged(m, op, e, s, t);
    }
  }

  lemma IsChange(h: History, op: Op, w: Message, m: Message)
    requires Inv(h) && m in h.messages && w in Apply(h, op).messages && m.id == w.id == Target(op) && !op.Add? && Accepted(h, op)
    ensures Change(m, op) == Some(w)
  {
    hide GoodMessage, Allows, Accepted, Change;
    AcceptedOther(h, op);
    var i := Find(h.messages, op.id).value;
    var t := Apply(h, op);
    assert h.messages[i] in h.messages && h.messages[i] == m by {
      var k :| 0 <= k < |h.messages| && h.messages[k] == m;
      assert k == i;
    }
    ChangeIs(m, op);
    SameId(m, op, Change(m, op).value);
    var k :| 0 <= k < |t.messages| && t.messages[k] == w;
    assert k == i;
  }

  lemma PrecedesChanged(m: Message, op: Op, e: string, s: string, t: string)
    requires Change(m, op).Some? && Precedes(Change(m, op).value, e, s, t)
    ensures Precedes(m, e, s, t) || (Reacted(m, s, e) && !Reacted(m, t, e) && KindOf(op) == Reacting(t, e))
  {
    hide Change, Reactors, Precedes;
    var w := Change(m, op).value;
    ReactorsAre(m, op, e);
    if op.React? && op.emoji == e {
      PrecedesAdded(m, w, e, op.sender, s, t);
    } else if op.Unreact? && op.emoji == e {
      var j: nat :| j < |Reactors(m, e)| && Reactors(w, e) == Reactors(m, e)[..j] + Reactors(m, e)[j + 1..];
      PrecedesDropped(m, w, e, j, s, t);
    } else {
      PrecedesSame(m, w, e, s, t);
    }
  }

  lemma ReactorsAre(m: Message, op: Op, e: string)
    requires Change(m, op).Some?
    ensures var xs, ys := Reactors(m, e), Reactors(Change(m, op).value, e);
            if op.React? && op.emoji == e then ys == (if op.sender in xs then xs else xs + [op.sender])
            else if op.Unreact? && op.emoji == e then exists j: nat :: j < |xs| && ys == xs[..j] + xs[j + 1..]
            else ys == xs
  {
    if op.Unreact? && op.emoji == e {
      var j := IndexOf(Reactors(m, e), op.sender).value;
      assert Reactors(Change(m, op).value, e) == Reactors(m, e)[..j] + Reactors(m, e)[j + 1..];
    }
  }

  lemma PrecedesAdded(m: Message, w: Message, e: string, sender: string, s: string, t: string)
    requires Precedes(w, e, s, t) && Reactors(w, e) == if sender in Reactors(m, e) then Reactors(m, e) else Reactors(m, e) + [sender]
    ensures Precedes(m, e, s, t) || (Reacted(m, s, e) && !Reacted(m, t, e) && t == sender)
  {
  }

  lemma PrecedesDropped(m: Message, w: Message, e: string, j: nat, s: string, t: string)
    requires j < |Reactors(m, e)| && Reactors(w, e) == Reactors(m, e)[..j] + Reactors(m, e)[j + 1..] && Precedes(w, e, s, t)
    ensures Precedes(m, e, s, t)
  {
    hide Reactors;
    var xs, ys := Reactors(m, e), Reactors(w, e);
    var p, q :| 0 <= p < q < |ys| && ys[p] == s && ys[q] == t;
    assert xs[if p < j then p else p + 1] == s && xs[if q < j then q else q + 1] == t;
  }

  lemma PrecedesSame(m: Message, w: Message, e: string, s: string, t: string)
    requires Reactors(w, e) == Reactors(m, e) && Precedes(w, e, s, t)
    ensures Precedes(m, e, s, t)
  {
    hide Reactors;
  }

  lemma EnteredNext(ops: seq<Op>, id: string, s: string, e: string, i: nat, n: nat)
    requires |ops| == n + 1 && EnteredAt(ops[..n], id, s, e, i) && !At(ops, id, {Unreacting(s, e), Adding})(n)
    ensures EnteredAt(ops, id, s, e, i)
  {
    hide At, Stands;
    AtBefore(ops, id, {Reacting(s, e)}, n);
    AtBefore(ops, id, {Unreacting(s, e), Adding}, n);
    assert ops[..n][..i] == ops[..i];
  }

  /** Everybody listed has entered the list somewhere in the run. */
  lemma {:induction false} Entered(ops: seq<Op>, w: Message, s: string, e: string) returns (i: nat)
    requires w in Run(ops).messages && Reacted(w, s, e)
    ensures EnteredAt(ops, w.id, s, e, i)
    decreases |ops|
  {
    hide Apply, Inv, Comes, JustAdded, At, Stands, Accepted, Reacted, EnteredAt;
    var n := |ops| - 1;
    var h, op := Run(ops[..n]), ops[n];
    RunKeepsInv(ops[..n]);
    EntryFrom(h, op, w);
    if JustAdded(op, w) && Accepted(h, op) {
      NoReactions(ops, w, n, s, e);
    }
    var m :| Comes(h, op, w, m);
    MemberOf(h, op, w, m);
    if Reacted(m, s, e) {
      var before := Entered(ops[..n], m, s, e);
      i := before;
      NotTaken(ops, w, m, n, s, e);
      EnteredNext(ops, w.id, s, e, i, n);
    } else {
      i := n;
      MarksExactly(ops[..n], m);
      EntersNow(ops, w, m, n, s, e);
    }
  }

  lemma NotTaken(ops: seq<Op>, w: Message, m: Message, n: nat, s: string, e: string)
    requires |ops| == n + 1 && Comes(Run(ops[..n]), ops[n], w, m) && Reacted(w, s, e)
    ensures !At(ops, w.id, {Unreacting(s, e), Adding})(n)
  {
    hide Accepted, Run, Becomes, GoodMessage, Allows, Reacted;
  }

  lemma EntersNow(ops: seq<Op>, w: Message, m: Message, n: nat, s: string, e: string)
    requires |ops| == n + 1 && Comes(Run(ops[..n]), ops[n], w, m) && Reacted(w, s, e) && !Reacted(m, s, e)
    requires !Stands(ops[..n], w.id, {Reacting(s, e)}, {Unreacting(s, e)})
    ensures EnteredAt(ops, w.id, s, e, n)
  {
    hide Accepted, Run, Becomes, GoodMessage, Allows, Reacted, Stands;
    ReactionsKept(ops, w, m, n, s, e);
  }

  /** Over every run, who is listed before another for a reaction has entered the list before. */
  lemma {:induction false} InOrder(ops: seq<Op>, w: Message, e: string, s: string, t: string) returns (i: nat, j: nat)
    requires w in Run(ops).messages && Precedes(w, e, s, t) && s != t
    ensures i < j && EnteredAt(ops, w.id, s, e, i) && EnteredAt(ops, w.id, t, e, j)
    decreases |ops|
  {
    hide Apply, Inv, Comes, JustAdded, At, Stands, Accepted, Reacted, EnteredAt, Precedes;
    var n := |ops| - 1;
    var h, op := Run(ops[..n]), ops[n];
    RunKeepsInv(ops[..n]);
    EntryFrom(h, op, w);
    BothReacted(w, e, s, t);
    if JustAdded(op, w) && Accepted(h, op) {
      NoReactions(ops, w, n, s, e);
    }
    var m :| Comes(h, op, w, m);
    MemberOf(h, op, w, m);
    PrecedesFrom(h, op, w, m, e, s, t);
    NotTaken(ops, w, m, n, s, e);
    if Precedes(m, e, s, t) {
      i, j := InOrder(ops[..n], m, e, s, t);
      NotTaken(ops, w, m, n, t, e);
      EnteredNext(ops, w.id, s, e, i, n);
      EnteredNext(ops, w.id, t, e, j, n);
    } else {
      i := Entered(ops[..n], m, s, e);
      EnteredNext(ops, w.id, s, e, i, n);
      j := n;
      MarksExactly(ops[..n], m);
      EntersNow(ops, w, m, n, t, e);
      Within(ops[..n], w.id, s, e, i);
    }
  }

  lemma Within(ops: seq<Op>, id: string, s: string, e: string, i: nat)
    requires EnteredAt(ops, id, s, e, i)
    ensures i < |ops|
  {
  }

  lemma BothReacted(w: Message, e: string, s: string, t: string)
    requires Precedes(w, e, s, t)
    ensures Reacted(w, s, e) && Reacted(w, t, e)
  {
  }
}
