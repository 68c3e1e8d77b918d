/** Entries of the directory that no connected source stands behind any more: when a run has one. */
module OrphanPeers {
  import opened Basics
  import opened PeerDirectory

  /** The sources that have connected and not disconnected since. */
  function LiveAfter(live: set<string>, e: Event): set<string>
  {
    match e
    case Connected(source, _) => if source == "" then live else live + {source}
    case Disconnected(source) => live - {source}
    case _ => live
  }

  function Live(evs: seq<Event>): set<string>
  {
    if evs == [] then {} else LiveAfter(Live(evs[..|evs| - 1]), evs[|evs| - 1])
  }

  predicate Bound(d: Directory, source: string, id: string)
  {
    source in d.nodeOf && d.nodeOf[source] == id
  }

  /** A connected source other than `but` is bound to `id`, or is `id` itself. */
  ghost predicate Backed(d: Directory, live: set<string>, id: string, but: Option<string>)
  {
    id in live || exists s :: s in live && Some(s) != but && Bound(d, s, id)
  }

  ghost predicate Orphan(d: Directory, live: set<string>, id: string)
  {
    id in d.names && !Backed(d, live, id, None)
  }

  /** A hello leaves an entry behind: the source was the only one connected behind it and announces
      another node, or the source is not connected and nor is any other behind the node it announces. */
  ghost predicate Leaves(d: Directory, live: set<string>, e: Event, id: string)
  {
    e.Hello? && e.node != ""
    && if id == e.node then e.source !in live && !Backed(d, live, id, None)
       else id in d.names && e.source in live && Bound(d, e.source, id) && !Backed(d, live, id, Some(e.source))
  }

  /** An entry left behind is taken out, or a connected source stands behind it again. */
  predicate Ends(d: Directory, live: set<string>, e: Event, id: string)
  {
    match e
    case Connected(source, _) => source != "" && (id == source || Bound(d, source, id))
    case Hello(source, node, _) => node != "" && if id == node then source in live else id == source
    case Disconnected(source) => id == source || Bound(d, source, id)
    case _ => false
  }

  predicate NoNameless(d: Directory, live: set<string>)
  {
    "" !in d.names && "" !in d.nodeOf && "" !in live
  }

  lemma OrphanAfter(d: Directory, live: set<string>, e: Event, id: string)
    requires NoNameless(d, live)
    ensures NoNameless(Step(d, e).0, LiveAfter(live, e))
    ensures Orphan(Step(d, e).0, LiveAfter(live, e), id)
       <==> Leaves(d, live, e, id) || (Orphan(d, live, id) && !Ends(d, live, e, id))
  {
    match e
    case Connected(source, name) => ConnectedOrphan(d, live, source, name, id);
    case Hello(source, node, callsign) => HelloOrphan(d, live, source, node, callsign, id);
    case SetName(source, name) => ResolvesKnown(d, source);
    case Tick(order) =>
    case Disconnected(source) => DisconnectedOrphan(d, live, source, id);
  }

  lemma ConnectedOrphan(d: Directory, live: set<string>, source: string, name: string, id: string)
    requires NoNameless(d, live)
    ensures var e := Connected(source, name);
            Orphan(Step(d, e).0, LiveAfter(live, e), id) <==> Orphan(d, live, id) && !Ends(d, live, e, id)
  {
    if source != "" {
      var t, now := UpsertSource(d, source, name), live + {source};
      assert Backed(t, now, id, None) <==> Backed(d, live, id, None) || id == source || Bound(d, source, id) by {
        if Bound(d, source, id) { assert Bound(t, source, id); }
        if s :| s in live && Bound(d, s, id) { assert Bound(t, s, id); }
        if s :| s in now && Bound(t, s, id) { assert Bound(d, s, id); }
      }
    }
  }

  lemma DisconnectedOrphan(d: Directory, live: set<string>, source: string, id: string)
    requires NoNameless(d, live)
    ensures var e := Disconnected(source);
            Orphan(Step(d, e).0, LiveAfter(live, e), id) <==> Orphan(d, live, id) && !Ends(d, live, e, id)
  {
    if source != "" {
      DisconnectRemovesExactly(d, source, id);
      var t, now := DisconnectSource(d, source).0, live - {source};
      if id != source && !Bound(d, source, id) {
        assert Backed(t, now, id, None) <==> Backed(d, live, id, None) by {
          if s :| s in live && Bound(d, s, id) { assert Bound(t, s, id); }
          if s :| s in now && Bound(t, s, id) { assert Bound(d, s, id); }
        }
      }
    }
  }

  lemma HelloOrphan(d: Directory, live: set<string>, source: string, node: string, callsign: string, id: string)
    requires NoNameless(d, live)
    ensures var e := Hello(source, node, callsign);
            (Orphan(Step(d, e).0, LiveAfter(live, e), id)
             <==> Leaves(d, live, e, id) || (Orphan(d, live, id) && !Ends(d, live, e, id)))
  {
    if node != "" {
      var t := PromoteSource(d, source, node, Callsign(node, callsign)).0;
      HelloBacked(d, live, source, node, Callsign(node, callsign), id);
      assert id in t.names <==> id == node || (id in d.names && id != source);
    }
  }

  /** After a hello: the source stands behind the node it announced, and no longer behind another. */
  lemma HelloBacked(d: Directory, live: set<string>, source: string, node: string, name: string, id: string)
    requires NoNameless(d, live)
    ensures Backed(PromoteSource(d, source, node, name).0, live, id, None)
       <==> Backed(d, live, id, Some(source)) || (id == node && source in live)
  {
    var t := PromoteSource(d, source, node, name).0;
    if source in live { assert Bound(t, source, node); }
    if s :| s in live && s != source && Bound(d, s, id) { assert Bound(t, s, id); }
    if s :| s in live && Bound(t, s, id) && s != source { assert Bound(d, s, id); }
  }

  ghost function LeavesAt(evs: seq<Event>, id: string): nat -> bool
  {
    (i: nat) => i < |evs| && Leaves(Run(evs[..i]), Live(evs[..i]), evs[i], id)
  }

  ghost function EndsAt(evs: seq<Event>, id: string): nat -> bool
  {
    (i: nat) => i < |evs| && Ends(Run(evs[..i]), Live(evs[..i]), evs[i], id)
  }

  /** Over every run: an entry is in the directory with no connected source behind it exactly if some
      hello left it behind and nothing has ended that since. */
  lemma {:induction false} OrphanExactly(evs: seq<Event>, id: string)
    ensures NoNameless(Run(evs), Live(evs))
    ensures Orphan(Run(evs), Live(evs), id) <==> Since(|evs|, LeavesAt(evs, id), EndsAt(evs, id))
    decreases |evs|
  {
    hide Step, LiveAfter, Orphan, Leaves, Ends;
    if evs == [] {
      assert !Orphan(NO_PEERS, {}, id) by { NoneAtFirst(id); }
    } else {
      var n := |evs| - 1;
      OrphanExactly(evs[..n], id);
      OrphanAfter(Run(evs[..n]), Live(evs[..n]), evs[n], id);
      LeftAfter(evs, id, n);
    }
  }

  lemma NoneAtFirst(id: string)
    ensures !Orphan(NO_PEERS, {}, id)
  {
  }

  lemma LeftAfter(evs: seq<Event>, id: string, n: nat)
    requires |evs| == n + 1
    ensures Since(n + 1, LeavesAt(evs, id), EndsAt(evs, id))
       <==> Leaves(Run(evs[..n]), Live(evs[..n]), evs[n], id)
            || (Since(n, LeavesAt(evs[..n], id), EndsAt(evs[..n], id)) && !Ends(Run(evs[..n]), Live(evs[..n]), evs[n], id))
  {
    hide Run, Live, Leaves, Ends;
    var init := evs[..n];
    forall i: nat | i < n
      ensures LeavesAt(evs, id)(i) == LeavesAt(init, id)(i) && EndsAt(evs, id)(i) == EndsAt(init, id)(i)
    {
      assert init[..i] == evs[..i];
    }
    SinceNext(n, LeavesAt(init, id), EndsAt(init, id), LeavesAt(evs, id), EndsAt(evs, id));
  }

  // ---------- sources whose node is gone ----------

  /** The source is bound to a node that the directory does not hold. */
  predicate Unheld(d: Directory, source: string)
  {
    source in d.nodeOf && d.nodeOf[source] !in d.names
  }

  /** Another source takes the node out: by disconnecting, as its own id or as the node it is bound
      to too, or by announcing another node when the entry is its own. */
  predicate Drops(d: Directory, e: Event, source: string)
  {
    source in d.nodeOf && d.nodeOf[source] in d.names
    && match e
       case Hello(other, node, _) => other != source && node != "" && d.nodeOf[source] == other != node
       case Disconnected(other) => other != source && (d.nodeOf[source] == other || Bound(d, other, d.nodeOf[source]))
       case _ => false
  }

  /** The node enters the directory again, or the source is bound anew or disconnects. */
  predicate Restores(d: Directory, e: Event, source: string)
  {
    match e
    case Connected(other, _) => Bound(d, source, other)
    case Hello(other, node, _) => node != "" && (other == source || Bound(d, source, node))
    case Disconnected(other) => other == source
    case _ => false
  }

  lemma UnheldAfter(d: Directory, e: Event, source: string)
    requires "" !in d.names && "" !in d.nodeOf && "" !in d.nodeOf.Values
    ensures var t := Step(d, e).0;
            && "" !in t.names && "" !in t.nodeOf && "" !in t.nodeOf.Values
            && (Unheld(t, source) <==> Drops(d, e, source) || (Unheld(d, source) && !Restores(d, e, source)))
  {
    match e
    case Connected(other, name) =>
    case Hello(other, node, callsign) => HelloUnheld(d, other, node, callsign, source);
    case SetName(other, name) => ResolvesKnown(d, other);
    case Tick(order) =>
    case Disconnected(other) => DisconnectedUnheld(d, other, source);
  }

  lemma HelloUnheld(d: Directory, other: string, node: string, callsign: string, source: string)
    requires "" !in d.names && "" !in d.nodeOf && "" !in d.nodeOf.Values
    ensures var e := Hello(other, node, callsign); var t := Step(d, e).0;
            && "" !in t.names && "" !in t.nodeOf && "" !in t.nodeOf.Values
            && (Unheld(t, source) <==> Drops(d, e, source) || (Unheld(d, source) && !Restores(d, e, source)))
  {
    if node != "" {
      var t := PromoteSource(d, other, node, Callsign(node, callsign)).0;
      assert forall x :: x in t.names <==> x == node || (x in d.names && x != other);
      assert t.nodeOf == if other == "" then d.nodeOf else d.nodeOf[other := node];
    }
  }

  lemma DisconnectedUnheld(d: Directory, other: string, source: string)
    requires "" !in d.names && "" !in d.nodeOf && "" !in d.nodeOf.Values
    ensures var e := Disconnected(other); var t := Step(d, e).0;
            && "" !in t.names && "" !in t.nodeOf && "" !in t.nodeOf.Values
            && (Unheld(t, source) <==> Drops(d, e, source) || (Unheld(d, source) && !Restores(d, e, source)))
  {
    if other != "" {
      var t := DisconnectSource(d, other).0;
      if source in d.nodeOf { DisconnectRemovesExactly(d, other, d.nodeOf[source]); }
      assert t.nodeOf == d.nodeOf - {other};
    }
  }

  ghost function DropsAt(evs: seq<Event>, source: string): nat -> bool
  {
    (i: nat) => i < |evs| && Drops(Run(evs[..i]), evs[i], source)
  }

  ghost function RestoresAt(evs: seq<Event>, source: string): nat -> bool
  {
    (i: nat) => i < |evs| && Restores(Run(evs[..i]), evs[i], source)
  }

  /** Over every run: a source is bound to a node that is not in the directory exactly if another
      source took it out and nothing has restored it since. */
  lemma {:induction false} UnheldExactly(evs: seq<Event>, source: string)
    ensures var d := Run(evs); "" !in d.names && "" !in d.nodeOf && "" !in d.nodeOf.Values
    ensures Unheld(Run(evs), source) <==> Since(|evs|, DropsAt(evs, source), RestoresAt(evs, source))
    decreases |evs|
  {
    hide Step, Drops, Restores;
    if evs != [] {
      var n := |evs| - 1;
      UnheldExactly(evs[..n], source);
      UnheldAfter(Run(evs[..n]), evs[n], source);
      TakenAfter(evs, source, n);
    }
  }

  lemma TakenAfter(evs: seq<Event>, source: string, n: nat)
    requires |evs| == n + 1
    ensures Since(n + 1, DropsAt(evs, source), RestoresAt(evs, source))
       <==> Drops(Run(evs[..n]), evs[n], source)
            || (Since(n, DropsAt(evs[..n], source), RestoresAt(evs[..n], source)) && !Restores(Run(evs[..n]), evs[n], source))
  {
    hide Run, Drops, Restores;
    var init := evs[..n];
    forall i: nat | i < n
      ensures DropsAt(evs, source)(i) == DropsAt(init, source)(i) && RestoresAt(evs, source)(i) == RestoresAt(init, source)(i)
    {
      assert init[..i] == evs[..i];
    }
    SinceNext(n, DropsAt(init, source), RestoresAt(init, source), DropsAt(evs, source), RestoresAt(evs, source));
  }
}
