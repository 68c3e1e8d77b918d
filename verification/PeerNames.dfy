/** Who speaks for whom, and by which names the directory knows its peers: the names that connecting, a
    hello or a change of name gave them last. */
module PeerNames {
  import opened Basics
  import opened PeerDirectory
  import opened OrphanPeers

  /** Whom a packet from `source` is attributed to: the source itself if it has an entry, else the node it
      is bound to if that has one, else the only peer there is. */
  predicate SpeaksFor(d: Directory, source: string, id: string)
  {
    id in d.names
    && if source != "" && source in d.names then id == source
       else if source != "" && source in d.nodeOf && d.nodeOf[source] in d.names then id == d.nodeOf[source]
       else d.names.Keys == {id}
  }

  lemma ResolvesExactly(d: Directory, source: string, id: string, name: string)
    ensures ResolveSender(d, source) == Some((id, name)) <==> SpeaksFor(d, source, id) && d.names[id] == name
  {
    assert d.names.Keys == {id} ==> |d.names.Keys| == 1;
    if |d.names| == 1 {
      OnlyName(d);
      var x :| x in d.names;
      assert d.names.Keys == {x};
    }
  }

  /** The periodic registrations are those of all peers walked that are known under a node id. */
  lemma {:induction false} TickExactly(d: Directory, order: seq<string>, c: Command)
    ensures c in Step(d, Tick(order)).1 <==>
            c.Register? && c.id in order && c.id in d.names && ':' !in c.id && c.name == d.names[c.id]
    decreases |order|
  {
    if order != [] {
      TickExactly(d, order[1..], c);
      assert order == [order[0]] + order[1..];
    }
  }

  /** The name an event gives to a peer. */
  function Gives(d: Directory, e: Event, id: string): Option<string>
  {
    match e
    case Connected(source, name) => if id == source != "" then Some(name) else None
    case Hello(_, node, callsign) =>
      if id != node || node == "" then None
      else if callsign != "" then Some(callsign)
      else Some("node-" + node[..Min(8, |node|)])
    case SetName(source, name) => if name != "" && SpeaksFor(d, source, id) then Some(name) else None
    case _ => None
  }

  /** The event takes the peer out of the directory. */
  predicate TakesOut(d: Directory, e: Event, id: string)
  {
    match e
    case Hello(source, node, _) => node != "" && id == source != node
    case Disconnected(source) => source != "" && (id == source || Bound(d, source, id))
    case _ => false
  }

  predicate NamedAs(d: Directory, id: string, name: string)
  {
    id in d.names && d.names[id] == name
  }

  lemma NameAfter(d: Directory, e: Event, id: string, name: string)
    requires "" !in d.names
    ensures NamedAs(Step(d, e).0, id, name)
       <==> Gives(d, e, id) == Some(name) || (NamedAs(d, id, name) && Gives(d, e, id).None? && !TakesOut(d, e, id))
  {
    match e
    case SetName(source, given) =>
      if given != "" {
        match ResolveSender(d, source)
        case None =>
          if SpeaksFor(d, source, id) { ResolvesExactly(d, source, id, d.names[id]); }
        case Some((who, former)) =>
          ResolvesExactly(d, source, who, former);
          if SpeaksFor(d, source, id) { ResolvesExactly(d, source, id, d.names[id]); }
      }
    case Disconnected(source) =>
      if source != "" { DisconnectRemovesExactly(d, source, id); }
    case _ =>
  }

  ghost function GivesAt(evs: seq<Event>, id: string, name: string): nat -> bool
  {
    (i: nat) => i < |evs| && Gives(Run(evs[..i]), evs[i], id) == Some(name)
  }

  ghost function RenamesAt(evs: seq<Event>, id: string): nat -> bool
  {
    (i: nat) => i < |evs| && (Gives(Run(evs[..i]), evs[i], id).Some? || TakesOut(Run(evs[..i]), evs[i], id))
  }

  /** Over every run, a peer is in the directory under a name exactly if some event gave it that name, and
      none since has given it another or taken it out. */
  lemma {:induction false} NamesExactly(evs: seq<Event>, id: string, name: string)
    ensures "" !in Run(evs).names
    ensures NamedAs(Run(evs), id, name) <==> Since(|evs|, GivesAt(evs, id, name), RenamesAt(evs, id))
    decreases |evs|
  {
    hide Step, Gives, TakesOut;
    if evs != [] {
      var n := |evs| - 1;
      NamesExactly(evs[..n], id, name);
      NameAfter(Run(evs[..n]), evs[n], id, name);
      StepSparesEmpty(Run(evs[..n]), evs[n]);
      GivenNext(evs, id, name, n);
    }
  }

  lemma GivenNext(evs: seq<Event>, id: string, name: string, n: nat)
    requires |evs| == n + 1
    ensures Since(n + 1, GivesAt(evs, id, name), RenamesAt(evs, id))
       <==> GivesAt(evs, id, name)(n) || (Since(n, GivesAt(evs[..n], id, name), RenamesAt(evs[..n], id)) && !RenamesAt(evs, id)(n))
  {
    hide Run, Gives, TakesOut;
    var init := evs[..n];
    forall i: nat | i < n
      ensures GivesAt(evs, id, name)(i) == GivesAt(init, id, name)(i) && RenamesAt(evs, id)(i) == RenamesAt(init, id)(i)
    {
      assert init[..i] == evs[..i];
    }
    SinceNext(n, GivesAt(init, id, name), RenamesAt(init, id), GivesAt(evs, id, name), RenamesAt(evs, id));
  }
}
