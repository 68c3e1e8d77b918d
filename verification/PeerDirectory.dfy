/** The directory of Bluetooth peers inside the bridge (bridge.rs), and the commands the bridge sends
    upstream about them; BridgeToHub follows those to the server. */
module PeerDirectory {
  import opened Basics

  // ---------- the directory as a value ----------

  datatype Directory = Directory(names: map<string, string>, nodeOf: map<string, string>)

  const NO_PEERS := Directory(map[], map[])

  function UpsertPeer(d: Directory, node: string, name: string): Directory
  {
    d.(names := d.names[node := name])
  }

  function UpsertSource(d: Directory, source: string, name: string): Directory
  {
    if source == "" then d else UpsertPeer(d, source, name)
  }

  function BindSource(d: Directory, source: string, node: string): Directory
  {
    if source == "" then d else d.(nodeOf := d.nodeOf[source := node])
  }

  function RemovePeer(d: Directory, node: string): Directory
  {
    Directory(d.names - {node}, map s | s in d.nodeOf && d.nodeOf[s] != node :: d.nodeOf[s])
  }

  /** The provisional entry of the source gives way to the node; it is returned if there was one. */
  function PromoteSource(d: Directory, source: string, node: string, name: string): (Directory, Option<string>)
  {
    if source != "" && source != node && source in d.names then
      (UpsertPeer(BindSource(d.(names := d.names - {source}), source, node), node, name), Some(source))
    else
      (UpsertPeer(BindSource(d, source, node), node, name), None)
  }

  function DisconnectSource(d: Directory, source: string): (Directory, seq<string>)
  {
    if source == "" then (d, []) else
    var bound := source in d.nodeOf;
    var first := if bound && d.nodeOf[source] in d.names then [d.nodeOf[source]] else [];
    var names := if bound then d.names - {d.nodeOf[source]} else d.names;
    var second := if source in names then [source] else [];
    (Directory(names - {source}, d.nodeOf - {source}), first + second)
  }

  function ResolveSender(d: Directory, source: string): Option<(string, string)>
  {
    if source != "" && source in d.names then Some((source, d.names[source]))
    else if source != "" && source in d.nodeOf && d.nodeOf[source] in d.names then
      Some((d.nodeOf[source], d.names[d.nodeOf[source]]))
    else if |d.names| == 1 then
      OnlyName(d);
      var id :| id in d.names;
      Some((id, d.names[id]))
    else None
  }

  lemma OnlyName(d: Directory)
    requires |d.names| == 1
    ensures exists id :: id in d.names
    ensures forall x, y :: x in d.names && y in d.names ==> x == y
  {
    var x :| x in d.names.Keys;
    assert |d.names.Keys - {x}| == 0;
  }

  /** Only known ids are resolved, with the names they are known by. */
  lemma ResolvesKnown(d: Directory, source: string)
    ensures match ResolveSender(d, source) case None => true case Some((id, name)) => id in d.names && d.names[id] == name
  {
  }

  /** Right after a hello the source resolves to the node it announced, whatever was known before. */
  lemma PromotedResolves(d: Directory, source: string, node: string, name: string)
    requires source != ""
    ensures ResolveSender(PromoteSource(d, source, node, name).0, source) == Some((node, name))
  {
  }

  // ---------- the bridge's events and its upstream commands ----------

  datatype Command = Register(id: string, name: string) | Unregister(id: string)

  datatype Event =
    | Connected(source: string, name: string)
    | Hello(source: string, node: string, callsign: string)
    | SetName(source: string, name: string)
    | Tick(order: seq<string>)
    | Disconnected(source: string)

  const HELLO_PREFIX := 8

  function Callsign(node: string, callsign: string): string
  {
    if callsign == "" then "node-" + node[..Min(|node|, HELLO_PREFIX)] else callsign
  }

  /** Ids of provisional entries are hardware addresses, which contain colons. */
  predicate IsProvisional(id: string)
  {
    ':' in id
  }

  /** The periodic registrations, in whatever order the map is walked. */
  function Reregister(d: Directory, order: seq<string>): seq<Command>
    decreases |order|
  {
    if order == [] then []
    else (if order[0] in d.names && !IsProvisional(order[0]) then [Register(order[0], d.names[order[0]])] else [])
         + Reregister(d, order[1..])
  }

  function Unregisters(ids: seq<string>): seq<Command>
    decreases |ids|
  {
    if ids == [] then [] else [Unregister(ids[0])] + Unregisters(ids[1..])
  }

  function Step(d: Directory, e: Event): (Directory, seq<Command>)
  {
    match e
    case Connected(source, name) => (UpsertSource(d, source, name), [Register(source, name)])
    case Hello(source, node, callsign) =>
      if node == "" then (d, []) else
      var name := Callsign(node, callsign);
      var (t, provisional) := PromoteSource(d, source, node, name);
      (t, (if provisional.Some? then [Unregister(provisional.value)] else []) + [Register(node, name)])
    case SetName(source, name) =>
      if name == "" then (d, []) else
      (match ResolveSender(d, source)
       case None => (d, [])
       case Some((id, _)) => (UpsertPeer(d, id, name), [Register(id, name)]))
    case Tick(order) => (d, Reregister(d, order))
    case Disconnected(source) =>
      var (t, removed) := DisconnectSource(d, source);
      (t, Unregisters(removed))
  }

  function Run(evs: seq<Event>): Directory
  {
    if evs == [] then NO_PEERS else Step(Run(evs[..|evs| - 1]), evs[|evs| - 1]).0
  }

  function Sent(evs: seq<Event>): seq<Command>
  {
    if evs == [] then [] else Sent(evs[..|evs| - 1]) + Step(Run(evs[..|evs| - 1]), evs[|evs| - 1]).1
  }

  // ---------- the ledger: what has been registered and not unregistered ----------

  function Post(ledger: map<string, string>, c: Command): map<string, string>
  {
    match c
    case Register(id, name) => ledger[id := name]
    case Unregister(id) => ledger - {id}
  }

  function Ledger(ledger: map<string, string>, cs: seq<Command>): map<string, string>
    decreases |cs|
  {
    if cs == [] then ledger else Ledger(Post(ledger, cs[0]), cs[1..])
  }

  lemma {:induction false} LedgerConcat(l: map<string, string>, a: seq<Command>, b: seq<Command>)
    ensures Ledger(l, a + b) == Ledger(Ledger(l, a), b)
    decreases |a|
  {
    if a == [] {
      assert a + b == b;
    } else {
      assert (a + b)[1..] == a[1..] + b;
      LedgerConcat(Post(l, a[0]), a[1..], b);
    }
  }

  lemma {:induction false} ReregisterNeutral(d: Directory, order: seq<string>)
    ensures Ledger(d.names, Reregister(d, order)) == d.names
    decreases |order|
  {
    if order != [] {
      var head := if order[0] in d.names && !IsProvisional(order[0]) then [Register(order[0], d.names[order[0]])] else [];
      LedgerConcat(d.names, head, Reregister(d, order[1..]));
      if head != [] {
        assert d.names[order[0] := d.names[order[0]]] == d.names;
        OnePost(d.names, head[0]);
      }
      ReregisterNeutral(d, order[1..]);
    }
  }

  lemma OnePost(l: map<string, string>, c: Command)
    ensures Ledger(l, [c]) == Post(l, c)
  {
    assert [c][1..] == [];
  }

  lemma {:induction false} UnregistersRemove(l: map<string, string>, ids: seq<string>)
    ensures Ledger(l, Unregisters(ids)) == l - (set x | x in ids)
    decreases |ids|
  {
    if ids != [] {
      assert Unregisters(ids)[1..] == Unregisters(ids[1..]);
      UnregistersRemove(l - {ids[0]}, ids[1..]);
      assert ids == [ids[0]] + ids[1..];
      assert (l - {ids[0]}) - (set x | x in ids[1..]) == l - (set x | x in ids);
    } else {
      assert l - {} == l;
    }
  }

  lemma StepKeepsLedger(d: Directory, e: Event)
    requires e.Connected? ==> e.source != ""
    ensures Ledger(d.names, Step(d, e).1) == Step(d, e).0.names
  {
    match e
    case Connected(source, name) => OnePost(d.names, Register(source, name));
    case Hello(source, node, callsign) =>
      if node != "" {
        var name := Callsign(node, callsign);
        var (t, provisional) := PromoteSource(d, source, node, name);
        if provisional.Some? {
          LedgerConcat(d.names, [Unregister(source)], [Register(node, name)]);
          OnePost(d.names, Unregister(source));
          OnePost(d.names - {source}, Register(node, name));
        } else {
          assert [] + [Register(node, name)] == [Register(node, name)];
          OnePost(d.names, Register(node, name));
        }
      }
    case SetName(source, name) =>
      if name != "" && ResolveSender(d, source).Some? {
        OnePost(d.names, Register(ResolveSender(d, source).value.0, name));
      }
    case Tick(order) => ReregisterNeutral(d, order);
    case Disconnected(source) => DisconnectLedger(d, source);
  }

  lemma DisconnectLedger(d: Directory, source: string)
    ensures var (t, removed) := DisconnectSource(d, source); Ledger(d.names, Unregisters(removed)) == t.names
  {
    var (t, removed) := DisconnectSource(d, source);
    UnregistersRemove(d.names, removed);
    if source == "" {
      assert d.names - (set x | x in removed) == d.names;
    } else {
      forall x ensures x in t.names <==> x in d.names && x !in removed {
      }
      assert t.names == d.names - (set x | x in removed);
    }
  }

  /** No entry has the empty id, and no command unregisters it. */
  lemma StepSparesEmpty(d: Directory, e: Event)
    requires "" !in d.names
    ensures "" !in Step(d, e).0.names && Unregister("") !in Step(d, e).1
    ensures (exists name :: Register("", name) in Step(d, e).1) <==> e.Connected? && e.source == ""
  {
    match e
    case Connected(source, name) => assert Step(d, e).1 == [Register(source, name)];
    case Hello(source, node, callsign) => assert forall name :: Register("", name) !in Step(d, e).1;
    case SetName(source, name) =>
    case Tick(order) => ReregisterSparesEmpty(d, order);
    case Disconnected(source) => UnregistersOnly(DisconnectSource(d, source).1);
  }

  lemma {:induction false} ReregisterSparesEmpty(d: Directory, order: seq<string>)
    requires "" !in d.names
    ensures forall c :: c in Reregister(d, order) ==> c.Register? && c.id != ""
    decreases |order|
  {
    if order != [] { ReregisterSparesEmpty(d, order[1..]); }
  }

  lemma {:induction false} UnregistersOnly(ids: seq<string>)
    ensures forall c :: c in Unregisters(ids) ==> c.Unregister? && c.id in ids
    decreases |ids|
  {
    if ids != [] { UnregistersOnly(ids[1..]); }
  }

  /** Commands act on two ledgers that differ in the empty id alike. */
  lemma {:induction false} LedgerUpToEmpty(l: map<string, string>, m: map<string, string>, cs: seq<Command>)
    requires l - {""} == m - {""} && Unregister("") !in cs
    ensures Ledger(l, cs) - {""} == Ledger(m, cs) - {""}
    ensures "" in Ledger(l, cs) <==> "" in l || exists name :: Register("", name) in cs
    decreases |cs|
  {
    if cs != [] {
      var l1, m1 := Post(l, cs[0]), Post(m, cs[0]);
      PostUpToEmpty(l, m, cs[0]);
      LedgerUpToEmpty(l1, m1, cs[1..]);
      assert cs == [cs[0]] + cs[1..];
      if cs[0].Register? && cs[0].id == "" { assert Register("", cs[0].name) in cs; }
    }
  }

  lemma PostUpToEmpty(l: map<string, string>, m: map<string, string>, c: Command)
    requires l - {""} == m - {""}
    ensures Post(l, c) - {""} == Post(m, c) - {""}
  {
    var a, b := Post(l, c) - {""}, Post(m, c) - {""};
    forall x | x != "" ensures (x in l <==> x in m) && (x in l ==> l[x] == m[x]) {
      assert x in l - {""} <==> x in m - {""};
      assert x in l ==> (l - {""})[x] == (m - {""})[x];
    }
    assert a == b;
  }

  lemma UpToEmpty(l: map<string, string>)
    requires "" !in l
    ensures l - {""} == l
  {
  }

  /** Over every run: up to the empty id, what the bridge has registered upstream and not unregistered
      is exactly what names_by_id holds, names included; and the empty id is registered once a source
      without an id has connected. */
  lemma {:induction false} LedgerAgrees(evs: seq<Event>)
    ensures Ledger(map[], Sent(evs)) - {""} == Run(evs).names
    ensures "" in Ledger(map[], Sent(evs)) <==> exists e :: e in evs && e.Connected? && e.source == ""
    ensures "" !in Run(evs).names
    decreases |evs|
  {
    hide Step, Ledger;
    if evs == [] {
      EmptyLedger();
    } else {
      var before, e := evs[..|evs| - 1], evs[|evs| - 1];
      LedgerAgrees(before);
      var d, l := Run(before), Ledger(map[], Sent(before));
      LedgerConcat(map[], Sent(before), Step(d, e).1);
      StepSparesEmpty(d, e);
      UpToEmpty(d.names);
      LedgerUpToEmpty(l, d.names, Step(d, e).1);
      StepAgrees(d, e);
      assert evs == before + [e];
    }
  }

  lemma EmptyLedger()
    ensures Ledger(map[], []) == map[]
  {
  }

  lemma StepAgrees(d: Directory, e: Event)
    requires "" !in d.names
    ensures Ledger(d.names, Step(d, e).1) - {""} == Step(d, e).0.names
  {
    hide Step, Ledger;
    if e.Connected? && e.source == "" {
      ConnectedNameless(d, e.name);
    } else {
      StepKeepsLedger(d, e);
      StepSparesEmpty(d, e);
      UpToEmpty(Step(d, e).0.names);
    }
  }

  lemma ConnectedNameless(d: Directory, name: string)
    requires "" !in d.names
    ensures Ledger(d.names, Step(d, Connected("", name)).1) - {""} == Step(d, Connected("", name)).0.names
  {
    OnePost(d.names, Register("", name));
  }

  /** So the two agree exactly on the runs in which no source without an id connects. */
  lemma LedgerAgreesExactly(evs: seq<Event>)
    ensures Ledger(map[], Sent(evs)) == Run(evs).names <==> forall e :: e in evs && e.Connected? ==> e.source != ""
  {
    hide Run, Sent, Ledger;
    LedgerAgrees(evs);
    if "" !in Ledger(map[], Sent(evs)) { UpToEmpty(Ledger(map[], Sent(evs))); }
  }

  // ---------- what a disconnect removes ----------

  /** A disconnect removes the source's own entry and the node last bound to it, nothing else. */
  lemma DisconnectRemovesExactly(d: Directory, source: string, id: string)
    requires source != ""
    ensures var t := DisconnectSource(d, source).0;
            id in t.names <==> id in d.names && id != source && (source in d.nodeOf ==> id != d.nodeOf[source])
  {
  }

  /** The ids returned are those removed, each once, and the node comes before the source. */
  lemma RemovedInOrder(d: Directory, source: string, id: string)
    ensures var (t, removed) := DisconnectSource(d, source);
            && (id in removed <==> id in d.names && id !in t.names)
            && |removed| <= 2
            && (|removed| == 2 ==> removed[0] != removed[1] == source && source in d.nodeOf && removed[0] == d.nodeOf[source])
  {
  }

  /** A source that announces a second node leaves the first one registered: the disconnect
      forgets only the last. */
  lemma SecondHelloOrphans(d: Directory, source: string, first: string, second: string, name: string)
    requires source != "" && first != second && source != first && source != second
    ensures var a := PromoteSource(d, source, first, name).0;
            var b := PromoteSource(a, source, second, name).0;
            first in DisconnectSource(b, source).0.names && second !in DisconnectSource(b, source).0.names
  {
  }

  /** Two sources bound to one node: when one disconnects the node is gone, and the other source
      is resolved only if a single, different peer is left. */
  lemma SharedNodeLost(d: Directory, one: string, other: string, node: string)
    requires one != "" && other != "" && one != other && other !in d.names
    requires one in d.nodeOf && other in d.nodeOf && d.nodeOf[one] == d.nodeOf[other] == node
    ensures var t := DisconnectSource(d, one).0;
            node !in t.names && match ResolveSender(t, other) case None => |t.names| != 1 case Some((id, _)) => id != node && |t.names| == 1
  {
    var t := DisconnectSource(d, one).0;
    assert t.nodeOf == d.nodeOf - {one};
    assert node !in t.names && other !in t.names && t.nodeOf[other] == node;
  }

  // ---------- the directory as an object ----------

  class BlePeerDirectory {
    var namesById: map<string, string>
    var sourceToNode: map<string, string>

    function State(): Directory
      reads this
    {
      Directory(namesById, sourceToNode)
    }

    constructor ()
      ensures State() == NO_PEERS
    {
      namesById, sourceToNode := map[], map[];
    }

    method DoUpsertPeer(node: string, name: string)
      modifies this
      ensures State() == UpsertPeer(old(State()), node, name)
    {
      namesById := namesById[node := name];
    }

    method DoUpsertSource(source: string, name: string)
      modifies this
      ensures State() == UpsertSource(old(State()), source, name)
    {
      if source == "" {
        return;
      }
      namesById := namesById[source := name];
    }

    method DoBindSource(source: string, node: string)
      modifies this
      ensures State() == BindSource(old(State()), source, node)
    {
      if source == "" {
        return;
      }
      sourceToNode := sourceToNode[source := node];
    }

    method DoRemovePeer(node: string)
      modifies this
      ensures State() == RemovePeer(old(State()), node)
    {
      namesById := namesById - {node};
      sourceToNode := map s | s in sourceToNode && sourceToNode[s] != node :: sourceToNode[s];
    }

    method DoPromoteSource(source: string, node: string, name: string) returns (provisional: Option<string>)
      modifies this
      ensures (State(), provisional) == PromoteSource(old(State()), source, node, name)
    {
      provisional := None;
      if source != "" && source != node {
        if source in namesById {
          provisional := Some(source);
        }
        namesById := namesById - {source};
      }
      assert provisional.None? ==> namesById == old(namesById);
      DoBindSource(source, node);
      DoUpsertPeer(node, name);
    }

    method DoDisconnectSource(source: string) returns (removed: seq<string>)
      modifies this
      ensures (State(), removed) == DisconnectSource(old(State()), source)
    {
      removed := [];
      if source == "" {
        return;
      }
      if source in sourceToNode {
        var node := sourceToNode[source];
        sourceToNode := sourceToNode - {source};
        if node in namesById {
          removed := removed + [node];
        }
        namesById := namesById - {node};
      }
      if source in namesById {
        namesById := namesById - {source};
        if source !in removed {
          removed := removed + [source];
        }
      }
      assert sourceToNode == old(sourceToNode) - {source};
      assert namesById == DisconnectSource(old(State()), source).0.names;
      assert removed == DisconnectSource(old(State()), source).1;
    }

    method DoResolveSender(source: string) returns (r: Option<(string, string)>)
      ensures r == ResolveSender(State(), source)
    {
      if source != "" {
        if source in namesById {
          return Some((source, namesById[source]));
        }
        if source in sourceToNode {
          var node := sourceToNode[source];
          if node in namesById {
            return Some((node, namesById[node]));
          }
        }
      }
      if |namesById| == 1 {
        OnlyName(State());
        var id :| id in namesById;
        return Some((id, namesById[id]));
      }
      return None;
    }
  }
}
