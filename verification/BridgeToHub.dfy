/** The commands of a bridge, replayed as requests of its client on the hub, among whatever the other
    clients do: what the server then knows of the bridge's directory. */
module BridgeToHub {
  import opened Basics
  import opened HubRoom
  import opened HubState
  import opened HubRuns
  import P = PeerDirectory

  /** A request about a peer: to register it, or to unregister it. */
  datatype Request = Request(register: bool, id: string)

  /** The requests a run of commands stands for; the server ignores those with an empty id. */
  function Wanted(cs: seq<P.Command>): seq<Request>
  {
    if cs == [] then []
    else
      var c := cs[|cs| - 1];
      Wanted(cs[..|cs| - 1]) + (if c.id == "" then [] else [Request(c.Register?, c.id)])
  }

  /** The requests about peers that one client makes among the events of the hub. */
  function Made(es: seq<Event>, c: Client): seq<Request>
  {
    if es == [] then [] else Made(es[..|es| - 1], c) + MadeBy(es[|es| - 1], c)
  }

  function MadeBy(e: Event, c: Client): seq<Request>
  {
    match e
    case RegistersPeer(d, id, _) => if d == c then [Request(true, id)] else []
    case UnregistersPeer(d, id) => if d == c then [Request(false, id)] else []
    case _ => []
  }

  ghost function RunFrom(h: Hub, es: seq<Event>): Hub
  {
    if es == [] then h else
    var g := RunFrom(h, es[..|es| - 1]);
    if Enabled(g, es[|es| - 1]) then Step(g, es[|es| - 1]) else g
  }

  /** Every request of the client about a peer takes place, and the client stays connected. */
  ghost predicate Served(h: Hub, es: seq<Event>, c: Client)
  {
    es == [] ||
    (Served(h, es[..|es| - 1], c)
     && var e := es[|es| - 1];
        e != Disconnected(c) && (MadeBy(e, c) != [] ==> Enabled(RunFrom(h, es[..|es| - 1]), e)))
  }

  /** The ids registered and not unregistered. */
  function Standing(rs: seq<Request>): set<string>
  {
    if rs == [] then {}
    else
      var r := rs[|rs| - 1];
      if r.register then Standing(rs[..|rs| - 1]) + {r.id} else Standing(rs[..|rs| - 1]) - {r.id}
  }

  lemma {:induction false} StandingConcat(rs: seq<Request>, r: Request)
    ensures Standing(rs + [r]) == if r.register then Standing(rs) + {r.id} else Standing(rs) - {r.id}
  {
    assert (rs + [r])[..|rs|] == rs;
  }

  lemma {:induction false} StandingIsLedger(cs: seq<P.Command>)
    ensures Standing(Wanted(cs)) == P.Ledger(map[], cs).Keys - {""}
  {
    if cs != [] {
      var init, c := cs[..|cs| - 1], cs[|cs| - 1];
      assert cs == init + [c];
      StandingIsLedger(init);
      P.LedgerConcat(map[], init, [c]);
      P.OnePost(P.Ledger(map[], init), c);
      if c.id == "" {
        assert Wanted(cs) == Wanted(init);
      } else {
        StandingConcat(Wanted(init), Request(c.Register?, c.id));
      }
    }
  }

  /** What takes peer `x` from the client: another registration by it, a registration of `x` by
      anybody, its own unregistration of `x`, and its disconnect. */
  predicate Loses(e: Event, c: Client, x: string)
  {
    match e
    case RegistersPeer(d, id, _) => d == c || id == x
    case UnregistersPeer(d, id) => d == c && id == x
    case Disconnected(d) => d == c
    case _ => false
  }

  predicate Gains(e: Event, c: Client, x: string)
  {
    e.RegistersPeer? && e.c == c && e.id == x
  }

  /** Where the client registers `x` in the run. */
  ghost function GainsAt(h: Hub, es: seq<Event>, c: Client, x: string): nat -> bool
  {
    (i: nat) => i < |es| && Enabled(RunFrom(h, es[..i]), es[i]) && Gains(es[i], c, x)
  }

  /** Where something takes `x` from the client. */
  ghost function LosesAt(h: Hub, es: seq<Event>, c: Client, x: string): nat -> bool
  {
    (i: nat) => i < |es| && Enabled(RunFrom(h, es[..i]), es[i]) && Loses(es[i], c, x)
  }

  /** The client has registered `x`, and nothing that takes it has happened since. */
  ghost predicate Kept(h: Hub, es: seq<Event>, c: Client, x: string)
  {
    Since(|es|, GainsAt(h, es, c, x), LosesAt(h, es, c, x))
  }

  // ---------- which peers a client has ----------

  /** A client has a peer after an event exactly if the event gave it, or it had the peer and the
      event did not take it. */
  lemma OwnedAfter(h: Hub, e: Event, c: Client, x: string)
    requires (HubInv(h) || MadeBy(e, c) == []) && Enabled(h, e)
    ensures x in OwnedBy(Step(h, e), c) <==> Gains(e, c, x) || (x in OwnedBy(h, c) && !Loses(e, c, x))
  {
    hide Step, HubInv;
    EventPeers(h, e);
    if HubInv(h) { NoNameless(h); }
  }

  lemma NoNameless(h: Hub)
    requires HubInv(h)
    ensures "" !in h.peers
  {
    assert PeersInv(h);
  }

  /** What the server knows of a client's peers is among those it has registered and not
      unregistered. */
  lemma {:induction false} OwnedStands(h: Hub, es: seq<Event>, c: Client)
    requires HubInv(h) && OwnedBy(h, c) == {} && Served(h, es, c)
    ensures HubInv(RunFrom(h, es)) && OwnedBy(RunFrom(h, es), c) <= Standing(Made(es, c))
    decreases |es|
  {
    hide HubInv, Step, Enabled, OwnedBy;
    if es != [] {
      var init, e := es[..|es| - 1], es[|es| - 1];
      OwnedStands(h, init, c);
      var g := RunFrom(h, init);
      if MadeBy(e, c) == [] {
        assert Made(es, c) == Made(init, c);
      } else {
        StandingConcat(Made(init, c), MadeBy(e, c)[0]);
      }
      if Enabled(g, e) {
        StepKeeps(g, e);
        forall x | x in OwnedBy(RunFrom(h, es), c) ensures x in Standing(Made(es, c)) {
          OwnedAfter(g, e, c, x);
        }
      }
    }
  }

  /** Among whatever the other clients do, the server knows exactly the peer that the client has
      registered with nothing taking it since. */
  lemma {:induction false} KnownExactly(h: Hub, es: seq<Event>, c: Client, x: string)
    requires HubInv(h) && OwnedBy(h, c) == {}
    ensures HubInv(RunFrom(h, es))
    ensures x in OwnedBy(RunFrom(h, es), c) <==> Kept(h, es, c, x)
    decreases |es|
  {
    hide HubInv, Step, Enabled, OwnedBy;
    if es != [] {
      var init, e := es[..|es| - 1], es[|es| - 1];
      KnownExactly(h, init, c, x);
      var g := RunFrom(h, init);
      KeptAfter(h, es, c, x, |es| - 1);
      if Enabled(g, e) {
        StepKeeps(g, e);
        OwnedAfter(g, e, c, x);
      }
    }
  }

  lemma KeptAfter(h: Hub, es: seq<Event>, c: Client, x: string, n: nat)
    requires |es| == n + 1
    ensures Kept(h, es, c, x) <==> GainsAt(h, es, c, x)(n) || (Kept(h, es[..n], c, x) && !LosesAt(h, es, c, x)(n))
  {
    hide Enabled, RunFrom, Gains, Loses;
    var init := es[..n];
    forall i: nat | i < n
      ensures GainsAt(h, es, c, x)(i) == GainsAt(h, init, c, x)(i) && LosesAt(h, es, c, x)(i) == LosesAt(h, init, c, x)(i)
    {
      assert init[..i] == es[..i];
    }
    SinceNext(n, GainsAt(h, init, c, x), LosesAt(h, init, c, x), GainsAt(h, es, c, x), LosesAt(h, es, c, x));
  }

  lemma AtMostOne(h: Hub, c: Client)
    requires HubInv(h)
    ensures |OwnedBy(h, c)| <= 1
  {
    hide RoomsInv, IndexInv, MirrorInv;
    var s := OwnedBy(h, c);
    if s != {} {
      var x :| x in s;
      forall y | y in s ensures y == x { }
      assert s == {x};
    }
  }

  /** However the server's other clients act meanwhile: of the peers in the bridge's directory it
      knows at most one, and nothing that is not in the directory. The two agree exactly if the
      directory is empty, or holds one peer and that is the one the bridge registered last, with
      nobody having registered it since. */
  lemma ServerKnowsAtMostOne(evs: seq<P.Event>, h: Hub, es: seq<Event>, c: Client)
    requires HubInv(h) && OwnedBy(h, c) == {} && Served(h, es, c)
    requires Made(es, c) == Wanted(P.Sent(evs))
    ensures var known, names := OwnedBy(RunFrom(h, es), c), P.Run(evs).names.Keys;
            && known <= names && |known| <= 1
            && (known == names <==> names == {} || exists x :: names == {x} && Kept(h, es, c, x))
  {
    hide HubInv, OwnedBy, Served, RunFrom, Made, Standing, Wanted, Kept, P.Run, P.Sent, P.Ledger;
    OwnedStands(h, es, c);
    StandingIsLedger(P.Sent(evs));
    P.LedgerAgrees(evs);
    AtMostOne(RunFrom(h, es), c);
    assert (P.Ledger(map[], P.Sent(evs)) - {""}).Keys == P.Ledger(map[], P.Sent(evs)).Keys - {""};
    var known, names := OwnedBy(RunFrom(h, es), c), P.Run(evs).names.Keys;
    if known == names && names != {} {
      var x :| x in names;
      OnlyMember(known, x);
      KnownExactly(h, es, c, x);
    }
    if x :| names == {x} && Kept(h, es, c, x) {
      KnownExactly(h, es, c, x);
    }
  }

  lemma OnlyMember(s: set<string>, x: string)
    requires x in s && |s| <= 1
    ensures s == {x}
  {
    assert |s - {x}| == |s| - 1;
  }

  /** Two sources connect and the second disconnects: the directory still holds the first, but the
      server, which knew only the second, knows none. */
  lemma LastOneLeaves(h: Hub, c: Client)
    requires HubInv(h) && c in h.clients && OwnedBy(h, c) == {}
    ensures var evs := [P.Connected("a", "A"), P.Connected("b", "B"), P.Disconnected("b")];
            var es := [RegistersPeer(c, "a", []), RegistersPeer(c, "b", ["a"]), UnregistersPeer(c, "b")];
            && Served(h, es, c) && Made(es, c) == Wanted(P.Sent(evs))
            && P.Run(evs).names.Keys == {"a"} && OwnedBy(RunFrom(h, es), c) == {}
  {
    hide HubInv, Step;
    ThreeEvents();
    ThreeRequests(h, c);
  }

  lemma ThreeEvents()
    ensures var evs := [P.Connected("a", "A"), P.Connected("b", "B"), P.Disconnected("b")];
            && P.Run(evs).names.Keys == {"a"}
            && Wanted(P.Sent(evs)) == [Request(true, "a"), Request(true, "b"), Request(false, "b")]
  {
    hide P.Run, P.Sent, P.Step, Wanted;
    var a, b, left := P.Connected("a", "A"), P.Connected("b", "B"), P.Disconnected("b");
    assert [] + [a] == [a] && [a] + [b] == [a, b] && [a, b] + [left] == [a, b, left];
    NothingYet();
    OneCommand([], a, P.NO_PEERS, [], P.Directory(map["a" := "A"], map[]), P.Register("a", "A")) by { FirstJoins(); }
    var both := P.Directory(map["a" := "A", "b" := "B"], map[]);
    OneCommand([a], b, P.Directory(map["a" := "A"], map[]), [Request(true, "a")], both, P.Register("b", "B")) by { SecondJoins(); }
    OneCommand([a, b], left, both, [Request(true, "a"), Request(true, "b")], P.Directory(map["a" := "A"], map[]), P.Unregister("b"))
      by { SecondLeaves(); }
  }

  lemma NothingYet()
    ensures P.Run([]) == P.NO_PEERS && Wanted(P.Sent([])) == []
  {
  }

  lemma FirstJoins()
    ensures P.Step(P.NO_PEERS, P.Connected("a", "A")) == (P.Directory(map["a" := "A"], map[]), [P.Register("a", "A")])
  {
  }

  lemma SecondJoins()
    ensures P.Step(P.Directory(map["a" := "A"], map[]), P.Connected("b", "B"))
         == (P.Directory(map["a" := "A", "b" := "B"], map[]), [P.Register("b", "B")])
  {
  }

  lemma SecondLeaves()
    ensures P.Step(P.Directory(map["a" := "A", "b" := "B"], map[]), P.Disconnected("b"))
         == (P.Directory(map["a" := "A"], map[]), [P.Unregister("b")])
  {
    var d := P.Directory(map["a" := "A", "b" := "B"], map[]);
    assert d.names - {"b"} == map["a" := "A"] && d.nodeOf - {"b"} == map[] && [] + ["b"] == ["b"];
    assert P.DisconnectSource(d, "b") == (P.Directory(map["a" := "A"], map[]), ["b"]);
    assert ["b"][1..] == [] && P.Unregisters(["b"]) == [P.Unregister("b")];
    assert P.Step(d, P.Disconnected("b")).1 == P.Unregisters(P.DisconnectSource(d, "b").1);
  }

  lemma OneCommand(evs: seq<P.Event>, e: P.Event, d: P.Directory, rs: seq<Request>, t: P.Directory, c: P.Command)
    requires P.Run(evs) == d && Wanted(P.Sent(evs)) == rs && P.Step(d, e) == (t, [c]) && c.id != ""
    ensures P.Run(evs + [e]) == t && Wanted(P.Sent(evs + [e])) == rs + [Request(c.Register?, c.id)]
  {
    hide P.Step;
    assert (evs + [e])[..|evs|] == evs;
    assert P.Sent(evs + [e]) == P.Sent(evs) + [c];
    assert (P.Sent(evs) + [c])[..|P.Sent(evs)|] == P.Sent(evs);
  }

  lemma ThreeRequests(h: Hub, c: Client)
    requires HubInv(h) && c in h.clients && OwnedBy(h, c) == {}
    ensures var es := [RegistersPeer(c, "a", []), RegistersPeer(c, "b", ["a"]), UnregistersPeer(c, "b")];
            && Served(h, es, c) && OwnedBy(RunFrom(h, es), c) == {}
            && Made(es, c) == [Request(true, "a"), Request(true, "b"), Request(false, "b")]
  {
    hide HubInv, Step, Enabled, OwnedBy, Served, RunFrom, Made;
    var a, b, u := RegistersPeer(c, "a", []), RegistersPeer(c, "b", ["a"]), UnregistersPeer(c, "b");
    assert [a] + [b] == [a, b] && [a, b] + [u] == [a, b, u] && [] + [a] == [a];
    Registered(h, c, "a", []);
    Begin(h, c);
    OneMore(h, [], c, a);
    var g := Step(h, a);
    Registered(g, c, "b", ["a"]);
    OneMore(h, [a], c, b);
    var t := Step(g, b);
    Unregistered(t, c, "b");
    OneMore(h, [a, b], c, u);
  }

  lemma Begin(h: Hub, c: Client)
    ensures Served(h, [], c) && RunFrom(h, []) == h && Made([], c) == []
  {
  }

  lemma OneMore(h: Hub, es: seq<Event>, c: Client, e: Event)
    requires Served(h, es, c) && e != Disconnected(c) && Enabled(RunFrom(h, es), e)
    ensures Served(h, es + [e], c) && RunFrom(h, es + [e]) == Step(RunFrom(h, es), e) && Made(es + [e], c) == Made(es, c) + MadeBy(e, c)
  {
    hide Step, Enabled;
    assert (es + [e])[..|es|] == es;
  }

  lemma Unregistered(t: Hub, c: Client, id: string)
    requires HubInv(t) && c in t.clients && OwnedBy(t, c) == {id}
    ensures var u := UnregistersPeer(c, id); Enabled(t, u) && OwnedBy(Step(t, u), c) == {}
  {
    hide HubInv, Step, OwnedBy;
    var u := UnregistersPeer(c, id);
    forall x ensures x !in OwnedBy(Step(t, u), c) { OwnedAfter(t, u, c, x); }
  }

  /** A registration with the right order of the client's other peers takes place. */
  lemma Registered(h: Hub, c: Client, id: string, order: seq<string>)
    requires HubInv(h) && c in h.clients && id != "" && id !in order && OwnedBy(h, c) == Members(order)
    ensures var e := RegistersPeer(c, id, order); var t := Step(h, e);
            Enabled(h, e) && HubInv(t) && c in t.clients && OwnedBy(t, c) == {id}
  {
    hide HubInv, RegisterPeer;
    var e := RegistersPeer(c, id, order);
    assert forall x :: x in StalePeers(h, c, id) <==> x in OwnedBy(h, c) && x != id;
    StepKeeps(h, e);
    RegisterOwns(h, c, id, order);
    assert RegisterPeer(h, c, id, order).clients == h.clients by { KeepsClients(h, c, id, order); }
  }

  lemma KeepsClients(h: Hub, c: Client, id: string, order: seq<string>)
    ensures RegisterPeer(h, c, id, order).clients == h.clients
  {
    hide PromoteEach, RoomsOf;
  }

  /** What was registered last (HubRuns.RegisterOwns) stays known to the server under every event
      of others but one: another client registers the same id. */
  lemma KnownUntilTaken(t: Hub, e: Event, c: Client, id: string)
    requires OwnedBy(t, c) == {id} && MadeBy(e, c) == [] && e != Disconnected(c) && Enabled(t, e)
    ensures OwnedBy(Step(t, e), c) == {id} <==> !(e.RegistersPeer? && e.id == id)
  {
    hide Step, OwnedBy;
    OwnedAfter(t, e, c, id);
    forall x | x != id ensures x !in OwnedBy(Step(t, e), c) {
      OwnedAfter(t, e, c, x);
    }
  }
}
