/** The list of mesh peers a client is shown: one entry per peer, over its best transport
    (deduplicatePeers in hub.go). */
module PeerList {
  datatype MeshPeer = MeshPeer(id: string, transport: string, details: nat)

  function TransportPriority(transport: string, preferred: string): nat
  {
    if transport == preferred then 0
    else if transport == "tcp" then 1
    else if transport == "wifi-direct" then 2
    else if transport == "btle" then 3
    else 4
  }

  /** Is `t` a better way to reach a peer than `u`? The preferred transport is the best, then come tcp,
      wifi-direct and btle in this order, and any other one last. */
  predicate Better(t: string, u: string, preferred: string)
  {
    u != preferred
    && (t == preferred
        || (t == "tcp" && u != "tcp")
        || (t == "wifi-direct" && u !in {"tcp", "wifi-direct"})
        || (t == "btle" && u !in {"tcp", "wifi-direct", "btle"}))
  }

  lemma PriorityExactly(t: string, u: string, preferred: string)
    ensures TransportPriority(t, preferred) < TransportPriority(u, preferred) <==> Better(t, u, preferred)
  {
  }

  /** Entry `i` is the one to show for its peer: no entry of the peer has a better transport, and
      no earlier one an equally good one. */
  ghost predicate IsBest(peers: seq<MeshPeer>, preferred: string, i: nat)
    requires i < |peers|
  {
    forall j :: 0 <= j < |peers| && peers[j].id == peers[i].id ==>
      var pi, pj := TransportPriority(peers[i].transport, preferred), TransportPriority(peers[j].transport, preferred);
      pi < pj || (pi == pj && i <= j)
  }

  ghost predicate Chosen(peers: seq<MeshPeer>, preferred: string, p: MeshPeer)
  {
    exists i :: 0 <= i < |peers| && peers[i] == p && IsBest(peers, preferred, i)
  }

  lemma ChosenGrows(peers: seq<MeshPeer>, preferred: string, q: MeshPeer, p: MeshPeer)
    requires Chosen(peers, preferred, p)
    requires p.id == q.id ==> TransportPriority(p.transport, preferred) <= TransportPriority(q.transport, preferred)
    ensures Chosen(peers + [q], preferred, p)
  {
    var i :| 0 <= i < |peers| && peers[i] == p && IsBest(peers, preferred, i);
    assert IsBest(peers + [q], preferred, i);
  }

  lemma ChosenIsLeast(peers: seq<MeshPeer>, preferred: string, p: MeshPeer, r: MeshPeer)
    requires Chosen(peers, preferred, p) && r in peers && r.id == p.id
    ensures TransportPriority(p.transport, preferred) <= TransportPriority(r.transport, preferred)
  {
    var j :| 0 <= j < |peers| && peers[j] == r;
  }

  lemma NewIsChosen(peers: seq<MeshPeer>, preferred: string, q: MeshPeer)
    requires forall r :: r in peers && r.id == q.id ==>
               TransportPriority(q.transport, preferred) < TransportPriority(r.transport, preferred)
    ensures Chosen(peers + [q], preferred, q)
  {
    var all := peers + [q];
    forall j | 0 <= j < |all| && all[j].id == q.id
      ensures j == |peers| || TransportPriority(q.transport, preferred) < TransportPriority(all[j].transport, preferred)
    {
      assert j < |peers| ==> all[j] in peers;
    }
    assert IsBest(all, preferred, |peers|);
  }

  /** An entry is shown exactly if no entry of its peer has a better transport and none before it
      is as good. */
  lemma ShownExactly(peers: seq<MeshPeer>, preferred: string, p: MeshPeer)
    ensures Chosen(peers, preferred, p) <==>
            exists i :: 0 <= i < |peers| && peers[i] == p && BestByTransport(peers, preferred, i)
  {
    hide TransportPriority, Better;
    forall t, u ensures TransportPriority(t, preferred) < TransportPriority(u, preferred) <==> Better(t, u, preferred) {
      PriorityExactly(t, u, preferred);
    }
    forall i: nat | i < |peers| ensures IsBest(peers, preferred, i) <==> BestByTransport(peers, preferred, i) {
    }
  }

  ghost predicate BestByTransport(peers: seq<MeshPeer>, preferred: string, i: nat)
    requires i < |peers|
  {
    forall j :: 0 <= j < |peers| && peers[j].id == peers[i].id ==>
      !Better(peers[j].transport, peers[i].transport, preferred)
      && (j < i ==> Better(peers[i].transport, peers[j].transport, preferred))
  }

  /** Any two best entries of a peer are the same entry of the list. */
  lemma ChosenIsUnique(peers: seq<MeshPeer>, preferred: string, p: MeshPeer, q: MeshPeer)
    requires Chosen(peers, preferred, p) && Chosen(peers, preferred, q) && p.id == q.id
    ensures p == q
  {
    var i :| 0 <= i < |peers| && peers[i] == p && IsBest(peers, preferred, i);
    var j :| 0 <= j < |peers| && peers[j] == q && IsBest(peers, preferred, j);
    assert i <= j && j <= i;
  }

  /** The first loop: the best entry of every peer. */
  method BestEntries(peers: seq<MeshPeer>, preferred: string) returns (best: map<string, MeshPeer>)
    ensures forall p :: p in peers ==> p.id in best
    ensures forall x :: x in best ==> best[x].id == x && Chosen(peers, preferred, best[x])
  {
    hide TransportPriority, Chosen;
    best := map[];
    var bestPrio: map<string, nat> := map[];
    for n := 0 to |peers|
      invariant best.Keys == bestPrio.Keys
      invariant forall p :: p in peers[..n] ==> p.id in best
      invariant forall x :: x in best ==> best[x].id == x && Chosen(peers[..n], preferred, best[x])
      invariant forall x :: x in best ==> bestPrio[x] == TransportPriority(best[x].transport, preferred)
    {
      var p := peers[n];
      var prio := TransportPriority(p.transport, preferred);
      ghost var before := best;
      assert peers[..n + 1] == peers[..n] + [p];
      if p.id !in bestPrio || prio < bestPrio[p.id] {
        forall r | r in peers[..n] && r.id == p.id ensures prio < TransportPriority(r.transport, preferred) {
          ChosenIsLeast(peers[..n], preferred, best[p.id], r);
        }
        NewIsChosen(peers[..n], preferred, p);
        best := best[p.id := p];
        bestPrio := bestPrio[p.id := prio];
      } else {
        ChosenGrows(peers[..n], preferred, p, best[p.id]);
      }
      forall x | x in best && x != p.id ensures Chosen(peers[..n + 1], preferred, best[x]) {
        ChosenGrows(peers[..n], preferred, p, before[x]);
      }
    }
    assert peers[..|peers|] == peers;
  }

  /** The result comes in any order, since it is read off a map. */
  method DeduplicatePeers(peers: seq<MeshPeer>, preferred: string) returns (result: seq<MeshPeer>)
    ensures forall k, l :: 0 <= k < l < |result| ==> result[k].id != result[l].id
    ensures forall p :: p in result <==> Chosen(peers, preferred, p)
    ensures forall p :: p in peers ==> exists q :: q in result && q.id == p.id
  {
    var best := BestEntries(peers, preferred);
    result := [];
    var ids := best.Keys;
    while ids != {}
      invariant ids <= best.Keys
      invariant forall k, l :: 0 <= k < l < |result| ==> result[k].id != result[l].id
      invariant forall p :: p in result <==> p.id in best && p.id !in ids && best[p.id] == p
    {
      var id :| id in ids;
      ids := ids - {id};
      result := result + [best[id]];
    }
    AllOfThem(peers, preferred, best, result);
  }

  lemma AllOfThem(peers: seq<MeshPeer>, preferred: string, best: map<string, MeshPeer>, result: seq<MeshPeer>)
    requires forall p :: p in peers ==> p.id in best
    requires forall x :: x in best ==> best[x].id == x && Chosen(peers, preferred, best[x])
    requires forall p :: p in result <==> p.id in best && best[p.id] == p
    ensures forall p :: p in result <==> Chosen(peers, preferred, p)
    ensures forall p :: p in peers ==> exists q :: q in result && q.id == p.id
  {
    forall p ensures p in result <==> Chosen(peers, preferred, p) {
      if Chosen(peers, preferred, p) {
        assert p in peers;
        ChosenIsUnique(peers, preferred, p, best[p.id]);
      }
    }
    forall p | p in peers ensures exists q :: q in result && q.id == p.id {
      assert best[p.id] in result;
    }
  }
}
