/** A loop whose only state is a position, which one turn moves or ends: when it ends, and with what. */
module PositionLoop {
  import opened Basics

  datatype Point<R> = At(pos: nat) | Stop(result: R)

  /** What one turn does at each position. */
  type Turn<!R> = nat -> Point<R>

  /** Where the loop is after k turns. */
  function Turns<R>(f: Turn<R>, k: nat): Point<R>
  {
    if k == 0 then At(0) else match Turns(f, k - 1) case At(pos) => f(pos) case Stop(r) => Stop(r)
  }

  /** The loop stays within [0, n], and at n it ends. */
  ghost predicate Within<R(!new)>(f: Turn<R>, n: nat)
  {
    f(n).Stop? && forall p: nat :: p < n && f(p).At? ==> f(p).pos <= n
  }

  lemma {:induction false} StopStays<R>(f: Turn<R>, j: nat, k: nat)
    requires j <= k && Turns(f, j).Stop?
    ensures Turns(f, k) == Turns(f, j)
    decreases k
  {
    if j < k { StopStays(f, j, k - 1); }
  }

  lemma {:induction false} SameAgain<R>(f: Turn<R>, i: nat, j: nat, d: nat)
    requires Turns(f, i) == Turns(f, j)
    ensures Turns(f, i + d) == Turns(f, j + d)
    decreases d
  {
    if d > 0 {
      SameAgain(f, i, j, d - 1);
      assert i + d - 1 == i + (d - 1) && j + d - 1 == j + (d - 1);
    }
  }

  /** A position that comes back once comes back for ever. */
  lemma {:induction false} Cycles<R>(f: Turn<R>, i: nat, j: nat, k: nat)
    requires i < j && Turns(f, i) == Turns(f, j) && Turns(f, j).At?
    ensures Turns(f, k).At?
    decreases k
  {
    if k <= j {
      if Turns(f, k).Stop? { StopStays(f, k, j); }
    } else {
      SameAgain(f, i, j, k - j);
      Cycles(f, i, j, i + (k - j));
    }
  }

  lemma {:induction false} StaysWithin<R(!new)>(f: Turn<R>, n: nat, k: nat)
    requires Within(f, n) && Turns(f, k).At?
    ensures Turns(f, k).pos <= n
    decreases k
  {
    if k > 0 { StaysWithin(f, n, k - 1); }
  }

  /** There are only n positions to go on from. */
  lemma Revisits<R(!new)>(f: Turn<R>, n: nat) returns (i: nat, j: nat)
    requires Within(f, n) && Turns(f, n + 1).At?
    ensures i < j <= n && Turns(f, i) == Turns(f, j) && Turns(f, j).At?
  {
    forall k: nat | k <= n ensures Turns(f, k).At? && Turns(f, k).pos < n {
      if Turns(f, k).Stop? { StopStays(f, k, n + 1); }
      if Turns(f, k + 1).Stop? { StopStays(f, k + 1, n + 1); }
      StaysWithin(f, n, k);
    }
    var xs := seq(n + 1, k requires 0 <= k <= n => Turns(f, k).pos);
    Pigeonhole(xs, n);
    i, j :| 0 <= i < j < |xs| && xs[i] == xs[j];
  }

  /** It never ends exactly when it has not ended after n + 1 turns. */
  lemma EndlessExactly<R(!new)>(f: Turn<R>, n: nat)
    requires Within(f, n)
    ensures Turns(f, n + 1).At? <==> forall k: nat :: Turns(f, k).At?
  {
    if Turns(f, n + 1).At? {
      var i, j := Revisits(f, n);
      forall k: nat ensures Turns(f, k).At? { Cycles(f, i, j, k); }
    }
  }

  // ---------- the same as paths ----------

  ghost predicate Path<R>(f: Turn<R>, path: seq<nat>)
  {
    path != [] && path[0] == 0 && forall i :: 0 <= i < |path| - 1 ==> f(path[i]) == At(path[i + 1])
  }

  /** A turn takes the path back to where it has been. */
  ghost predicate Loops<R>(f: Turn<R>)
  {
    exists path, i: nat :: Path(f, path) && i < |path| - 1 && path[i] == path[|path| - 1]
  }

  ghost predicate Reaches<R>(f: Turn<R>, p: nat)
  {
    exists path :: Path(f, path) && path[|path| - 1] == p
  }

  lemma {:induction false} PathIsTurns<R>(f: Turn<R>, path: seq<nat>, k: nat)
    requires Path(f, path) && k < |path|
    ensures Turns(f, k) == At(path[k])
    decreases k
  {
    if k > 0 { PathIsTurns(f, path, k - 1); }
  }

  lemma TurnsIsPath<R>(f: Turn<R>, k: nat) returns (path: seq<nat>)
    requires Turns(f, k).At?
    ensures Path(f, path) && |path| == k + 1 && forall i: nat :: i <= k ==> Turns(f, i) == At(path[i])
  {
    forall i: nat | i <= k ensures Turns(f, i).At? {
      if Turns(f, i).Stop? { StopStays(f, i, k); }
    }
    path := seq(k + 1, i requires 0 <= i <= k => Turns(f, i).pos);
    forall i | 0 <= i < k ensures f(path[i]) == At(path[i + 1]) {
      assert Turns(f, i + 1) == f(path[i]);
    }
  }

  /** The turn that ends the loop, seen from where it does. */
  lemma {:induction false} LastTurn<R>(f: Turn<R>, k: nat) returns (p: nat)
    requires Turns(f, k).Stop?
    ensures Reaches(f, p) && f(p) == Turns(f, k)
    decreases k
  {
    hide Reaches;
    match Turns(f, k - 1)
    case At(pos) =>
      p := pos;
      var path := TurnsIsPath(f, k - 1);
      assert Reaches(f, p) by { ReachesEnd(f, path); }
    case Stop(_) => p := LastTurn(f, k - 1);
  }

  lemma ReachesEnd<R>(f: Turn<R>, path: seq<nat>)
    requires Path(f, path)
    ensures Reaches(f, path[|path| - 1])
  {
  }

  lemma StopsFrom<R(!new)>(f: Turn<R>, n: nat, p: nat)
    requires Within(f, n) && Reaches(f, p) && f(p).Stop?
    ensures Turns(f, n + 1) == f(p)
  {
    hide Within;
    var path :| Path(f, path) && path[|path| - 1] == p;
    PathIsTurns(f, path, |path| - 1);
    assert Turns(f, |path|) == f(p);
    if |path| <= n + 1 {
      StopStays(f, |path|, n + 1);
    } else if Turns(f, n + 1).At? {
      var i, j := Revisits(f, n);
      Cycles(f, i, j, |path|);
    } else {
      StopStays(f, n + 1, |path|);
    }
  }

  /** The loop is endless exactly when its path comes back, and ends with r exactly when its path leads
      to a place where a turn ends it with r. */
  lemma OutcomeExactly<R(!new)>(f: Turn<R>, n: nat, r: R)
    requires Within(f, n)
    ensures Turns(f, n + 1).At? <==> Loops(f)
    ensures Turns(f, n + 1) == Stop(r) <==> exists p: nat :: Reaches(f, p) && f(p) == Stop(r)
  {
    hide Within, Reaches, Turns, Loops;
    EndlessIsLoop(f, n);
    if Turns(f, n + 1) == Stop(r) { var p := LastTurn(f, n + 1); }
    if p: nat :| Reaches(f, p) && f(p) == Stop(r) { StopsFrom(f, n, p); }
  }

  lemma EndlessIsLoop<R(!new)>(f: Turn<R>, n: nat)
    requires Within(f, n)
    ensures Turns(f, n + 1).At? <==> Loops(f)
  {
    hide Within, Turns;
    if Turns(f, n + 1).At? {
      var i, j := Revisits(f, n);
      var path := TurnsIsPath(f, j);
      assert i < |path| - 1 && path[i] == path[|path| - 1];
    }
    if Loops(f) {
      var path, i: nat :| Path(f, path) && i < |path| - 1 && path[i] == path[|path| - 1];
      PathIsTurns(f, path, i);
      PathIsTurns(f, path, |path| - 1);
      Cycles(f, i, |path| - 1, n + 1);
    }
  }
}
