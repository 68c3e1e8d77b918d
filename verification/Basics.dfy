/** Types and sequence facts shared by the components. */
module Basics {

  datatype Option<+T> = None | Some(value: T)

  type byte = b: int | 0 <= b < 0x100
  type bytes = seq<byte>

  function Min(a: int, b: int): int
  {
    if a < b then a else b
  }

  lemma MulMono(a: nat, b: nat, c: nat)
    requires a <= b
    ensures a * c <= b * c
  {
  }

  lemma DivUnique(x: nat, q: nat, r: nat, m: nat)
    requires m > 0 && x == q * m + r && r < m
    ensures x / m == q && x % m == r
  {
    DivUniqueAt(x, q, r, m, x / m, x % m);
  }

  lemma DivUniqueAt(x: nat, q: nat, r: nat, m: nat, p: nat, s: nat)
    requires x == q * m + r && r < m && x == p * m + s && s < m
    ensures p == q && s == r
  {
    if p < q {
      MulMono(p + 1, q, m);
    } else if p > q {
      MulMono(q + 1, p, m);
    }
  }

  function Members<T>(xs: seq<T>): set<T>
  {
    set x | x in xs
  }

  lemma {:induction false} BoundedSet(s: set<nat>, n: nat)
    requires forall x :: x in s ==> x < n
    ensures |s| <= n
    decreases n
  {
    if n == 0 {
      assert s == {};
    } else {
      BoundedSet(s - {n - 1}, n - 1);
      assert n - 1 !in s ==> s - {n - 1} == s;
    }
  }

  lemma {:induction false} DistinctMembers<T>(xs: seq<T>)
    requires forall i, j :: 0 <= i < j < |xs| ==> xs[i] != xs[j]
    ensures |Members(xs)| == |xs|
    decreases |xs|
  {
    if xs != [] {
      var init, x := xs[..|xs| - 1], xs[|xs| - 1];
      DistinctMembers(init);
      assert Members(xs) == Members(init) + {x};
    }
  }

  /** More numbers than there are values: two of them are equal. */
  lemma Pigeonhole(xs: seq<nat>, n: nat)
    requires |xs| > n && forall x :: x in xs ==> x < n
    ensures exists i, j :: 0 <= i < j < |xs| && xs[i] == xs[j]
  {
    BoundedSet(Members(xs), n);
    if forall i, j :: 0 <= i < j < |xs| ==> xs[i] != xs[j] {
      DistinctMembers(xs);
    }
  }

  function Flatten<T>(parts: seq<seq<T>>): seq<T>
  {
    if parts == [] then [] else parts[0] + Flatten(parts[1..])
  }

  lemma {:induction false} FlattenConcat<T>(a: seq<seq<T>>, b: seq<seq<T>>)
    ensures Flatten(a + b) == Flatten(a) + Flatten(b)
  {
    if a == [] {
      assert a + b == b;
    } else {
      assert (a + b)[1..] == a[1..] + b;
      FlattenConcat(a[1..], b);
    }
  }

  lemma FlattenSnoc<T>(a: seq<seq<T>>, x: seq<T>)
    ensures Flatten(a + [x]) == Flatten(a) + x
  {
    FlattenConcat(a, [x]);
    FlattenOne(x);
  }

  lemma FlattenOne<T>(x: seq<T>)
    ensures Flatten([x]) == x
  {
    assert Flatten([x]) == x + Flatten<T>([]);
  }

  /** Something started before step `n` of a run, and nothing has ended it since. */
  ghost predicate Since(n: nat, starts: nat -> bool, ends: nat -> bool)
  {
    exists i: nat :: i < n && starts(i) && forall j: nat :: i < j < n ==> !ends(j)
  }

  /** One more step: the run before it is given by its own `before` and `ended`. */
  lemma SinceNext(n: nat, before: nat -> bool, ended: nat -> bool, starts: nat -> bool, ends: nat -> bool)
    requires forall i: nat :: i < n ==> starts(i) == before(i) && ends(i) == ended(i)
    ensures Since(n + 1, starts, ends) <==> starts(n) || (Since(n, before, ended) && !ends(n))
  {
    if i: nat :| i < n && before(i) && forall j: nat :: i < j < n ==> !ended(j) {
      assert starts(i);
    }
    if i: nat :| i < n + 1 && starts(i) && forall j: nat :: i < j < n + 1 ==> !ends(j) {
      assert i < n ==> before(i);
    }
  }
}
