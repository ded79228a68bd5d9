/** Finite directed graphs, given by their edge sets.

  Patch chains, grants and `blocked_by` edges are all walked the same way in the
  repository, so the facts about reachability and cycles are stated once here.
  A `Trap` is the set form of a cycle: a walk that enters one never leaves it. */
module Digraph {

  ghost predicate ReachesIn<N(!new)>(edges: set<(N, N)>, a: N, b: N, n: nat)
    decreases n
  {
    if n == 0 then a == b
    else exists mid :: (a, mid) in edges && ReachesIn(edges, mid, b, n - 1)
  }

  ghost predicate Reaches<N(!new)>(edges: set<(N, N)>, a: N, b: N) {
    exists n: nat :: ReachesIn(edges, a, b, n)
  }

  ghost predicate Acyclic<N(!new)>(edges: set<(N, N)>) {
    forall v, n: nat :: n >= 1 ==> !ReachesIn(edges, v, v, n)
  }

  ghost predicate ReachesPlus<N(!new)>(edges: set<(N, N)>, a: N, b: N) {
    exists n: nat :: n >= 1 && ReachesIn(edges, a, b, n)
  }

  ghost predicate HasNext<N(!new)>(edges: set<(N, N)>, r: set<N>, x: N) {
    exists y :: y in r && (x, y) in edges
  }

  /** Every member has a successor inside the set. */
  ghost predicate Trap<N(!new)>(edges: set<(N, N)>, r: set<N>) {
    r != {} && forall x {:trigger HasNext(edges, r, x)} :: x in r ==> HasNext(edges, r, x)
  }

  ghost function NextOf<N(!new)>(edges: set<(N, N)>, r: set<N>, x: N): (y: N)
    requires HasNext(edges, r, x)
    ensures y in r && (x, y) in edges
  {
    var y :| y in r && (x, y) in edges; y
  }

  lemma {:induction false} Compose<N(!new)>(edges: set<(N, N)>, a: N, b: N, c: N, m: nat, n: nat)
    requires ReachesIn(edges, a, b, m) && ReachesIn(edges, b, c, n)
    ensures ReachesIn(edges, a, c, m + n)
    decreases m
  {
    if m == 0 {
    } else {
      var mid :| (a, mid) in edges && ReachesIn(edges, mid, b, m - 1);
      Compose(edges, mid, b, c, m - 1, n);
    }
  }

  lemma ReachesTransitive<N(!new)>(edges: set<(N, N)>, a: N, b: N, c: N)
    requires Reaches(edges, a, b) && Reaches(edges, b, c)
    ensures Reaches(edges, a, c)
  {
    var m: nat :| ReachesIn(edges, a, b, m);
    var n: nat :| ReachesIn(edges, b, c, n);
    Compose(edges, a, b, c, m, n);
  }

  lemma ReachesRefl<N(!new)>(edges: set<(N, N)>, a: N)
    ensures Reaches(edges, a, a)
  {
    assert ReachesIn(edges, a, a, 0);
  }

  lemma EdgeReaches<N(!new)>(edges: set<(N, N)>, a: N, b: N)
    requires (a, b) in edges
    ensures ReachesIn(edges, a, b, 1) && Reaches(edges, a, b)
  {
    assert ReachesIn(edges, b, b, 0);
  }

  lemma StepReaches<N(!new)>(edges: set<(N, N)>, a: N, mid: N, b: N)
    requires (a, mid) in edges && Reaches(edges, mid, b)
    ensures Reaches(edges, a, b)
    ensures ReachesPlus(edges, a, b)
  {
    var n: nat :| ReachesIn(edges, mid, b, n);
    assert ReachesIn(edges, a, b, n + 1);
  }

  lemma {:induction false} Monotone<N(!new)>(small: set<(N, N)>, big: set<(N, N)>, a: N, b: N, n: nat)
    requires small <= big && ReachesIn(small, a, b, n)
    ensures ReachesIn(big, a, b, n)
    decreases n
  {
    if n == 0 {
    } else {
      var mid :| (a, mid) in small && ReachesIn(small, mid, b, n - 1);
      Monotone(small, big, mid, b, n - 1);
    }
  }

  lemma SubgraphAcyclic<N(!new)>(small: set<(N, N)>, big: set<(N, N)>)
    requires small <= big && Acyclic(big)
    ensures Acyclic(small)
  {
    forall v, n: nat | n >= 1
      ensures !ReachesIn(small, v, v, n)
    {
      if ReachesIn(small, v, v, n) { Monotone(small, big, v, v, n); }
    }
  }

  /** The members of a cycle, and everything that leads to it, form a trap. */
  lemma CycleGivesTrap<N(!new)>(edges: set<(N, N)>, v: N, n: nat) returns (r: set<N>)
    requires n >= 1 && ReachesIn(edges, v, v, n)
    ensures Trap(edges, r) && v in r
  {
    r := set e | e in edges && Reaches(edges, e.1, v) :: e.0;
    var mid :| (v, mid) in edges && ReachesIn(edges, mid, v, n - 1);
    assert (v, mid).0 in r;
    forall x | x in r
      ensures HasNext(edges, r, x)
    {
      var e :| e in edges && Reaches(edges, e.1, v) && e.0 == x;
      var k: nat :| ReachesIn(edges, e.1, v, k);
      if k > 0 {
        var next :| (e.1, next) in edges && ReachesIn(edges, next, v, k - 1);
        assert (e.1, next).0 in r;
      }
      assert e.1 in r && (x, e.1) in edges;
    }
  }

  /** A trap contains a cycle: drop what the chosen member cannot reach, and recurse. */
  lemma {:induction false} TrapGivesCycle<N(!new)>(edges: set<(N, N)>, r: set<N>)
    requires Trap(edges, r)
    ensures !Acyclic(edges)
    decreases r
  {
    var x :| x in r;
    var after := set y | y in r && ReachesPlus(edges, x, y);
    if x in after {
      return;
    }
    assert Trap(edges, after) by {
      assert HasNext(edges, r, x);
      var y0 :| y0 in r && (x, y0) in edges;
      EdgeReaches(edges, x, y0);
      assert y0 in after;
      forall y | y in after
        ensures HasNext(edges, after, y)
      {
        NextAfter(edges, r, x, y);
      }
    }
    TrapGivesCycle(edges, after);
  }

  lemma NextAfter<N(!new)>(edges: set<(N, N)>, r: set<N>, x: N, y: N)
    requires HasNext(edges, r, y) && ReachesPlus(edges, x, y)
    ensures HasNext(edges, (set z | z in r && ReachesPlus(edges, x, z)), y)
  {
    var n: nat :| n >= 1 && ReachesIn(edges, x, y, n);
    var z :| z in r && (y, z) in edges;
    EdgeReaches(edges, y, z);
    Compose(edges, x, y, z, n, 1);
    assert ReachesPlus(edges, x, z);
  }

  lemma AcyclicIffNoTrap<N(!new)>(edges: set<(N, N)>)
    ensures Acyclic(edges) <==> forall r: set<N> :: !Trap(edges, r)
  {
    if Acyclic(edges) {
      forall r: set<N>
        ensures !Trap(edges, r)
      {
        if Trap(edges, r) { TrapGivesCycle(edges, r); }
      }
    } else {
      var v, n: nat :| n >= 1 && ReachesIn(edges, v, v, n);
      var r := CycleGivesTrap(edges, v, n);
    }
  }

  /** An acyclic graph survives a new edge exactly when the edge's head cannot
      already reach its tail. */
  lemma AddEdgeAcyclicIff<N(!new)>(edges: set<(N, N)>, src: N, dst: N)
    requires Acyclic(edges)
    ensures Acyclic(edges + {(src, dst)}) <==> !Reaches(edges, dst, src)
  {
    var more := edges + {(src, dst)};
    if Reaches(edges, dst, src) {
      var n: nat :| ReachesIn(edges, dst, src, n);
      Monotone(edges, more, dst, src, n);
      assert (src, dst) in more;
      assert ReachesIn(more, src, src, n + 1);
    } else {
      forall r: set<N>
        ensures !Trap(more, r)
      {
        if Trap(more, r) { NewTrapIsOld(edges, src, dst, r); }
      }
      AcyclicIffNoTrap(more);
    }
  }

  /** Without the new edge, the members that cannot reach src still trap each other. */
  lemma NewTrapIsOld<N(!new)>(edges: set<(N, N)>, src: N, dst: N, r: set<N>)
    requires Trap(edges + {(src, dst)}, r) && !Reaches(edges, dst, src)
    ensures !Acyclic(edges)
  {
    var away := set x | x in r && !Reaches(edges, x, src);
    if dst in r {
      assert dst in away;
      forall x | x in away
        ensures HasNext(edges, away, x)
      {
        var y := AwayNext(edges, src, dst, r, x);
        assert y in away;
      }
      TrapGivesCycle(edges, away);
    } else {
      forall x | x in r
        ensures HasNext(edges, r, x)
      {
        OldNext(edges, src, dst, r, x);
      }
      TrapGivesCycle(edges, r);
    }
  }

  lemma OldNext<N(!new)>(edges: set<(N, N)>, src: N, dst: N, r: set<N>, x: N)
    requires HasNext(edges + {(src, dst)}, r, x) && dst !in r
    ensures HasNext(edges, r, x)
  {
    var y :| y in r && (x, y) in edges + {(src, dst)};
    assert (x, y) in edges;
  }

  lemma AwayNext<N(!new)>(edges: set<(N, N)>, src: N, dst: N, r: set<N>, x: N) returns (y: N)
    requires HasNext(edges + {(src, dst)}, r, x) && !Reaches(edges, x, src)
    ensures y in r && (x, y) in edges && !Reaches(edges, y, src)
  {
    ReachesRefl(edges, src);
    y :| y in r && (x, y) in edges + {(src, dst)};
    if Reaches(edges, y, src) { StepReaches(edges, x, y, src); }
  }

  lemma {:induction false} LastEdge<N(!new)>(edges: set<(N, N)>, a: N, b: N, n: nat) returns (x: N)
    requires n >= 1 && ReachesIn(edges, a, b, n)
    ensures (x, b) in edges
    decreases n
  {
    var mid :| (a, mid) in edges && ReachesIn(edges, mid, b, n - 1);
    if n == 1 {
      x := a;
    } else {
      x := LastEdge(edges, mid, b, n - 1);
    }
  }

  ghost function Reversed<N>(edges: set<(N, N)>): set<(N, N)> {
    set e | e in edges :: (e.1, e.0)
  }

  lemma {:induction false} ReversedReaches<N(!new)>(edges: set<(N, N)>, a: N, b: N, n: nat)
    requires ReachesIn(Reversed(edges), a, b, n)
    ensures ReachesIn(edges, b, a, n)
    decreases n
  {
    if n == 0 {
    } else {
      var mid :| (a, mid) in Reversed(edges) && ReachesIn(Reversed(edges), mid, b, n - 1);
      ReversedReaches(edges, mid, b, n - 1);
      assert (mid, a) in edges;
      EdgeReaches(edges, mid, a);
      Compose(edges, b, mid, a, n - 1, 1);
    }
  }

  lemma ReversedAcyclic<N(!new)>(edges: set<(N, N)>)
    requires Acyclic(edges)
    ensures Acyclic(Reversed(edges))
  {
    forall v, n: nat | n >= 1
      ensures !ReachesIn(Reversed(edges), v, v, n)
    {
      if ReachesIn(Reversed(edges), v, v, n) { ReversedReaches(edges, v, v, n); }
    }
  }
}
