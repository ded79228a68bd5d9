/** When `find_cycles` returns every simple cycle: for all orders of the keys and of each
  node's targets, exactly when no two simple cycles share an edge. Goal ids are arbitrary
  names, so any order of the keys can be the sorted one. */
module CycleOrders {
  import opened CycleFinder
  import Sets

  /** The same graph, with each node's targets in any order. */
  ghost predicate Reordered(a: Edges, b: Edges) {
    a.Keys == b.Keys && forall n :: n in a ==> multiset(a[n]) == multiset(b[n])
  }

  ghost predicate KeyOrder(edges: Edges, roots: seq<Node>) {
    Distinct(roots) && forall n :: n in roots <==> n in edges
  }

  ghost predicate ReturnsAll(edges: Edges, cycles: seq<seq<Node>>) {
    forall p :: IsCycle(edges, p) ==> Canonical(p) in cycles
  }

  ghost predicate ShareEdge(p: seq<Node>, q: seq<Node>) {
    exists u, v :: OnCycle(p, u, v) && OnCycle(q, u, v)
  }

  /** Simple cycles that share an edge are rotations of each other. */
  ghost predicate EdgeDisjoint(edges: Edges) {
    forall p, q {:trigger ShareEdge(p, q)} ::
      IsCycle(edges, p) && IsCycle(edges, q) && ShareEdge(p, q) ==> Canonical(p) == Canonical(q)
  }

  lemma SameTargets(a: Edges, b: Edges, n: Node, v: Node)
    requires Reordered(a, b)
    ensures v in Targets(a, n) <==> v in Targets(b, n)
  {
    if n in a { assert v in a[n] <==> v in multiset(a[n]); }
    if n in b { assert v in b[n] <==> v in multiset(b[n]); }
  }

  lemma SameCycles(a: Edges, b: Edges, p: seq<Node>)
    requires Reordered(a, b)
    ensures IsCycle(a, p) <==> IsCycle(b, p)
  {
    forall i | 0 <= i < |p|
      ensures After(p, i) in Targets(a, p[i]) <==> After(p, i) in Targets(b, p[i])
    {
      SameTargets(a, b, p[i], After(p, i));
    }
  }

  // ----- rotations -----

  lemma TheHit(cycles: seq<seq<Node>>, u: Node, v: Node) returns (c: seq<Node>, j: nat)
    requires Closes(cycles, u, v)
    ensures c in cycles && j < |c| && c[j] == u && After(c, j) == v
  {
    c :| c in cycles && OnCycle(c, u, v);
    j :| 0 <= j < |c| && c[j] == u && After(c, j) == v;
  }

  lemma SameRotationSameCanonical(p: seq<Node>, c: seq<Node>, i: nat, j: nat)
    requires Distinct(p) && Distinct(c) && MinFirst(c) && i < |p| && j < |c| && Rotate(p, i) == Rotate(c, j)
    ensures Canonical(p) == c
  {
    var n := |p|;
    assert |Rotate(p, i)| == n == |c| == |Rotate(c, j)|;
    forall x
      ensures x in p <==> x in c
    {
      assert x in Rotate(p, i) <==> x in p;
      assert x in Rotate(c, j) <==> x in c;
    }
    assert c[0] in p && Min(p) in c;
    assert Min(p) == c[0];
    var m := IndexOf(p, Min(p));
    forall t | 0 <= t < n
      ensures Canonical(p)[t] == c[t]
    {
      ShiftedAt(p, c, i, j, m, t);
    }
  }

  lemma ShiftedAt(p: seq<Node>, c: seq<Node>, i: nat, j: nat, m: nat, t: nat)
    requires Distinct(p) && |p| == |c| && i < |p| && j < |p| && m < |p| && t < |p|
    requires Rotate(p, i) == Rotate(c, j) && p[m] == c[0]
    ensures Rotate(p, m)[t] == c[t]
  {
    var n := |p|;
    // c[x] is p[x + i - j], cyclically.
    var d := if i >= j then i - j else i - j + n;
    forall x | 0 <= x < n
      ensures c[x] == p[if x + d < n then x + d else x + d - n]
    {
      var y := if x >= j then x - j else x - j + n;
      assert Rotate(c, j)[y] == c[x];
      assert Rotate(p, i)[y] == p[if y + i < n then y + i else y + i - n];
    }
    assert p[d] == c[0] && d == m;
  }

  lemma RotateBack(p: seq<Node>, k: nat) returns (i: nat)
    requires k < |p|
    ensures i < |p| && Rotate(Rotate(p, k), i) == p
  {
    i := if k == 0 then 0 else |p| - k;
  }

  lemma RotateDistinct(p: seq<Node>, k: nat)
    requires Distinct(p) && k < |p|
    ensures Distinct(Rotate(p, k)) && |Rotate(p, k)| == |p|
  {
    forall i, j | 0 <= i < j < |p|
      ensures Rotate(p, k)[i] != Rotate(p, k)[j]
    {
      RotateAt(p, k, i);
      RotateAt(p, k, j);
    }
  }

  lemma CanonicalRotate(p: seq<Node>, k: nat)
    requires Distinct(p) && k < |p|
    ensures Canonical(Rotate(p, k)) == Canonical(p)
  {
    var m := IndexOf(p, Min(p));
    var i := RotateBack(p, k);
    var j := RotateBack(p, m);
    RotateDistinct(p, k);
    RotateDistinct(p, m);
    CanonicalMinFirst(p);
    SameRotationSameCanonical(Rotate(p, k), Rotate(p, m), i, j);
  }

  lemma CanonicalOfMinFirst(c: seq<Node>)
    requires Distinct(c) && MinFirst(c)
    ensures Canonical(c) == c
  {
    assert c[0] == Min(c);
    assert IndexOf(c, Min(c)) == 0;
  }

  lemma UnrotateOnCycle(p: seq<Node>, k: nat, u: Node, v: Node)
    requires k < |p| && OnCycle(Rotate(p, k), u, v)
    ensures OnCycle(p, u, v)
  {
    var r := Rotate(p, k);
    var i :| 0 <= i < |r| && r[i] == u && After(r, i) == v;
    RotateAt(p, k, i);
  }

  /** Lists with the same canonical form have the same edges. */
  lemma SameCanonicalSameEdges(p: seq<Node>, q: seq<Node>, u: Node, v: Node)
    requires p != [] && q != [] && Canonical(p) == Canonical(q) && OnCycle(q, u, v)
    ensures OnCycle(p, u, v)
  {
    RotateOnCycle(q, IndexOf(q, Min(q)), u, v);
    UnrotateOnCycle(p, IndexOf(p, Min(p)), u, v);
  }

  // ----- disjoint cycles are all returned -----

  lemma DisjointReturnsAll(edges: Edges, roots: seq<Node>)
    requires EdgeDisjoint(edges) && forall n :: n in edges ==> n in roots
    ensures ReturnsAll(edges, Found(edges, roots))
  {
    var order := FoundOk(edges, roots);
    forall p | IsCycle(edges, p)
      ensures Canonical(p) in Found(edges, roots)
    {
      var i := EveryCycleIsHit(edges, roots, p);
      var c, j := TheHit(Found(edges, roots), p[i], After(p, i));
      assert IsCycle(edges, c) && MinFirst(c);
      assert OnCycle(p, p[i], After(p, i)) && OnCycle(c, p[i], After(p, i));
      assert ShareEdge(p, c);
      CanonicalOfMinFirst(c);
    }
  }

  lemma DisjointReordered(a: Edges, b: Edges)
    requires Reordered(a, b) && EdgeDisjoint(a)
    ensures EdgeDisjoint(b)
  {
    forall p, q | IsCycle(b, p) && IsCycle(b, q) && ShareEdge(p, q)
      ensures Canonical(p) == Canonical(q)
    {
      SameCycles(a, b, p);
      SameCycles(a, b, q);
    }
  }

  // ----- two cycles that share an edge -----

  /** From the shared edge back to where the cycles part: both start at the edge's end and
      come to a common later node from different nodes. */
  ghost predicate Part(a: seq<Node>, b: seq<Node>, j: nat, l: nat) {
    && 1 <= j < |a| && 1 <= l < |b| && a[0] == b[0]
    && a[j] == b[l] && a[j - 1] != b[l - 1]
  }

  lemma WholeSuffix(a: seq<Node>, b: seq<Node>)
    requires Distinct(b) && a != [] && |a| <= |b| && a[0] == b[0] && a[0..] == b[|b| - |a|..]
    ensures a == b
  {
    assert a[0..] == a && b[|b| - |a|..][0] == b[|b| - |a|];
    assert b[0..] == b;
  }

  lemma {:induction false} PartFromEnd(a: seq<Node>, b: seq<Node>, k: nat) returns (j: nat, l: nat)
    requires a != b && Distinct(a) && Distinct(b)
    requires 1 <= k <= |a| && k <= |b| && a[0] == b[0] && a[|a| - k..] == b[|b| - k..]
    ensures Part(a, b, j, l)
    decreases |a| - k
  {
    if k == |a| {
      WholeSuffix(a, b);
    } else if k == |b| {
      WholeSuffix(b, a);
    } else if a[|a| - k - 1] == b[|b| - k - 1] {
      assert a[|a| - k - 1..] == [a[|a| - k - 1]] + a[|a| - k..];
      assert b[|b| - k - 1..] == [b[|b| - k - 1]] + b[|b| - k..];
      j, l := PartFromEnd(a, b, k + 1);
    } else {
      assert a[|a| - k..][0] == b[|b| - k..][0];
      j, l := |a| - k, |b| - k;
    }
  }

  /** A rotation that begins where the edge ends, and so ends where it begins. */
  lemma BeginAfter(edges: Edges, p: seq<Node>, u: Node, v: Node) returns (a: seq<Node>)
    requires IsCycle(edges, p) && OnCycle(p, u, v)
    ensures IsCycle(edges, a) && Canonical(a) == Canonical(p) && a[0] == v && a[|a| - 1] == u
  {
    var i :| 0 <= i < |p| && p[i] == u && After(p, i) == v;
    var k := if i + 1 < |p| then i + 1 else 0;
    a := Rotate(p, k);
    RotationIsCycle(edges, p, k);
    CanonicalRotate(p, k);
  }

  lemma SharedEdgeParts(edges: Edges, p: seq<Node>, q: seq<Node>, u: Node, v: Node)
    returns (a: seq<Node>, b: seq<Node>, j: nat, l: nat)
    requires IsCycle(edges, p) && IsCycle(edges, q) && OnCycle(p, u, v) && OnCycle(q, u, v)
    requires Canonical(p) != Canonical(q)
    ensures IsCycle(edges, a) && IsCycle(edges, b) && Canonical(b) == Canonical(q) && Part(a, b, j, l)
  {
    a := BeginAfter(edges, p, u, v);
    b := BeginAfter(edges, q, u, v);
    j, l := SameEndsPart(a, b);
  }

  lemma SameEndsPart(a: seq<Node>, b: seq<Node>) returns (j: nat, l: nat)
    requires a != b && Distinct(a) && Distinct(b) && a != [] && b != []
    requires a[0] == b[0] && a[|a| - 1] == b[|b| - 1]
    ensures Part(a, b, j, l)
  {
    assert a[|a| - 1..] == [a[|a| - 1]] && b[|b| - 1..] == [b[|b| - 1]];
    j, l := PartFromEnd(a, b, 1);
  }

  // ----- an order that loses one of them -----

  function Front(s: seq<Node>, x: Node): seq<Node>
    requires x in s
  {
    [x] + s[..IndexOf(s, x)] + s[IndexOf(s, x) + 1..]
  }

  lemma FrontReorders(s: seq<Node>, x: Node)
    requires x in s
    ensures multiset(Front(s, x)) == multiset(s) && Front(s, x)[0] == x
  {
    var i := IndexOf(s, x);
    assert s == s[..i] + [x] + s[i + 1..];
  }

  /** Every node of the cycle gives its successor on the cycle first. */
  ghost function Steered(edges: Edges, a: seq<Node>): Edges
    requires IsCycle(edges, a)
  {
    map n | n in edges :: if n in a then Front(edges[n], After(a, IndexOf(a, n))) else edges[n]
  }

  lemma SteeredReorders(edges: Edges, a: seq<Node>)
    requires IsCycle(edges, a)
    ensures Reordered(edges, Steered(edges, a))
    ensures forall i :: 0 <= i < |a| ==>
              Targets(Steered(edges, a), a[i]) != [] && Targets(Steered(edges, a), a[i])[0] == After(a, i)
  {
    forall n | n in edges
      ensures multiset(edges[n]) == multiset(Steered(edges, a)[n])
    {
      if n in a { FrontReorders(edges[n], After(a, IndexOf(a, n))); }
    }
    forall i | 0 <= i < |a|
      ensures Targets(Steered(edges, a), a[i]) != [] && Targets(Steered(edges, a), a[i])[0] == After(a, i)
    {
      assert After(a, i) in Targets(edges, a[i]);
      assert IndexOf(a, a[i]) == i;
      FrontReorders(edges[a[i]], After(a, i));
    }
  }

  function AllGrey(p: seq<Node>): (c: map<Node, Colour>)
    ensures forall n :: n in c <==> n in p
    ensures forall n :: n in c ==> c[n] == Grey
  {
    if p == [] then map[] else AllGrey(p[..|p| - 1])[p[|p| - 1] := Grey]
  }

  /** The search after `k` steps down the cycle. */
  function Down(a: seq<Node>, k: nat): Dfs
    requires k < |a|
  {
    Dfs(AllGrey(a[..k + 1]), seq(k + 1, i requires 0 <= i < k + 1 => Frame(a[i], if i < k then 1 else 0)), [])
  }

  lemma StepDown(edges: Edges, a: seq<Node>, k: nat)
    requires Distinct(a) && k + 1 < |a|
    requires Targets(edges, a[k]) != [] && Targets(edges, a[k])[0] == a[k + 1]
    ensures Step(edges, Down(a, k)) == Down(a, k + 1)
  {
    var s := Down(a, k);
    assert s.stack[|s.stack| - 1] == Frame(a[k], 0);
    assert a[k + 1] !in a[..k + 1];
    DownColours(a, k);
    DownStack(a, k);
  }

  lemma DownColours(a: seq<Node>, k: nat)
    requires k + 1 < |a|
    ensures Down(a, k).colour[a[k + 1] := Grey] == Down(a, k + 1).colour
  {
    assert a[..k + 2] == a[..k + 1] + [a[k + 1]] && a[..k + 2][..k + 1] == a[..k + 1];
  }

  lemma DownStack(a: seq<Node>, k: nat)
    requires k + 1 < |a|
    ensures Advanced(Down(a, k).stack) + [Frame(a[k + 1], 0)] == Down(a, k + 1).stack
  {
  }

  lemma {:induction false} WalkDown(edges: Edges, a: seq<Node>, k: nat)
    requires Distinct(a) && k < |a|
    requires forall i :: 0 <= i < k ==> Targets(edges, a[i]) != [] && Targets(edges, a[i])[0] == a[i + 1]
    ensures Explore(edges, Begin(Dfs(map[], [], []), a[0])) == Explore(edges, Down(a, k))
  {
    if k == 0 {
      assert a[..1] == [a[0]] && [a[0]][..0] == [];
      assert Down(a, 0).colour == map[a[0] := Grey];
      assert Down(a, 0).stack == [Frame(a[0], 0)];
    } else {
      WalkDown(edges, a, k - 1);
      StepDown(edges, a, k - 1);
    }
  }

  /** `e` can only be at the bottom of the stack, `m` only on top of `x`, and the cycle
      `q`, which enters `m` from elsewhere, has not been returned. */
  ghost predicate Blocked(s: Dfs, e: Node, m: Node, x: Node, q: seq<Node>) {
    && e in s.colour && m in s.colour && q != []
    && (forall i :: 0 <= i < |s.stack| && s.stack[i].node == e ==> i == 0)
    && (forall i :: 0 <= i < |s.stack| && s.stack[i].node == m ==> i >= 1 && s.stack[i - 1].node == x)
    && Canonical(q) !in s.cycles
  }

  /** The cycle `q` passes `e`, and comes to `m` from `y`. */
  ghost predicate Comes(q: seq<Node>, e: Node, m: Node, x: Node, y: Node) {
    e in q && OnCycle(q, y, m) && x != y && e != m
  }

  lemma MemberIsOnCycle(q: seq<Node>, e: Node)
    requires e in q
    ensures exists v :: OnCycle(q, e, v)
  {
    var i :| 0 <= i < |q| && q[i] == e;
    assert OnCycle(q, e, After(q, i));
  }

  lemma SuffixPlaces(s: Dfs, i: nat, e: Node, m: Node, x: Node, q: seq<Node>)
    requires Blocked(s, e, m, x, q) && i < |s.stack|
    ensures var p := Path(s.stack)[i..];
            && p != []
            && (forall t :: 0 <= t < |p| - 1 && p[t + 1] == m ==> p[t] == x)
            && (forall t :: 0 <= t < |p| && p[t] == e ==> t == 0)
  {
    var p := Path(s.stack)[i..];
    assert forall t :: 0 <= t < |p| ==> p[t] == s.stack[i + t].node;
  }

  /** What a back edge records is never `q`: on the stack `m` stands on `x`, so the path
      would have to begin at `m`, above the bottom, and could not hold `e`. */
  lemma RecordsAnother(s: Dfs, i: nat, e: Node, m: Node, x: Node, y: Node, q: seq<Node>)
    requires Blocked(s, e, m, x, q) && Comes(q, e, m, x, y) && i < |s.stack|
    ensures Canonical(Path(s.stack)[i..]) != Canonical(q)
  {
    var p := Path(s.stack)[i..];
    SuffixPlaces(s, i, e, m, x, q);
    if Canonical(p) == Canonical(q) {
      SameCanonicalSameEdges(p, q, y, m);
      MemberIsOnCycle(q, e);
      var v :| OnCycle(q, e, v);
      SameCanonicalSameEdges(p, q, e, v);
      NotBelow(p, e, m, x, y);
    }
  }

  /** A closed path on which `m` follows `x`, not `y`, unless it begins the path, and on
      which `e` can only begin the path. */
  lemma NotBelow(p: seq<Node>, e: Node, m: Node, x: Node, y: Node)
    requires forall t :: 0 <= t < |p| - 1 && p[t + 1] == m ==> p[t] == x
    requires forall t :: 0 <= t < |p| && p[t] == e ==> t == 0
    requires e != m && x != y && e in p
    ensures !OnCycle(p, y, m)
  {
  }

  lemma StepStaysBlocked(edges: Edges, s: Dfs, e: Node, m: Node, x: Node, y: Node, q: seq<Node>)
    requires Blocked(s, e, m, x, q) && Comes(q, e, m, x, y) && s.stack != []
    ensures Blocked(Step(edges, s), e, m, x, q)
  {
    var top := s.stack[|s.stack| - 1];
    if top.next < |Targets(edges, top.node)| {
      var nxt := Targets(edges, top.node)[top.next];
      AdvanceStaysBlocked(s, e, m, x, q);
      if nxt !in s.colour {
        PushStaysBlocked(Dfs(s.colour, Advanced(s.stack), s.cycles), nxt, e, m, x, q);
      } else if s.colour[nxt] == Grey {
        RecordStaysBlocked(s, IndexOf(Path(s.stack), nxt), e, m, x, y, q);
      }
    } else {
      PopStaysBlocked(s, e, m, x, q);
    }
  }

  lemma AdvanceStaysBlocked(s: Dfs, e: Node, m: Node, x: Node, q: seq<Node>)
    requires Blocked(s, e, m, x, q) && s.stack != []
    ensures Blocked(Dfs(s.colour, Advanced(s.stack), s.cycles), e, m, x, q)
  {
    var more := Advanced(s.stack);
    assert forall i :: 0 <= i < |more| ==> more[i].node == s.stack[i].node;
  }

  lemma PushStaysBlocked(s: Dfs, nxt: Node, e: Node, m: Node, x: Node, q: seq<Node>)
    requires Blocked(s, e, m, x, q) && nxt !in s.colour
    ensures Blocked(Dfs(s.colour[nxt := Grey], s.stack + [Frame(nxt, 0)], s.cycles), e, m, x, q)
  {
  }

  lemma PopStaysBlocked(s: Dfs, e: Node, m: Node, x: Node, q: seq<Node>)
    requires Blocked(s, e, m, x, q) && s.stack != []
    ensures Blocked(Dfs(s.colour[s.stack[|s.stack| - 1].node := Black], s.stack[..|s.stack| - 1], s.cycles), e, m, x, q)
  {
  }

  lemma RecordStaysBlocked(s: Dfs, i: nat, e: Node, m: Node, x: Node, y: Node, q: seq<Node>)
    requires Blocked(s, e, m, x, q) && Comes(q, e, m, x, y) && s.stack != [] && i <= |s.stack|
    ensures Blocked(Dfs(s.colour, Advanced(s.stack), Record(s.cycles, Path(s.stack)[i..])), e, m, x, q)
  {
    AdvanceStaysBlocked(s, e, m, x, q);
    if i < |s.stack| { RecordsAnother(s, i, e, m, x, y, q); }
    RecordMisses(s.cycles, Path(s.stack)[i..], Canonical(q));
  }

  lemma RecordMisses(cycles: seq<seq<Node>>, path: seq<Node>, c: seq<Node>)
    requires c !in cycles && (path != [] ==> Canonical(path) != c)
    ensures c !in Record(cycles, path)
  {
  }

  lemma {:induction false} ExploreStaysBlocked(edges: Edges, s: Dfs, e: Node, m: Node, x: Node, y: Node, q: seq<Node>)
    requires Blocked(s, e, m, x, q) && Comes(q, e, m, x, y)
    ensures Blocked(Explore(edges, s), e, m, x, q)
    decreases Universe(edges) - s.colour.Keys, |s.stack|, Remaining(edges, s)
  {
    if s.stack == [] {
    } else {
      StepDecreases(edges, s);
      StepStaysBlocked(edges, s, e, m, x, y, q);
      ExploreStaysBlocked(edges, Step(edges, s), e, m, x, y, q);
    }
  }

  lemma {:induction false} SearchStaysBlocked(edges: Edges, roots: seq<Node>, s: Dfs, e: Node, m: Node, x: Node,
                                              y: Node,
                                              q: seq<Node>)
    requires Blocked(s, e, m, x, q) && Comes(q, e, m, x, y)
    ensures Blocked(Search(edges, roots, s), e, m, x, q)
    decreases |roots|
  {
    if roots == [] {
    } else if roots[0] in s.colour {
      SearchStaysBlocked(edges, roots[1..], s, e, m, x, y, q);
    } else {
      ExploreStaysBlocked(edges, Begin(s, roots[0]), e, m, x, y, q);
      SearchStaysBlocked(edges, roots[1..], Explore(edges, Begin(s, roots[0])), e, m, x, y, q);
    }
  }

  /** Steered down the first cycle from where the two begin, the search never returns the
      second. */
  lemma SecondIsLost(edges: Edges, a: seq<Node>, b: seq<Node>, j: nat, l: nat, rest: seq<Node>)
    requires IsCycle(edges, a) && IsCycle(edges, b) && Part(a, b, j, l)
    ensures Canonical(b) !in Found(Steered(edges, a), [a[0]] + rest)
  {
    var edges' := Steered(edges, a);
    var start := Dfs(map[], [], []);
    SteeredReorders(edges, a);
    forall i | 0 <= i < j
      ensures Targets(edges', a[i]) != [] && Targets(edges', a[i])[0] == a[i + 1]
    {
      assert After(a, i) == a[i + 1];
    }
    WalkDown(edges', a, j);
    StaysLost(edges', a, b, j, l, rest);
    assert ([a[0]] + rest)[1..] == rest;
  }

  lemma StaysLost(edges: Edges, a: seq<Node>, b: seq<Node>, j: nat, l: nat, rest: seq<Node>)
    requires Distinct(a) && Distinct(b) && Part(a, b, j, l)
    ensures Canonical(b) !in Search(edges, rest, Explore(edges, Down(a, j))).cycles
  {
    var e, m, x, y := a[0], a[j], a[j - 1], b[l - 1];
    DownIsBlocked(a, b, j, l);
    assert After(b, l - 1) == b[l];
    assert Comes(b, e, m, x, y);
    ExploreStaysBlocked(edges, Down(a, j), e, m, x, y, b);
    SearchStaysBlocked(edges, rest, Explore(edges, Down(a, j)), e, m, x, y, b);
  }

  lemma DownIsBlocked(a: seq<Node>, b: seq<Node>, j: nat, l: nat)
    requires Distinct(a) && Part(a, b, j, l)
    ensures Blocked(Down(a, j), a[0], a[j], a[j - 1], b)
  {
    DownColoured(a, j);
    DownNodes(a, j);
  }

  lemma DownColoured(a: seq<Node>, j: nat)
    requires j < |a|
    ensures a[0] in Down(a, j).colour && a[j] in Down(a, j).colour
  {
    assert a[..j + 1][0] == a[0] && a[..j + 1][j] == a[j];
  }

  lemma DownNodes(a: seq<Node>, j: nat)
    requires j < |a|
    ensures |Down(a, j).stack| == j + 1 && forall i :: 0 <= i <= j ==> Down(a, j).stack[i].node == a[i]
  {
  }

  ghost function SomeOrder(s: set<Node>): (r: seq<Node>)
    ensures Distinct(r) && forall n :: n in r <==> n in s
  {
    if s == {} then []
    else
      var n := Sets.AnyOf(s);
      [n] + SomeOrder(s - {n})
  }

  lemma OrderFrom(edges: Edges, edges': Edges, e: Node)
    requires e in edges && edges.Keys == edges'.Keys
    ensures KeyOrder(edges', [e] + SomeOrder(edges.Keys - {e}))
  {
    var rest := SomeOrder(edges.Keys - {e});
    var roots := [e] + rest;
    forall i, j | 0 <= i < j < |roots|
      ensures roots[i] != roots[j]
    {
      assert roots[j] == rest[j - 1] && rest[j - 1] in rest;
    }
  }

  /** The docstring's "every simple cycle", made exact: whatever order the keys are sorted in
      and each node's targets are listed in, every simple cycle is returned, if and only if
      distinct simple cycles share no edge. */
  lemma AllCyclesIff(edges: Edges)
    ensures (forall edges', roots :: Reordered(edges, edges') && KeyOrder(edges', roots) ==>
               ReturnsAll(edges, Found(edges', roots)))
       <==> EdgeDisjoint(edges)
  {
    if EdgeDisjoint(edges) {
      forall edges', roots | Reordered(edges, edges') && KeyOrder(edges', roots)
        ensures ReturnsAll(edges, Found(edges', roots))
      {
        DisjointReordered(edges, edges');
        DisjointReturnsAll(edges', roots);
        forall p | IsCycle(edges, p)
          ensures Canonical(p) in Found(edges', roots)
        {
          SameCycles(edges, edges', p);
        }
      }
    } else {
      var p, q :| IsCycle(edges, p) && IsCycle(edges, q) && ShareEdge(p, q) && Canonical(p) != Canonical(q);
      var u, v :| OnCycle(p, u, v) && OnCycle(q, u, v);
      var edges', roots := SomeOrderLoses(edges, p, q, u, v);
      assert IsCycle(edges, q);
      assert !ReturnsAll(edges, Found(edges', roots));
    }
  }

  lemma SomeOrderLoses(edges: Edges, p: seq<Node>, q: seq<Node>, u: Node, v: Node)
    returns (edges': Edges, roots: seq<Node>)
    requires IsCycle(edges, p) && IsCycle(edges, q) && OnCycle(p, u, v) && OnCycle(q, u, v)
    requires Canonical(p) != Canonical(q)
    ensures Reordered(edges, edges') && KeyOrder(edges', roots) && Canonical(q) !in Found(edges', roots)
  {
    var a, b, j, l := SharedEdgeParts(edges, p, q, u, v);
    assert After(a, 0) in Targets(edges, a[0]);
    edges' := Steered(edges, a);
    roots := [a[0]] + SomeOrder(edges.Keys - {a[0]});
    SteeredReorders(edges, a);
    OrderFrom(edges, edges', a[0]);
    SecondIsLost(edges, a, b, j, l, SomeOrder(edges.Keys - {a[0]}));
  }

  // ----- the functional case -----

  /** No node has two different targets. */
  ghost predicate Functional(edges: Edges) {
    forall n, i, j :: 0 <= i < |Targets(edges, n)| && 0 <= j < |Targets(edges, n)| ==>
      Targets(edges, n)[i] == Targets(edges, n)[j]
  }

  lemma OneTarget(edges: Edges, n: Node, u: Node, v: Node)
    requires Functional(edges) && u in Targets(edges, n) && v in Targets(edges, n)
    ensures u == v
  {
  }

  lemma OrbitStep(edges: Edges, a: seq<Node>, b: seq<Node>, k: nat)
    requires Functional(edges) && IsCycle(edges, a) && IsCycle(edges, b) && k + 1 < |a| && k + 1 < |b|
    requires a[k] == b[k]
    ensures a[k + 1] == b[k + 1]
  {
    assert After(a, k) in Targets(edges, a[k]) && After(b, k) in Targets(edges, b[k]);
    OneTarget(edges, a[k], a[k + 1], b[k + 1]);
  }

  lemma {:induction false} SameOrbit(a: seq<Node>, b: seq<Node>, k: nat)
    requires k < |a| && k < |b| && a[0] == b[0]
    requires forall i :: 0 <= i < k && a[i] == b[i] ==> a[i + 1] == b[i + 1]
    ensures forall i :: 0 <= i <= k ==> a[i] == b[i]
  {
    if k == 0 {
    } else {
      SameOrbit(a, b, k - 1);
      assert a[k - 1] == b[k - 1] && a[k - 1 + 1] == b[k - 1 + 1];
    }
  }

  /** Two cycles that start alike have the same length: the shorter one's closing edge
      brings the longer one back too. */
  lemma OrbitCloses(edges: Edges, a: seq<Node>, b: seq<Node>)
    requires Functional(edges) && IsCycle(edges, a) && IsCycle(edges, b) && |a| <= |b| && a == b[..|a|]
    ensures a == b
  {
    var k := |a| - 1;
    assert a[k] == b[k] && a[0] == b[0];
    assert After(a, k) in Targets(edges, a[k]) && After(b, k) in Targets(edges, b[k]);
    OneTarget(edges, a[k], After(a, k), After(b, k));
    assert After(b, k) == b[0];
  }

  lemma SameStartSameCycle(edges: Edges, a: seq<Node>, b: seq<Node>)
    requires Functional(edges) && IsCycle(edges, a) && IsCycle(edges, b) && a[0] == b[0] && |a| <= |b|
    ensures a == b
  {
    forall i | 0 <= i < |a| - 1 && a[i] == b[i]
      ensures a[i + 1] == b[i + 1]
    {
      OrbitStep(edges, a, b, i);
    }
    SameOrbit(a, b, |a| - 1);
    assert a == b[..|a|];
    OrbitCloses(edges, a, b);
  }

  /** Where no node has two different targets, cycles that share an edge are the same. */
  lemma FunctionalIsDisjoint(edges: Edges)
    requires Functional(edges)
    ensures EdgeDisjoint(edges)
  {
    forall p, q | IsCycle(edges, p) && IsCycle(edges, q) && ShareEdge(p, q)
      ensures Canonical(p) == Canonical(q)
    {
      var u, v :| OnCycle(p, u, v) && OnCycle(q, u, v);
      var a := BeginAfter(edges, p, u, v);
      var b := BeginAfter(edges, q, u, v);
      if |a| <= |b| {
        SameStartSameCycle(edges, a, b);
      } else {
        SameStartSameCycle(edges, b, a);
      }
    }
  }

  /** In a graph where no node has two different targets, every simple cycle is returned. */
  lemma AllCyclesIfFunctional(edges: Edges, roots: seq<Node>, p: seq<Node>)
    requires forall n :: n in edges ==> n in roots
    requires Functional(edges) && IsCycle(edges, p)
    ensures Canonical(p) in Found(edges, roots)
  {
    FunctionalIsDisjoint(edges);
    DisjointReturnsAll(edges, roots);
  }
}
