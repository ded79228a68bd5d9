/** `find_cycles`: iterative depth-first search with an explicit colour map.

  The search is given twice: as a step machine, whose invariants are proved, and as the
  nested loops of the source, proved to end where the machine ends. Goal ids are
  integers; only their order matters. */
module CycleFinder {
  import Digraph
  import Sets

  type Node = int
  type Edges = map<Node, seq<Node>>

  datatype Colour = Grey | Black

  /** A stack frame: a node and how many of its targets the iterator has given. */
  datatype Frame = Frame(node: Node, next: nat)

  /** Nodes absent from `colour` are white. */
  datatype Dfs = Dfs(colour: map<Node, Colour>, stack: seq<Frame>, cycles: seq<seq<Node>>)

  function Targets(edges: Edges, n: Node): seq<Node> {
    if n in edges then edges[n] else []
  }

  function Path(stack: seq<Frame>): (p: seq<Node>)
    ensures |p| == |stack| && forall i :: 0 <= i < |p| ==> p[i] == stack[i].node
  {
    seq(|stack|, i requires 0 <= i < |stack| => stack[i].node)
  }

  /** `path.index(x)`; the length when absent. */
  function IndexOf(path: seq<Node>, x: Node): (i: nat)
    ensures i <= |path| && (i < |path| ==> path[i] == x) && (x in path ==> i < |path|)
  {
    if path == [] || path[0] == x then 0 else 1 + IndexOf(path[1..], x)
  }

  function Min(path: seq<Node>): (m: Node)
    requires path != []
    ensures m in path && forall i :: 0 <= i < |path| ==> m <= path[i]
  {
    if |path| == 1 then path[0]
    else
      var rest := Min(path[1..]);
      if path[0] <= rest then path[0] else rest
  }

  function Rotate(path: seq<Node>, i: nat): seq<Node>
    requires i <= |path|
  {
    path[i..] + path[..i]
  }

  function Canonical(path: seq<Node>): seq<Node>
    requires path != []
  {
    Rotate(path, IndexOf(path, Min(path)))
  }

  function Record(cycles: seq<seq<Node>>, path: seq<Node>): seq<seq<Node>> {
    if path == [] || Canonical(path) in cycles then cycles else cycles + [Canonical(path)]
  }

  ghost function Universe(edges: Edges): set<Node> {
    edges.Keys + (set n, i | n in edges && 0 <= i < |edges[n]| :: edges[n][i])
  }

  /** The top iterator gives one more target. */
  function Advanced(stack: seq<Frame>): seq<Frame>
    requires stack != []
  {
    var top := stack[|stack| - 1];
    stack[..|stack| - 1] + [Frame(top.node, top.next + 1)]
  }

  /** One turn of the inner loop, or the pop after it. */
  function Step(edges: Edges, s: Dfs): Dfs
    requires s.stack != []
  {
    var top := s.stack[|s.stack| - 1];
    var targets := Targets(edges, top.node);
    if top.next < |targets| then
      var nxt := targets[top.next];
      var stack := Advanced(s.stack);
      if nxt !in s.colour then Dfs(s.colour[nxt := Grey], stack + [Frame(nxt, 0)], s.cycles)
      else if s.colour[nxt] == Grey then
        Dfs(s.colour, stack, Record(s.cycles, Path(s.stack)[IndexOf(Path(s.stack), nxt)..]))
      else Dfs(s.colour, stack, s.cycles)
    else Dfs(s.colour[top.node := Black], s.stack[..|s.stack| - 1], s.cycles)
  }

  function Remaining(edges: Edges, s: Dfs): nat {
    if s.stack == [] then 0
    else
      var top := s.stack[|s.stack| - 1];
      var n := |Targets(edges, top.node)|;
      if top.next < n then n - top.next else 0
  }

  lemma StepDecreases(edges: Edges, s: Dfs)
    requires s.stack != []
    ensures var t := Step(edges, s);
            || Universe(edges) - t.colour.Keys < Universe(edges) - s.colour.Keys
            || (Universe(edges) - t.colour.Keys == Universe(edges) - s.colour.Keys && |t.stack| < |s.stack|)
            || (t.colour == s.colour && |t.stack| == |s.stack| && Remaining(edges, t) < Remaining(edges, s))
    ensures var top := s.stack[|s.stack| - 1];
            top.next >= |Targets(edges, top.node)| && top.node in s.colour ==>
              Step(edges, s).colour.Keys == s.colour.Keys
  {
    var top := s.stack[|s.stack| - 1];
    var t := Step(edges, s);
    if top.next < |Targets(edges, top.node)| {
      var nxt := Targets(edges, top.node)[top.next];
      assert nxt in Universe(edges);
      if nxt !in s.colour { assert nxt in Universe(edges) - s.colour.Keys && nxt !in Universe(edges) - t.colour.Keys; }
    } else if top.node in Universe(edges) - s.colour.Keys {
      assert top.node !in Universe(edges) - t.colour.Keys;
    } else {
      assert Universe(edges) - t.colour.Keys == Universe(edges) - s.colour.Keys;
    }
  }

  /** Run until the stack is empty. */
  function Explore(edges: Edges, s: Dfs): Dfs
    decreases Universe(edges) - s.colour.Keys, |s.stack|, Remaining(edges, s)
  {
    if s.stack == [] then s
    else
      StepDecreases(edges, s);
      Explore(edges, Step(edges, s))
  }

  function Begin(s: Dfs, root: Node): Dfs {
    Dfs(s.colour[root := Grey], [Frame(root, 0)], s.cycles)
  }

  function Search(edges: Edges, roots: seq<Node>, s: Dfs): Dfs {
    if roots == [] then s
    else Search(edges, roots[1..], if roots[0] in s.colour then s else Explore(edges, Begin(s, roots[0])))
  }

  function Found(edges: Edges, roots: seq<Node>): seq<seq<Node>> {
    Search(edges, roots, Dfs(map[], [], [])).cycles
  }

  // ----- what a cycle is -----

  predicate Distinct(p: seq<Node>) {
    forall i, j :: 0 <= i < j < |p| ==> p[i] != p[j]
  }

  function After(p: seq<Node>, i: nat): Node
    requires i < |p|
  {
    if i + 1 < |p| then p[i + 1] else p[0]
  }

  /** A simple cycle, without the repeated closing node; a self-loop is one node. */
  predicate IsCycle(edges: Edges, p: seq<Node>) {
    p != [] && Distinct(p) && forall i :: 0 <= i < |p| ==> After(p, i) in Targets(edges, p[i])
  }

  predicate MinFirst(p: seq<Node>) {
    p != [] && forall i :: 0 <= i < |p| ==> p[0] <= p[i]
  }

  /** `u -> v` is one of the edges of `p`. */
  ghost predicate OnCycle(p: seq<Node>, u: Node, v: Node) {
    exists i :: 0 <= i < |p| && p[i] == u && After(p, i) == v
  }

  ghost predicate Closes(cycles: seq<seq<Node>>, u: Node, v: Node) {
    exists c :: c in cycles && OnCycle(c, u, v)
  }

  /** The place in `p` of what stands at place `i` of its rotation by `k`. */
  function Shift(i: nat, k: nat, n: nat): (j: nat)
    requires i < n && k < n
    ensures j < n
  {
    if i + k < n then i + k else i + k - n
  }

  lemma RotateAt(p: seq<Node>, k: nat, i: nat)
    requires i < |p| && k < |p|
    ensures |Rotate(p, k)| == |p|
    ensures Rotate(p, k)[i] == p[Shift(i, k, |p|)]
    ensures After(Rotate(p, k), i) == After(p, Shift(i, k, |p|))
  {
  }

  lemma RotateOnCycle(p: seq<Node>, k: nat, u: Node, v: Node)
    requires k < |p| && OnCycle(p, u, v)
    ensures OnCycle(Rotate(p, k), u, v)
  {
    var j :| 0 <= j < |p| && p[j] == u && After(p, j) == v;
    var i := if j >= k then j - k else j - k + |p|;
    assert Shift(i, k, |p|) == j;
    RotateAt(p, k, i);
  }

  lemma RotationIsCycle(edges: Edges, p: seq<Node>, k: nat)
    requires IsCycle(edges, p) && k < |p|
    ensures IsCycle(edges, Rotate(p, k))
    ensures forall u, v :: OnCycle(p, u, v) ==> OnCycle(Rotate(p, k), u, v)
  {
    var r, n := Rotate(p, k), |p|;
    forall i, j | 0 <= i < j < n
      ensures r[i] != r[j]
    {
      RotateAt(p, k, i);
      RotateAt(p, k, j);
    }
    forall i | 0 <= i < n
      ensures After(r, i) in Targets(edges, r[i])
    {
      RotateAt(p, k, i);
    }
    forall u, v | OnCycle(p, u, v)
      ensures OnCycle(r, u, v)
    {
      RotateOnCycle(p, k, u, v);
    }
  }

  lemma CanonicalIsCycle(edges: Edges, p: seq<Node>)
    requires IsCycle(edges, p)
    ensures IsCycle(edges, Canonical(p)) && MinFirst(Canonical(p))
    ensures forall u, v :: OnCycle(p, u, v) ==> OnCycle(Canonical(p), u, v)
  {
    RotationIsCycle(edges, p, IndexOf(p, Min(p)));
    CanonicalMinFirst(p);
  }

  lemma CanonicalMinFirst(p: seq<Node>)
    requires p != []
    ensures MinFirst(Canonical(p))
  {
    var r := Canonical(p);
    assert r[0] == Min(p) && forall i :: 0 <= i < |r| ==> r[i] in p;
  }

  /** Two canonical cycles that are rotations of each other are the same list. */
  lemma RotationsAreEqual(p: seq<Node>, k: nat)
    requires Distinct(p) && MinFirst(p) && k < |p| && MinFirst(Rotate(p, k))
    ensures Rotate(p, k) == p
  {
    assert Rotate(p, k)[0] == p[k];
    assert p[0] in Rotate(p, k);
  }

  // ----- the invariant -----

  /** Grey is on the stack; `order` lists the black nodes in the order they turned black. */
  ghost predicate ColoursOk(s: Dfs, order: seq<Node>) {
    && (forall n :: n in order <==> n in s.colour && s.colour[n] == Black)
    && (forall n :: n in Path(s.stack) <==> n in s.colour && s.colour[n] == Grey)
  }

  /** Each frame was pushed for the target its parent's iterator gave last. */
  ghost predicate LinkOk(edges: Edges, stack: seq<Frame>, i: nat)
    requires i < |stack|
  {
    var f := stack[i];
    && f.next <= |Targets(edges, f.node)|
    && (i + 1 < |stack| ==> f.next >= 1 && stack[i + 1].node == Targets(edges, f.node)[f.next - 1])
  }

  ghost predicate StackOk(edges: Edges, stack: seq<Frame>) {
    && Distinct(Path(stack))
    && forall i {:trigger LinkOk(edges, stack, i)} :: 0 <= i < |stack| ==> LinkOk(edges, stack, i)
  }

  /** Every edge out of a black node leads to an earlier black node or is on a returned cycle. */
  ghost predicate BlackOk(edges: Edges, cycles: seq<seq<Node>>, order: seq<Node>) {
    forall k, v :: 0 <= k < |order| && v in Targets(edges, order[k]) ==> v in order[..k] || Closes(cycles, order[k], v)
  }

  /** So does every edge a grey node's iterator has given, or it leads up the stack. */
  ghost predicate GivenOk(edges: Edges, stack: seq<Frame>, cycles: seq<seq<Node>>, order: seq<Node>, i: nat, v: Node)
    requires i < |stack|
  {
    v in order || Closes(cycles, stack[i].node, v) || (i + 1 < |stack| && v == stack[i + 1].node)
  }

  ghost predicate GreyOk(edges: Edges, stack: seq<Frame>, cycles: seq<seq<Node>>, order: seq<Node>) {
    forall i, j {:trigger GivenOk(edges, stack, cycles, order, i, Targets(edges, stack[i].node)[j])} ::
      0 <= i < |stack| && 0 <= j < stack[i].next <= |Targets(edges, stack[i].node)| ==>
        GivenOk(edges, stack, cycles, order, i, Targets(edges, stack[i].node)[j])
  }

  ghost predicate CyclesOk(edges: Edges, cycles: seq<seq<Node>>) {
    && (forall k :: 0 <= k < |cycles| ==> IsCycle(edges, cycles[k]) && MinFirst(cycles[k]))
    && forall j, k :: 0 <= j < k < |cycles| ==> cycles[j] != cycles[k]
  }

  ghost predicate Inv(edges: Edges, s: Dfs, order: seq<Node>) {
    && ColoursOk(s, order)
    && StackOk(edges, s.stack)
    && BlackOk(edges, s.cycles, order)
    && GreyOk(edges, s.stack, s.cycles, order)
    && CyclesOk(edges, s.cycles)
  }

  // ----- the stack -----

  lemma AdvanceStack(edges: Edges, stack: seq<Frame>)
    requires StackOk(edges, stack) && stack != []
    requires var top := stack[|stack| - 1]; top.next < |Targets(edges, top.node)|
    ensures StackOk(edges, Advanced(stack)) && Path(Advanced(stack)) == Path(stack)
  {
    var more := Advanced(stack);
    assert Path(more) == Path(stack);
    forall i | 0 <= i < |more|
      ensures LinkOk(edges, more, i)
    {
      assert LinkOk(edges, stack, i);
    }
  }

  lemma PushStack(edges: Edges, stack: seq<Frame>, nxt: Node)
    requires StackOk(edges, stack) && stack != [] && nxt !in Path(stack)
    requires var top := stack[|stack| - 1];
             1 <= top.next <= |Targets(edges, top.node)| && Targets(edges, top.node)[top.next - 1] == nxt
    ensures StackOk(edges, stack + [Frame(nxt, 0)]) && Path(stack + [Frame(nxt, 0)]) == Path(stack) + [nxt]
  {
    var more := stack + [Frame(nxt, 0)];
    assert Path(more) == Path(stack) + [nxt];
    forall i | 0 <= i < |more|
      ensures LinkOk(edges, more, i)
    {
      if i < |stack| { assert LinkOk(edges, stack, i); }
    }
  }

  lemma PopStack(edges: Edges, stack: seq<Frame>)
    requires StackOk(edges, stack) && stack != []
    ensures var less := stack[..|stack| - 1];
            StackOk(edges, less) && Path(stack) == Path(less) + [stack[|stack| - 1].node]
            && stack[|stack| - 1].node !in Path(less)
  {
    var less := stack[..|stack| - 1];
    assert Path(stack) == Path(less) + [stack[|stack| - 1].node];
    forall i | 0 <= i < |less|
      ensures LinkOk(edges, less, i)
    {
      assert LinkOk(edges, stack, i);
    }
  }

  // ----- edges given so far -----

  lemma GivenAt(edges: Edges, stack: seq<Frame>, cycles: seq<seq<Node>>, order: seq<Node>, i: nat, j: nat)
    requires GreyOk(edges, stack, cycles, order) && i < |stack| && j < stack[i].next <= |Targets(edges, stack[i].node)|
    ensures GivenOk(edges, stack, cycles, order, i, Targets(edges, stack[i].node)[j])
  {
  }

  lemma ClosesGrows(cycles: seq<seq<Node>>, path: seq<Node>, u: Node, v: Node)
    requires Closes(cycles, u, v)
    ensures Closes(Record(cycles, path), u, v)
  {
    var c :| c in cycles && OnCycle(c, u, v);
    assert c in Record(cycles, path);
  }

  lemma GreyRecords(edges: Edges, stack: seq<Frame>, cycles: seq<seq<Node>>, order: seq<Node>, path: seq<Node>)
    requires GreyOk(edges, stack, cycles, order)
    ensures GreyOk(edges, stack, Record(cycles, path), order)
  {
    forall i, j | 0 <= i < |stack| && 0 <= j < stack[i].next <= |Targets(edges, stack[i].node)|
      ensures GivenOk(edges, stack, Record(cycles, path), order, i, Targets(edges, stack[i].node)[j])
    {
      GivenAt(edges, stack, cycles, order, i, j);
      var v := Targets(edges, stack[i].node)[j];
      if Closes(cycles, stack[i].node, v) { ClosesGrows(cycles, path, stack[i].node, v); }
    }
  }

  lemma BlackRecords(edges: Edges, cycles: seq<seq<Node>>, order: seq<Node>, path: seq<Node>)
    requires BlackOk(edges, cycles, order)
    ensures BlackOk(edges, Record(cycles, path), order)
  {
    forall k, v | 0 <= k < |order| && v in Targets(edges, order[k])
      ensures v in order[..k] || Closes(Record(cycles, path), order[k], v)
    {
      if v !in order[..k] { ClosesGrows(cycles, path, order[k], v); }
    }
  }

  lemma GreyAdvances(edges: Edges, stack: seq<Frame>, cycles: seq<seq<Node>>, order: seq<Node>)
    requires GreyOk(edges, stack, cycles, order) && stack != []
    requires var top := stack[|stack| - 1];
             top.next < |Targets(edges, top.node)|
             && var v := Targets(edges, top.node)[top.next]; v in order || Closes(cycles, top.node, v)
    ensures GreyOk(edges, Advanced(stack), cycles, order)
  {
    var more := Advanced(stack);
    forall i, j | 0 <= i < |more| && 0 <= j < more[i].next <= |Targets(edges, more[i].node)|
      ensures GivenOk(edges, more, cycles, order, i, Targets(edges, more[i].node)[j])
    {
      if j < stack[i].next { GivenAt(edges, stack, cycles, order, i, j); }
    }
  }

  lemma GreyPushes(edges: Edges, stack: seq<Frame>, cycles: seq<seq<Node>>, order: seq<Node>)
    requires GreyOk(edges, stack, cycles, order) && stack != []
    requires var top := stack[|stack| - 1]; top.next < |Targets(edges, top.node)|
    ensures var top := stack[|stack| - 1];
            GreyOk(edges, Advanced(stack) + [Frame(Targets(edges, top.node)[top.next], 0)], cycles, order)
  {
    var top := stack[|stack| - 1];
    var more := Advanced(stack) + [Frame(Targets(edges, top.node)[top.next], 0)];
    forall i, j | 0 <= i < |more| && 0 <= j < more[i].next <= |Targets(edges, more[i].node)|
      ensures GivenOk(edges, more, cycles, order, i, Targets(edges, more[i].node)[j])
    {
      if j < stack[i].next { GivenAt(edges, stack, cycles, order, i, j); }
    }
  }

  lemma GreyPops(edges: Edges, stack: seq<Frame>, cycles: seq<seq<Node>>, order: seq<Node>)
    requires GreyOk(edges, stack, cycles, order) && stack != []
    ensures GreyOk(edges, stack[..|stack| - 1], cycles, order + [stack[|stack| - 1].node])
  {
    var less, more := stack[..|stack| - 1], order + [stack[|stack| - 1].node];
    forall i, j | 0 <= i < |less| && 0 <= j < less[i].next <= |Targets(edges, less[i].node)|
      ensures GivenOk(edges, less, cycles, more, i, Targets(edges, less[i].node)[j])
    {
      GivenAt(edges, stack, cycles, order, i, j);
    }
  }

  lemma BlackPops(edges: Edges, stack: seq<Frame>, cycles: seq<seq<Node>>, order: seq<Node>)
    requires BlackOk(edges, cycles, order) && GreyOk(edges, stack, cycles, order) && stack != []
    requires var top := stack[|stack| - 1]; top.next == |Targets(edges, top.node)|
    ensures BlackOk(edges, cycles, order + [stack[|stack| - 1].node])
  {
    var n := |stack| - 1;
    var node := stack[n].node;
    var more := order + [node];
    forall k, v | 0 <= k < |more| && v in Targets(edges, more[k])
      ensures v in more[..k] || Closes(cycles, more[k], v)
    {
      if k < |order| {
        assert more[..k] == order[..k];
      } else {
        assert more[..k] == order;
        var j :| 0 <= j < |Targets(edges, node)| && Targets(edges, node)[j] == v;
        GivenAt(edges, stack, cycles, order, n, j);
      }
    }
  }

  // ----- one step -----

  /** The path from a grey target up to the top is a cycle, closed by the edge just read. */
  lemma BackEdgeIsCycle(edges: Edges, stack: seq<Frame>, nxt: Node)
    requires StackOk(edges, stack) && stack != [] && nxt in Path(stack)
    requires nxt in Targets(edges, stack[|stack| - 1].node)
    ensures var p := Path(stack)[IndexOf(Path(stack), nxt)..];
            IsCycle(edges, p) && OnCycle(p, stack[|stack| - 1].node, nxt)
  {
    var path := Path(stack);
    var i := IndexOf(path, nxt);
    PathLinks(edges, stack);
    ClosedSuffix(edges, path, i);
  }

  lemma PathLinks(edges: Edges, stack: seq<Frame>)
    requires StackOk(edges, stack)
    ensures forall k :: 0 <= k < |stack| - 1 ==> Path(stack)[k + 1] in Targets(edges, Path(stack)[k])
  {
    forall k | 0 <= k < |stack| - 1
      ensures Path(stack)[k + 1] in Targets(edges, Path(stack)[k])
    {
      assert LinkOk(edges, stack, k);
    }
  }

  /** A suffix of a linked path whose last node leads back to its first is a cycle. */
  lemma ClosedSuffix(edges: Edges, path: seq<Node>, i: nat)
    requires Distinct(path) && i < |path| && path[i] in Targets(edges, path[|path| - 1])
    requires forall k :: 0 <= k < |path| - 1 ==> path[k + 1] in Targets(edges, path[k])
    ensures IsCycle(edges, path[i..]) && OnCycle(path[i..], path[|path| - 1], path[i])
  {
    var p := path[i..];
    forall k | 0 <= k < |p|
      ensures After(p, k) in Targets(edges, p[k])
    {
      assert p[k] == path[i + k];
    }
    SuffixCloses(path, i);
  }

  lemma SuffixCloses(path: seq<Node>, i: nat)
    requires i < |path|
    ensures OnCycle(path[i..], path[|path| - 1], path[i])
  {
    var p := path[i..];
    assert p[|p| - 1] == path[|path| - 1] && After(p, |p| - 1) == path[i];
  }

  lemma RecordOk(edges: Edges, cycles: seq<seq<Node>>, p: seq<Node>)
    requires CyclesOk(edges, cycles) && IsCycle(edges, p)
    ensures CyclesOk(edges, Record(cycles, p))
    ensures forall u, v :: OnCycle(p, u, v) ==> Closes(Record(cycles, p), u, v)
  {
    CanonicalIsCycle(edges, p);
    RecordCloses(cycles, p);
    if Record(cycles, p) != cycles { CyclesSnoc(edges, cycles, Canonical(p)); }
  }

  lemma CyclesSnoc(edges: Edges, cycles: seq<seq<Node>>, c: seq<Node>)
    requires CyclesOk(edges, cycles) && IsCycle(edges, c) && MinFirst(c) && c !in cycles
    ensures CyclesOk(edges, cycles + [c])
  {
  }

  lemma RecordCloses(cycles: seq<seq<Node>>, p: seq<Node>)
    requires p != [] && forall u, v :: OnCycle(p, u, v) ==> OnCycle(Canonical(p), u, v)
    ensures forall u, v :: OnCycle(p, u, v) ==> Closes(Record(cycles, p), u, v)
  {
    assert Canonical(p) in Record(cycles, p);
  }

  ghost predicate Gives(edges: Edges, s: Dfs, nxt: Node) {
    && s.stack != []
    && var top := s.stack[|s.stack| - 1];
       top.next < |Targets(edges, top.node)| && Targets(edges, top.node)[top.next] == nxt
  }

  lemma StepPushes(edges: Edges, s: Dfs, order: seq<Node>, nxt: Node)
    requires Inv(edges, s, order) && Gives(edges, s, nxt) && nxt !in s.colour
    ensures Inv(edges, Step(edges, s), order)
  {
    AdvanceStack(edges, s.stack);
    PushStack(edges, Advanced(s.stack), nxt);
    GreyPushes(edges, s.stack, s.cycles, order);
  }

  ghost function Recorded(s: Dfs, nxt: Node): seq<seq<Node>> {
    Record(s.cycles, Path(s.stack)[IndexOf(Path(s.stack), nxt)..])
  }

  lemma BackEdgeRecorded(edges: Edges, s: Dfs, nxt: Node)
    requires StackOk(edges, s.stack) && CyclesOk(edges, s.cycles) && Gives(edges, s, nxt) && nxt in Path(s.stack)
    ensures CyclesOk(edges, Recorded(s, nxt)) && Closes(Recorded(s, nxt), s.stack[|s.stack| - 1].node, nxt)
  {
    BackEdgeIsCycle(edges, s.stack, nxt);
    RecordOk(edges, s.cycles, Path(s.stack)[IndexOf(Path(s.stack), nxt)..]);
  }

  lemma RecordedGiven(edges: Edges, s: Dfs, order: seq<Node>, nxt: Node)
    requires GreyOk(edges, s.stack, s.cycles, order) && BlackOk(edges, s.cycles, order) && Gives(edges, s, nxt)
    requires Closes(Recorded(s, nxt), s.stack[|s.stack| - 1].node, nxt)
    ensures GreyOk(edges, Advanced(s.stack), Recorded(s, nxt), order) && BlackOk(edges, Recorded(s, nxt), order)
  {
    var p := Path(s.stack)[IndexOf(Path(s.stack), nxt)..];
    BlackRecords(edges, s.cycles, order, p);
    GreyRecords(edges, s.stack, s.cycles, order, p);
    GreyAdvances(edges, s.stack, Recorded(s, nxt), order);
  }

  lemma StepRecordsIs(edges: Edges, s: Dfs, nxt: Node)
    requires Gives(edges, s, nxt) && nxt in s.colour && s.colour[nxt] == Grey
    ensures Step(edges, s) == Dfs(s.colour, Advanced(s.stack), Recorded(s, nxt))
  {
  }

  lemma InvFrom(edges: Edges, s: Dfs, t: Dfs, order: seq<Node>)
    requires ColoursOk(s, order) && t.colour == s.colour && Path(t.stack) == Path(s.stack)
    requires StackOk(edges, t.stack) && CyclesOk(edges, t.cycles)
    requires BlackOk(edges, t.cycles, order) && GreyOk(edges, t.stack, t.cycles, order)
    ensures Inv(edges, t, order)
  {
  }

  lemma StepRecords(edges: Edges, s: Dfs, order: seq<Node>, nxt: Node)
    requires Inv(edges, s, order) && Gives(edges, s, nxt) && nxt in s.colour && s.colour[nxt] == Grey
    ensures Inv(edges, Step(edges, s), order)
  {
    AdvanceStack(edges, s.stack);
    BackEdgeRecorded(edges, s, nxt);
    RecordedGiven(edges, s, order, nxt);
    StepRecordsIs(edges, s, nxt);
    InvFrom(edges, s, Dfs(s.colour, Advanced(s.stack), Recorded(s, nxt)), order);
  }

  lemma StepSkips(edges: Edges, s: Dfs, order: seq<Node>, nxt: Node)
    requires Inv(edges, s, order) && Gives(edges, s, nxt) && nxt in s.colour && s.colour[nxt] == Black
    ensures Inv(edges, Step(edges, s), order)
  {
    AdvanceStack(edges, s.stack);
    GreyAdvances(edges, s.stack, s.cycles, order);
  }

  lemma StepGives(edges: Edges, s: Dfs, order: seq<Node>, nxt: Node)
    requires Inv(edges, s, order) && Gives(edges, s, nxt)
    ensures Inv(edges, Step(edges, s), order)
  {
    if nxt !in s.colour {
      StepPushes(edges, s, order, nxt);
    } else if s.colour[nxt] == Grey {
      StepRecords(edges, s, order, nxt);
    } else {
      StepSkips(edges, s, order, nxt);
    }
  }

  lemma StepPops(edges: Edges, s: Dfs, order: seq<Node>)
    requires Inv(edges, s, order) && s.stack != []
    requires var top := s.stack[|s.stack| - 1]; top.next >= |Targets(edges, top.node)|
    ensures Inv(edges, Step(edges, s), order + [s.stack[|s.stack| - 1].node])
  {
    assert LinkOk(edges, s.stack, |s.stack| - 1);
    PopStack(edges, s.stack);
    GreyPops(edges, s.stack, s.cycles, order);
    BlackPops(edges, s.stack, s.cycles, order);
  }

  lemma {:induction false} ExploreKeepsInv(edges: Edges, s: Dfs, order: seq<Node>) returns (more: seq<Node>)
    requires Inv(edges, s, order)
    ensures var t := Explore(edges, s);
            Inv(edges, t, more) && t.stack == [] && s.colour.Keys <= t.colour.Keys
    decreases Universe(edges) - s.colour.Keys, |s.stack|, Remaining(edges, s)
  {
    if s.stack == [] {
      more := order;
    } else {
      StepDecreases(edges, s);
      var top := s.stack[|s.stack| - 1];
      if top.next < |Targets(edges, top.node)| {
        StepGives(edges, s, order, Targets(edges, top.node)[top.next]);
        more := ExploreKeepsInv(edges, Step(edges, s), order);
      } else {
        StepPops(edges, s, order);
        more := ExploreKeepsInv(edges, Step(edges, s), order + [top.node]);
      }
    }
  }

  lemma BeginKeepsInv(edges: Edges, s: Dfs, root: Node, order: seq<Node>)
    requires Inv(edges, s, order) && s.stack == [] && root !in s.colour
    ensures Inv(edges, Begin(s, root), order)
  {
    var t := Begin(s, root);
    assert Path(t.stack) == [root];
    assert LinkOk(edges, t.stack, 0);
  }

  lemma {:induction false} SearchKeepsInv(edges: Edges, roots: seq<Node>, s: Dfs, order: seq<Node>)
    returns (more: seq<Node>)
    requires Inv(edges, s, order) && s.stack == []
    ensures var t := Search(edges, roots, s);
            && Inv(edges, t, more) && t.stack == [] && s.colour.Keys <= t.colour.Keys
            && forall n :: n in roots ==> n in t.colour
    decreases |roots|
  {
    if roots == [] {
      more := order;
    } else {
      if roots[0] in s.colour {
        more := SearchKeepsInv(edges, roots[1..], s, order);
      } else {
        BeginKeepsInv(edges, s, roots[0], order);
        var next := ExploreKeepsInv(edges, Begin(s, roots[0]), order);
        more := SearchKeepsInv(edges, roots[1..], Explore(edges, Begin(s, roots[0])), next);
      }
      assert roots == [roots[0]] + roots[1..];
    }
  }

  // ----- what the result means -----

  ghost function EdgeSet(edges: Edges): set<(Node, Node)> {
    set n, i | n in edges && 0 <= i < |edges[n]| :: (n, edges[n][i])
  }

  /** The member of a set that turned black first has no successor in the set before it. */
  lemma EarliestLeaves(order: seq<Node>, r: set<Node>) returns (k: nat)
    requires r != {} && forall x :: x in r ==> x in order
    ensures k < |order| && order[k] in r && forall y :: y in r ==> y !in order[..k]
  {
    var some := Sets.AnyOf(r);
    var pos :| 0 <= pos < |order| && order[pos] == some;
    k := 0;
    while order[k] !in r
      invariant k <= pos && forall i :: 0 <= i < k ==> order[i] !in r
      decreases pos - k
    {
      k := k + 1;
    }
  }

  lemma FoundOk(edges: Edges, roots: seq<Node>) returns (order: seq<Node>)
    requires forall n :: n in edges ==> n in roots
    ensures CyclesOk(edges, Found(edges, roots)) && BlackOk(edges, Found(edges, roots), order)
    ensures forall n :: n in edges ==> n in order
  {
    var start := Dfs(map[], [], []);
    assert Inv(edges, start, []);
    order := SearchKeepsInv(edges, roots, start, []);
    var t := Search(edges, roots, start);
    assert forall n :: n in edges ==> n in t.colour && n !in Path(t.stack);
  }

  /** Every cycle of the graph shares an edge with a returned one. */
  lemma EveryCycleIsHit(edges: Edges, roots: seq<Node>, p: seq<Node>) returns (i: nat)
    requires forall n :: n in edges ==> n in roots
    requires IsCycle(edges, p)
    ensures i < |p| && Closes(Found(edges, roots), p[i], After(p, i))
  {
    var order := FoundOk(edges, roots);
    var r := set j | 0 <= j < |p| :: p[j];
    forall x | x in r
      ensures x in order
    {
      var j :| 0 <= j < |p| && p[j] == x;
      assert After(p, j) in Targets(edges, p[j]);
    }
    assert p[0] in r;
    var k := EarliestLeaves(order, r);
    i :| 0 <= i < |p| && p[i] == order[k];
    assert After(p, i) in Targets(edges, order[k]);
    assert After(p, i) == p[if i + 1 < |p| then i + 1 else 0];
    assert After(p, i) in r;
  }

  lemma CycleIsCyclic(edges: Edges, p: seq<Node>)
    requires IsCycle(edges, p)
    ensures !Digraph.Acyclic(EdgeSet(edges))
  {
    var r := set j | 0 <= j < |p| :: p[j];
    forall x | x in r
      ensures Digraph.HasNext(EdgeSet(edges), r, x)
    {
      var j :| 0 <= j < |p| && p[j] == x;
      assert After(p, j) == p[if j + 1 < |p| then j + 1 else 0];
      assert After(p, j) in Targets(edges, x);
      assert (x, After(p, j)) in EdgeSet(edges);
      assert After(p, j) in r;
    }
    assert p[0] in r;
    assert Digraph.Trap(EdgeSet(edges), r);
    Digraph.TrapGivesCycle(EdgeSet(edges), r);
  }

  /** The result is empty exactly when the graph has no closed walk at all. */
  lemma EmptyIffAcyclic(edges: Edges, roots: seq<Node>)
    requires forall n :: n in edges ==> n in roots
    ensures Found(edges, roots) == [] <==> Digraph.Acyclic(EdgeSet(edges))
  {
    var order := FoundOk(edges, roots);
    var cycles := Found(edges, roots);
    if cycles != [] {
      CycleIsCyclic(edges, cycles[0]);
    } else {
      forall r: set<Node>
        ensures !Digraph.Trap(EdgeSet(edges), r)
      {
        if Digraph.Trap(EdgeSet(edges), r) { TrapIsClosed(edges, cycles, order, r); }
      }
      Digraph.AcyclicIffNoTrap(EdgeSet(edges));
    }
  }

  lemma TrapIsClosed(edges: Edges, cycles: seq<seq<Node>>, order: seq<Node>, r: set<Node>)
    requires BlackOk(edges, cycles, order) && (forall n :: n in edges ==> n in order)
    requires Digraph.Trap(EdgeSet(edges), r)
    ensures cycles != []
  {
    forall x | x in r
      ensures x in order
    {
      assert Digraph.HasNext(EdgeSet(edges), r, x);
      var y := Digraph.NextOf(EdgeSet(edges), r, x);
    }
    var k := EarliestLeaves(order, r);
    assert Digraph.HasNext(EdgeSet(edges), r, order[k]);
    var y := Digraph.NextOf(EdgeSet(edges), r, order[k]);
    assert y in Targets(edges, order[k]);
    assert Closes(cycles, order[k], y);
  }

  // ----- a cycle that is not returned -----

  /** The docstring's "every simple cycle" is more than the search gives: of the two cycles
      of 1->2, 1->3, 2->4, 3->4, 4->1 it returns one. */
  lemma DiamondMissesOne(edges: Edges)
    requires edges == map[1 := [2, 3], 2 := [4], 3 := [4], 4 := [1]]
    ensures Found(edges, [1, 2, 3, 4]) == [[1, 2, 4]]
    ensures IsCycle(edges, [1, 2, 4]) && IsCycle(edges, [1, 3, 4]) && MinFirst([1, 3, 4])
  {
    DiamondFound(edges);
    DiamondCycles(edges);
  }

  lemma DiamondFound(edges: Edges)
    requires Diamond(edges)
    ensures Found(edges, [1, 2, 3, 4]) == [[1, 2, 4]]
  {
    var start := Dfs(map[], [], []);
    var s := DiamondDown(edges);
    var t := DiamondUp(edges, s);
    assert [1, 2, 3, 4][1..] == [2, 3, 4];
    SearchRest(edges, t);
    assert Search(edges, [1, 2, 3, 4], start) == Search(edges, [2, 3, 4], t);
  }

  lemma DiamondCycles(edges: Edges)
    requires Diamond(edges)
    ensures IsCycle(edges, [1, 2, 4]) && IsCycle(edges, [1, 3, 4]) && MinFirst([1, 3, 4])
  {
  }

  lemma ExploreStep(edges: Edges, s: Dfs, t: Dfs)
    requires s.stack != [] && Step(edges, s) == t
    ensures Explore(edges, s) == Explore(edges, t)
  {
  }

  ghost predicate Diamond(edges: Edges) {
    Targets(edges, 1) == [2, 3] && Targets(edges, 2) == [4] && Targets(edges, 3) == [4] && Targets(edges, 4) == [1]
  }

  lemma DiamondDown(edges: Edges) returns (s: Dfs)
    requires Diamond(edges)
    ensures s == Dfs(map[1 := Grey, 2 := Grey, 4 := Grey], [Frame(1, 1), Frame(2, 1), Frame(4, 1)], [[1, 2, 4]])
    ensures Explore(edges, Begin(Dfs(map[], [], []), 1)) == Explore(edges, s)
  {
    var s0 := Begin(Dfs(map[], [], []), 1);
    var s1 := Dfs(map[1 := Grey, 2 := Grey], [Frame(1, 1), Frame(2, 0)], []);
    var s2 := Dfs(map[1 := Grey, 2 := Grey, 4 := Grey], [Frame(1, 1), Frame(2, 1), Frame(4, 0)], []);
    ExploreStep(edges, s0, s1);
    ExploreStep(edges, s1, s2);
    s := DiamondRecords(edges, s2);
    ExploreStep(edges, s2, s);
  }

  lemma DiamondUp(edges: Edges, s: Dfs) returns (t: Dfs)
    requires Diamond(edges)
    requires s.colour == map[1 := Grey, 2 := Grey, 4 := Grey]
    requires s.stack == [Frame(1, 1), Frame(2, 1), Frame(4, 1)]
    ensures Explore(edges, s) == t && t.cycles == s.cycles && {1, 2, 3, 4} <= t.colour.Keys
  {
    var s4 := Dfs(s.colour[4 := Black], [Frame(1, 1), Frame(2, 1)], s.cycles);
    var s5 := Dfs(s4.colour[2 := Black], [Frame(1, 1)], s.cycles);
    ExploreStep(edges, s, s4);
    ExploreStep(edges, s4, s5);
    t := DiamondThird(edges, s5);
  }

  lemma DiamondThird(edges: Edges, s: Dfs) returns (t: Dfs)
    requires Diamond(edges)
    requires {1, 2, 4} <= s.colour.Keys && 3 !in s.colour && s.colour[4] == Black
    requires s.stack == [Frame(1, 1)]
    ensures Explore(edges, s) == t && t.cycles == s.cycles && {1, 2, 3, 4} <= t.colour.Keys
  {
    var s1 := Dfs(s.colour[3 := Grey], [Frame(1, 2), Frame(3, 0)], s.cycles);
    var s2 := Dfs(s1.colour, [Frame(1, 2), Frame(3, 1)], s.cycles);
    ExploreStep(edges, s, s1);
    ExploreStep(edges, s1, s2);
    t := DiamondEnds(edges, s2);
  }

  lemma DiamondEnds(edges: Edges, s: Dfs) returns (t: Dfs)
    requires Diamond(edges)
    requires {1, 2, 3, 4} <= s.colour.Keys && s.stack == [Frame(1, 2), Frame(3, 1)]
    ensures Explore(edges, s) == t && t.cycles == s.cycles && {1, 2, 3, 4} <= t.colour.Keys
  {
    var s1 := Dfs(s.colour[3 := Black], [Frame(1, 2)], s.cycles);
    t := Dfs(s1.colour[1 := Black], [], s.cycles);
    ExploreStep(edges, s, s1);
    ExploreStep(edges, s1, t);
  }

  lemma SearchRest(edges: Edges, s: Dfs)
    requires {1, 2, 3, 4} <= s.colour.Keys
    ensures Search(edges, [2, 3, 4], s) == s
  {
    assert [2, 3, 4][1..] == [3, 4] && [3, 4][1..] == [4] && [4][1..] == [];
    assert Search(edges, [4], s) == s;
    assert Search(edges, [3, 4], s) == s;
  }

  lemma DiamondRecords(edges: Edges, s: Dfs) returns (t: Dfs)
    requires Diamond(edges)
    requires s == Dfs(map[1 := Grey, 2 := Grey, 4 := Grey], [Frame(1, 1), Frame(2, 1), Frame(4, 0)], [])
    ensures t == Dfs(s.colour, [Frame(1, 1), Frame(2, 1), Frame(4, 1)], [[1, 2, 4]])
    ensures Step(edges, s) == t
  {
    t := Dfs(s.colour, [Frame(1, 1), Frame(2, 1), Frame(4, 1)], [[1, 2, 4]]);
    var path := Path(s.stack);
    assert path == [1, 2, 4];
    assert IndexOf(path, 1) == 0;
    assert path[0..] == path;
    assert Min(path) == 1;
    assert Canonical(path) == path;
  }

  // ----- the source's loops -----

  /** The body of `while stack`: give targets until one is white, else blacken and pop. */
  method VisitTop(edges: Edges, s: Dfs) returns (t: Dfs)
    requires s.stack != []
    ensures Explore(edges, t) == Explore(edges, s)
    ensures || Universe(edges) - t.colour.Keys < Universe(edges) - s.colour.Keys
            || (Universe(edges) - t.colour.Keys == Universe(edges) - s.colour.Keys && |t.stack| < |s.stack|)
  {
    var colour, stack, cycles := s.colour, s.stack, s.cycles;
    var n := |stack| - 1;
    var node, next := stack[n].node, stack[n].next;
    var targets := Targets(edges, node);
    while next < |targets|
      invariant |stack| == n + 1 && stack[n] == Frame(node, next) && colour == s.colour
      invariant Explore(edges, Dfs(colour, stack, cycles)) == Explore(edges, s)
      decreases |targets| - next
    {
      ghost var before := Dfs(colour, stack, cycles);
      var nxt := targets[next];
      var path := Path(stack);
      next := next + 1;
      stack := Advanced(stack);
      if nxt !in colour {
        assert nxt in Universe(edges);
        colour := colour[nxt := Grey];
        stack := stack + [Frame(nxt, 0)];
        t := Dfs(colour, stack, cycles);
        ExploreStep(edges, before, t);
        assert nxt in Universe(edges) - s.colour.Keys && nxt !in Universe(edges) - t.colour.Keys;
        return;
      } else if colour[nxt] == Grey {
        cycles := Record(cycles, path[IndexOf(path, nxt)..]);
      }
      ExploreStep(edges, before, Dfs(colour, stack, cycles));
    }
    ghost var before := Dfs(colour, stack, cycles);
    StepDecreases(edges, before);
    t := Dfs(colour[node := Black], stack[..n], cycles);
    ExploreStep(edges, before, t);
  }

  /** `find_cycles`; `roots` is `sorted(edges)`. */
  method FindCycles(edges: Edges, roots: seq<Node>) returns (cycles: seq<seq<Node>>)
    requires forall n :: n in roots <==> n in edges
    ensures cycles == Found(edges, roots)
    ensures forall k :: 0 <= k < |cycles| ==> IsCycle(edges, cycles[k]) && MinFirst(cycles[k])
    ensures forall j, k :: 0 <= j < k < |cycles| ==> cycles[j] != cycles[k]
    ensures cycles == [] <==> Digraph.Acyclic(EdgeSet(edges))
  {
    var s := Dfs(map[], [], []);
    assert roots[0..] == roots;
    for r := 0 to |roots|
      invariant s.stack == []
      invariant Found(edges, roots) == Search(edges, roots[r..], s).cycles
    {
      var root := roots[r];
      assert roots[r..][1..] == roots[r + 1..];
      if root !in s.colour {
        ghost var want := Explore(edges, Begin(s, root));
        s := Dfs(s.colour[root := Grey], [Frame(root, 0)], s.cycles);
        while s.stack != []
          invariant Explore(edges, s) == want
          decreases Universe(edges) - s.colour.Keys, |s.stack|
        {
          s := VisitTop(edges, s);
        }
      }
    }
    cycles := s.cycles;
    ghost var order := FoundOk(edges, roots);
    EmptyIffAcyclic(edges, roots);
  }
}
