/** Cross-world grants: cycle detection and validation at creation (`_grants.py`). */
module Grants {
  import opened Wrappers
  import ManifestText
  import Digraph

  type Env = string
  type Edge = (Env, Env)

  function EdgeSet(edges: seq<Edge>): set<Edge> {
    set e | e in edges
  }

  // ----- detect_cycle -----

  /** `adj.get(node, [])` */
  function Successors(adj: map<Env, seq<Env>>, n: Env): seq<Env> {
    if n in adj then adj[n] else []
  }

  method BuildAdjacency(edges: seq<Edge>) returns (adj: map<Env, seq<Env>>)
    ensures forall a, b :: b in Successors(adj, a) <==> (a, b) in EdgeSet(edges)
  {
    adj := map[];
    for k := 0 to |edges|
      invariant forall a, b :: b in Successors(adj, a) <==> (a, b) in edges[..k]
    {
      var (a, b) := edges[k];
      assert edges[..k + 1] == edges[..k] + [(a, b)];
      adj := adj[a := Successors(adj, a) + [b]];
    }
    assert edges[..|edges|] == edges;
  }

  /** From `src` over the new edge to `dst`, then over existing edges. */
  ghost predicate WalkFrom(edges: set<Edge>, src: Env, dst: Env, path: seq<Env>) {
    && |path| >= 2 && path[0] == src && path[1] == dst
    && forall i :: 1 <= i < |path| - 1 ==> (path[i], path[i + 1]) in edges
  }

  /** The path `detect_cycle` reports: a closed walk over the existing edges and the new one. */
  ghost predicate ClosesCycle(edges: set<Edge>, src: Env, dst: Env, path: seq<Env>) {
    WalkFrom(edges, src, dst, path) && path[|path| - 1] == src
  }

  lemma {:induction false} WalkReaches(edges: set<Edge>, src: Env, dst: Env, path: seq<Env>)
    requires WalkFrom(edges, src, dst, path)
    ensures Digraph.Reaches(edges, dst, path[|path| - 1])
    decreases |path|
  {
    if |path| == 2 {
      Digraph.ReachesRefl(edges, dst);
    } else {
      var n := |path| - 1;
      WalkReaches(edges, src, dst, path[..n]);
      Digraph.EdgeReaches(edges, path[n - 1], path[n]);
      Digraph.ReachesTransitive(edges, dst, path[n - 1], path[n]);
    }
  }

  lemma {:induction false} ClosedSetHolds(edges: set<Edge>, seen: set<Env>, a: Env, b: Env, n: nat)
    requires a in seen && Digraph.ReachesIn(edges, a, b, n)
    requires forall e :: e in edges && e.0 in seen ==> e.1 in seen
    ensures b in seen
    decreases n
  {
    if n == 0 {
    } else {
      var mid :| (a, mid) in edges && Digraph.ReachesIn(edges, mid, b, n - 1);
      assert (a, mid).1 in seen;
      ClosedSetHolds(edges, seen, mid, b, n - 1);
    }
  }

  datatype Item = Item(node: Env, path: seq<Env>)

  /** The search so far: every stacked path is a walk, `src` was never met, and every seen
      node is still stacked or has had all its successors seen. */
  ghost predicate Searched(edges: set<Edge>, src: Env, dst: Env, seen: set<Env>, stack: seq<Item>, current: set<Env>) {
    && dst in seen && src !in seen
    && (forall k :: 0 <= k < |stack| ==>
          WalkFrom(edges, src, dst, stack[k].path) && stack[k].path[|stack[k].path| - 1] == stack[k].node
          && stack[k].node in seen)
    && (forall e :: e in edges && e.0 in seen && e.1 !in seen ==>
          e.0 in current || exists k :: 0 <= k < |stack| && stack[k].node == e.0)
  }

  ghost function Heads(edges: set<Edge>): set<Env> {
    set e | e in edges :: e.1
  }

  lemma PushSearched(edges: set<Edge>, src: Env, dst: Env, seen: set<Env>, stack: seq<Item>, top: Item, n: Env)
    requires Searched(edges, src, dst, seen, stack, {top.node})
    requires WalkFrom(edges, src, dst, top.path) && top.path[|top.path| - 1] == top.node
    requires (top.node, n) in edges && n != src && n !in seen
    ensures Searched(edges, src, dst, seen + {n}, stack + [Item(n, top.path + [n])], {top.node})
    ensures Heads(edges) - (seen + {n}) < Heads(edges) - seen
  {
    var more := stack + [Item(n, top.path + [n])];
    assert (top.node, n).1 in Heads(edges) - seen;
    forall e | e in edges && e.0 in seen + {n} && e.1 !in seen + {n}
      ensures e.0 in {top.node} || exists k :: 0 <= k < |more| && more[k].node == e.0
    {
      if e.0 == n {
        assert more[|stack|].node == e.0;
      } else if e.0 != top.node {
        var k :| 0 <= k < |stack| && stack[k].node == e.0;
        assert more[k].node == e.0;
      }
    }
  }

  /** The body of the search loop: push the unseen successors, unless one is `src`. */
  method Expand(ghost edges: set<Edge>, src: Env, dst: Env, top: Item, next: seq<Env>, seen0: set<Env>,
                stack0: seq<Item>)
    returns (hit: Option<seq<Env>>, seen: set<Env>, stack: seq<Item>)
    requires Searched(edges, src, dst, seen0, stack0, {top.node})
    requires WalkFrom(edges, src, dst, top.path) && top.path[|top.path| - 1] == top.node
    requires forall n :: n in next <==> (top.node, n) in edges
    ensures hit.Some? ==> ClosesCycle(edges, src, dst, hit.value)
    ensures hit.None? ==> Searched(edges, src, dst, seen, stack, {})
    ensures hit.None? ==> (seen == seen0 && stack == stack0) || Heads(edges) - seen < Heads(edges) - seen0
  {
    hit, seen, stack := None, seen0, stack0;
    for k := 0 to |next|
      invariant Searched(edges, src, dst, seen, stack, {top.node})
      invariant (seen == seen0 && stack == stack0) || Heads(edges) - seen < Heads(edges) - seen0
      invariant forall j :: 0 <= j < k ==> next[j] in seen
    {
      var n := next[k];
      assert (top.node, n) in edges;
      if n == src {
        return Some(top.path + [n]), seen, stack;
      }
      if n !in seen {
        PushSearched(edges, src, dst, seen, stack, top, n);
        seen, stack := seen + {n}, stack + [Item(n, top.path + [n])];
      }
    }
    forall e | e in edges && e.0 in seen && e.1 !in seen
      ensures exists k :: 0 <= k < |stack| && stack[k].node == e.0
    {
      assert e.0 == top.node ==> e.1 in next;
    }
  }

  lemma PopSearched(edges: set<Edge>, src: Env, dst: Env, seen: set<Env>, stack: seq<Item>)
    requires Searched(edges, src, dst, seen, stack, {}) && stack != []
    ensures Searched(edges, src, dst, seen, stack[..|stack| - 1], {stack[|stack| - 1].node})
  {
    var rest := stack[..|stack| - 1];
    forall e | e in edges && e.0 in seen && e.1 !in seen
      ensures e.0 in {stack[|stack| - 1].node} || exists k :: 0 <= k < |rest| && rest[k].node == e.0
    {
      var k :| 0 <= k < |stack| && stack[k].node == e.0;
      if k < |rest| { assert rest[k].node == e.0; }
    }
  }

  lemma SearchedOut(edges: set<Edge>, src: Env, dst: Env, seen: set<Env>)
    requires Searched(edges, src, dst, seen, [], {})
    ensures !Digraph.Reaches(edges, dst, src)
  {
    if Digraph.Reaches(edges, dst, src) {
      var n: nat :| Digraph.ReachesIn(edges, dst, src, n);
      ClosedSetHolds(edges, seen, dst, src, n);
    }
  }

  /** `detect_cycle`: a path exactly when the new edge would close a cycle. */
  method DetectCycle(edges: seq<Edge>, newEdge: Edge) returns (r: Option<seq<Env>>)
    ensures r.Some? <==> newEdge.0 == newEdge.1 || Digraph.Reaches(EdgeSet(edges), newEdge.1, newEdge.0)
    ensures r.Some? ==> ClosesCycle(EdgeSet(edges), newEdge.0, newEdge.1, r.value)
  {
    var (src, dst) := newEdge;
    if src == dst {
      return Some([src, dst]);
    }
    ghost var es := EdgeSet(edges);
    var adj := BuildAdjacency(edges);
    var stack := [Item(dst, [src, dst])];
    var seen := {dst};
    assert stack[0].node == dst;
    while stack != []
      invariant Searched(es, src, dst, seen, stack, {})
      decreases Heads(es) - seen, |stack|
    {
      var top := stack[|stack| - 1];
      PopSearched(es, src, dst, seen, stack);
      stack := stack[..|stack| - 1];
      var hit, seen', stack' := Expand(es, src, dst, top, Successors(adj, top.node), seen, stack);
      if hit.Some? {
        WalkReaches(es, src, dst, hit.value);
        return hit;
      }
      seen, stack := seen', stack';
    }
    SearchedOut(es, src, dst, seen);
    return None;
  }

  // ----- validate_new_grant -----

  /** Absent and empty fields are both "". `approvedBy` is None when it is not a string,
      `scope` when it is absent. */
  datatype Grant = Grant(
    grantId: string, fromEnv: Env, toEnv: Env, status: string, originEnv: Env,
    approvedBy: Option<string>, approvedAt: string, scope: Option<string>)
  {
    predicate Active() {
      status == "active"
    }

    predicate Complete() {
      grantId != "" && fromEnv != "" && toEnv != "" && status != "" && originEnv != ""
    }
  }

  function LowerChar(c: char): char {
    if 'A' <= c <= 'Z' then ((c as int) + 32) as char else c
  }

  function Lower(s: string): string {
    seq(|s|, i requires 0 <= i < |s| => LowerChar(s[i]))
  }

  /** The approver's shape is a person's, not an agent's. */
  predicate IsHuman(approvedBy: Option<string>) {
    approvedBy.Some? &&
    var name := Lower(ManifestText.Strip(approvedBy.value));
    name != "" && !("agent:" <= name) && !("bot:" <= name) && !("system:" <= name)
  }

  /** The text begins with this name, whatever the case of each letter. */
  predicate Begins(t: string, name: string) {
    && |name| <= |t|
    && forall k :: 0 <= k < |name| ==>
         t[k] == name[k] || ('a' <= name[k] <= 'z' && t[k] as int == name[k] as int - 32)
  }

  predicate FirstVisible(s: string, from: nat) {
    && from < |s| && !ManifestText.IsSpace(s[from])
    && forall k :: 0 <= k < from ==> ManifestText.IsSpace(s[k])
  }

  predicate AgentName(t: string) {
    Begins(t, "agent:") || Begins(t, "bot:") || Begins(t, "system:")
  }

  /** Approval counts as a person's exactly when it says something, and what it says, white
      space in front aside, does not begin with `agent:`, `bot:` or `system:` in any case. */
  lemma HumanIff(approvedBy: Option<string>)
    ensures IsHuman(approvedBy) <==>
      && approvedBy.Some?
      && exists from :: 0 <= from < |approvedBy.value| && FirstVisible(approvedBy.value, from)
                        && !AgentName(approvedBy.value[from..])
  {
    if approvedBy.Some? {
      var s := approvedBy.value;
      var from, to := ManifestText.StripIs(s);
      forall k | 0 <= k < |s| && FirstVisible(s, k)
        ensures from < to && k == from
      {
      }
      if from < to {
        assert FirstVisible(s, from);
        BeginsIff(s, from, to, "agent:");
        BeginsIff(s, from, to, "bot:");
        BeginsIff(s, from, to, "system:");
      }
    }
  }

  lemma BeginsIff(s: string, from: nat, to: nat, name: string)
    requires from < to <= |s| && name != "" && name[|name| - 1] == ':'
    requires forall k :: 0 <= k < |name| ==> 'a' <= name[k] <= 'z' || name[k] == ':'
    requires forall k :: to <= k < |s| ==> ManifestText.IsSpace(s[k])
    ensures name <= Lower(s[from..to]) <==> Begins(s[from..], name)
  {
    var stripped, rest := s[from..to], s[from..];
    if |stripped| < |name| <= |rest| {
      assert ManifestText.IsSpace(rest[|name| - 1]) by { assert rest[|name| - 1] == s[from + |name| - 1]; }
      assert !ManifestText.IsSpace(':');
    }
    if |name| <= |stripped| {
      forall k | 0 <= k < |name|
        ensures Lower(stripped)[k] == name[k] <==>
          rest[k] == name[k] || ('a' <= name[k] <= 'z' && rest[k] as int == name[k] as int - 32)
      {
        assert stripped[k] == rest[k];
      }
      if name <= Lower(stripped) {
        assert forall k :: 0 <= k < |name| ==> Lower(stripped)[k] == name[k];
      }
      if Begins(rest, name) { assert name == Lower(stripped)[..|name|]; }
    }
  }

  datatype Violation = G0Missing | G3NoHuman | G3NoDate | G4Cycle(path: seq<Env>) | G5Origin

  ghost function ActiveEdges(store: seq<Grant>): set<Edge> {
    set g | g in store && g.Active() && g.fromEnv != "" && g.toEnv != "" :: (g.fromEnv, g.toEnv)
  }

  predicate HasActiveFrom(store: seq<Grant>, env: Env) {
    exists k :: 0 <= k < |store| && store[k].Active() && store[k].fromEnv == env
  }

  /** The active edges, listed in store order. */
  method CollectEdges(store: seq<Grant>) returns (edges: seq<Edge>)
    ensures EdgeSet(edges) == ActiveEdges(store)
  {
    edges := [];
    for k := 0 to |store|
      invariant EdgeSet(edges) == ActiveEdges(store[..k])
    {
      var g := store[k];
      assert store[..k + 1] == store[..k] + [g];
      ActiveEdgesAppend(store[..k], g);
      if g.Active() && g.fromEnv != "" && g.toEnv != "" {
        assert EdgeSet(edges + [(g.fromEnv, g.toEnv)]) == EdgeSet(edges) + {(g.fromEnv, g.toEnv)};
        edges := edges + [(g.fromEnv, g.toEnv)];
      }
    }
    assert store[..|store|] == store;
  }

  lemma ActiveEdgesAppend(store: seq<Grant>, g: Grant)
    ensures ActiveEdges(store + [g]) ==
            ActiveEdges(store)
            + if g.Active() && g.fromEnv != "" && g.toEnv != "" then {(g.fromEnv, g.toEnv)} else {}
  {
    var more := store + [g];
    forall e
      ensures e in ActiveEdges(more) <==>
              e in ActiveEdges(store)
              || (e == (g.fromEnv, g.toEnv) && g.Active() && g.fromEnv != "" && g.toEnv != "")
    {
      if e in ActiveEdges(store) {
        var h :| h in store && h.Active() && h.fromEnv != "" && h.toEnv != "" && e == (h.fromEnv, h.toEnv);
        assert h in more;
      }
      assert g in more;
    }
  }

  /** The G3 check of `validate_new_grant`. */
  method ApprovalViolations(g: Grant, store: seq<Grant>) returns (out: seq<Violation>)
    ensures forall v :: v in out ==> v == G3NoHuman || v == G3NoDate
    ensures G3NoHuman in out <==> !HasActiveFrom(store, g.fromEnv) && !IsHuman(g.approvedBy)
    ensures G3NoDate in out <==> !HasActiveFrom(store, g.fromEnv) && g.approvedAt == ""
  {
    out := [];
    if !HasActiveFrom(store, g.fromEnv) {
      if !IsHuman(g.approvedBy) {
        out := out + [G3NoHuman];
      }
      if g.approvedAt == "" {
        out := out + [G3NoDate];
      }
    }
  }

  lemma InParts(a: seq<Violation>, b: seq<Violation>, c: seq<Violation>, d: seq<Violation>)
    ensures forall v :: v in a + b + c + d <==> v in a || v in b || v in c || v in d
  {
  }

  /** The G4 check of `validate_new_grant`. */
  method CycleViolations(g: Grant, store: seq<Grant>) returns (out: seq<Violation>)
    ensures out == []
            || exists path :: out == [G4Cycle(path)] && ClosesCycle(ActiveEdges(store), g.fromEnv, g.toEnv, path)
    ensures out != [] <==> g.fromEnv != "" && g.toEnv != "" && Digraph.Reaches(ActiveEdges(store), g.toEnv, g.fromEnv)
  {
    out := [];
    if g.fromEnv != "" && g.toEnv != "" {
      var edges := CollectEdges(store);
      var cycle := DetectCycle(edges, (g.fromEnv, g.toEnv));
      Digraph.ReachesRefl(ActiveEdges(store), g.fromEnv);
      if cycle.Some? {
        out := [G4Cycle(cycle.value)];
      }
    }
  }

  /** `validate_new_grant`: what each violation means for the store. */
  method ValidateNewGrant(g: Grant, store: seq<Grant>) returns (violations: seq<Violation>)
    ensures G0Missing in violations <==> !g.Complete()
    ensures G3NoHuman in violations <==> !HasActiveFrom(store, g.fromEnv) && !IsHuman(g.approvedBy)
    ensures G3NoDate in violations <==> !HasActiveFrom(store, g.fromEnv) && g.approvedAt == ""
    ensures G5Origin in violations <==> g.originEnv != "" && g.fromEnv != "" && g.originEnv != g.fromEnv
    ensures (exists path :: G4Cycle(path) in violations)
       <==> g.fromEnv != "" && g.toEnv != "" && Digraph.Reaches(ActiveEdges(store), g.toEnv, g.fromEnv)
    ensures forall path :: G4Cycle(path) in violations ==>
              ClosesCycle(ActiveEdges(store), g.fromEnv, g.toEnv, path)
  {
    var g0 := if g.Complete() then [] else [G0Missing];
    var g3 := ApprovalViolations(g, store);
    var g4 := CycleViolations(g, store);
    var g5 := if g.originEnv != "" && g.fromEnv != "" && g.originEnv != g.fromEnv then [G5Origin] else [];
    violations := g0 + g3 + g4 + g5;
    InParts(g0, g3, g4, g5);
    if g4 != [] { assert g4[0] in violations; }
  }

  /** The G4 verdict is exact: a complete active grant passes it exactly when the active
      graph stays acyclic. */
  lemma G4Exact(store: seq<Grant>, g: Grant)
    requires Digraph.Acyclic(ActiveEdges(store)) && g.Complete() && g.Active()
    ensures Digraph.Acyclic(ActiveEdges(store + [g])) <==> !Digraph.Reaches(ActiveEdges(store), g.toEnv, g.fromEnv)
  {
    ActiveEdgesAppend(store, g);
    Digraph.AddEdgeAcyclicIff(ActiveEdges(store), g.fromEnv, g.toEnv);
  }

  // ----- whole runs -----

  /** The grant store and the two changes made to it. */
  class GrantStore {
    var grants: seq<Grant>

    constructor ()
      ensures grants == []
    {
      grants := [];
    }

    /** Append a grant whose violation list is empty. */
    method Add(g: Grant) returns (violations: seq<Violation>)
      modifies this
      ensures grants == if violations == [] then old(grants) + [g] else old(grants)
      ensures violations == [] ==> Admissible(old(grants), g)
    {
      violations := ValidateNewGrant(g, grants);
      if violations == [] {
        grants := grants + [g];
      }
    }

    /** Withdraw the grant at `k`: its status becomes something else than "active". */
    method Revoke(k: nat, status: string)
      requires k < |grants| && status != "active"
      modifies this
      ensures grants == old(grants)[k := old(grants)[k].(status := status)]
    {
      grants := grants[k := grants[k].(status := status)];
    }
  }

  /** What an empty violation list says. */
  ghost predicate Admissible(store: seq<Grant>, g: Grant) {
    && g.Complete() && g.originEnv == g.fromEnv
    && (HasActiveFrom(store, g.fromEnv) || (IsHuman(g.approvedBy) && g.approvedAt != ""))
    && !Digraph.Reaches(ActiveEdges(store), g.toEnv, g.fromEnv)
  }

  ghost predicate StoreStep(a: seq<Grant>, b: seq<Grant>) {
    || (exists g :: Admissible(a, g) && b == a + [g])
    || (exists k, status :: 0 <= k < |a| && status != "active" && b == a[k := a[k].(status := status)])
  }

  ghost predicate IsRun(stores: seq<seq<Grant>>) {
    && stores != [] && stores[0] == []
    && forall k :: 0 <= k < |stores| - 1 ==> StoreStep(stores[k], stores[k + 1])
  }

  /** Someone human approved, with a date, some grant from the same source. */
  ghost predicate HumanRooted(store: seq<Grant>, env: Env) {
    exists k :: 0 <= k < |store| && store[k].fromEnv == env && IsHuman(store[k].approvedBy) && store[k].approvedAt != ""
  }

  ghost predicate StoreOk(store: seq<Grant>) {
    && Digraph.Acyclic(ActiveEdges(store))
    && forall k :: 0 <= k < |store| ==> store[k].originEnv == store[k].fromEnv && HumanRooted(store, store[k].fromEnv)
  }

  lemma RootedStays(a: seq<Grant>, b: seq<Grant>, env: Env)
    requires HumanRooted(a, env) && |a| <= |b|
    requires forall k :: 0 <= k < |a| ==> b[k].fromEnv == a[k].fromEnv && b[k].approvedBy == a[k].approvedBy
                                          && b[k].approvedAt == a[k].approvedAt
    ensures HumanRooted(b, env)
  {
    var k :| 0 <= k < |a| && a[k].fromEnv == env && IsHuman(a[k].approvedBy) && a[k].approvedAt != "";
    assert b[k].fromEnv == env;
  }

  lemma AddKeepsOk(a: seq<Grant>, g: Grant)
    requires StoreOk(a) && Admissible(a, g)
    ensures StoreOk(a + [g])
  {
    var b := a + [g];
    ActiveEdgesAppend(a, g);
    if g.Active() {
      G4Exact(a, g);
    } else {
      assert ActiveEdges(b) == ActiveEdges(a);
    }
    forall k | 0 <= k < |b|
      ensures b[k].originEnv == b[k].fromEnv && HumanRooted(b, b[k].fromEnv)
    {
      if k < |a| {
        RootedStays(a, b, a[k].fromEnv);
      } else if HasActiveFrom(a, g.fromEnv) {
        var j :| 0 <= j < |a| && a[j].Active() && a[j].fromEnv == g.fromEnv;
        RootedStays(a, b, a[j].fromEnv);
      } else {
        assert b[|a|] == g;
      }
    }
  }

  lemma RevokeKeepsOk(a: seq<Grant>, k: nat, status: string)
    requires StoreOk(a) && k < |a| && status != "active"
    ensures StoreOk(a[k := a[k].(status := status)])
  {
    var b := a[k := a[k].(status := status)];
    forall e | e in ActiveEdges(b)
      ensures e in ActiveEdges(a)
    {
      var g :| g in b && g.Active() && g.fromEnv != "" && g.toEnv != "" && e == (g.fromEnv, g.toEnv);
      assert g in a;
    }
    Digraph.SubgraphAcyclic(ActiveEdges(b), ActiveEdges(a));
    forall j | 0 <= j < |b|
      ensures b[j].originEnv == b[j].fromEnv && HumanRooted(b, b[j].fromEnv)
    {
      RootedStays(a, b, a[j].fromEnv);
    }
  }

  /** Every store reached by validated additions and revocations has an acyclic graph of
      active edges, and every source in it was approved by a human at some point. */
  lemma {:induction false} RunStaysAcyclic(stores: seq<seq<Grant>>)
    requires IsRun(stores)
    ensures StoreOk(stores[|stores| - 1])
    decreases |stores|
  {
    var n := |stores| - 1;
    if n == 0 {
      forall v, m: nat | m >= 1
        ensures !Digraph.ReachesIn(ActiveEdges([]), v, v, m)
      {
      }
    } else {
      RunStaysAcyclic(stores[..n]);
      var a, b := stores[n - 1], stores[n];
      assert StoreStep(stores[n - 1], stores[n - 1 + 1]);
      if g :| Admissible(a, g) && b == a + [g] {
        AddKeepsOk(a, g);
      } else {
        var k, status :| 0 <= k < |a| && status != "active" && b == a[k := a[k].(status := status)];
        RevokeKeepsOk(a, k, status);
      }
    }
  }
}
