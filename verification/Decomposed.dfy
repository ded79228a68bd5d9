/** Re-pointing a decomposed goal's dependents at its children (`_decomposed_dependents.py`).

  The store is the list of its goal records; list members and ids are strings. */
module Decomposed {
  import opened Wrappers
  import opened GoalStatus
  import ManifestText
  import Digraph

  type Id = string

  datatype BlockedBy = BOther | BStr(id: string) | BList(ids: seq<Id>)

  /** An entry of `depends_on`: a dict with a `goal_id` and whatever else it holds, a
      string, or something else. */
  datatype Dep = DepDict(goalId: Option<Id>, rest: string) | DepStr(id: Id) | DepOther

  datatype DependsOn = DAbsent | DOther | DStr(id: Id) | DList(deps: seq<Dep>)

  /** Absent strings are "". */
  datatype Goal = Goal(
    id: Id, parentGoal: string, originSignal: string, status: string, blockedBy: BlockedBy, dependsOn: DependsOn)

  /** `_as_list` */
  function AsList(b: BlockedBy): seq<Id> {
    match b
    case BOther => []
    case BStr(id) => if id == "" then [] else [id]
    case BList(ids) => ids
  }

  // ----- plan -----

  predicate IsChild(g: Goal, parent: Id) {
    && g.id != parent
    && (g.parentGoal == parent
        || (g.parentGoal == "" && ManifestText.Strip(g.originSignal) == "decomposition:" + parent))
  }

  function ChildrenOf(goals: seq<Goal>, parent: Id): seq<Goal> {
    if goals == [] then []
    else (if IsChild(goals[0], parent) then [goals[0]] else []) + ChildrenOf(goals[1..], parent)
  }

  function Ids(goals: seq<Goal>): seq<Id> {
    seq(|goals|, i requires 0 <= i < |goals| => goals[i].id)
  }

  predicate IsDependent(g: Goal, parent: Id, childIds: seq<Id>) {
    g.id != parent && g.id !in childIds && g.status !in TERMINAL_STATUSES && parent in AsList(g.blockedBy)
  }

  function DependentsOf(goals: seq<Goal>, parent: Id, childIds: seq<Id>): seq<Id> {
    if goals == [] then []
    else
      (if IsDependent(goals[0], parent, childIds) then [goals[0].id] else [])
      + DependentsOf(goals[1..], parent, childIds)
  }

  /** No other child lists `c`. */
  predicate IsSink(children: seq<Goal>, c: Id) {
    forall k :: 0 <= k < |children| && children[k].id != c ==> c !in AsList(children[k].blockedBy)
  }

  function SinksAmong(children: seq<Goal>, ids: seq<Id>): seq<Id> {
    if ids == [] then [] else (if IsSink(children, ids[0]) then [ids[0]] else []) + SinksAmong(children, ids[1..])
  }

  datatype Plan = Plan(dependents: seq<Id>, sinks: seq<Id>, refuse: bool)

  /** `plan` */
  function MakePlan(goals: seq<Goal>, parent: Id): Plan {
    var children := ChildrenOf(goals, parent);
    var childIds := Ids(children);
    var dependents := DependentsOf(goals, parent, childIds);
    var sinks := SinksAmong(children, childIds);
    Plan(dependents, if sinks == [] then childIds else sinks, dependents != [] && childIds == [])
  }

  lemma {:induction false} ChildMember(goals: seq<Goal>, parent: Id, g: Goal)
    ensures g in ChildrenOf(goals, parent) <==> g in goals && IsChild(g, parent)
  {
    if goals == [] {
    } else {
      ChildMember(goals[1..], parent, g);
      assert goals == [goals[0]] + goals[1..];
    }
  }

  lemma {:induction false} DependentMember(goals: seq<Goal>, parent: Id, childIds: seq<Id>, id: Id)
    ensures id in DependentsOf(goals, parent, childIds)
       <==> exists g :: g in goals && g.id == id && IsDependent(g, parent, childIds)
  {
    if goals == [] {
    } else {
      DependentMember(goals[1..], parent, childIds, id);
      assert goals == [goals[0]] + goals[1..];
    }
  }

  lemma {:induction false} SinkMember(children: seq<Goal>, ids: seq<Id>, c: Id)
    ensures c in SinksAmong(children, ids) <==> c in ids && IsSink(children, c)
  {
    if ids == [] {
    } else {
      SinkMember(children, ids[1..], c);
      assert ids == [ids[0]] + ids[1..];
    }
  }

  // ----- the sinks stand for the whole decomposition -----

  ghost function ChildIds(goals: seq<Goal>, parent: Id): set<Id> {
    set g | g in goals && IsChild(g, parent) :: g.id
  }

  /** One child waits on another. */
  ghost function WaitEdges(goals: seq<Goal>, parent: Id): set<(Id, Id)> {
    set g, c | g in goals && IsChild(g, parent) && c in ChildIds(goals, parent)
               && c in AsList(g.blockedBy) && g.id != c :: (g.id, c)
  }

  ghost predicate Awaited(goals: seq<Goal>, parent: Id, c: Id) {
    exists s :: s in MakePlan(goals, parent).sinks && Digraph.Reaches(WaitEdges(goals, parent), s, c)
  }

  lemma PlanChildIds(goals: seq<Goal>, parent: Id, c: Id)
    ensures c in Ids(ChildrenOf(goals, parent)) <==> c in ChildIds(goals, parent)
  {
    var children := ChildrenOf(goals, parent);
    if c in Ids(children) {
      var k :| 0 <= k < |children| && children[k].id == c;
      ChildMember(goals, parent, children[k]);
    }
    if c in ChildIds(goals, parent) {
      var g :| g in goals && IsChild(g, parent) && g.id == c;
      ChildMember(goals, parent, g);
      var k :| 0 <= k < |children| && children[k] == g;
      assert Ids(children)[k] == c;
    }
  }

  lemma SinkIff(goals: seq<Goal>, parent: Id, c: Id)
    requires c in ChildIds(goals, parent)
    ensures IsSink(ChildrenOf(goals, parent), c) <==> forall o :: (o, c) !in WaitEdges(goals, parent)
  {
    var children := ChildrenOf(goals, parent);
    if !IsSink(children, c) {
      var k :| 0 <= k < |children| && children[k].id != c && c in AsList(children[k].blockedBy);
      ChildMember(goals, parent, children[k]);
      assert (children[k].id, c) in WaitEdges(goals, parent);
    }
    if o :| (o, c) in WaitEdges(goals, parent) {
      var g :| g in goals && IsChild(g, parent) && g.id == o && c in AsList(g.blockedBy) && g.id != c;
      ChildMember(goals, parent, g);
      var k :| 0 <= k < |children| && children[k] == g;
    }
  }

  lemma PlannedSink(goals: seq<Goal>, parent: Id, c: Id)
    ensures c in MakePlan(goals, parent).sinks ==> c in ChildIds(goals, parent)
    ensures c in ChildIds(goals, parent) && IsSink(ChildrenOf(goals, parent), c) ==> c in MakePlan(goals, parent).sinks
  {
    var children := ChildrenOf(goals, parent);
    PlanChildIds(goals, parent, c);
    SinkMember(children, Ids(children), c);
  }

  /** The plan points at exactly the children that no other child waits on; if there are
      none, at all of them. */
  lemma SinksIff(goals: seq<Goal>, parent: Id, c: Id)
    ensures c in MakePlan(goals, parent).sinks <==>
      && c in ChildIds(goals, parent)
      && ((forall o :: (o, c) !in WaitEdges(goals, parent))
          || forall x :: x in ChildIds(goals, parent) ==> exists o :: (o, x) in WaitEdges(goals, parent))
  {
    var children := ChildrenOf(goals, parent);
    var sinks := SinksAmong(children, Ids(children));
    forall x
      ensures x in sinks <==> x in ChildIds(goals, parent) && forall o :: (o, x) !in WaitEdges(goals, parent)
    {
      SinkMember(children, Ids(children), x);
      PlanChildIds(goals, parent, x);
      if x in ChildIds(goals, parent) { SinkIff(goals, parent, x); }
    }
    PlanChildIds(goals, parent, c);
    if sinks != [] { assert sinks[0] in sinks; }
  }

  /** Its dependents are exactly the live goals, neither the parent nor a child, that wait on
      the parent. */
  lemma DependentsIff(goals: seq<Goal>, parent: Id, id: Id)
    ensures id in MakePlan(goals, parent).dependents <==>
      exists g :: g in goals && g.id == id && id != parent && id !in ChildIds(goals, parent)
                  && g.status !in TERMINAL_STATUSES && parent in AsList(g.blockedBy)
  {
    var childIds := Ids(ChildrenOf(goals, parent));
    DependentMember(goals, parent, childIds, id);
    PlanChildIds(goals, parent, id);
    forall g | g in goals && g.id == id
      ensures IsDependent(g, parent, childIds) <==>
        id != parent && id !in ChildIds(goals, parent) && g.status !in TERMINAL_STATUSES
        && parent in AsList(g.blockedBy)
    {
    }
  }

  /** When the children's waits are acyclic, every child is a sink or is waited on,
      directly or through other children, by one. */
  lemma EveryChildAwaited(goals: seq<Goal>, parent: Id, c: Id)
    requires Digraph.Acyclic(WaitEdges(goals, parent)) && c in ChildIds(goals, parent)
    ensures Awaited(goals, parent, c)
  {
    var edges := WaitEdges(goals, parent);
    var left := set x | x in ChildIds(goals, parent) && !Awaited(goals, parent, x);
    if c in left {
      forall x | x in left
        ensures Digraph.HasNext(Digraph.Reversed(edges), left, x)
      {
        var o := WaiterLeft(goals, parent, x);
        assert (o, x) in edges && (x, o) in Digraph.Reversed(edges);
      }
      Digraph.ReversedAcyclic(edges);
      Digraph.TrapGivesCycle(Digraph.Reversed(edges), left);
    }
  }

  lemma WaiterLeft(goals: seq<Goal>, parent: Id, x: Id) returns (o: Id)
    requires x in ChildIds(goals, parent) && !Awaited(goals, parent, x)
    ensures (o, x) in WaitEdges(goals, parent) && o in ChildIds(goals, parent) && !Awaited(goals, parent, o)
  {
    var edges := WaitEdges(goals, parent);
    Digraph.ReachesRefl(edges, x);
    PlannedSink(goals, parent, x);
    SinkIff(goals, parent, x);
    o :| (o, x) in edges;
    if Awaited(goals, parent, o) {
      var s :| s in MakePlan(goals, parent).sinks && Digraph.Reaches(edges, s, o);
      Digraph.EdgeReaches(edges, o, x);
      Digraph.ReachesTransitive(edges, s, o, x);
    }
  }

  /** Goals complete only after the children they wait on. */
  ghost predicate Respects(edges: set<(Id, Id)>, done: set<Id>) {
    forall e :: e in edges && e.0 in done ==> e.1 in done
  }

  lemma {:induction false} DoneFollows(edges: set<(Id, Id)>, done: set<Id>, a: Id, b: Id, n: nat)
    requires Respects(edges, done) && a in done && Digraph.ReachesIn(edges, a, b, n)
    ensures b in done
    decreases n
  {
    if n == 0 {
    } else {
      var mid :| (a, mid) in edges && Digraph.ReachesIn(edges, mid, b, n - 1);
      assert (a, mid).1 in done;
      DoneFollows(edges, done, mid, b, n - 1);
    }
  }

  ghost predicate SinksDone(goals: seq<Goal>, parent: Id, done: set<Id>) {
    forall s :: s in MakePlan(goals, parent).sinks ==> s in done
  }

  ghost predicate SinksStandFor(goals: seq<Goal>, parent: Id, done: set<Id>) {
    Respects(WaitEdges(goals, parent), done) && SinksDone(goals, parent, done) ==> ChildIds(goals, parent) <= done
  }

  ghost predicate AllAwaited(goals: seq<Goal>, parent: Id) {
    forall c :: c in ChildIds(goals, parent) ==> Awaited(goals, parent, c)
  }

  lemma AwaitedIsDone(goals: seq<Goal>, parent: Id, done: set<Id>, c: Id)
    requires Respects(WaitEdges(goals, parent), done) && SinksDone(goals, parent, done) && Awaited(goals, parent, c)
    ensures c in done
  {
    var edges := WaitEdges(goals, parent);
    var s :| s in MakePlan(goals, parent).sinks && Digraph.Reaches(edges, s, c);
    var n: nat :| Digraph.ReachesIn(edges, s, c, n);
    DoneFollows(edges, done, s, c, n);
  }

  /** "All sinks done" means "all children done", whatever is done, exactly when every child
      is a sink or awaited by one. */
  lemma SinksStandForAllIff(goals: seq<Goal>, parent: Id)
    ensures AllAwaited(goals, parent) <==> forall done: set<Id> :: SinksStandFor(goals, parent, done)
  {
    if AllAwaited(goals, parent) {
      forall done: set<Id>
        ensures SinksStandFor(goals, parent, done)
      {
        if Respects(WaitEdges(goals, parent), done) && SinksDone(goals, parent, done) {
          forall c | c in ChildIds(goals, parent)
            ensures c in done
          {
            AwaitedIsDone(goals, parent, done, c);
          }
        }
      }
    } else {
      var done := set x | x in ChildIds(goals, parent) && Awaited(goals, parent, x);
      AwaitedIsRespectful(goals, parent, done);
      var c :| c in ChildIds(goals, parent) && !Awaited(goals, parent, c);
      assert c !in done;
      assert !SinksStandFor(goals, parent, done);
    }
  }

  lemma AwaitedIsRespectful(goals: seq<Goal>, parent: Id, done: set<Id>)
    requires done == set x | x in ChildIds(goals, parent) && Awaited(goals, parent, x)
    ensures Respects(WaitEdges(goals, parent), done) && SinksDone(goals, parent, done)
  {
    var edges := WaitEdges(goals, parent);
    forall e | e in edges && e.0 in done
      ensures e.1 in done
    {
      var s :| s in MakePlan(goals, parent).sinks && Digraph.Reaches(edges, s, e.0);
      Digraph.EdgeReaches(edges, e.0, e.1);
      Digraph.ReachesTransitive(edges, s, e.0, e.1);
    }
    forall s | s in MakePlan(goals, parent).sinks
      ensures s in done
    {
      PlannedSink(goals, parent, s);
      Digraph.ReachesRefl(edges, s);
    }
  }

  // ----- apply -----

  function Without(ids: seq<Id>, parent: Id): seq<Id> {
    if ids == [] then [] else (if ids[0] != parent then [ids[0]] else []) + Without(ids[1..], parent)
  }

  /** `bb.extend(s for s in sinks if s not in bb)` */
  function Extend(bb: seq<Id>, sinks: seq<Id>): seq<Id>
    decreases |sinks|
  {
    if sinks == [] then bb
    else Extend(if sinks[0] in bb then bb else bb + [sinks[0]], sinks[1..])
  }

  predicate Names(d: Dep, id: Id) {
    (d.DepDict? && d.goalId == Some(id)) || d == DepStr(id)
  }

  predicate Present(deps: seq<Dep>, id: Id) {
    exists k :: 0 <= k < |deps| && Names(deps[k], id)
  }

  /** The entry, once per sink that is not there yet. */
  function Copies(d: Dep, sinks: seq<Id>, present: seq<Dep>): seq<Dep> {
    if sinks == [] then []
    else
      (if Present(present, sinks[0]) then []
       else [if d.DepDict? then d.(goalId := Some(sinks[0])) else DepStr(sinks[0])])
      + Copies(d, sinks[1..], present)
  }

  function RepointEach(deps: seq<Dep>, parent: Id, sinks: seq<Id>, present: seq<Dep>): seq<Dep> {
    if deps == [] then []
    else
      (if Names(deps[0], parent) then Copies(deps[0], sinks, present) else [deps[0]])
      + RepointEach(deps[1..], parent, sinks, present)
  }

  function AsDeps(ids: seq<Id>): seq<Dep> {
    seq(|ids|, i requires 0 <= i < |ids| => DepStr(ids[i]))
  }

  /** `_repoint_depends_on` */
  function RepointDependsOn(d: DependsOn, parent: Id, sinks: seq<Id>): DependsOn {
    match d
    case DStr(id) => if id == parent then DList(AsDeps(sinks)) else d
    case DList(deps) => DList(RepointEach(deps, parent, sinks, deps))
    case _ => d
  }

  method RepointLoop(deps: seq<Dep>, parent: Id, sinks: seq<Id>) returns (out: seq<Dep>)
    ensures out == RepointEach(deps, parent, sinks, deps)
  {
    out := [];
    ghost var want := RepointEach(deps, parent, sinks, deps);
    assert deps[0..] == deps && [] + want == want;
    for k := 0 to |deps|
      invariant want == out + RepointEach(deps[k..], parent, sinks, deps)
    {
      assert deps[k..][1..] == deps[k + 1..];
      var now := if Names(deps[k], parent) then Copies(deps[k], sinks, deps) else [deps[k]];
      var rest := RepointEach(deps[k + 1..], parent, sinks, deps);
      assert out + (now + rest) == out + now + rest;
      out := out + now;
    }
    assert out + [] == out;
  }

  function Repointed(g: Goal, parent: Id, sinks: seq<Id>): Goal {
    g.(blockedBy := BList(Extend(Without(AsList(g.blockedBy), parent), sinks)),
       dependsOn := RepointDependsOn(g.dependsOn, parent, sinks))
  }

  /** Every goal the plan names, re-pointed; the others as they were. */
  function Applied(goals: seq<Goal>, p: Plan, parent: Id): seq<Goal> {
    if p.refuse then goals
    else
      seq(|goals|, i requires 0 <= i < |goals| =>
        if goals[i].id in p.dependents then Repointed(goals[i], parent, p.sinks) else goals[i])
  }

  /** The records of the store this write holds the lock on. */
  class Queue {
    var goals: seq<Goal>

    constructor (initial: seq<Goal>)
      ensures goals == initial
    {
      goals := initial;
    }

    /** `apply`: overwrite `blocked_by` and `depends_on` of the dependents. */
    method Apply(p: Plan, parent: Id)
      modifies this
      ensures goals == Applied(old(goals), p, parent)
    {
      if p.refuse || p.dependents == [] {
        return;
      }
      ghost var want := Applied(goals, p, parent);
      for k := 0 to |goals|
        invariant |goals| == |old(goals)|
        invariant forall i :: 0 <= i < k ==> goals[i] == want[i]
        invariant forall i :: k <= i < |goals| ==> goals[i] == old(goals)[i]
      {
        if goals[k].id in p.dependents {
          var g := RepointGoal(goals[k], parent, p.sinks);
          goals := goals[k := g];
        }
      }
    }
  }

  method RepointGoal(g: Goal, parent: Id, sinks: seq<Id>) returns (h: Goal)
    ensures h == Repointed(g, parent, sinks)
  {
    var dep := g.dependsOn;
    if dep.DList? {
      var deps := RepointLoop(dep.deps, parent, sinks);
      dep := DList(deps);
    } else {
      dep := RepointDependsOn(dep, parent, sinks);
    }
    h := g.(blockedBy := BList(Extend(Without(AsList(g.blockedBy), parent), sinks)), dependsOn := dep);
  }

  // ----- what apply achieves -----

  ghost predicate UniqueIds(goals: seq<Goal>) {
    forall i, j :: 0 <= i < j < |goals| ==> goals[i].id != goals[j].id
  }

  /** The schema rule: every `depends_on` id appears in `blocked_by`. */
  ghost predicate DependsOk(g: Goal) {
    match g.dependsOn
    case DStr(id) => id in AsList(g.blockedBy)
    case DList(deps) => forall k, id :: 0 <= k < |deps| && Names(deps[k], id) ==> id in AsList(g.blockedBy)
    case _ => true
  }

  lemma {:induction false} WithoutMember(ids: seq<Id>, parent: Id, x: Id)
    ensures x in Without(ids, parent) <==> x in ids && x != parent
  {
    if ids == [] {
    } else {
      WithoutMember(ids[1..], parent, x);
      assert ids == [ids[0]] + ids[1..];
    }
  }

  lemma {:induction false} ExtendFacts(bb: seq<Id>, sinks: seq<Id>, x: Id)
    ensures bb <= Extend(bb, sinks)
    ensures x in Extend(bb, sinks) <==> x in bb || x in sinks
    decreases |sinks|
  {
    if sinks == [] {
    } else {
      ExtendFacts(if sinks[0] in bb then bb else bb + [sinks[0]], sinks[1..], x);
      assert sinks == [sinks[0]] + sinks[1..];
    }
  }

  /** Nothing is listed twice by it. */
  lemma {:induction false} ExtendOnce(bb: seq<Id>, sinks: seq<Id>, k: nat)
    requires |bb| <= k < |Extend(bb, sinks)|
    ensures Extend(bb, sinks)[k] !in Extend(bb, sinks)[..k]
    decreases |sinks|
  {
    var more := if sinks[0] in bb then bb else bb + [sinks[0]];
    ExtendFacts(more, sinks[1..], sinks[0]);
    if k < |more| {
      assert Extend(bb, sinks)[..k] == bb && Extend(bb, sinks)[k] == more[k];
    } else {
      ExtendOnce(more, sinks[1..], k);
    }
  }

  lemma {:induction false} CopiesName(d: Dep, sinks: seq<Id>, present: seq<Dep>, k: nat, id: Id)
    requires k < |Copies(d, sinks, present)| && Names(Copies(d, sinks, present)[k], id)
    ensures id in sinks
    decreases |sinks|
  {
    var first := if Present(present, sinks[0]) then 0 else 1;
    assert sinks == [sinks[0]] + sinks[1..];
    if k >= first { CopiesName(d, sinks[1..], present, k - first, id); }
  }

  lemma {:induction false} RepointNames(deps: seq<Dep>, parent: Id, sinks: seq<Id>, present: seq<Dep>, k: nat, id: Id)
    requires k < |RepointEach(deps, parent, sinks, present)| && Names(RepointEach(deps, parent, sinks, present)[k], id)
    ensures id in sinks || (id != parent && Present(deps, id))
    decreases |deps|
  {
    var now := if Names(deps[0], parent) then Copies(deps[0], sinks, present) else [deps[0]];
    if k < |now| {
      if Names(deps[0], parent) {
        CopiesName(deps[0], sinks, present, k, id);
      } else {
        assert Names(deps[0], id);
      }
    } else {
      RepointNames(deps[1..], parent, sinks, present, k - |now|, id);
      if Present(deps[1..], id) {
        var j :| 0 <= j < |deps[1..]| && Names(deps[1..][j], id);
        assert Names(deps[j + 1], id);
      }
    }
  }

  /** One copy of the entry, naming this sink. */
  function CopyFor(d: Dep, s: Id): Dep {
    if d.DepDict? then d.(goalId := Some(s)) else DepStr(s)
  }

  lemma {:induction false} CopiesHave(d: Dep, sinks: seq<Id>, present: seq<Dep>, s: Id)
    requires s in sinks && !Present(present, s)
    ensures CopyFor(d, s) in Copies(d, sinks, present)
    decreases |sinks|
  {
    if s != sinks[0] {
      assert s in sinks[1..];
      CopiesHave(d, sinks[1..], present, s);
    }
  }

  lemma {:induction false} CopiesAreNew(d: Dep, sinks: seq<Id>, present: seq<Dep>, c: Dep)
    requires c in Copies(d, sinks, present)
    ensures exists s :: s in sinks && !Present(present, s) && c == CopyFor(d, s)
    decreases |sinks|
  {
    if Present(present, sinks[0]) || c != CopyFor(d, sinks[0]) {
      CopiesAreNew(d, sinks[1..], present, c);
      var s :| s in sinks[1..] && !Present(present, s) && c == CopyFor(d, s);
      assert s in sinks;
    } else {
      assert sinks[0] in sinks;
    }
  }

  /** What the list holds afterwards: every entry that did not name the parent, and, for each
      entry that did, a copy of it for each sink that was not listed before. */
  lemma {:induction false} RepointHolds(deps: seq<Dep>, parent: Id, sinks: seq<Id>, present: seq<Dep>, c: Dep)
    ensures c in RepointEach(deps, parent, sinks, present) <==>
      || (c in deps && !Names(c, parent))
      || exists d, s :: d in deps && Names(d, parent) && s in sinks && !Present(present, s) && c == CopyFor(d, s)
    decreases |deps|
  {
    if deps == [] {
    } else {
      RepointHolds(deps[1..], parent, sinks, present, c);
      assert deps == [deps[0]] + deps[1..];
      if Names(deps[0], parent) {
        CopiesIff(deps[0], sinks, present, c);
      }
    }
  }

  lemma CopiesIff(d: Dep, sinks: seq<Id>, present: seq<Dep>, c: Dep)
    ensures c in Copies(d, sinks, present) <==>
      exists s :: s in sinks && !Present(present, s) && c == CopyFor(d, s)
  {
    if c in Copies(d, sinks, present) { CopiesAreNew(d, sinks, present, c); }
    if s :| s in sinks && !Present(present, s) && c == CopyFor(d, s) { CopiesHave(d, sinks, present, s); }
  }

  predicate DependsOnNames(d: DependsOn, id: Id) {
    match d
    case DStr(x) => x == id
    case DList(deps) => Present(deps, id)
    case _ => false
  }

  lemma PresentIff(deps: seq<Dep>, id: Id)
    ensures Present(deps, id) <==> exists d :: d in deps && Names(d, id)
  {
  }

  /** The goals a re-pointed goal depends on: those it named before, without the parent, and,
      if it named the parent, every sink. */
  lemma RepointedDependsIff(g: Goal, parent: Id, sinks: seq<Id>, id: Id)
    requires parent !in sinks
    ensures DependsOnNames(Repointed(g, parent, sinks).dependsOn, id) <==>
      && id != parent
      && (DependsOnNames(g.dependsOn, id) || (id in sinks && DependsOnNames(g.dependsOn, parent)))
  {
    match g.dependsOn
    case DStr(x) =>
      if x == parent { StringDeps(sinks, id); }
    case DList(deps) => RepointPresent(deps, parent, sinks, id);
    case _ =>
  }

  lemma StringDeps(sinks: seq<Id>, id: Id)
    ensures Present(AsDeps(sinks), id) <==> id in sinks
  {
    forall k | 0 <= k < |sinks|
      ensures Names(AsDeps(sinks)[k], id) <==> sinks[k] == id
    {
    }
  }

  lemma RepointPresent(deps: seq<Dep>, parent: Id, sinks: seq<Id>, id: Id)
    requires parent !in sinks
    ensures Present(RepointEach(deps, parent, sinks, deps), id) <==>
      id != parent && (Present(deps, id) || (id in sinks && Present(deps, parent)))
  {
    var out := RepointEach(deps, parent, sinks, deps);
    PresentIff(out, id);
    PresentIff(deps, id);
    PresentIff(deps, parent);
    if c :| c in out && Names(c, id) {
      RepointHolds(deps, parent, sinks, deps, c);
    }
    if id != parent && Present(deps, id) {
      var d :| d in deps && Names(d, id);
      RepointHolds(deps, parent, sinks, deps, d);
    } else if id != parent && id in sinks && Present(deps, parent) {
      var d :| d in deps && Names(d, parent);
      RepointHolds(deps, parent, sinks, deps, CopyFor(d, id));
      assert Names(CopyFor(d, id), id);
    }
  }

  /** A re-pointed goal waits on every sink and on its other blockers, in their order, and
      no longer on the parent (unless the parent is a sink, which `plan` never says). */
  lemma RepointedBlockers(g: Goal, parent: Id, sinks: seq<Id>, x: Id)
    ensures var bb := AsList(Repointed(g, parent, sinks).blockedBy);
            && (x in bb <==> (x in AsList(g.blockedBy) && x != parent) || x in sinks)
            && Without(AsList(g.blockedBy), parent) <= bb
            && forall k :: |Without(AsList(g.blockedBy), parent)| <= k < |bb| ==> bb[k] !in bb[..k]
  {
    var kept := Without(AsList(g.blockedBy), parent);
    forall k | |kept| <= k < |Extend(kept, sinks)|
      ensures Extend(kept, sinks)[k] !in Extend(kept, sinks)[..k]
    {
      ExtendOnce(kept, sinks, k);
    }
    WithoutMember(AsList(g.blockedBy), parent, x);
    ExtendFacts(Without(AsList(g.blockedBy), parent), sinks, x);
  }

  lemma RepointedDependsOk(g: Goal, parent: Id, sinks: seq<Id>)
    requires DependsOk(g)
    ensures DependsOk(Repointed(g, parent, sinks))
  {
    var h := Repointed(g, parent, sinks);
    match g.dependsOn
    case DStr(id) =>
      RepointedBlockers(g, parent, sinks, id);
      forall s | s in sinks
        ensures s in AsList(h.blockedBy)
      {
        RepointedBlockers(g, parent, sinks, s);
      }
    case DList(deps) =>
      forall k, id | 0 <= k < |h.dependsOn.deps| && Names(h.dependsOn.deps[k], id)
        ensures id in AsList(h.blockedBy)
      {
        RepointNames(deps, parent, sinks, deps, k, id);
        RepointedBlockers(g, parent, sinks, id);
      }
    case _ =>
  }

  /** After an `apply` that was not refused: no live non-child goal other than the parent
      waits on the parent; every former dependent waits on all sinks and keeps its other
      blockers in order; the `depends_on` rule is preserved; no other goal changed. */
  lemma ApplyRepoints(goals: seq<Goal>, parent: Id, k: nat)
    requires UniqueIds(goals) && k < |goals|
    requires var p := MakePlan(goals, parent); !p.refuse
    ensures var p := MakePlan(goals, parent);
            var before, after := goals[k], Applied(goals, p, parent)[k];
            && after.id == before.id && after.status == before.status
            && after.parentGoal == before.parentGoal && after.originSignal == before.originSignal
            && (DependsOk(before) ==> DependsOk(after))
    ensures var p := MakePlan(goals, parent);
            var before, after := goals[k], Applied(goals, p, parent)[k];
            && (after.status !in TERMINAL_STATUSES && !IsChild(after, parent) && after.id != parent ==>
                  parent !in AsList(after.blockedBy))
            && (!IsDependent(before, parent, Ids(ChildrenOf(goals, parent))) ==> after == before)
    ensures var p := MakePlan(goals, parent);
            var before, after := goals[k], Applied(goals, p, parent)[k];
            IsDependent(before, parent, Ids(ChildrenOf(goals, parent))) ==>
              && p.sinks != [] && (forall s :: s in p.sinks ==> s in AsList(after.blockedBy))
              && Without(AsList(before.blockedBy), parent) <= AsList(after.blockedBy)
  {
    var p := MakePlan(goals, parent);
    var before := goals[k];
    var childIds := Ids(ChildrenOf(goals, parent));
    DependentMember(goals, parent, childIds, before.id);
    assert before.id in p.dependents <==> IsDependent(before, parent, childIds);
    PlanChildIds(goals, parent, before.id);
    ParentNoSink(goals, parent);
    RepointedBlockers(before, parent, p.sinks, parent);
    forall s | s in p.sinks
      ensures s in AsList(Repointed(before, parent, p.sinks).blockedBy)
    {
      RepointedBlockers(before, parent, p.sinks, s);
    }
    if DependsOk(before) { RepointedDependsOk(before, parent, p.sinks); }
    UniqueChild(goals, parent, k);
  }

  lemma UniqueChild(goals: seq<Goal>, parent: Id, k: nat)
    requires UniqueIds(goals) && k < |goals|
    ensures goals[k].id in ChildIds(goals, parent) ==> IsChild(goals[k], parent)
  {
    if goals[k].id in ChildIds(goals, parent) {
      var g :| g in goals && IsChild(g, parent) && g.id == goals[k].id;
      assert g == goals[k];
    }
  }

  lemma ParentNoSink(goals: seq<Goal>, parent: Id)
    ensures parent !in MakePlan(goals, parent).sinks
  {
    PlannedSink(goals, parent, parent);
  }

  /** A plan is refused exactly when there is someone to re-point and nothing to point at. */
  lemma RefuseIff(goals: seq<Goal>, parent: Id)
    ensures MakePlan(goals, parent).refuse
       <==> ChildIds(goals, parent) == {}
            && exists g :: g in goals && g.id != parent && g.status !in TERMINAL_STATUSES
                           && parent in AsList(g.blockedBy)
  {
    var childIds := Ids(ChildrenOf(goals, parent));
    if childIds != [] {
      PlanChildIds(goals, parent, childIds[0]);
    } else {
      forall c
        ensures c !in ChildIds(goals, parent)
      {
        PlanChildIds(goals, parent, c);
      }
      if g :| g in goals && g.id != parent && g.status !in TERMINAL_STATUSES && parent in AsList(g.blockedBy) {
        DependentMember(goals, parent, childIds, g.id);
        assert IsDependent(g, parent, childIds);
      }
      if DependentsOf(goals, parent, childIds) != [] {
        DependentMember(goals, parent, childIds, DependentsOf(goals, parent, childIds)[0]);
      }
    }
  }

  /** Why the write is safe: with acyclic children, once everything a re-pointed dependent
      waits on is done, the whole decomposition is. */
  lemma DependentWaitsForAll(goals: seq<Goal>, parent: Id, k: nat, done: set<Id>)
    requires UniqueIds(goals) && k < |goals| && Digraph.Acyclic(WaitEdges(goals, parent))
    requires !MakePlan(goals, parent).refuse && IsDependent(goals[k], parent, Ids(ChildrenOf(goals, parent)))
    requires Respects(WaitEdges(goals, parent), done)
    requires var after := Applied(goals, MakePlan(goals, parent), parent)[k];
             forall b :: b in AsList(after.blockedBy) ==> b in done
    ensures ChildIds(goals, parent) <= done
  {
    ApplyRepoints(goals, parent, k);
    forall c | c in ChildIds(goals, parent)
      ensures c in done
    {
      EveryChildAwaited(goals, parent, c);
      AwaitedIsDone(goals, parent, done, c);
    }
  }
}
