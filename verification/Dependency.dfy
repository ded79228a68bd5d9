/** Dependency resolution (`_dependency_graph.py`) and root search (`_frontier.py`).

  `supersession_target` reads a field or a sentence of prose; here it is the goal's
  `target`. */
module Dependency {
  import opened Wrappers
  import ManifestText
  import Digraph
  import Sets

  type Id = string

  /** The polymorphic `blocked_by` field; None members stand for non-strings. */
  datatype BlockedBy = Missing | One(id: string) | Many(ids: seq<Option<string>>) | OtherShape

  datatype Goal = Goal(status: string, blockedBy: BlockedBy, target: Option<Id>)

  type Index = map<Id, Goal>

  // ----- following supersession pointers -----

  datatype Verdict = Satisfied | Open | Unknown | Cycle

  predicate Completed(index: Index, id: Id) {
    id in index && index[id].status == "completed"
  }

  /** Where the walk goes next; it stops at a missing id, a completed goal and a goal
      nothing superseded. */
  function Hop(index: Index, id: Id): Option<Id> {
    if id in index && !Completed(index, id) then index[id].target else None
  }

  function ToSet(s: seq<Id>): set<Id> {
    set x | x in s
  }

  /** What the loop of `resolve_dependency` returns from `current` on. */
  function Resolve(index: Index, current: Id, seen: seq<Id>): (Verdict, Id, seq<Id>)
    decreases index.Keys - ToSet(seen)
  {
    if current in seen then (Cycle, current, seen)
    else
      var chain := seen + [current];
      if current !in index then (Unknown, current, chain)
      else if Completed(index, current) then (Satisfied, current, chain)
      else if index[current].target.None? then (Open, current, chain)
      else
        assert current !in ToSet(seen) && current in ToSet(chain);
        Resolve(index, index[current].target.value, chain)
  }

  /** `resolve_dependency` */
  method ResolveDependency(target: Id, index: Index) returns (verdict: Verdict, resolved: Id, chain: seq<Id>)
    ensures (verdict, resolved, chain) == Resolve(index, target, [])
  {
    chain := [];
    var current := target;
    while true
      invariant Resolve(index, target, []) == Resolve(index, current, chain)
      decreases index.Keys - ToSet(chain)
    {
      if current in chain {
        return Cycle, current, chain;
      }
      assert current !in ToSet(chain) && current in ToSet(chain + [current]);
      chain := chain + [current];
      if current !in index {
        return Unknown, current, chain;
      }
      if Completed(index, current) {
        return Satisfied, current, chain;
      }
      if index[current].target.None? {
        return Open, current, chain;
      }
      current := index[current].target.value;
    }
  }

  /** The goal `n` hops on. */
  function Trail(index: Index, id: Id, n: nat): Option<Id> {
    if n == 0 then Some(id)
    else
      match Trail(index, id, n - 1)
      case None => None
      case Some(x) => Hop(index, x)
  }

  /** The trail has an end, and this is it. */
  ghost predicate EndsAt(index: Index, id: Id, last: Id) {
    exists n: nat :: Trail(index, id, n) == Some(last) && Hop(index, last) == None
  }

  lemma {:induction false} TrailPrefix(index: Index, id: Id, m: nat, n: nat)
    requires m <= n && Trail(index, id, n).Some?
    ensures Trail(index, id, m).Some?
    decreases n
  {
    if m < n { TrailPrefix(index, id, m, n - 1); }
  }

  lemma {:induction false} EndIsLast(index: Index, id: Id, m: nat, last: Id, n: nat)
    requires Trail(index, id, m) == Some(last) && Hop(index, last) == None && m < n
    ensures Trail(index, id, n) == None
    decreases n
  {
    if m + 1 < n { EndIsLast(index, id, m, last, n - 1); }
  }

  lemma EndUnique(index: Index, id: Id, a: Id, b: Id)
    requires EndsAt(index, id, a) && EndsAt(index, id, b)
    ensures a == b
  {
    var m: nat :| Trail(index, id, m) == Some(a) && Hop(index, a) == None;
    var n: nat :| Trail(index, id, n) == Some(b) && Hop(index, b) == None;
    if m < n { EndIsLast(index, id, m, a, n); }
    if n < m { EndIsLast(index, id, n, b, m); }
  }

  /** A repeat makes the trail endless. */
  lemma {:induction false} RepeatNeverEnds(index: Index, id: Id, i: nat, j: nat, n: nat)
    requires i < j && Trail(index, id, j).Some? && Trail(index, id, i) == Trail(index, id, j)
    ensures Trail(index, id, n).Some? && (n >= j ==> Trail(index, id, n) == Trail(index, id, n - (j - i)))
    decreases n
  {
    if n < j {
      TrailPrefix(index, id, n, j);
    } else if n > j {
      RepeatNeverEnds(index, id, i, j, n - 1);
      RepeatNeverEnds(index, id, i, j, n - (j - i));
    }
  }

  /** What the verdict says of the goal the walk stopped at. */
  ghost predicate Fits(index: Index, v: Verdict, last: Id) {
    match v
    case Satisfied => Completed(index, last)
    case Unknown => last !in index
    case Open => last in index && !Completed(index, last) && index[last].target.None?
    case Cycle => false
  }

  lemma {:induction false} ResolveFollows(index: Index, start: Id, current: Id, seen: seq<Id>)
    requires Trail(index, start, |seen|) == Some(current)
    requires forall i :: 0 <= i < |seen| ==> Trail(index, start, i) == Some(seen[i])
    ensures var (v, last, chain) := Resolve(index, current, seen);
            && (v != Cycle ==> EndsAt(index, start, last) && Fits(index, v, last))
            && (v == Cycle ==> forall n: nat :: Trail(index, start, n).Some?)
    ensures var (v, last, chain) := Resolve(index, current, seen);
            && (forall i :: 0 <= i < |chain| ==> Trail(index, start, i) == Some(chain[i]))
            && chain != []
            && (v != Cycle ==> chain[|chain| - 1] == last)
            && (v == Cycle ==> last in chain && Trail(index, start, |chain|) == Some(last))
    decreases index.Keys - ToSet(seen)
  {
    if current in seen {
      var i :| 0 <= i < |seen| && seen[i] == current;
      forall n: nat
        ensures Trail(index, start, n).Some?
      {
        RepeatNeverEnds(index, start, i, |seen|, n);
      }
    } else if Hop(index, current).Some? {
      assert current !in ToSet(seen) && current in ToSet(seen + [current]);
      ResolveFollows(index, start, index[current].target.value, seen + [current]);
    }
  }

  /** Each verdict holds exactly when the trail of supersession pointers says so: it ends at
      a completed goal, at an id no queue holds, or at a goal that moved its obligation
      nowhere; or it never ends. */
  lemma VerdictIff(index: Index, id: Id)
    ensures var v := Resolve(index, id, []).0;
            && (v == Satisfied <==> exists g :: EndsAt(index, id, g) && Completed(index, g))
            && (v == Unknown <==> exists g :: EndsAt(index, id, g) && g !in index)
            && (v == Open <==> exists g :: EndsAt(index, id, g) && g in index && !Completed(index, g))
            && (v == Cycle <==> forall n: nat :: Trail(index, id, n).Some?)
  {
    ResolveFollows(index, id, id, []);
    var (v, last, chain) := Resolve(index, id, []);
    if v == Cycle {
      forall g
        ensures !EndsAt(index, id, g)
      {
        if EndsAt(index, id, g) {
          var m: nat :| Trail(index, id, m) == Some(g) && Hop(index, g) == None;
          EndIsLast(index, id, m, g, m + 1);
        }
      }
    } else {
      forall g | EndsAt(index, id, g)
        ensures g == last
      {
        EndUnique(index, id, g, last);
      }
      var m: nat :| Trail(index, id, m) == Some(last) && Hop(index, last) == None;
      assert Trail(index, id, m + 1) == None;
      assert exists n: nat :: Trail(index, id, n) == None;
    }
  }

  /** What is returned with the verdict: the goals of the trail, one hop after another, from
      the first to the one where it ends, or, where it never ends, to the first repeat. */
  lemma ChainIs(index: Index, id: Id)
    ensures var (v, last, chain) := Resolve(index, id, []);
            && chain != [] && chain[0] == id
            && (forall i :: 0 <= i < |chain| - 1 ==> Hop(index, chain[i]) == Some(chain[i + 1]))
            && (v != Cycle ==> chain[|chain| - 1] == last && EndsAt(index, id, last))
            && (v == Cycle ==> last in chain && Hop(index, chain[|chain| - 1]) == Some(last))
  {
    ResolveFollows(index, id, id, []);
    var chain := Resolve(index, id, []).2;
    forall i | 0 <= i < |chain| - 1
      ensures Hop(index, chain[i]) == Some(chain[i + 1])
    {
      assert Trail(index, id, i + 1) == Some(chain[i + 1]) && Trail(index, id, i) == Some(chain[i]);
    }
    assert Trail(index, id, 0) == Some(chain[0]);
    assert Trail(index, id, |chain| - 1) == Some(chain[|chain| - 1]);
  }

  /** `supersession_satisfied_ids`: exactly the ids not already done that carry a pointer
      and whose trail ends in a completed goal. */
  method SupersessionSatisfiedIds(index: Index, alreadyDone: set<Id>) returns (ids: set<Id>)
    ensures ids !! alreadyDone
    ensures forall id :: id in ids <==>
      id in index && id !in alreadyDone && index[id].target.Some?
      && exists g :: EndsAt(index, id, g) && Completed(index, g)
  {
    ids := {};
    var todo := index.Keys;
    while todo != {}
      invariant todo <= index.Keys && ids <= index.Keys - todo
      invariant forall id :: id in index.Keys - todo ==>
        (id in ids <==> id !in alreadyDone && index[id].target.Some? && Resolve(index, id, []).0 == Satisfied)
    {
      var id :| id in todo;
      todo := todo - {id};
      if id !in alreadyDone && index[id].target.Some? {
        var verdict, _, _ := ResolveDependency(id, index);
        if verdict == Satisfied {
          ids := ids + {id};
        }
      }
    }
    forall id | id in index
      ensures Resolve(index, id, []).0 == Satisfied <==> exists g :: EndsAt(index, id, g) && Completed(index, g)
    {
      VerdictIff(index, id);
    }
  }

  // ----- open blockers -----

  predicate Blank(s: string) {
    forall k :: 0 <= k < |s| ==> ManifestText.IsSpace(s[k])
  }

  function KeepIds(ids: seq<Option<string>>): seq<Id> {
    if ids == [] then []
    else (if ids[0].Some? && !Blank(ids[0].value) then [ids[0].value] else []) + KeepIds(ids[1..])
  }

  /** `norm_blocked_by` */
  function NormBlockedBy(b: BlockedBy): seq<Id> {
    match b
    case One(id) => if Blank(id) then [] else [id]
    case Many(ids) => KeepIds(ids)
    case _ => []
  }

  /** Open or looping: both keep the consumer waiting. */
  predicate Waits(index: Index, b: Id) {
    Resolve(index, b, []).0 in {Open, Cycle}
  }

  function Select(index: Index, ids: seq<Id>): seq<Id> {
    if ids == [] then [] else (if Waits(index, ids[0]) then [ids[0]] else []) + Select(index, ids[1..])
  }

  function OpenIds(index: Index, g: Goal): seq<Id> {
    Select(index, NormBlockedBy(g.blockedBy))
  }

  lemma {:induction false} SelectMember(index: Index, ids: seq<Id>, b: Id)
    ensures b in Select(index, ids) <==> b in ids && Waits(index, b)
  {
    if ids == [] {
    } else {
      SelectMember(index, ids[1..], b);
      assert ids == [ids[0]] + ids[1..];
    }
  }

  lemma {:induction false} SelectAppend(index: Index, ids: seq<Id>, b: Id)
    ensures Select(index, ids + [b]) == Select(index, ids) + (if Waits(index, b) then [b] else [])
  {
    if ids == [] {
      assert [] + [b] == [b];
    } else {
      SelectAppend(index, ids[1..], b);
      assert (ids + [b])[1..] == ids[1..] + [b];
    }
  }

  /** The field names this goal. */
  predicate ListsId(b: BlockedBy, id: Id) {
    && !Blank(id)
    && match b
       case One(x) => x == id
       case Many(ids) => Some(id) in ids
       case _ => false
  }

  lemma {:induction false} KeptIff(ids: seq<Option<string>>, id: Id)
    ensures id in KeepIds(ids) <==> Some(id) in ids && !Blank(id)
  {
    if ids == [] {
    } else {
      KeptIff(ids[1..], id);
      assert ids == [ids[0]] + ids[1..];
    }
  }

  /** The goals that keep a goal waiting: those its field names whose trail ends at a known
      goal that is not completed, or never ends. */
  lemma OpenIff(index: Index, g: Goal, b: Id)
    ensures b in OpenIds(index, g) <==>
      && ListsId(g.blockedBy, b)
      && ((exists last :: EndsAt(index, b, last) && last in index && !Completed(index, last))
          || forall n: nat :: Trail(index, b, n).Some?)
  {
    SelectMember(index, NormBlockedBy(g.blockedBy), b);
    VerdictIff(index, b);
    if g.blockedBy.Many? { KeptIff(g.blockedBy.ids, b); }
  }

  /** `sel` is what stands at the places `at` of `ids`, in order, and these are the places of
      the goals that are waited for. */
  ghost predicate Picks(index: Index, ids: seq<Id>, sel: seq<Id>, at: seq<nat>) {
    && |at| == |sel|
    && (forall k :: 0 <= k < |at| ==> at[k] < |ids| && sel[k] == ids[at[k]])
    && (forall k, l :: 0 <= k < l < |at| ==> at[k] < at[l])
    && (forall j :: 0 <= j < |ids| && Waits(index, ids[j]) ==> j in at)
  }

  lemma PicksSnoc(index: Index, ids: seq<Id>, sel: seq<Id>, at: seq<nat>, x: Id)
    requires Picks(index, ids, sel, at)
    ensures Waits(index, x) ==> Picks(index, ids + [x], sel + [x], at + [|ids|])
    ensures !Waits(index, x) ==> Picks(index, ids + [x], sel, at)
  {
    var more, longer := ids + [x], at + [|ids|];
    assert longer[|at|] == |ids| && forall k :: 0 <= k < |at| ==> longer[k] == at[k];
    forall j | 0 <= j < |ids| && Waits(index, more[j])
      ensures j in at && j in longer
    {
      assert more[j] == ids[j];
    }
  }

  /** They come in the field's order, each as often as it is named there. */
  lemma {:induction false} SelectedAt(index: Index, ids: seq<Id>) returns (at: seq<nat>)
    ensures Picks(index, ids, Select(index, ids), at)
  {
    if ids == [] {
      at := [];
    } else {
      var rest, x := ids[..|ids| - 1], ids[|ids| - 1];
      var before := SelectedAt(index, rest);
      SelectAppend(index, rest, x);
      PicksSnoc(index, rest, Select(index, rest), before, x);
      assert rest + [x] == ids;
      at := if Waits(index, x) then before + [|rest|] else before;
      assert Select(index, rest) + [] == Select(index, rest);
    }
  }

  /** `live_blockers` */
  method LiveBlockers(goal: Goal, index: Index) returns (openIds: seq<Id>, unknown: seq<Id>)
    ensures openIds == OpenIds(index, goal)
    ensures forall b :: b in unknown <==> b in NormBlockedBy(goal.blockedBy) && Resolve(index, b, []).0 == Unknown
  {
    openIds, unknown := [], [];
    var ids := NormBlockedBy(goal.blockedBy);
    for k := 0 to |ids|
      invariant openIds == Select(index, ids[..k])
      invariant forall b :: b in unknown <==> b in ids[..k] && Resolve(index, b, []).0 == Unknown
    {
      assert ids[..k + 1] == ids[..k] + [ids[k]];
      SelectAppend(index, ids[..k], ids[k]);
      var verdict, _, _ := ResolveDependency(ids[k], index);
      if verdict == Unknown {
        unknown := unknown + [ids[k]];
      } else if verdict != Satisfied {
        openIds := openIds + [ids[k]];
      }
    }
    assert ids[..|ids|] == ids;
  }

  // ----- roots -----

  const MAX_WALK: nat := 64

  /** `g` waits on `b`. */
  ghost function OpenEdges(index: Index): set<(Id, Id)> {
    set g, i | g in index && 0 <= i < |OpenIds(index, index[g])| :: (g, OpenIds(index, index[g])[i])
  }

  ghost predicate IsRoot(index: Index, start: Id, r: Id) {
    r != start && r in index && OpenIds(index, index[r]) == [] && Digraph.Reaches(OpenEdges(index), start, r)
  }

  ghost function OpenCount(index: Index, g: Id): nat {
    if g in index then |OpenIds(index, index[g])| else 0
  }

  ghost function Counts(index: Index): Id -> nat {
    g => OpenCount(index, g)
  }

  ghost function TotalOpen(index: Index, s: set<Id>): nat {
    Sets.SumOf(s, Counts(index))
  }

  /** The goals the walk from `start` can meet. */
  ghost function Reachable(index: Index, start: Id): set<Id> {
    set g | g in index.Keys + {start} && Digraph.Reaches(OpenEdges(index), start, g)
  }

  lemma OpenIsEdge(index: Index, g: Id, b: Id)
    requires g in index && b in OpenIds(index, index[g])
    ensures (g, b) in OpenEdges(index) && b in index
  {
    var i :| 0 <= i < |OpenIds(index, index[g])| && OpenIds(index, index[g])[i] == b;
    SelectMember(index, NormBlockedBy(index[g].blockedBy), b);
    assert b !in index ==> Resolve(index, b, []).0 == Unknown;
  }

  /** A set that holds the start and, with each goal, its open blockers, holds every goal
      the start reaches. */
  lemma {:induction false} ClosedHoldsAll(index: Index, seen: set<Id>, a: Id, b: Id, n: nat)
    requires a in seen && Digraph.ReachesIn(OpenEdges(index), a, b, n)
    requires forall g, c :: g in seen && g in index && c in OpenIds(index, index[g]) ==> c in seen
    ensures b in seen
    decreases n
  {
    if n == 0 {
    } else {
      var mid :| (a, mid) in OpenEdges(index) && Digraph.ReachesIn(OpenEdges(index), mid, b, n - 1);
      assert a in index && mid in OpenIds(index, index[a]);
      ClosedHoldsAll(index, seen, mid, b, n - 1);
    }
  }

  /** The walk has expanded `seen` and still has `stack` to do. */
  ghost predicate Walk(index: Index, start: Id, seen: set<Id>, stack: set<Id>, roots: set<Id>) {
    && start in seen + stack
    && seen + stack <= Reachable(index, start)
    && (forall g, c :: g in seen && g in index && c in OpenIds(index, index[g]) ==> c in seen + stack)
    && (forall g :: g in roots <==> g in seen && g != start && g in index && OpenIds(index, index[g]) == [])
  }

  lemma OpenReachable(index: Index, start: Id, g: Id)
    requires g in index && g in Reachable(index, start)
    ensures ToSet(OpenIds(index, index[g])) <= Reachable(index, start)
  {
    forall c | c in OpenIds(index, index[g])
      ensures c in Reachable(index, start)
    {
      OpenIsEdge(index, g, c);
      Digraph.EdgeReaches(OpenEdges(index), g, c);
      Digraph.ReachesTransitive(OpenEdges(index), start, g, c);
    }
  }

  lemma WalkStep(index: Index, start: Id, gid: Id, seen: set<Id>, rest: set<Id>, roots: set<Id>, openIds: seq<Id>)
    requires Walk(index, start, seen, rest + {gid}, roots) && gid !in seen
    requires openIds == if gid in index then OpenIds(index, index[gid]) else []
    ensures Walk(index, start, seen + {gid}, rest + ToSet(openIds),
                 if gid in index && openIds == [] && gid != start then roots + {gid} else roots)
  {
    if gid in index { OpenReachable(index, start, gid); }
    var seen', stack' := seen + {gid}, rest + ToSet(openIds);
    forall g, c | g in seen' && g in index && c in OpenIds(index, index[g])
      ensures c in seen' + stack'
    {
      if g == gid { assert c in ToSet(openIds); } else { assert c in seen + (rest + {gid}); }
    }
  }

  lemma WalkDone(index: Index, start: Id, seen: set<Id>, roots: set<Id>, r: Id)
    requires Walk(index, start, seen, {}, roots)
    ensures r in roots <==> IsRoot(index, start, r)
  {
    if IsRoot(index, start, r) {
      var n: nat :| Digraph.ReachesIn(OpenEdges(index), start, r, n);
      ClosedHoldsAll(index, seen, start, r, n);
    }
  }

  /** The loop's invariant: each pop is paid for by the start or by an open edge. */
  ghost predicate Walked(index: Index, start: Id, seen: set<Id>, stack: seq<Id>, roots: set<Id>, steps: nat) {
    Walk(index, start, seen, ToSet(stack), roots) && steps + |stack| == 1 + TotalOpen(index, seen)
  }

  lemma WalkedSkip(index: Index, start: Id, seen: set<Id>, rest: seq<Id>, gid: Id, roots: set<Id>, steps: nat)
    requires Walked(index, start, seen, rest + [gid], roots, steps) && gid in seen
    ensures Walked(index, start, seen, rest, roots, steps + 1)
  {
    assert ToSet(rest + [gid]) == ToSet(rest) + {gid};
    assert seen + ToSet(rest) == seen + ToSet(rest + [gid]);
  }

  lemma WalkedStep(index: Index, start: Id, seen: set<Id>, rest: seq<Id>, gid: Id, roots: set<Id>, openIds: seq<Id>,
                   steps: nat)
    requires Walked(index, start, seen, rest + [gid], roots, steps) && gid !in seen
    requires openIds == if gid in index then OpenIds(index, index[gid]) else []
    ensures Walked(index, start, seen + {gid}, rest + openIds,
                   if gid in index && openIds == [] && gid != start then roots + {gid} else roots, steps + 1)
  {
    assert ToSet(rest + [gid]) == ToSet(rest) + {gid};
    assert ToSet(rest + openIds) == ToSet(rest) + ToSet(openIds);
    WalkStep(index, start, gid, seen, ToSet(rest), roots, openIds);
    TotalSnoc(index, seen, gid);
  }

  lemma TotalSnoc(index: Index, seen: set<Id>, gid: Id)
    requires gid !in seen
    ensures TotalOpen(index, seen + {gid}) == TotalOpen(index, seen) + Counts(index)(gid)
  {
    Sets.SumRemove(seen + {gid}, Counts(index), gid);
    assert seen + {gid} - {gid} == seen;
  }

  lemma WalkedEnd(index: Index, start: Id, seen: set<Id>, stack: seq<Id>, roots: set<Id>, steps: nat)
    requires Walked(index, start, seen, stack, roots, steps) && (stack == [] || steps == MAX_WALK)
    ensures forall r :: r in roots ==> IsRoot(index, start, r)
    ensures stack == [] ==> forall r :: IsRoot(index, start, r) ==> r in roots
  {
    if stack == [] {
      assert ToSet(stack) == {};
      forall r
        ensures r in roots <==> IsRoot(index, start, r)
      {
        WalkDone(index, start, seen, roots, r);
      }
    }
  }

  /** The stack runs empty in time exactly when there are fewer open edges than pops. */
  lemma EmptiedIff(index: Index, start: Id, seen: set<Id>, stack: seq<Id>, roots: set<Id>, steps: nat)
    requires Walked(index, start, seen, stack, roots, steps) && steps <= MAX_WALK
    requires stack == [] || steps == MAX_WALK
    ensures stack == [] <==> TotalOpen(index, Reachable(index, start)) < MAX_WALK
  {
    Sets.SumMonotone(seen, Reachable(index, start), Counts(index));
    if stack == [] {
      assert ToSet(stack) == {};
      AllSeen(index, start, seen, roots);
      Sets.SumMonotone(Reachable(index, start), seen, Counts(index));
    }
  }

  /** A walk with nothing left to pop has seen all there is to reach. */
  lemma AllSeen(index: Index, start: Id, seen: set<Id>, roots: set<Id>)
    requires Walk(index, start, seen, {}, roots)
    ensures Reachable(index, start) <= seen
  {
    forall r | r in Reachable(index, start)
      ensures r in seen
    {
      var n: nat :| Digraph.ReachesIn(OpenEdges(index), start, r, n);
      ClosedHoldsAll(index, seen, start, r, n);
    }
  }

  /** `roots_of`: only roots, and all of them when its stack empties, which it does exactly
      when the goals it can reach have fewer than 64 open edges between them. */
  method RootsOf(start: Id, index: Index) returns (roots: set<Id>, ghost emptied: bool)
    ensures forall r :: r in roots ==> IsRoot(index, start, r)
    ensures emptied ==> forall r :: IsRoot(index, start, r) ==> r in roots
    ensures emptied <==> TotalOpen(index, Reachable(index, start)) < 64
  {
    roots := {};
    var seen: set<Id> := {};
    var stack := [start];
    var steps := 0;
    Digraph.ReachesRefl(OpenEdges(index), start);
    while stack != [] && steps < MAX_WALK
      invariant steps <= MAX_WALK
      invariant Walked(index, start, seen, stack, roots, steps)
      decreases MAX_WALK - steps
    {
      var gid := stack[|stack| - 1];
      ghost var rest := stack[..|stack| - 1];
      assert stack == rest + [gid];
      if gid in seen {
        WalkedSkip(index, start, seen, rest, gid, roots, steps);
        stack := stack[..|stack| - 1];
      } else {
        var openIds := [];
        if gid in index {
          var found, _ := LiveBlockers(index[gid], index);
          openIds := found;
        }
        WalkedStep(index, start, seen, rest, gid, roots, openIds, steps);
        seen := seen + {gid};
        stack := stack[..|stack| - 1] + openIds;
        if gid in index && openIds == [] && gid != start {
          roots := roots + {gid};
        }
      }
      steps := steps + 1;
    }
    emptied := stack == [];
    WalkedEnd(index, start, seen, stack, roots, steps);
    EmptiedIff(index, start, seen, stack, roots, steps);
  }
}
