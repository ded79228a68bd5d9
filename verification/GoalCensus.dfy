/** Completion counts under goal eviction (`_goal_census.py`). */
module GoalCensus {
  import opened Wrappers
  import opened GoalStatus
  import opened Sets

  /** An entry of `goals`; the raw list may hold something that is not a record. */
  datatype Item = Goal(id: string, status: string, recurring: bool) | NotARecord

  /** `archived_census`. A key is None when absent or not a dict; a count is None when
      `int()` refuses it; a bucket is None when it is not a list. */
  datatype Census = Census(
    byStatus: Option<map<string, Option<int>>>,
    evictedIds: Option<map<string, Option<seq<string>>>>,
    closers: Option<map<string, Option<seq<string>>>>)

  datatype Aspiration = Aspiration(goals: seq<Item>, census: Option<Census>, initialGoalCount: Option<int>)

  // ----- the census -----

  /** The deduplicated ids of one bucket. */
  function BucketIds(c: Census, status: string): set<string> {
    if c.evictedIds.Some? && status in c.evictedIds.value && c.evictedIds.value[status].Some?
    then set id | id in c.evictedIds.value[status].value else {}
  }

  /** `census_evicted_ids`: buckets that hold anything. */
  function EvictedIds(c: Census): map<string, set<string>> {
    map s | s in c.evictedIds.GetOr(map[]) && BucketIds(c, s) != {} :: BucketIds(c, s)
  }

  function Baseline(c: Census, status: string): nat {
    if c.byStatus.Some? && status in c.byStatus.value && c.byStatus.value[status].Some?
       && c.byStatus.value[status].value > 0 then c.byStatus.value[status].value else 0
  }

  function CountedStatuses(c: Census): set<string> {
    (set s | s in c.byStatus.GetOr(map[]) && c.byStatus.value[s].Some?) + EvictedIds(c).Keys
  }

  /** `census_by_status` */
  function CensusByStatus(census: Option<Census>): map<string, nat> {
    match census
    case None => map[]
    case Some(c) => map s | s in CountedStatuses(c) :: Baseline(c, s) + |BucketIds(c, s)|
  }

  function BaseCounts(c: Census): map<string, nat> {
    map s | s in c.byStatus.GetOr(map[]) && c.byStatus.value[s].Some? :: Baseline(c, s)
  }

  function AddBuckets(base: map<string, nat>, ids: map<string, set<string>>, done: set<string>): map<string, nat> {
    map s | s in base.Keys + done ::
      (if s in base then base[s] else 0) + (if s in done && s in ids then |ids[s]| else 0)
  }

  lemma AddBucket(base: map<string, nat>, ids: map<string, set<string>>, done: set<string>, s: string)
    requires s in ids && s !in done
    ensures var out := AddBuckets(base, ids, done);
            AddBuckets(base, ids, done + {s}) == out[s := |ids[s]| + if s in out then out[s] else 0]
  {
  }

  lemma CensusInTwoSteps(c: Census)
    ensures AddBuckets(BaseCounts(c), EvictedIds(c), EvictedIds(c).Keys) == CensusByStatus(Some(c))
  {
    var ids := EvictedIds(c);
    forall s | s in CountedStatuses(c)
      ensures |BucketIds(c, s)| == if s in ids then |ids[s]| else 0
    {
    }
  }

  method ReadBaseline(c: Census) returns (out: map<string, nat>)
    ensures out == BaseCounts(c)
  {
    out := map[];
    var todo := c.byStatus.GetOr(map[]).Keys;
    while todo != {}
      invariant todo <= c.byStatus.GetOr(map[]).Keys
      invariant out.Keys == (set s | s in BaseCounts(c) && s !in todo)
      invariant forall s :: s in out ==> out[s] == BaseCounts(c)[s]
    {
      var s :| s in todo;
      todo := todo - {s};
      var n := c.byStatus.value[s];
      if n.Some? {
        out := out[s := if n.value > 0 then n.value else 0];
      }
    }
  }

  /** `census_by_status` as the source computes it: the baseline, then the id sets. */
  method ComputeCensus(census: Option<Census>) returns (out: map<string, nat>)
    ensures out == CensusByStatus(census)
  {
    if census.None? {
      return map[];
    }
    var c := census.value;
    out := ReadBaseline(c);
    ghost var base := out;
    var ids := EvictedIds(c);
    var left := ids.Keys;
    assert AddBuckets(base, ids, ids.Keys - left) == base;
    while left != {}
      invariant left <= ids.Keys
      invariant out == AddBuckets(base, ids, ids.Keys - left)
    {
      var s :| s in left;
      out := out[s := |ids[s]| + if s in out then out[s] else 0];
      assert ids.Keys - (left - {s}) == ids.Keys - left + {s};
      AddBucket(base, ids, ids.Keys - left, s);
      left := left - {s};
    }
    assert ids.Keys - left == ids.Keys;
    CensusInTwoSteps(c);
  }

  // ----- sums over statuses -----

  function CountOf(census: Option<Census>, s: string): nat {
    if census.None? then 0 else Baseline(census.value, s) + |BucketIds(census.value, s)|
  }

  ghost function StatusCounts(census: Option<Census>): string -> nat {
    s => CountOf(census, s)
  }

  ghost function SumOver(census: Option<Census>, statuses: set<string>): nat {
    SumOf(statuses, StatusCounts(census))
  }

  // ----- effective counts -----

  predicate Live(g: Item, exclude: set<string>, includeRecurring: bool) {
    g.Goal? && (includeRecurring || !g.recurring) && g.status !in exclude
  }

  function LiveCount(goals: seq<Item>, exclude: set<string>, includeRecurring: bool): nat {
    if goals == [] then 0
    else
      LiveCount(goals[..|goals| - 1], exclude, includeRecurring)
      + if Live(goals[|goals| - 1], exclude, includeRecurring) then 1 else 0
  }

  function DoneCount(goals: seq<Item>, exclude: set<string>, includeRecurring: bool): nat {
    if goals == [] then 0
    else
      DoneCount(goals[..|goals| - 1], exclude, includeRecurring)
      + if Live(goals[|goals| - 1], exclude, includeRecurring) && goals[|goals| - 1].status == "completed" then 1 else 0
  }

  /** Evicted goals whose status the consumer does not exclude. */
  ghost function ArchivedTotal(census: Option<Census>, exclude: set<string>): nat {
    SumOver(census, CensusByStatus(census).Keys - exclude)
  }

  ghost function ArchivedDone(census: Option<Census>, exclude: set<string>): nat {
    if "completed" in exclude then 0 else CountOf(census, "completed")
  }

  /** `effective_counts`: (total, completed). */
  ghost function EffectiveCounts(asp: Aspiration, exclude: set<string>, includeRecurring: bool): (nat, nat) {
    (LiveCount(asp.goals, exclude, includeRecurring) + ArchivedTotal(asp.census, exclude),
     DoneCount(asp.goals, exclude, includeRecurring) + ArchivedDone(asp.census, exclude))
  }

  lemma CensusAt(census: Option<Census>, s: string)
    ensures s in CensusByStatus(census) ==> CensusByStatus(census)[s] == CountOf(census, s)
    ensures s !in CensusByStatus(census) ==> CountOf(census, s) == 0
  {
  }

  method CountLive(goals: seq<Item>, exclude: set<string>, includeRecurring: bool) returns (total: nat, completed: nat)
    ensures total == LiveCount(goals, exclude, includeRecurring)
    ensures completed == DoneCount(goals, exclude, includeRecurring)
  {
    total, completed := 0, 0;
    for k := 0 to |goals|
      invariant total == LiveCount(goals[..k], exclude, includeRecurring)
      invariant completed == DoneCount(goals[..k], exclude, includeRecurring)
    {
      assert goals[..k + 1][..k] == goals[..k];
      if Live(goals[k], exclude, includeRecurring) {
        total := total + 1;
        if goals[k].status == "completed" {
          completed := completed + 1;
        }
      }
    }
    assert goals[..|goals|] == goals;
  }

  lemma SumStep(census: Option<Census>, keys: set<string>, todo: set<string>, s: string, exclude: set<string>)
    requires todo <= keys && s in todo
    ensures SumOver(census, (keys - (todo - {s})) - exclude) ==
            SumOver(census, (keys - todo) - exclude) + if s in exclude then 0 else CountOf(census, s)
  {
    var before := (keys - todo) - exclude;
    if s in exclude {
      assert (keys - (todo - {s})) - exclude == before;
    } else {
      assert (keys - (todo - {s})) - exclude == before + {s};
      SumRemove(before + {s}, StatusCounts(census), s);
      assert before + {s} - {s} == before;
    }
  }

  method AddCounts(counts: map<string, nat>, exclude: set<string>, ghost census: Option<Census>)
    returns (archived: nat, done: nat)
    requires forall s :: s in counts ==> counts[s] == CountOf(census, s)
    ensures archived == SumOver(census, counts.Keys - exclude)
    ensures done == if "completed" in counts && "completed" !in exclude then counts["completed"] else 0
  {
    var todo := counts.Keys;
    archived, done := 0, 0;
    assert (counts.Keys - todo) - exclude == {};
    while todo != {}
      invariant todo <= counts.Keys
      invariant archived == SumOver(census, (counts.Keys - todo) - exclude)
      invariant done ==
        if "completed" in counts && "completed" !in todo && "completed" !in exclude then counts["completed"] else 0
    {
      var s :| s in todo;
      SumStep(census, counts.Keys, todo, s, exclude);
      if s !in exclude {
        archived := archived + counts[s];
        if s == "completed" {
          done := done + counts[s];
        }
      }
      todo := todo - {s};
    }
    assert counts.Keys - {} == counts.Keys;
  }

  lemma AllCensusAt(census: Option<Census>)
    ensures forall s :: s in CensusByStatus(census) ==> CensusByStatus(census)[s] == CountOf(census, s)
    ensures "completed" !in CensusByStatus(census) ==> CountOf(census, "completed") == 0
  {
    CensusAt(census, "completed");
  }

  method CountArchived(census: Option<Census>, exclude: set<string>) returns (archived: nat, done: nat)
    ensures archived == ArchivedTotal(census, exclude) && done == ArchivedDone(census, exclude)
  {
    var counts := ComputeCensus(census);
    AllCensusAt(census);
    archived, done := AddCounts(counts, exclude, census);
  }

  lemma EffectiveParts(asp: Aspiration, exclude: set<string>, includeRecurring: bool, live: nat, done: nat,
                       archived: nat, archivedDone: nat)
    requires live == LiveCount(asp.goals, exclude, includeRecurring)
    requires done == DoneCount(asp.goals, exclude, includeRecurring)
    requires archived == ArchivedTotal(asp.census, exclude) && archivedDone == ArchivedDone(asp.census, exclude)
    ensures EffectiveCounts(asp, exclude, includeRecurring) == (live + archived, done + archivedDone)
  {
  }

  /** `effective_counts` as the source computes it: the live goals, then the census. */
  method ComputeEffectiveCounts(asp: Aspiration, exclude: set<string>, includeRecurring: bool)
    returns (total: nat, completed: nat)
    ensures (total, completed) == EffectiveCounts(asp, exclude, includeRecurring)
  {
    var live, done := CountLive(asp.goals, exclude, includeRecurring);
    var archived, archivedDone := CountArchived(asp.census, exclude);
    EffectiveParts(asp, exclude, includeRecurring, live, done, archived, archivedDone);
    return live + archived, done + archivedDone;
  }

  /** The goals the consumer counts: records, recurring ones only if it asks for them, of a
      status it does not exclude; `done` asks for the completed ones. */
  ghost function Counted(goals: seq<Item>, exclude: set<string>, includeRecurring: bool, done: bool): set<nat> {
    set k: nat | k < |goals| && goals[k].Goal? && (goals[k].recurring ==> includeRecurring)
                 && goals[k].status !in exclude && (done ==> goals[k].status == "completed")
  }

  lemma {:induction false} LiveIs(goals: seq<Item>, exclude: set<string>, includeRecurring: bool)
    ensures LiveCount(goals, exclude, includeRecurring) == |Counted(goals, exclude, includeRecurring, false)|
    ensures DoneCount(goals, exclude, includeRecurring) == |Counted(goals, exclude, includeRecurring, true)|
  {
    if goals == [] {
      assert Counted([], exclude, includeRecurring, false) == {} == Counted([], exclude, includeRecurring, true);
    } else {
      var last := |goals| - 1;
      LiveIs(goals[..last], exclude, includeRecurring);
      CountedSnoc(goals, exclude, includeRecurring, false);
      CountedSnoc(goals, exclude, includeRecurring, true);
    }
  }

  lemma CountedSnoc(goals: seq<Item>, exclude: set<string>, includeRecurring: bool, done: bool)
    requires goals != []
    ensures var last := |goals| - 1;
            var g := goals[last];
            |Counted(goals, exclude, includeRecurring, done)| ==
            |Counted(goals[..last], exclude, includeRecurring, done)|
            + (if g.Goal? && (g.recurring ==> includeRecurring) && g.status !in exclude
                  && (done ==> g.status == "completed") then 1 else 0)
  {
    var last := |goals| - 1;
    var before := Counted(goals[..last], exclude, includeRecurring, done);
    var all := Counted(goals, exclude, includeRecurring, done);
    forall k: nat | k < last
      ensures k in all <==> k in before
    {
      assert goals[..last][k] == goals[k];
    }
    SizeSnoc(before, all, last);
  }

  lemma SizeSnoc(before: set<nat>, all: set<nat>, last: nat)
    requires forall k :: k in before ==> k < last
    requires forall k :: k in all ==> k <= last
    requires forall k: nat :: k < last ==> (k in all <==> k in before)
    ensures |all| == |before| + (if last in all then 1 else 0)
  {
    if last in all {
      assert all == before + {last};
    } else {
      assert all == before;
    }
  }

  /** How many goals of a status were evicted: the legacy count, if it is a positive number,
      and the distinct ids of the bucket. */
  lemma CensusIs(c: Census, s: string)
    ensures CountOf(Some(c), s) ==
            (match c.byStatus
             case Some(counts) =>
               if s in counts && counts[s].Some? && counts[s].value > 0 then counts[s].value else 0
             case None => 0)
            + (match c.evictedIds
               case Some(buckets) =>
                 if s in buckets && buckets[s].Some? then |set id | id in buckets[s].value| else 0
               case None => 0)
    ensures s in CensusByStatus(Some(c)) <==>
      || (c.byStatus.Some? && s in c.byStatus.value && c.byStatus.value[s].Some?)
      || (c.evictedIds.Some? && s in c.evictedIds.value && c.evictedIds.value[s].Some?
          && c.evictedIds.value[s].value != [])
  {
    if c.evictedIds.Some? && s in c.evictedIds.value && c.evictedIds.value[s].Some? {
      var ids := c.evictedIds.value[s].value;
      if ids != [] { assert ids[0] in BucketIds(c, s); }
    }
  }

  /** The totals: the goals counted in the list, and the evicted ones of every status that is
      not excluded, recurring or not. */
  lemma EffectiveIs(asp: Aspiration, exclude: set<string>, includeRecurring: bool)
    ensures var (total, completed) := EffectiveCounts(asp, exclude, includeRecurring);
            && total == |Counted(asp.goals, exclude, includeRecurring, false)|
                        + SumOf(CensusByStatus(asp.census).Keys - exclude, StatusCounts(asp.census))
            && completed == |Counted(asp.goals, exclude, includeRecurring, true)|
                            + (if "completed" in exclude then 0 else CountOf(asp.census, "completed"))
  {
    LiveIs(asp.goals, exclude, includeRecurring);
  }

  // ----- progress -----

  function RecurringCount(goals: seq<Item>): nat {
    if goals == [] then 0
    else
      RecurringCount(goals[..|goals| - 1])
      + if goals[|goals| - 1].Goal? && goals[|goals| - 1].recurring then 1 else 0
  }

  /** `fanOut` is the ratio before rounding. */
  datatype Progress = Progress(completed: nat, total: nat, recurring: nat, fanOut: Option<real>)

  /** `derive_progress` */
  ghost function DeriveProgress(asp: Aspiration): Progress {
    var (total, completed) := EffectiveCounts(asp, {}, false);
    Progress(completed, total, RecurringCount(asp.goals),
             if asp.initialGoalCount.Some? && asp.initialGoalCount.value > 0
             then Some(total as real / asp.initialGoalCount.value as real) else None)
  }

  lemma {:induction false} RecurringIs(goals: seq<Item>)
    ensures RecurringCount(goals) == |set k: nat | k < |goals| && goals[k].Goal? && goals[k].recurring|
  {
    var all := set k: nat | k < |goals| && goals[k].Goal? && goals[k].recurring;
    if goals == [] {
      assert all == {};
    } else {
      var rest := goals[..|goals| - 1];
      RecurringIs(rest);
      var before := set k: nat | k < |rest| && rest[k].Goal? && rest[k].recurring;
      assert forall k: nat :: k < |rest| ==> rest[k] == goals[k];
      SizeSnoc(before, all, |rest|);
    }
  }

  /** Progress counts every goal that does not recur, whatever its status, evicted ones
      included, tells the recurring ones apart, and relates the total to the positive number
      of goals the aspiration began with. */
  lemma ProgressIs(asp: Aspiration)
    ensures var p := DeriveProgress(asp);
            && p.total == |Counted(asp.goals, {}, false, false)|
                          + SumOf(CensusByStatus(asp.census).Keys, StatusCounts(asp.census))
            && p.completed == |Counted(asp.goals, {}, false, true)| + CountOf(asp.census, "completed")
            && p.recurring == |set k: nat | k < |asp.goals| && asp.goals[k].Goal? && asp.goals[k].recurring|
            && (p.fanOut.Some? <==> asp.initialGoalCount.Some? && asp.initialGoalCount.value > 0)
            && (p.fanOut.Some? ==> FanOut(p.fanOut.value, p.total, asp.initialGoalCount.value))
  {
    EffectiveIs(asp, {}, false);
    assert CensusByStatus(asp.census).Keys - {} == CensusByStatus(asp.census).Keys;
    RecurringIs(asp.goals);
    var n, total := asp.initialGoalCount, DeriveProgress(asp).total;
    if n.Some? && n.value > 0 { RatioIs(total, n.value); }
  }

  /** The ratio that, times the first number of goals, gives the total. */
  predicate FanOut(ratio: real, total: nat, n: int) {
    ratio * n as real == total as real
  }

  lemma RatioIs(total: nat, n: int)
    requires n > 0
    ensures FanOut(total as real / n as real, total, n)
  {
  }

  // ----- eviction -----

  /** A terminal non-recurring goal. */
  predicate Evictable(asp: Aspiration, k: nat) {
    && k < |asp.goals| && asp.goals[k].Goal?
    && !asp.goals[k].recurring && asp.goals[k].status in TERMINAL_STATUSES
  }

  /** The bucket of the status does not hold the id yet. */
  predicate NewId(census: Option<Census>, status: string, id: string) {
    census.Some? ==> id !in BucketIds(census.value, status)
  }

  predicate Fresh(asp: Aspiration, k: nat)
    requires Evictable(asp, k)
  {
    NewId(asp.census, asp.goals[k].status, asp.goals[k].id)
  }

  /** `_census_add`: a set-add. */
  function AddId(census: Option<Census>, status: string, id: string): Census {
    var c := census.GetOr(Census(None, None, None));
    var buckets := c.evictedIds.GetOr(map[]);
    var ids := if status in buckets then buckets[status].GetOr([]) else [];
    c.(evictedIds := Some(buckets[status := Some(if id in ids then ids else ids + [id])]))
  }

  /** Move one goal from the live list into its status's id set. */
  function Evict(asp: Aspiration, k: nat): Aspiration
    requires Evictable(asp, k)
  {
    var g := asp.goals[k];
    asp.(goals := asp.goals[..k] + asp.goals[k + 1..], census := Some(AddId(asp.census, g.status, g.id)))
  }

  lemma AddIdBuckets(census: Option<Census>, status: string, id: string, s: string)
    ensures var c := census.GetOr(Census(None, None, None));
            BucketIds(AddId(census, status, id), s) == BucketIds(c, s) + if s == status then {id} else {}
  {
    var c := census.GetOr(Census(None, None, None));
    var d := AddId(census, status, id);
    if s == status {
      var buckets := c.evictedIds.GetOr(map[]);
      var ids := if status in buckets then buckets[status].GetOr([]) else [];
      assert BucketIds(c, s) == set x | x in ids;
      assert d.evictedIds.value[status].value == if id in ids then ids else ids + [id];
    }
  }

  lemma AddIdCounts(census: Option<Census>, status: string, id: string, s: string)
    ensures CountOf(Some(AddId(census, status, id)), s) ==
            CountOf(census, s) + if s == status && NewId(census, status, id) then 1 else 0
  {
    AddIdBuckets(census, status, id, s);
  }

  predicate HasBaseline(c: Census, s: string) {
    s in c.byStatus.GetOr(map[]) && c.byStatus.value[s].Some?
  }

  lemma CountedIff(c: Census, s: string)
    ensures s in CountedStatuses(c) <==> HasBaseline(c, s) || BucketIds(c, s) != {}
  {
  }

  lemma AddIdKeys(census: Option<Census>, status: string, id: string)
    ensures CensusByStatus(Some(AddId(census, status, id))).Keys == CensusByStatus(census).Keys + {status}
  {
    var c := census.GetOr(Census(None, None, None));
    var d := AddId(census, status, id);
    forall s
      ensures s in CountedStatuses(d) <==> s in CountedStatuses(c) || s == status
    {
      AddIdBuckets(census, status, id, s);
      CountedIff(c, s);
      CountedIff(d, s);
    }
    assert census.None? ==> CountedStatuses(c) == {};
  }

  lemma {:induction false} SumOverAddId(census: Option<Census>, status: string, id: string, statuses: set<string>)
    ensures SumOver(Some(AddId(census, status, id)), statuses) ==
            SumOver(census, statuses) + if status in statuses && NewId(census, status, id) then 1 else 0
    decreases statuses
  {
    if statuses == {} {
    } else {
      var s := AnyOf(statuses);
      AddIdCounts(census, status, id, s);
      SumOverAddId(census, status, id, statuses - {s});
    }
  }

  lemma RemoveThenLast(goals: seq<Item>, k: nat)
    requires k < |goals| - 1
    ensures var (rest, n) := (goals[..k] + goals[k + 1..], |goals| - 1);
            |rest| == n && rest[n - 1] == goals[n] && rest[..n - 1] == goals[..n][..k] + goals[..n][k + 1..]
  {
  }

  lemma {:induction false} CountsWithout(goals: seq<Item>, k: nat, exclude: set<string>, includeRecurring: bool)
    requires k < |goals|
    ensures var rest := goals[..k] + goals[k + 1..];
            && LiveCount(goals, exclude, includeRecurring) ==
               LiveCount(rest, exclude, includeRecurring) + (if Live(goals[k], exclude, includeRecurring) then 1 else 0)
            && DoneCount(goals, exclude, includeRecurring) ==
               DoneCount(rest, exclude, includeRecurring)
               + (if Live(goals[k], exclude, includeRecurring) && goals[k].status == "completed" then 1 else 0)
            && RecurringCount(goals) ==
               RecurringCount(rest) + (if goals[k].Goal? && goals[k].recurring then 1 else 0)
    decreases |goals|
  {
    var rest := goals[..k] + goals[k + 1..];
    var n := |goals| - 1;
    if k < n {
      CountsWithout(goals[..n], k, exclude, includeRecurring);
      RemoveThenLast(goals, k);
    } else {
      assert rest == goals[..n];
    }
  }

  /** A status that counts nothing may join the sum. */
  lemma SumWithStatus(census: Option<Census>, status: string, exclude: set<string>, before: set<string>)
    requires status !in before ==> CountOf(census, status) == 0
    ensures SumOver(census, (before + {status}) - exclude) == SumOver(census, before - exclude)
  {
    var now := (before + {status}) - exclude;
    if status in exclude || status in before {
      assert now == before - exclude;
    } else {
      SumRemove(now, StatusCounts(census), status);
      assert now - {status} == before - exclude;
    }
  }

  /** The archived total gains the evicted goal, unless the consumer excludes its status or
      the bucket holds its id already. */
  lemma ArchivedGains(census: Option<Census>, status: string, id: string, exclude: set<string>, before: set<string>)
    requires status !in before ==> CountOf(census, status) == 0
    ensures SumOver(Some(AddId(census, status, id)), (before + {status}) - exclude) ==
            SumOver(census, before - exclude) + if status !in exclude && NewId(census, status, id) then 1 else 0
  {
    SumOverAddId(census, status, id, (before + {status}) - exclude);
    SumWithStatus(census, status, exclude, before);
  }

  /** What one eviction takes from a consumer's counts: nothing, or one goal. */
  function Missed(asp: Aspiration, k: nat, exclude: set<string>): nat
    requires Evictable(asp, k)
  {
    if Fresh(asp, k) || asp.goals[k].status in exclude then 0 else 1
  }

  lemma EvictTotal(asp: Aspiration, k: nat, exclude: set<string>, includeRecurring: bool)
    requires Evictable(asp, k)
    ensures EffectiveCounts(Evict(asp, k), exclude, includeRecurring).0 + Missed(asp, k, exclude) ==
            EffectiveCounts(asp, exclude, includeRecurring).0
  {
    var g := asp.goals[k];
    CountsWithout(asp.goals, k, exclude, includeRecurring);
    CensusAt(asp.census, g.status);
    AddIdKeys(asp.census, g.status, g.id);
    ArchivedGains(asp.census, g.status, g.id, exclude, CensusByStatus(asp.census).Keys);
  }

  lemma EvictCompleted(asp: Aspiration, k: nat, exclude: set<string>, includeRecurring: bool)
    requires Evictable(asp, k)
    ensures EffectiveCounts(Evict(asp, k), exclude, includeRecurring).1
            + (if asp.goals[k].status == "completed" then Missed(asp, k, exclude) else 0) ==
            EffectiveCounts(asp, exclude, includeRecurring).1
  {
    var g := asp.goals[k];
    CountsWithout(asp.goals, k, exclude, includeRecurring);
    AddIdCounts(asp.census, g.status, g.id, "completed");
  }

  /** Evicting one goal changes no count of a consumer exactly when the bucket does not hold
      its id yet, or the consumer excludes its status. */
  lemma EvictNeutralIff(asp: Aspiration, k: nat, exclude: set<string>, includeRecurring: bool)
    requires Evictable(asp, k)
    ensures EffectiveCounts(Evict(asp, k), exclude, includeRecurring) == EffectiveCounts(asp, exclude, includeRecurring)
       <==> Fresh(asp, k) || asp.goals[k].status in exclude
  {
    EvictTotal(asp, k, exclude, includeRecurring);
    EvictCompleted(asp, k, exclude, includeRecurring);
    var missed := Missed(asp, k, exclude);
    PairsEqualIff(EffectiveCounts(asp, exclude, includeRecurring),
                  EffectiveCounts(Evict(asp, k), exclude, includeRecurring),
                  missed, if asp.goals[k].status == "completed" then missed else 0);
  }

  lemma PairsEqualIff(before: (nat, nat), after: (nat, nat), missed: nat, done: nat)
    requires after.0 + missed == before.0 && after.1 + done == before.1 && done <= missed
    ensures after == before <==> missed == 0
  {
  }

  lemma EvictRecurring(asp: Aspiration, k: nat)
    requires Evictable(asp, k)
    ensures RecurringCount(Evict(asp, k).goals) == RecurringCount(asp.goals)
  {
    CountsWithout(asp.goals, k, {}, true);
  }

  /** The aspiration after evicting the goals at the given positions, one after another. */
  ghost predicate EvictRun(asp: Aspiration, ks: seq<nat>, after: Aspiration)
    decreases |ks|
  {
    if ks == [] then after == asp else Evictable(asp, ks[0]) && EvictRun(Evict(asp, ks[0]), ks[1..], after)
  }

  ghost predicate AllFresh(asp: Aspiration, ks: seq<nat>)
    decreases |ks|
  {
    ks != [] ==> Evictable(asp, ks[0]) && Fresh(asp, ks[0]) && AllFresh(Evict(asp, ks[0]), ks[1..])
  }

  /** Eviction only ever takes from a total, and takes from a consumer that excludes nothing
      as soon as one id is not fresh. */
  lemma {:induction false} TotalsFall(asp: Aspiration, ks: seq<nat>, after: Aspiration, includeRecurring: bool)
    requires EvictRun(asp, ks, after)
    ensures EffectiveCounts(after, {}, includeRecurring).0 <= EffectiveCounts(asp, {}, includeRecurring).0
    ensures EffectiveCounts(after, {}, includeRecurring).0 == EffectiveCounts(asp, {}, includeRecurring).0 ==>
              AllFresh(asp, ks)
    decreases |ks|
  {
    if ks == [] {
    } else {
      EvictTotal(asp, ks[0], {}, includeRecurring);
      TotalsFall(Evict(asp, ks[0]), ks[1..], after, includeRecurring);
    }
  }

  /** With fresh ids every consumer's counts and the derived progress are what they were. */
  lemma {:induction false} EvictionNeutral(asp: Aspiration, ks: seq<nat>, after: Aspiration, exclude: set<string>,
                                           includeRecurring: bool)
    requires EvictRun(asp, ks, after) && AllFresh(asp, ks)
    ensures EffectiveCounts(after, exclude, includeRecurring) == EffectiveCounts(asp, exclude, includeRecurring)
    ensures DeriveProgress(after) == DeriveProgress(asp)
    decreases |ks|
  {
    if ks == [] {
    } else {
      EvictNeutralIff(asp, ks[0], exclude, includeRecurring);
      EvictNeutralIff(asp, ks[0], {}, false);
      EvictRecurring(asp, ks[0]);
      EvictionNeutral(Evict(asp, ks[0]), ks[1..], after, exclude, includeRecurring);
    }
  }

  /** Eviction of any goals is neutral for every consumer, whatever it excludes, exactly when
      each evicted id is new to its bucket. */
  lemma EvictionNeutralIff(asp: Aspiration, ks: seq<nat>, after: Aspiration)
    requires EvictRun(asp, ks, after)
    ensures (forall exclude: set<string>, includeRecurring ::
               EffectiveCounts(after, exclude, includeRecurring) == EffectiveCounts(asp, exclude, includeRecurring))
       <==> AllFresh(asp, ks)
  {
    if AllFresh(asp, ks) {
      forall exclude: set<string>, includeRecurring
        ensures EffectiveCounts(after, exclude, includeRecurring) == EffectiveCounts(asp, exclude, includeRecurring)
      {
        EvictionNeutral(asp, ks, after, exclude, includeRecurring);
      }
    }
    TotalsFall(asp, ks, after, true);
  }

  // ----- the compact summary's shell -----

  /** `project_shell`'s census: the id sets are replaced by their counts. */
  function ProjectCensus(census: Option<Census>): Option<Census> {
    if census.None? || (census.value.evictedIds.None? && census.value.closers.None?) then census
    else
      var counts := CensusByStatus(census);
      var projected := census.value.(evictedIds := None, closers := None);
      Some(if counts == map[] then projected
           else projected.(byStatus := Some(map s | s in counts :: Some(counts[s] as int))))
  }

  /** The projection preserves every count, keeps no id set, and projecting twice changes
      nothing more. */
  lemma ProjectionPreservesCounts(census: Option<Census>)
    ensures CensusByStatus(ProjectCensus(census)) == CensusByStatus(census)
    ensures ProjectCensus(census).Some? ==> ProjectCensus(census).value.evictedIds.None?
                                            && ProjectCensus(census).value.closers.None?
    ensures ProjectCensus(ProjectCensus(census)) == ProjectCensus(census)
  {
    if census.Some? {
      var p := ProjectCensus(census).value;
      assert EvictedIds(p) == map[];
      forall s
        ensures BucketIds(p, s) == {}
      {
      }
      assert CensusByStatus(Some(p)).Keys == CensusByStatus(census).Keys;
    }
  }
}
