/** Runs in which saves and collectors are taken apart into the steps that others can fall
  between. A save plans (it reads the newest manifest and resolves its content), writes
  storage, and publishes its manifest; any number of saves may be under way. `vacuum` drops
  the stale manifests, marks, lists the files and unlinks; an enumeration marks and lists,
  and its delete comes later. Each of these steps is one atomic event. The collectors keep
  one another out by their per-box lock; a save takes no lock. */
module SnapshotSteps {
  import opened Wrappers
  import opened Utf8
  import opened DeltaCodec
  import opened SnapshotStore
  import opened SnapshotInvariant
  import opened SnapshotSave
  import opened SnapshotVacuum
  import opened SnapshotPending
  import R = SnapshotRuns

  /** A save under way: what it planned, or what it has yet to publish. */
  datatype Stage =
    | Planned(req: SaveRequest, env: SaveEnv, plan: Plan)
    | Written(req: SaveRequest, env: SaveEnv, m: Manifest)

  datatype World = World(st: Store, written: map<Key, Bytes>, saves: map<nat, Stage>, view: View)

  const START := World(EMPTY_STORE, map[], map[], Now)

  datatype Event =
    | PlanSave(id: nat, listing: Listing, req: SaveRequest, env: SaveEnv)
    | WriteStorage(id: nat)
    | Publish(id: nat)
    | Die(id: nat)
    | DropStaleOnes(cutoff: Option<int>, now: int)
    | Mark(listings: Listings, cutoff: Option<int>)
    | List
    | Delete(now: int)
    | Abandon

  ghost function Step(w: World, ev: Event): World {
    match ev
    case PlanSave(id, listing, req, env) =>
      w.(saves := w.saves[id := Planned(req, env, PlanOf(w.st, listing, req, env))])
    case WriteStorage(id) => if id in w.saves && w.saves[id].Planned? then Stored(w, id, w.saves[id]) else w
    case Publish(id) => if id in w.saves && w.saves[id].Written? then Published(w, id, w.saves[id]) else w
    case Die(id) => w.(saves := w.saves - {id})
    case DropStaleOnes(cutoff, now) => w.(st := DropStale(w.st, cutoff, now))
    case Mark(listings, cutoff) =>
      var drops := StaleKeys(w.st.manifests, cutoff);
      if AnyCorrupt(w.st.manifests) then w
      else w.(view := Marked(Reachable(w.st, listings, w.st.manifests.Keys - drops), drops))
    case List =>
      if w.view.Marked? then w.(view := Listed(ListFiles(w.st.files, w.view.marks, w.view.drops))) else w
    case Delete(now) =>
      if w.view.Listed? then w.(st := Deleted(w.st, w.view.targets, now), view := Now) else w
    case Abandon => w.(view := Now)
  }

  ghost function Stored(w: World, id: nat, s: Stage): World
    requires s.Planned?
  {
    var (more, m) := StorageOf(w.st.files, s.plan, s.req, s.env);
    World(w.st.(files := more), w.written,
          if m.Some? then w.saves[id := Written(s.req, s.env, m.value)] else w.saves - {id}, w.view)
  }

  ghost function Published(w: World, id: nat, s: Stage): World
    requires s.Written?
  {
    if s.env.manifestWrites then
      World(PublishIn(w.st, s.req.key, s.m, s.env.now), w.written[s.req.key := s.req.content], w.saves - {id}, w.view)
    else w.(saves := w.saves - {id})
  }

  ghost function Run(w: World, evs: seq<Event>): World
    decreases |evs|
  {
    if evs == [] then w else Run(Step(w, evs[0]), evs[1..])
  }

  /** Directory orders are the store's, difflib keeps its contract, a save's steps come in
      their order, a collector starts when none is at work; it refuses a corrupt store. */
  ghost predicate Possible(w: World, ev: Event) {
    match ev
    case PlanSave(id, listing, _, env) => id !in w.saves && Lists(listing, w.st.files) && Faithful(env.matcher)
    case WriteStorage(id) => id in w.saves && w.saves[id].Planned?
    case Publish(id) => id in w.saves && w.saves[id].Written?
    case Die(id) => id in w.saves
    case DropStaleOnes(_, _) => w.view.Now?
    case Mark(listings, _) => w.view.Now? && ListsAll(listings, w.st.files)
    case List => w.view.Marked?
    case Delete(_) => w.view.Listed?
    case Abandon => true
  }

  /** A storage write stands on what is there and on what the collector will leave; a
      manifest names a file that is there and that it will leave. */
  ghost predicate Safe(w: World, ev: Event)
    requires Possible(w, ev)
  {
    match ev
    case WriteStorage(id) =>
      var s := w.saves[id];
      StandsOn(w.st.files, Now, s.plan, s.req, s.env) && StandsOn(w.st.files, w.view, s.plan, s.req, s.env)
    case Publish(id) =>
      var s := w.saves[id];
      s.env.manifestWrites ==>
        NamesKept(w.st.files, Now, s.req.key, s.m) && NamesKept(w.st.files, w.view, s.req.key, s.m)
    case _ => true
  }

  // ----- the invariant -----

  ghost predicate StageOk(s: Stage) {
    match s
    case Planned(req, _, plan) => TruePlan(plan, req)
    case Written(req, _, m) => m.hash == Some(Digest(req.content)) && m.Live() && !m.Corrupt()
  }

  ghost predicate Recorded(w: World) {
    forall k {:trigger w.st.manifests[k]} :: k in w.st.manifests ==>
      k in w.written && w.st.manifests[k].m.hash == Some(Digest(w.written[k])) && !w.st.manifests[k].m.Corrupt()
  }

  /** The saves under way and the manifests tell the truth. */
  ghost predicate Honest(w: World) {
    Recorded(w) && forall id {:trigger w.saves[id]} :: id in w.saves ==> StageOk(w.saves[id])
  }

  /** The store is in order, and so is what the collector will leave of it. */
  ghost predicate Good(w: World) {
    Honest(w) && Fine(w.st, Now) && Fine(w.st, w.view)
  }

  lemma FineNowIff(st: Store)
    ensures Fine(st, Now) <==> Inv(st)
  {
  }

  lemma StagedManifest(files: Storage, plan: Plan, req: SaveRequest, env: SaveEnv)
    requires TruePlan(plan, req) && StorageOf(files, plan, req, env).1.Some?
    ensures StageOk(Written(req, env, StorageOf(files, plan, req, env).1.value))
  {
  }

  lemma PlanStaysHonest(w: World, id: nat, listing: Listing, req: SaveRequest, env: SaveEnv)
    requires Good(w) && Lists(listing, w.st.files) && Faithful(env.matcher)
    ensures Honest(Step(w, PlanSave(id, listing, req, env)))
  {
    FineNowIff(w.st);
    PlannedTrue(w.st, listing, req, env);
  }

  lemma StoreStaysHonest(w: World, id: nat)
    requires Honest(w) && id in w.saves && w.saves[id].Planned?
    ensures Honest(Step(w, WriteStorage(id)))
  {
    var s := w.saves[id];
    if StorageOf(w.st.files, s.plan, s.req, s.env).1.Some? { StagedManifest(w.st.files, s.plan, s.req, s.env); }
  }

  lemma PublishStaysHonest(w: World, id: nat)
    requires Honest(w) && id in w.saves && w.saves[id].Written?
    ensures Honest(Step(w, Publish(id)))
  {
    var s := w.saves[id];
    var t := Step(w, Publish(id));
    forall k | k in t.st.manifests
      ensures k in t.written && t.st.manifests[k].m.hash == Some(Digest(t.written[k])) && !t.st.manifests[k].m.Corrupt()
    {
      if k != s.req.key || !s.env.manifestWrites { assert k in w.st.manifests; }
    }
  }

  lemma DropsStayRecorded(w: World, keys: set<Key>, now: int)
    requires Recorded(w)
    ensures Recorded(w.(st := w.st.(manifests := DropManifests(w.st.manifests, keys, now))))
  {
    var t := w.(st := w.st.(manifests := DropManifests(w.st.manifests, keys, now)));
    forall k | k in t.st.manifests
      ensures k in t.written && t.st.manifests[k].m.hash == Some(Digest(t.written[k])) && !t.st.manifests[k].m.Corrupt()
    {
      assert w.st.manifests[k].m.hash == Some(Digest(w.written[k]));
    }
  }

  lemma StaysHonest(w: World, ev: Event)
    requires Good(w) && Possible(w, ev)
    ensures Honest(Step(w, ev))
  {
    match ev
    case PlanSave(id, listing, req, env) => PlanStaysHonest(w, id, listing, req, env);
    case WriteStorage(id) => StoreStaysHonest(w, id);
    case Publish(id) => PublishStaysHonest(w, id);
    case DropStaleOnes(cutoff, now) => DropsStayRecorded(w, StaleKeys(w.st.manifests, cutoff), now);
    case Delete(now) => DropsStayRecorded(w, w.view.targets.drops, now);
    case _ =>
  }

  // ----- one step -----

  lemma StoreStepIff(w: World, id: nat)
    requires Good(w) && Possible(w, WriteStorage(id))
    ensures var t := Step(w, WriteStorage(id));
            Fine(t.st, Now) && Fine(t.st, t.view) <==> Safe(w, WriteStorage(id))
  {
    var s := w.saves[id];
    StoreIff(w.st, Now, s.plan, s.req, s.env);
    StoreIff(w.st, w.view, s.plan, s.req, s.env);
  }

  lemma PublishStepIff(w: World, id: nat)
    requires Good(w) && Possible(w, Publish(id))
    ensures var t := Step(w, Publish(id));
            Fine(t.st, Now) && Fine(t.st, t.view) <==> Safe(w, Publish(id))
  {
    var s := w.saves[id];
    PublishIff(w.st, Now, s.req.key, s.m, s.env.now);
    PublishIff(w.st, w.view, s.req.key, s.m, s.env.now);
  }

  lemma CollectorStepFine(w: World, ev: Event)
    requires Good(w) && Possible(w, ev)
    requires ev.DropStaleOnes? || ev.Mark? || ev.List? || ev.Delete? || ev.Abandon?
    ensures var t := Step(w, ev); Fine(t.st, Now) && Fine(t.st, t.view)
  {
    FineNowIff(w.st);
    match ev
    case DropStaleOnes(cutoff, now) =>
      DropKeepsInv(w.st, StaleKeys(w.st.manifests, cutoff), now);
      FineNowIff(Step(w, ev).st);
    case Mark(listings, cutoff) => MarkedFine(w.st, listings, StaleKeys(w.st.manifests, cutoff));
    case List => ListingLeavesTheSame(w.st.files, w.view.marks, w.view.drops);
    case Delete(now) =>
      FineListedIff(w.st, w.view.targets, now);
      FineNowIff(Step(w, ev).st);
    case Abandon =>
  }

  /** Whatever may happen next, in any state of the saves and the collector: the step keeps
      the store, and what will be left of it, in order exactly when it is safe. Only the two
      writes of a save can be unsafe. */
  lemma StepKeepsIff(w: World, ev: Event)
    requires Good(w) && Possible(w, ev)
    ensures Good(Step(w, ev)) <==> Safe(w, ev)
  {
    StaysHonest(w, ev);
    match ev
    case PlanSave(_, _, _, _) =>
    case WriteStorage(id) => StoreStepIff(w, id);
    case Publish(id) => PublishStepIff(w, id);
    case Die(_) =>
    case _ => CollectorStepFine(w, ev);
  }

  // ----- whole runs -----

  ghost predicate SafeRun(w: World, evs: seq<Event>)
    decreases |evs|
  {
    evs != [] ==> Possible(w, evs[0]) && Safe(w, evs[0]) && SafeRun(Step(w, evs[0]), evs[1..])
  }

  lemma {:induction false} RunStaysGood(w: World, evs: seq<Event>)
    requires Good(w) && SafeRun(w, evs)
    ensures Good(Run(w, evs))
    decreases |evs|
  {
    if evs == [] {
    } else {
      StepKeepsIff(w, evs[0]);
      RunStaysGood(Step(w, evs[0]), evs[1..]);
    }
  }

  lemma StartGood()
    ensures Good(START)
  {
    R.StartInv();
    FineNowIff(START.st);
  }

  /** Round trip over whole runs of steps: with any number of saves and a collector under way
      at once, every manifest that was not dropped restores, under any directory order, to
      the bytes passed to the save that published it. */
  lemma RunRoundTrip(evs: seq<Event>, key: Key, listing: Listing)
    requires SafeRun(START, evs)
    requires var w := Run(START, evs);
             Lists(listing, w.st.files) && key in w.st.manifests && w.st.manifests[key].m.encoding != Dropped
    ensures var w := Run(START, evs);
            key in w.written && Restore(w.st, listing, key) == Ok(w.written[key])
  {
    StartGood();
    RunStaysGood(START, evs);
    var w := Run(START, evs);
    FineNowIff(w.st);
    RestoreLive(w.st, listing, key);
  }

  // ----- the steps make up the calls -----

  ghost predicate Quiet(w: World) {
    w.saves == map[] && w.view.Now?
  }

  /** A save that nobody falls into is the save as one call. */
  lemma SaveInSteps(w: World, listing: Listing, req: SaveRequest, env: SaveEnv)
    ensures var planned := Step(w.(saves := map[]), PlanSave(0, listing, req, env));
            var stored := Step(planned, WriteStorage(0));
            var t := if 0 in stored.saves then Step(stored, Publish(0)) else stored;
            t.st == Saved(w.st, listing, req, env).0 && t.saves == map[]
  {
    ExecuteInTwo(w.st, PlanOf(w.st, listing, req, env), req, env);
  }

  lemma CollectInSteps(w: World, listings: Listings, cutoff: Option<int>, now: int)
    requires Quiet(w)
    ensures var t := Step(Step(Step(w, Mark(listings, cutoff)), List), Delete(now));
            t.st == Deleted(w.st, Enumerated(w.st, listings, cutoff), now) && Quiet(t)
  {
    if AnyCorrupt(w.st.manifests) { AbortedSplitChangesNothing(w.st, listings, cutoff, now); }
  }

  /** Dropping first and then marking what is left is the single-shot vacuum. */
  lemma VacuumInSteps(w: World, listings: Listings, cutoff: Option<int>, now: int, later: int)
    requires Quiet(w)
    ensures var dropped := Step(w, DropStaleOnes(cutoff, now));
            var t := Step(Step(Step(dropped, Mark(listings, None)), List), Delete(later));
            t.st == Vacuumed(w.st, listings, cutoff, now) && Quiet(t)
  {
    var st1 := DropStale(w.st, cutoff, now);
    CollectInSteps(w.(st := st1), listings, None, later);
    if AnyCorrupt(st1.manifests) {
      AbortedSplitChangesNothing(st1, listings, None, later);
    } else {
      SplitEqualsSingle(st1, listings, None, later);
    }
    assert StaleKeys(st1.manifests, None) == {};
    assert DropManifests(st1.manifests, {}, later) == st1.manifests;
  }

  // ----- a save inside the walk -----

  /** A first full snapshot, of any content: its steps. */
  function FirstSave(key: Key, content: Bytes): SaveRequest {
    SaveRequest(key, content, "alpha", "", 20)
  }

  /** The blob is there and its manifest published, and neither was marked: the list takes
      the blob for an orphan, the delete unlinks it, and the snapshot is lost. */
  lemma UnmarkedIsLost(w: World, key: Key, content: Bytes, now: int)
    requires w.st.files == Storage(map[Digest(content) := content], map[]) && w.view == Marked(NO_MARKS, {})
    requires key in w.st.manifests && w.st.manifests[key].m.encoding == Full
    requires w.st.manifests[key].m.hash == Some(Digest(content))
    ensures var t := Step(Step(w, List), Delete(now));
            && t.st.manifests[key].m.Live() && !Inv(t.st)
            && forall listing :: Restore(t.st, listing, key) == Err(FileNotFound)
  {
    var t := Step(Step(w, List), Delete(now));
    assert t.st.files.blobs == map[] && t.st.files.patches == map[];
    assert t.st.manifests[key] == w.st.manifests[key];
    assert !Anchored(t.st.files, t.st.manifests[key].m);
  }

  lemma EmptyMarks(listings: Listings, files: Storage)
    ensures var w := World(Store(files, map[]), map[], map[], Now);
            Step(w, Mark(listings, None)) == w.(view := Marked(NO_MARKS, {}))
  {
    var st := Store(files, map[]);
    assert StaleKeys(st.manifests, None) == {} && st.manifests.Keys - {} == {};
    assert Reachable(st, listings, {}) == NO_MARKS;
  }

  /** No retention and no shared content is needed. A whole save that falls between the mark
      and the list of an otherwise empty store ends live and unrestorable. */
  lemma SaveInsideWalkCanLose(key: Key, content: Bytes, env: SaveEnv, listings: Listings, now: int)
    requires AllWritten(env)
    ensures var marked := Step(START, Mark(listings, None));
            var planned := Step(marked, PlanSave(0, map[], FirstSave(key, content), env));
            var saved := Step(Step(planned, WriteStorage(0)), Publish(0));
            var t := Step(Step(saved, List), Delete(now));
            && key in t.st.manifests && t.st.manifests[key].m.Live() && !Inv(t.st)
            && forall listing :: Restore(t.st, listing, key) == Err(FileNotFound)
  {
    EmptyMarks(listings, EMPTY_STORE.files);
    var marked := Step(START, Mark(listings, None));
    var req := FirstSave(key, content);
    FirstSaved(START.st, map[], req, env);
    var planned := Step(marked, PlanSave(0, map[], req, env));
    var stored := Step(planned, WriteStorage(0));
    var saved := Step(stored, Publish(0));
    assert saved.st.files.blobs == map[Digest(content) := content];
    UnmarkedIsLost(saved, key, content, now);
  }

  /** So does a save that wrote its blob before the mark and publishes after it. */
  lemma LatePublishCanLose(key: Key, content: Bytes, env: SaveEnv, listings: Listings, now: int)
    requires AllWritten(env)
    ensures var stored := Step(Step(START, PlanSave(0, map[], FirstSave(key, content), env)), WriteStorage(0));
            var saved := Step(Step(stored, Mark(listings, None)), Publish(0));
            var t := Step(Step(saved, List), Delete(now));
            && key in t.st.manifests && t.st.manifests[key].m.Live() && !Inv(t.st)
            && forall listing :: Restore(t.st, listing, key) == Err(FileNotFound)
  {
    var req := FirstSave(key, content);
    FirstSaved(START.st, map[], req, env);
    var stored := Step(Step(START, PlanSave(0, map[], req, env)), WriteStorage(0));
    assert stored.st.files.blobs == map[Digest(content) := content] && stored.st.manifests == map[];
    EmptyMarks(listings, stored.st.files);
    var marked := Step(stored, Mark(listings, None));
    assert StaleKeys(stored.st.manifests, None) == {} && marked.view == Marked(NO_MARKS, {});
    UnmarkedIsLost(Step(marked, Publish(0)), key, content, now);
  }
}
