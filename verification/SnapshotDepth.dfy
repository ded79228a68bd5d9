/** How many patches a restore applies. */
module SnapshotDepth {
  import opened Wrappers
  import opened Utf8
  import opened DeltaCodec
  import opened SnapshotStore
  import opened SnapshotInvariant
  import opened SnapshotSave
  import opened SnapshotVacuum
  import opened SnapshotPending
  import opened SnapshotRuns
  import Digraph

  /** The number of patches `Resolve` applies on its way. */
  function PatchesApplied(files: Storage, listing: Listing, h: Hash, seen: set<Hash>): nat
    decreases PatchTargets(files) - seen
  {
    if h in seen || h in files.blobs then 0
    else
      match FirstPatch(files, listing, h)
      case None => 0
      case Some(base) =>
        FirstPatchIsTarget(files, listing, h);
        1 + PatchesApplied(files, listing, base, seen + {h})
  }

  /** A blob is at most `n` patches away. */
  ghost predicate WithinDepth(files: Storage, listing: Listing, h: Hash, n: int)
    decreases n
  {
    0 <= n && (h in files.blobs
      || (n > 0 && FirstPatch(files, listing, h).Some? && WithinDepth(files, listing, listing[h], n - 1)))
  }

  lemma {:induction false} AppliedWithin(files: Storage, listing: Listing, h: Hash, seen: set<Hash>, n: int)
    requires WithinDepth(files, listing, h, n)
    ensures PatchesApplied(files, listing, h, seen) <= n
    decreases n
  {
    if h !in seen && h !in files.blobs {
      FirstPatchIsTarget(files, listing, h);
      AppliedWithin(files, listing, listing[h], seen + {h}, n - 1);
    }
  }

  ghost predicate OnePatchEach(files: Storage) {
    forall t, a, b :: (t, a) in files.patches && (t, b) in files.patches ==> a == b
  }

  // ----- the exact bound -----

  /** Following patches, one by one, gives a walk of the chain graph. */
  lemma {:induction false} AppliedIsWalk(files: Storage, listing: Listing, h: Hash, seen: set<Hash>) returns (end: Hash)
    ensures Digraph.ReachesIn(ChainEdges(files), h, end, PatchesApplied(files, listing, h, seen))
    decreases PatchTargets(files) - seen
  {
    if h in seen || h in files.blobs || FirstPatch(files, listing, h).None? {
      end := h;
    } else {
      FirstPatchIsTarget(files, listing, h);
      end := AppliedIsWalk(files, listing, listing[h], seen + {h});
      assert (h, listing[h]) in ChainEdges(files);
    }
  }

  /** What is listed first for a hash does not matter to a chain that cannot come to it. */
  lemma {:induction false} ListedElsewhere(files: Storage, listing: Listing, h: Hash, base: Hash, x: Hash,
                                           seen: set<Hash>)
    requires !Digraph.Reaches(ChainEdges(files), x, h)
    ensures PatchesApplied(files, listing[h := base], x, seen + {h}) == PatchesApplied(files, listing, x, seen)
    decreases PatchTargets(files) - seen
  {
    Digraph.ReachesRefl(ChainEdges(files), x);
    if x in seen || x in files.blobs || FirstPatch(files, listing, x).None? {
    } else {
      FirstPatchIsTarget(files, listing, x);
      var next := listing[x];
      assert (x, next) in ChainEdges(files);
      if Digraph.Reaches(ChainEdges(files), next, h) { Digraph.StepReaches(ChainEdges(files), x, next, h); }
      ListedElsewhere(files, listing, h, base, next, seen + {x});
      assert seen + {x} + {h} == seen + {h} + {x};
    }
  }

  /** Some directory order makes a restore follow any given walk. */
  lemma {:induction false} WalkIsListed(files: Storage, h: Hash, end: Hash, n: nat) returns (listing: Listing)
    requires Digraph.Acyclic(ChainEdges(files)) && Digraph.ReachesIn(ChainEdges(files), h, end, n)
    ensures Lists(listing, files) && PatchesApplied(files, listing, h, {}) >= n
    decreases n
  {
    var edges := ChainEdges(files);
    if n == 0 {
      listing := AnyListing(files);
    } else {
      var base :| (h, base) in edges && Digraph.ReachesIn(edges, base, end, n - 1);
      var rest := WalkIsListed(files, base, end, n - 1);
      if Digraph.Reaches(edges, base, h) {
        var k: nat :| Digraph.ReachesIn(edges, base, h, k);
        assert Digraph.ReachesIn(edges, h, h, k + 1);
      }
      listing := rest[h := base];
      ListedElsewhere(files, rest, h, base, base, {});
      FirstPatchIsTarget(files, listing, h);
      assert {} + {h} == {h};
    }
  }

  ghost predicate NoLongerWalk(files: Storage, h: Hash, n: int) {
    forall end, k: nat :: Digraph.ReachesIn(ChainEdges(files), h, end, k) ==> k <= n
  }

  ghost predicate AppliesAtMost(files: Storage, h: Hash, n: int) {
    forall listing :: Lists(listing, files) ==> PatchesApplied(files, listing, h, {}) <= n
  }

  /** A restore applies at most `n` patches, whatever is listed first, exactly when no walk
      of the chain graph from its hash is longer. */
  lemma AppliesAtMostIff(files: Storage, h: Hash, n: int)
    requires Sound(files)
    ensures AppliesAtMost(files, h, n) <==> NoLongerWalk(files, h, n)
  {
    if NoLongerWalk(files, h, n) {
      forall listing | Lists(listing, files)
        ensures PatchesApplied(files, listing, h, {}) <= n
      {
        var end := AppliedIsWalk(files, listing, h, {});
      }
    }
    if AppliesAtMost(files, h, n) {
      forall end, k: nat | Digraph.ReachesIn(ChainEdges(files), h, end, k)
        ensures k <= n
      {
        var listing := WalkIsListed(files, h, end, k);
      }
    }
  }

  ghost predicate DepthBound(files: Storage, m: Manifest) {
    m.encoding == Patched ==>
      && m.base.Some?
      && forall listing :: Lists(listing, files) ==> WithinDepth(files, listing, m.base.value, m.chainLength - 1)
  }

  ghost predicate LengthOk(m: Manifest, interval: int) {
    0 <= m.chainLength <= interval - 1 && (m.encoding == Full ==> m.chainLength == 0)
  }

  ghost predicate LengthsOk(manifests: map<Key, Entry>, interval: int) {
    forall k {:trigger manifests[k]} :: k in manifests ==> LengthOk(manifests[k].m, interval)
  }

  ghost predicate DepthsBounded(st: Store) {
    forall k {:trigger st.manifests[k]} :: k in st.manifests ==> DepthBound(st.files, st.manifests[k].m)
  }

  // ----- chain lengths -----

  lemma AddedLength(st: Store, req: SaveRequest, env: SaveEnv, encoding: Encoding, base: Option<Hash>,
                    chainLength: int, interval: int)
    requires LengthsOk(st.manifests, interval) && LengthOk(NewManifest(req, encoding, base, chainLength), interval)
    ensures LengthsOk(AddManifest(st, req, env, encoding, base, chainLength).0.manifests, interval)
  {
  }

  ghost predicate PlanLengthOk(plan: Plan, interval: int) {
    match plan
    case Reuse(prior) => LengthOk(prior, interval)
    case WriteFull => interval >= 1
    case WriteDelta(_, _, chainLength) => 0 <= chainLength <= interval - 1
  }

  lemma PlannedLength(st: Store, listing: Listing, req: SaveRequest, env: SaveEnv)
    requires LengthsOk(st.manifests, req.anchorInterval) && req.anchorInterval >= 1
    ensures PlanLengthOk(PlanOf(st, listing, req, env), req.anchorInterval)
  {
    NewestIsPresent(st.manifests, req.key.file);
  }

  lemma ExecutedLengths(st: Store, plan: Plan, req: SaveRequest, env: SaveEnv, interval: int)
    requires LengthsOk(st.manifests, interval) && PlanLengthOk(plan, interval) && interval >= 1
    ensures LengthsOk(Execute(st, plan, req, env).0.manifests, interval)
  {
    match plan
    case Reuse(p) => AddedLength(st, req, env, p.encoding, p.base, p.chainLength, interval);
    case WriteFull => FullLength(st, req, env, interval);
    case WriteDelta(base, delta, n) =>
      if WritesPatch(st.files, plan, req, env) {
        var more := st.files.(patches := Put(st.files.patches, (Digest(req.content), base), delta));
        AddedLength(st.(files := more), req, env, Patched, Some(base), n, interval);
      } else {
        FullLength(st, req, env, interval);
      }
  }

  lemma FullLength(st: Store, req: SaveRequest, env: SaveEnv, interval: int)
    requires LengthsOk(st.manifests, interval) && interval >= 1
    ensures LengthsOk(SaveFull(st, req, env).0.manifests, interval)
  {
    var h := Digest(req.content);
    var more := st.files.(blobs := Put(st.files.blobs, h, req.content));
    AddedLength(st.(files := more), req, env, Full, None, 0, interval);
  }

  /** No event, in any run, breaks the bound on chain lengths. */
  lemma StepLengths(w: World, ev: Event, interval: int)
    requires LengthsOk(w.st.manifests, interval) && interval >= 1
    requires ev.SaveEvent? ==> ev.req.anchorInterval == interval
    ensures LengthsOk(Step(w, ev).st.manifests, interval)
  {
    if ev.SaveEvent? {
      PlannedLength(w.st, ev.listing, ev.req, ev.env);
      ExecutedLengths(w.st, PlanOf(w.st, ev.listing, ev.req, ev.env), ev.req, ev.env, interval);
    }
  }

  // ----- where every target has one patch -----

  lemma {:induction false} WithinGrows(a: Storage, la: Listing, b: Storage, lb: Listing, h: Hash, n: int)
    requires WithinDepth(a, la, h, n) && Grows(a, b) && OnePatchEach(b) && Lists(lb, b)
    ensures WithinDepth(b, lb, h, n)
    decreases n
  {
    if h !in b.blobs {
      assert (h, la[h]) in b.patches;
      assert (h, la[h]).0 in lb && (h, lb[h]) in b.patches;
      WithinGrows(a, la, b, lb, la[h], n - 1);
    }
  }

  lemma BoundGrows(a: Storage, la: Listing, b: Storage, m: Manifest)
    requires DepthBound(a, m) && Lists(la, a) && Grows(a, b) && OnePatchEach(b)
    ensures DepthBound(b, m)
  {
    if m.encoding == Patched {
      forall lb | Lists(lb, b)
        ensures WithinDepth(b, lb, m.base.value, m.chainLength - 1)
      {
        WithinGrows(a, la, b, lb, m.base.value, m.chainLength - 1);
      }
    }
  }

  lemma {:induction false} WithinKept(files: Storage, l: Listing, marks: Marks, lk: Listing, h: Hash,
                                      seen: set<Hash>, n: int)
    requires Sound(files) && Lists(l, files) && Stored(files, h) && Visited(files, seen, h)
    requires WithinDepth(files, l, h, n) && OnePatchEach(files)
    requires Within(MarkChain(files, l, h, seen), marks) && Lists(lk, Keep(files, marks))
    ensures WithinDepth(Keep(files, marks), lk, h, n)
    decreases n
  {
    NotVisited(files, seen, h);
    if h !in files.blobs {
      FirstPatchIsTarget(files, l, h);
      var base := l[h];
      var kept := Keep(files, marks);
      assert (h, base) in MarkChain(files, l, h, seen).patches;
      assert (h, base) in kept.patches;
      assert (h, base).0 in lk && (h, lk[h]) in kept.patches;
      assert lk[h] == base && (h, base).1 == base;
      StepVisited(files, seen, h, base);
      WithinKept(files, l, marks, lk, base, seen + {h}, n - 1);
    }
  }

  /** Deleting blobs that no live manifest needs makes no live chain longer. */
  lemma VacuumKeepsDepths(st: Store, listings: Listings, cutoff: Option<int>, now: int)
    requires Inv(st) && ListsAll(listings, st.files) && OnePatchEach(st.files) && DepthsBounded(st)
    ensures DepthsBounded(Vacuumed(st, listings, cutoff, now))
    ensures OnePatchEach(Vacuumed(st, listings, cutoff, now).files)
  {
    var st' := Vacuumed(st, listings, cutoff, now);
    forall k | k in st'.manifests
      ensures DepthBound(st'.files, st'.manifests[k].m)
    {
      if st'.manifests[k].m.encoding == Patched {
        assert st.manifests[k].m == st'.manifests[k].m;
        KeptDepth(st, listings, cutoff, now, k);
      }
    }
  }

  lemma KeptDepth(st: Store, listings: Listings, cutoff: Option<int>, now: int, k: Key)
    requires Inv(st) && ListsAll(listings, st.files) && OnePatchEach(st.files) && DepthsBounded(st)
    requires k in st.manifests && st.manifests[k].m.encoding == Patched
    requires Vacuumed(st, listings, cutoff, now).manifests[k].m == st.manifests[k].m
    ensures DepthBound(Vacuumed(st, listings, cutoff, now).files, st.manifests[k].m)
  {
    var m := st.manifests[k].m;
    var st1 := DropStale(st, cutoff, now);
    var st' := Vacuumed(st, listings, cutoff, now);
    assert Anchored(st.files, m) && DepthBound(st.files, m);
    if !AnyCorrupt(st1.manifests) {
      var marks := Reachable(st1, listings, st1.manifests.Keys);
      ReachableContains(st1, listings, st1.manifests.Keys, k);
      assert k !in CorruptKeys(st1.manifests);
      assert Stored(st.files, (m.hash.value, m.base.value).1);
      forall lk | Lists(lk, st'.files)
        ensures WithinDepth(st'.files, lk, m.base.value, m.chainLength - 1)
      {
        WithinKept(st.files, listings(k), marks, lk, m.base.value, {}, m.chainLength - 1);
      }
    }
  }

  /** What a manifest's hash is built on is at most its chain length away. */
  lemma PriorWithin(files: Storage, listing: Listing, p: Manifest)
    requires Sound(files) && Lists(listing, files) && OnePatchEach(files)
    requires p.Live() && Anchored(files, p) && DepthBound(files, p) && p.chainLength >= 0
    ensures WithinDepth(files, listing, p.hash.value, p.chainLength)
  {
    var h := p.hash.value;
    if h !in files.blobs {
      assert (h, p.base.value) in files.patches;
      assert (h, p.base.value).0 in listing && (h, listing[h]) in files.patches;
      assert listing[h] == p.base.value;
    }
  }

  /** A new delta is one patch deeper than the manifest it builds on. */
  lemma NewDepth(files: Storage, more: Storage, p: Manifest, m: Manifest)
    requires Sound(files) && Grows(files, more) && OnePatchEach(more)
    requires p.Live() && Anchored(files, p) && DepthBound(files, p) && p.chainLength >= 0
    requires m.encoding == Patched && m.base == p.hash && m.chainLength == p.chainLength + 1
    ensures DepthBound(more, m)
  {
    var listing := AnyListing(files);
    PriorWithin(files, listing, p);
    forall later | Lists(later, more)
      ensures WithinDepth(more, later, m.base.value, m.chainLength - 1)
    {
      WithinGrows(files, listing, more, later, m.base.value, m.chainLength - 1);
    }
  }

  lemma SaveGrows(st: Store, listing: Listing, req: SaveRequest, env: SaveEnv)
    ensures Grows(st.files, Saved(st, listing, req, env).0.files)
  {
  }

  /** The new manifest is full, or takes its depth from the prior it reused or built on. */
  lemma SavedDepth(st: Store, listing: Listing, req: SaveRequest, env: SaveEnv, files: Storage, more: Storage)
    requires Sound(files) && Grows(files, more) && OnePatchEach(more)
    requires Saved(st, listing, req, env).1.Ok?
    requires var p := Newest(st.manifests, req.key.file);
             p.Some? && p.value.Live() ==>
               Anchored(files, p.value) && DepthBound(files, p.value) && p.value.chainLength >= 0
    ensures DepthBound(more, Saved(st, listing, req, env).0.manifests[req.key].m)
  {
    var p := Newest(st.manifests, req.key.file);
    var m := Saved(st, listing, req, env).0.manifests[req.key].m;
    SavedFrom(st, listing, req, env);
    if m.encoding != Full {
      if SameChain(m, p.value) {
        BoundGrows(files, AnyListing(files), more, p.value);
      } else {
        NewDepth(files, more, p.value, m);
      }
    }
  }

  ghost predicate SameChain(m: Manifest, p: Manifest) {
    m.encoding == p.encoding && m.base == p.base && m.chainLength == p.chainLength
  }

  ghost predicate OnePatchOn(m: Manifest, p: Manifest) {
    m.encoding == Patched && m.base == p.hash && m.chainLength == p.chainLength + 1
  }

  lemma SavedFrom(st: Store, listing: Listing, req: SaveRequest, env: SaveEnv)
    requires Saved(st, listing, req, env).1.Ok?
    ensures var (p, m) := (Newest(st.manifests, req.key.file), Saved(st, listing, req, env).0.manifests[req.key].m);
            m.encoding == Full || (p.Some? && p.value.Live() && (SameChain(m, p.value) || OnePatchOn(m, p.value)))
  {
  }

  lemma SaveKeepsDepths(st: Store, listing: Listing, req: SaveRequest, env: SaveEnv)
    requires Inv(st) && DepthsBounded(st)
    requires LengthsOk(st.manifests, req.anchorInterval)
    requires OnePatchEach(Saved(st, listing, req, env).0.files)
    ensures DepthsBounded(Saved(st, listing, req, env).0)
  {
    var (st', r) := Saved(st, listing, req, env);
    SaveGrows(st, listing, req, env);
    SavedManifest(st, listing, req, env);
    NewestIsPresent(st.manifests, req.key.file);
    forall k | k in st'.manifests
      ensures DepthBound(st'.files, st'.manifests[k].m)
    {
      if k == req.key && r.Ok? {
        SavedDepth(st, listing, req, env, st.files, st'.files);
      } else {
        OtherManifest(st, st', req.key, r.Ok?, k);
        BoundGrows(st.files, AnyListing(st.files), st'.files, st.manifests[k].m);
      }
    }
  }

  // ----- and what a pending delete will leave -----

  ghost predicate DepthsKept(st: Store, t: Targets) {
    forall k {:trigger st.manifests[k]} :: k in st.manifests && k !in t.drops ==>
      DepthBound(Without(st.files, t), st.manifests[k].m)
  }

  /** The newest snapshot of the file is not about to be dropped. */
  ghost predicate PriorStays(manifests: map<Key, Entry>, file: string, t: Targets) {
    forall k :: IsNewest(manifests, k) && k.file == file ==> k !in t.drops
  }

  lemma EnumeratedDepths(st: Store, listings: Listings, cutoff: Option<int>)
    requires Inv(st) && ListsAll(listings, st.files) && OnePatchEach(st.files) && DepthsBounded(st)
    requires !AnyCorrupt(st.manifests)
    ensures DepthsKept(st, Enumerated(st, listings, cutoff))
  {
    var t := Enumerated(st, listings, cutoff);
    SplitEqualsSingle(st, listings, cutoff, 0);
    VacuumKeepsDepths(st, listings, cutoff, 0);
    var after := Deleted(st, t, 0);
    forall k | k in st.manifests && k !in t.drops
      ensures DepthBound(Without(st.files, t), st.manifests[k].m)
    {
      assert after.manifests[k] == st.manifests[k];
    }
  }

  lemma SaveKeepsDepthsKept(st: Store, listing: Listing, req: SaveRequest, env: SaveEnv, t: Targets)
    requires Fine(st, Listed(t)) && DepthsKept(st, t) && LengthsOk(st.manifests, req.anchorInterval)
    requires PriorStays(st.manifests, req.key.file, t)
    requires OnePatchEach(Saved(st, listing, req, env).0.files)
    ensures DepthsKept(Saved(st, listing, req, env).0, t)
  {
    var (st', r) := Saved(st, listing, req, env);
    var kept, kept' := Without(st.files, t), Without(st'.files, t);
    SaveGrows(st, listing, req, env);
    SavedManifest(st, listing, req, env);
    NewestIsPresent(st.manifests, req.key.file);
    forall k | k in st'.manifests && k !in t.drops
      ensures DepthBound(kept', st'.manifests[k].m)
    {
      if k == req.key && r.Ok? {
        SavedDepth(st, listing, req, env, kept, kept');
      } else {
        OtherManifest(st, st', req.key, r.Ok?, k);
        BoundGrows(kept, AnyListing(kept), kept', st.manifests[k].m);
      }
    }
  }

  lemma OtherManifest(st: Store, st': Store, key: Key, ok: bool, k: Key)
    requires st'.manifests - {key} == st.manifests - {key} && (!ok ==> st'.manifests == st.manifests)
    requires k in st'.manifests && (k != key || !ok)
    ensures k in st.manifests && st'.manifests[k] == st.manifests[k]
  {
    assert k != key ==> k in st'.manifests - {key};
  }

  /** Where every target keeps one patch, the side condition of a save holds by itself. */
  lemma OnePatchIsSafe(st: Store, listing: Listing, req: SaveRequest, env: SaveEnv)
    requires Inv(st) && Lists(listing, st.files) && Faithful(env.matcher)
    requires OnePatchEach(Saved(st, listing, req, env).0.files)
    ensures Safe(st.files, PlanOf(st, listing, req, env), req, env)
  {
    var plan := PlanOf(st, listing, req, env);
    var h := Digest(req.content);
    if WritesPatch(st.files, plan, req, env) && h !in st.files.blobs
       && Digraph.Reaches(ChainEdges(st.files), plan.base, h) {
      PlannedDeltaIsTrue(st, listing, req, env);
      var n: nat :| Digraph.ReachesIn(ChainEdges(st.files), plan.base, h, n);
      var x := Digraph.LastEdge(ChainEdges(st.files), plan.base, h, n);
      assert Stored(st.files, (x, h).1);
      var b :| (h, b) in st.files.patches;
      var files' := Saved(st, listing, req, env).0.files;
      assert (h, b) in files'.patches && (h, plan.base) in files'.patches;
      assert (h, plan.base) in ChainEdges(st.files);
      assert Digraph.ReachesIn(ChainEdges(st.files), h, h, n + 1);
    }
  }

  // ----- whole runs -----

  /** Every target keeps one patch; a save that comes between an enumeration and its delete
      keeps the delete harmless and builds on a snapshot that stays. */
  ghost predicate OnePatchEvent(w: World, ev: Event, interval: int) {
    && Possible(w, ev)
    && (ev.SaveEvent? ==>
          && ev.req.anchorInterval == interval
          && (w.pending.Some? ==>
                && SafeEvent(w, ev)
                && PriorStays(w.st.manifests, ev.req.key.file, w.pending.value)))
  }

  ghost predicate OnePatchRun(w: World, evs: seq<Event>, interval: int)
    decreases |evs|
  {
    && OnePatchEach(w.st.files)
    && (evs != [] ==> OnePatchEvent(w, evs[0], interval) && OnePatchRun(Step(w, evs[0]), evs[1..], interval))
  }

  ghost predicate DepthInv(w: World, interval: int) {
    && WorldInv(w) && LengthsOk(w.st.manifests, interval) && DepthsBounded(w.st) && OnePatchEach(w.st.files)
    && (w.pending.Some? ==> DepthsKept(w.st, w.pending.value))
  }

  lemma StepIsSafe(w: World, ev: Event, interval: int)
    requires DepthInv(w, interval) && OnePatchEvent(w, ev, interval) && OnePatchEach(Step(w, ev).st.files)
    ensures SafeEvent(w, ev)
  {
    if ev.SaveEvent? { OnePatchIsSafe(w.st, ev.listing, ev.req, ev.env); }
  }

  lemma StepKeepsDepths(w: World, ev: Event, interval: int)
    requires DepthInv(w, interval) && OnePatchEvent(w, ev, interval) && OnePatchEach(Step(w, ev).st.files)
    ensures var w' := Step(w, ev);
            DepthsBounded(w'.st) && (w'.pending.Some? ==> DepthsKept(w'.st, w'.pending.value))
  {
    match ev
    case SaveEvent(listing, req, env) =>
      SaveKeepsDepths(w.st, listing, req, env);
      if w.pending.Some? { SaveKeepsDepthsKept(w.st, listing, req, env, w.pending.value); }
    case VacuumEvent(listings, cutoff, now) => VacuumKeepsDepths(w.st, listings, cutoff, now);
    case EnumerateEvent(listings, cutoff) => EnumeratedDepths(w.st, listings, cutoff);
    case DeleteEvent(now) =>
    case AbandonEvent =>
  }

  lemma {:induction false} OnePatchRunKeeps(w: World, evs: seq<Event>, interval: int)
    requires DepthInv(w, interval) && interval >= 1 && OnePatchRun(w, evs, interval)
    ensures SafeRun(w, evs) && DepthInv(Run(w, evs), interval)
    decreases |evs|
  {
    if evs == [] {
    } else {
      StepIsSafe(w, evs[0], interval);
      StepKeepsInv(w, evs[0]);
      StepLengths(w, evs[0], interval);
      StepKeepsDepths(w, evs[0], interval);
      OnePatchRunKeeps(Step(w, evs[0]), evs[1..], interval);
    }
  }

  ghost predicate SameInterval(evs: seq<Event>, interval: int) {
    forall k :: 0 <= k < |evs| && evs[k].SaveEvent? ==> evs[k].req.anchorInterval == interval
  }

  /** In every run with a fixed anchor interval, possible or not otherwise restricted,
      chain lengths lie between 0 and the interval minus one. */
  lemma {:induction false} RunChainLengths(w: World, evs: seq<Event>, interval: int)
    requires LengthsOk(w.st.manifests, interval) && interval >= 1 && SameInterval(evs, interval)
    ensures LengthsOk(Run(w, evs).st.manifests, interval)
    decreases |evs|
  {
    if evs == [] {
    } else {
      StepLengths(w, evs[0], interval);
      assert forall k :: 0 <= k < |evs[1..]| ==> evs[1..][k] == evs[k + 1];
      RunChainLengths(Step(w, evs[0]), evs[1..], interval);
    }
  }

  /** Bounded restore: in a run where each target hash has at most one patch, the ordinary
      side condition holds by itself, every live manifest restores, and it applies at most
      `chain_length` patches, which is below the anchor interval. */
  lemma RunDepth(evs: seq<Event>, interval: int, key: Key, listing: Listing)
    requires interval >= 1 && OnePatchRun(START, evs, interval)
    requires var w := Run(START, evs);
             Lists(listing, w.st.files) && key in w.st.manifests && w.st.manifests[key].m.Live()
    ensures var w := Run(START, evs);
            var m := w.st.manifests[key].m;
            && key in w.written && Restore(w.st, listing, key) == Ok(w.written[key])
            && PatchesApplied(w.st.files, listing, m.hash.value, {}) <= m.chainLength <= interval - 1
  {
    StartInv();
    OnePatchRunKeeps(START, evs, interval);
    RunRoundTrip(evs, key, listing);
    var w := Run(START, evs);
    var m := w.st.manifests[key].m;
    assert Anchored(w.st.files, m) && DepthBound(w.st.files, m);
    PriorWithin(w.st.files, listing, m);
    AppliedWithin(w.st.files, listing, m.hash.value, {}, m.chainLength);
  }
}
