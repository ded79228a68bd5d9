/** Saves while a collector is at work. A collector marks what the manifests reach, lists the
  files that are not marked, and unlinks them later; no lock keeps saves away from it. A
  save may then publish a manifest over a file that was never marked or is already listed. */
module SnapshotPending {
  import opened Wrappers
  import opened Utf8
  import opened DeltaCodec
  import opened SnapshotStore
  import opened SnapshotInvariant
  import opened SnapshotSave
  import opened SnapshotVacuum
  import Digraph

  /** How far a collector has come: it is not at work, it has marked but not yet listed the
      files, or it has its targets. */
  datatype View =
    | Now
    | Marked(marks: Marks, drops: set<Key>)
    | Listed(targets: Targets)
  {
    predicate KeepsBlob(h: Hash) {
      match this
      case Now => true
      case Marked(marks, _) => h in marks.blobs
      case Listed(t) => h !in t.blobs
    }

    predicate KeepsPatch(e: Edge) {
      match this
      case Now => true
      case Marked(marks, _) => e in marks.patches
      case Listed(t) => e !in t.patches
    }

    function Drops(): set<Key> {
      match this
      case Now => {}
      case Marked(_, drops) => drops
      case Listed(t) => t.drops
    }
  }

  /** What stays of the files when the collector goes on to its end from here. */
  function Left(files: Storage, v: View): Storage {
    match v
    case Now => files
    case Marked(marks, _) => Keep(files, marks)
    case Listed(t) => Without(files, t)
  }

  /** What stays satisfies the store invariant. */
  ghost predicate Fine(st: Store, v: View) {
    && Sound(Left(st.files, v))
    && forall k {:trigger st.manifests[k]} :: k in st.manifests && k !in v.Drops() ==>
         Anchored(Left(st.files, v), st.manifests[k].m)
  }

  lemma LeftHas(files: Storage, v: View)
    ensures forall h :: h in Left(files, v).blobs <==> h in files.blobs && v.KeepsBlob(h)
    ensures forall e :: e in Left(files, v).patches <==> e in files.patches && v.KeepsPatch(e)
    ensures forall h :: h in Left(files, v).blobs ==> Left(files, v).blobs[h] == files.blobs[h]
    ensures forall e :: e in Left(files, v).patches ==> Left(files, v).patches[e] == files.patches[e]
  {
  }

  /** With targets listed, that is what the delete leaves. */
  lemma FineListedIff(st: Store, t: Targets, now: int)
    ensures Fine(st, Listed(t)) <==> Inv(Deleted(st, t, now))
  {
    var after := Deleted(st, t, now);
    forall k | k in st.manifests
      ensures k in t.drops ==> Anchored(after.files, after.manifests[k].m)
      ensures k !in t.drops ==> after.manifests[k] == st.manifests[k]
    {
    }
  }

  /** Marking everything the manifests outside `drops` reach leaves a sound store. */
  lemma MarkedFine(st: Store, listings: Listings, drops: set<Key>)
    requires Inv(st) && ListsAll(listings, st.files)
    ensures Fine(st, Marked(Reachable(st, listings, st.manifests.Keys - drops), drops))
  {
    var keys := st.manifests.Keys - drops;
    var marks := Reachable(st, listings, keys);
    ReachableContained(st, listings, keys);
    KeepSound(st.files, marks);
    forall k | k in keys
      ensures Anchored(Keep(st.files, marks), st.manifests[k].m)
    {
      assert Anchored(st.files, st.manifests[k].m);
      ReachableContains(st, listings, keys, k);
    }
  }

  function ListFiles(files: Storage, marks: Marks, drops: set<Key>): Targets {
    Targets({}, files.blobs.Keys - marks.blobs, files.patches.Keys - marks.patches, drops)
  }

  /** Listing what is not marked changes nothing of what would stay. */
  lemma ListingLeavesTheSame(files: Storage, marks: Marks, drops: set<Key>)
    ensures Left(files, Listed(ListFiles(files, marks, drops))) == Left(files, Marked(marks, drops))
  {
    var a, b := Left(files, Listed(ListFiles(files, marks, drops))), Left(files, Marked(marks, drops));
    assert a.blobs == b.blobs;
    assert a.patches == b.patches;
  }

  /** An enumeration is harmless when it is made. */
  lemma EnumeratedHarmless(st: Store, listings: Listings, cutoff: Option<int>)
    requires Inv(st) && ListsAll(listings, st.files)
    ensures Fine(st, Listed(Enumerated(st, listings, cutoff)))
  {
    var t := Enumerated(st, listings, cutoff);
    if AnyCorrupt(st.manifests) {
      AbortedSplitChangesNothing(st, listings, cutoff, 0);
      FineListedIff(st, t, 0);
    } else {
      var drops := StaleKeys(st.manifests, cutoff);
      MarkedFine(st, listings, drops);
      ListingLeavesTheSame(st.files, Reachable(st, listings, st.manifests.Keys - drops), drops);
    }
  }

  // ----- the two writes of a save -----

  /** What the plan writes, and the manifest it then has to publish: None where the blob
      cannot be written. */
  function StorageOf(files: Storage, plan: Plan, req: SaveRequest, env: SaveEnv): (Storage, Option<Manifest>) {
    var h := Digest(req.content);
    if plan.Reuse? then
      (files, Some(NewManifest(req, plan.prior.encoding, plan.prior.base, plan.prior.chainLength)))
    else if WritesPatch(files, plan, req, env) then
      (AddPatch(files, h, plan.base, plan.delta), Some(NewManifest(req, Patched, Some(plan.base), plan.chainLength)))
    else if h in files.blobs || env.blobWrites then
      (files.(blobs := Put(files.blobs, h, req.content)), Some(NewManifest(req, Full, None, 0)))
    else (files, None)
  }

  function PublishIn(st: Store, key: Key, m: Manifest, now: int): Store {
    st.(manifests := st.manifests[key := Entry(m, now)])
  }

  /** A save carries its plan out in these two writes. */
  lemma ExecuteInTwo(st: Store, plan: Plan, req: SaveRequest, env: SaveEnv)
    ensures var (more, m) := StorageOf(st.files, plan, req, env);
            Execute(st, plan, req, env) ==
            if m.Some? && env.manifestWrites then
              (PublishIn(st.(files := more), req.key, m.value, env.now), Ok(req.key))
            else (st.(files := more), Err(OSError))
  {
  }

  /** A plan that tells the truth, on any store, now or later. */
  ghost predicate TruePlan(plan: Plan, req: SaveRequest) {
    match plan
    case Reuse(prior) =>
      prior.Live() && prior.hash == Some(Digest(req.content)) && (prior.encoding == Patched ==> prior.base.Some?)
    case WriteFull => true
    case WriteDelta(base, delta, _) => base != Digest(req.content) && ApplyDelta(base.of, delta) == Ok(req.content)
  }

  lemma PlannedTrue(st: Store, listing: Listing, req: SaveRequest, env: SaveEnv)
    requires Inv(st) && Lists(listing, st.files) && Faithful(env.matcher)
    ensures TruePlan(PlanOf(st, listing, req, env), req)
  {
    var plan := PlanOf(st, listing, req, env);
    if plan.Reuse? {
      NewestIsPresent(st.manifests, req.key.file);
      assert Anchored(st.files, plan.prior);
    } else if plan.WriteDelta? {
      PlannedDeltaIsTrue(st, listing, req, env);
    }
  }

  /** Over any sound storage, a truthful patch may be added exactly when its base is stored
      and does not come through the target. */
  lemma AddPatchIff(files: Storage, h: Hash, base: Hash, delta: Delta)
    requires Sound(files) && base != h && ApplyDelta(base.of, delta) == Ok(h.of)
    ensures Sound(AddPatch(files, h, base, delta)) <==>
      || (h, base) in files.patches
      || (Stored(files, base) && (h in files.blobs || !Digraph.Reaches(ChainEdges(files), base, h)))
  {
    var more := AddPatch(files, h, base, delta);
    assert (h, base) in more.patches && (h, base).1 == base;
    if Stored(files, base) {
      AddPatchSoundIff(files, h, base, delta);
    }
  }

  /** A patch that is added and stays has a base that stays, without a cycle through what
      stays. */
  ghost predicate StandsOn(files: Storage, v: View, plan: Plan, req: SaveRequest, env: SaveEnv) {
    var h := Digest(req.content);
    WritesPatch(files, plan, req, env) && (h, plan.base) !in files.patches && v.KeepsPatch((h, plan.base)) ==>
      var kept := Left(files, v);
      Stored(kept, plan.base) && (h in kept.blobs || !Digraph.Reaches(ChainEdges(kept), plan.base, h))
  }

  lemma PatchLeft(files: Storage, h: Hash, base: Hash, delta: Delta, v: View)
    ensures Left(AddPatch(files, h, base, delta), v) ==
            if v.KeepsPatch((h, base)) then AddPatch(Left(files, v), h, base, delta) else Left(files, v)
  {
    var more := Left(AddPatch(files, h, base, delta), v);
    LeftHas(files, v);
    LeftHas(AddPatch(files, h, base, delta), v);
    assert v.KeepsPatch((h, base)) ==> more.patches == AddPatch(Left(files, v), h, base, delta).patches;
    assert !v.KeepsPatch((h, base)) ==> more.patches == Left(files, v).patches;
  }

  lemma BlobLeft(files: Storage, content: Bytes, v: View)
    ensures var (h, kept) := (Digest(content), Left(files, v));
            Left(files.(blobs := Put(files.blobs, h, content)), v) ==
            if v.KeepsBlob(h) then kept.(blobs := Put(kept.blobs, h, content)) else kept
  {
    var h := Digest(content);
    var more := files.(blobs := Put(files.blobs, h, content));
    LeftHas(files, v);
    LeftHas(more, v);
    assert v.KeepsBlob(h) ==> Left(more, v).blobs == Put(Left(files, v).blobs, h, content);
    assert !v.KeepsBlob(h) ==> Left(more, v).blobs == Left(files, v).blobs;
    assert Left(more, v).patches == Left(files, v).patches;
  }

  /** What the storage write does to what stays: it stays sound exactly when the write
      stands on what stays, and it loses nothing. */
  lemma LeftStoredIff(files: Storage, v: View, plan: Plan, req: SaveRequest, env: SaveEnv)
    requires Sound(Left(files, v)) && TruePlan(plan, req)
    ensures var more := StorageOf(files, plan, req, env).0;
            && (Sound(Left(more, v)) <==> StandsOn(files, v, plan, req, env))
            && Grows(Left(files, v), Left(more, v))
  {
    var h, kept := Digest(req.content), Left(files, v);
    if plan.Reuse? {
    } else if WritesPatch(files, plan, req, env) {
      PatchLeft(files, h, plan.base, plan.delta, v);
      if v.KeepsPatch((h, plan.base)) {
        LeftHas(files, v);
        AddPatchIff(kept, h, plan.base, plan.delta);
      }
    } else if h in files.blobs || env.blobWrites {
      BlobLeft(files, req.content, v);
      AddBlobSound(kept, req.content);
    }
  }

  lemma FineGrows(st: Store, more: Storage, v: View)
    requires Fine(st, v) && Grows(Left(st.files, v), Left(more, v))
    ensures Fine(st.(files := more), v) <==> Sound(Left(more, v))
    ensures forall k :: k in st.manifests && k !in v.Drops() ==> Anchored(Left(more, v), st.manifests[k].m)
  {
    forall k | k in st.manifests && k !in v.Drops()
      ensures Anchored(Left(more, v), st.manifests[k].m)
    {
      AnchoredGrows(Left(st.files, v), Left(more, v), st.manifests[k].m);
    }
  }

  /** The storage write of a save, at any moment of a collector's work, keeps what will stay
      sound exactly when it stands on what stays. */
  lemma StoreIff(st: Store, v: View, plan: Plan, req: SaveRequest, env: SaveEnv)
    requires Fine(st, v) && TruePlan(plan, req)
    ensures Fine(st.(files := StorageOf(st.files, plan, req, env).0), v) <==> StandsOn(st.files, v, plan, req, env)
  {
    LeftStoredIff(st.files, v, plan, req, env);
    FineGrows(st, StorageOf(st.files, plan, req, env).0, v);
  }

  /** The file the manifest names is there and will stay, or the manifest will be dropped. */
  ghost predicate NamesKept(files: Storage, v: View, key: Key, m: Manifest) {
    key !in v.Drops() ==> Anchored(Left(files, v), m)
  }

  /** So does the manifest write exactly when the file it names stays. */
  lemma PublishIff(st: Store, v: View, key: Key, m: Manifest, now: int)
    requires Fine(st, v)
    ensures Fine(PublishIn(st, key, m, now), v) <==> NamesKept(st.files, v, key, m)
  {
    var st' := PublishIn(st, key, m, now);
    assert st'.manifests[key].m == m;
    forall k | k in st'.manifests && k != key
      ensures st'.manifests[k] == st.manifests[k]
    {
    }
  }

  // ----- a whole save meanwhile -----

  predicate FileStays(encoding: Encoding, h: Hash, base: Option<Hash>, v: View) {
    && (encoding == Full ==> v.KeepsBlob(h))
    && (encoding == Patched ==> base.Some? && v.KeepsPatch((h, base.value)))
  }

  /** The file the save's manifest names is marked, or is no target; and a patch it adds
      stands on what stays. */
  ghost predicate KeepsPending(st: Store, v: View, plan: Plan, req: SaveRequest, env: SaveEnv) {
    var m := StorageOf(st.files, plan, req, env).1;
    && StandsOn(st.files, v, plan, req, env)
    && (m.Some? && env.manifestWrites && req.key !in v.Drops() ==>
          FileStays(m.value.encoding, Digest(req.content), m.value.base, v))
  }

  lemma NamedIsWritten(st: Store, plan: Plan, req: SaveRequest, env: SaveEnv, v: View)
    requires TruePlan(plan, req) && (plan.Reuse? ==> Anchored(st.files, plan.prior))
    requires StorageOf(st.files, plan, req, env).1.Some?
    ensures var (more, m) := StorageOf(st.files, plan, req, env);
            Anchored(Left(more, v), m.value) <==> FileStays(m.value.encoding, Digest(req.content), m.value.base, v)
  {
    LeftHas(StorageOf(st.files, plan, req, env).0, v);
  }

  /** A save that falls inside a collector's walk, after its marks or after its listing,
      leaves what will stay in order exactly when the file its manifest names is marked
      (is no target) and what it adds stands on what stays. */
  lemma KeepsPendingIff(st: Store, listing: Listing, req: SaveRequest, env: SaveEnv, v: View)
    requires Inv(st) && Lists(listing, st.files) && Faithful(env.matcher) && Fine(st, v)
    ensures Fine(Saved(st, listing, req, env).0, v)
       <==> KeepsPending(st, v, PlanOf(st, listing, req, env), req, env)
  {
    var plan := PlanOf(st, listing, req, env);
    var (more, m) := StorageOf(st.files, plan, req, env);
    PlannedTrue(st, listing, req, env);
    ExecuteInTwo(st, plan, req, env);
    LeftStoredIff(st.files, v, plan, req, env);
    FineGrows(st, more, v);
    if m.Some? && env.manifestWrites {
      if plan.Reuse? { PriorAnchored(st, listing, req, env); }
      NamedIsWritten(st, plan, req, env, v);
      if Sound(Left(more, v)) {
        PublishIff(st.(files := more), v, req.key, m.value, env.now);
      }
    }
  }

  lemma PriorAnchored(st: Store, listing: Listing, req: SaveRequest, env: SaveEnv)
    requires Inv(st) && PlanOf(st, listing, req, env).Reuse?
    ensures Anchored(st.files, PlanOf(st, listing, req, env).prior)
  {
    NewestIsPresent(st.manifests, req.key.file);
  }

  /** The same, said of the delete: run after one more save, it leaves the invariant exactly
      when that save kept the enumeration harmless. */
  lemma DeleteAfterSaveIff(st: Store, listing: Listing, req: SaveRequest, env: SaveEnv,
                           listings: Listings, cutoff: Option<int>, now: int)
    requires Inv(st) && Lists(listing, st.files) && ListsAll(listings, st.files) && Faithful(env.matcher)
    ensures var t := Enumerated(st, listings, cutoff);
            (Inv(Deleted(Saved(st, listing, req, env).0, t, now))
             <==> KeepsPending(st, Listed(t), PlanOf(st, listing, req, env), req, env))
  {
    var t := Enumerated(st, listings, cutoff);
    EnumeratedHarmless(st, listings, cutoff);
    KeepsPendingIff(st, listing, req, env, Listed(t));
    FineListedIff(Saved(st, listing, req, env).0, t, now);
  }
}
