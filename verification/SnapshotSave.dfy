/** What one `save` does to the invariant, and exactly when what it wrote restores. */
module SnapshotSave {
  import opened Wrappers
  import opened Utf8
  import opened DeltaCodec
  import opened SnapshotStore
  import opened SnapshotInvariant
  import Digraph

  /** The save goes on to write (or finds) a patch, rather than falling back to a blob. */
  predicate WritesPatch(files: Storage, plan: Plan, req: SaveRequest, env: SaveEnv) {
    plan.WriteDelta? && ((Digest(req.content), plan.base) in files.patches || env.patchWrites)
  }

  /** The side condition: a content saved as a delta has a blob already, or its base's
      chain does not come through it. */
  ghost predicate Safe(files: Storage, plan: Plan, req: SaveRequest, env: SaveEnv) {
    WritesPatch(files, plan, req, env) ==>
      || Digest(req.content) in files.blobs
      || !Digraph.Reaches(ChainEdges(files), plan.base, Digest(req.content))
  }

  /** A planned delta, applied to its base's content, gives the saved content. */
  lemma PlannedDeltaIsTrue(st: Store, listing: Listing, req: SaveRequest, env: SaveEnv)
    requires Inv(st) && Lists(listing, st.files) && Faithful(env.matcher)
    requires PlanOf(st, listing, req, env).WriteDelta?
    ensures var plan := PlanOf(st, listing, req, env);
            && Stored(st.files, plan.base) && plan.base != Digest(req.content)
            && ApplyDelta(plan.base.of, plan.delta) == Ok(req.content)
  {
    var plan := PlanOf(st, listing, req, env);
    NewestIsPresent(st.manifests, req.key.file);
    var p := Newest(st.manifests, req.key.file).value;
    assert Anchored(st.files, p);
    ResolveStored(st.files, listing, plan.base);
    if EncodeSuffix(plan.base.of, req.content).Some? {
      SuffixRoundTrip(plan.base.of, req.content);
    } else {
      DeltaRoundTrip(plan.base.of, req.content, env.matcher);
    }
  }

  ghost predicate Grows(a: Storage, b: Storage) {
    && (forall h :: h in a.blobs ==> h in b.blobs)
    && (forall e :: e in a.patches ==> e in b.patches)
  }

  lemma AnchoredGrows(a: Storage, b: Storage, m: Manifest)
    requires Grows(a, b) && Anchored(a, m)
    ensures Anchored(b, m)
  {
  }

  lemma AddBlobSound(files: Storage, content: Bytes)
    requires Sound(files)
    ensures var more := files.(blobs := Put(files.blobs, Digest(content), content));
            Sound(more) && Grows(files, more)
  {
    var more := files.(blobs := Put(files.blobs, Digest(content), content));
    forall e | e in more.patches
      ensures Stored(more, e.1)
    {
      assert Stored(files, e.1);
      if HasPatch(files, e.1) {
        var b :| (e.1, b) in files.patches;
        assert (e.1, b) in more.patches;
      }
    }
    Digraph.SubgraphAcyclic(ChainEdges(more), ChainEdges(files));
  }

  function AddPatch(files: Storage, h: Hash, base: Hash, delta: Delta): Storage {
    files.(patches := Put(files.patches, (h, base), delta))
  }

  lemma AddPatchClosed(files: Storage, h: Hash, base: Hash, delta: Delta)
    requires Sound(files) && Stored(files, base) && ApplyDelta(base.of, delta) == Ok(h.of)
    ensures var more := AddPatch(files, h, base, delta);
            Truthful(more) && Closed(more) && Grows(files, more)
  {
    var more := AddPatch(files, h, base, delta);
    forall e | e in more.patches
      ensures Stored(more, e.1)
    {
      assert e in files.patches || e.1 == base;
      assert Stored(files, e.1);
      if HasPatch(files, e.1) {
        var b :| (e.1, b) in files.patches;
        assert (e.1, b) in more.patches;
      }
    }
  }

  lemma AddPatchEdges(files: Storage, h: Hash, base: Hash, delta: Delta)
    ensures var more := AddPatch(files, h, base, delta);
            ChainEdges(more) == ChainEdges(files) + (if h in files.blobs then {} else {(h, base)})
  {
    var more := AddPatch(files, h, base, delta);
    assert more.patches.Keys == files.patches.Keys + {(h, base)};
  }

  /** Adding a truthful patch keeps the store sound exactly under the side condition. */
  lemma AddPatchSoundIff(files: Storage, h: Hash, base: Hash, delta: Delta)
    requires Sound(files) && Stored(files, base) && ApplyDelta(base.of, delta) == Ok(h.of)
    ensures Sound(AddPatch(files, h, base, delta))
       <==> h in files.blobs || !Digraph.Reaches(ChainEdges(files), base, h)
  {
    AddPatchClosed(files, h, base, delta);
    AddPatchEdges(files, h, base, delta);
    Digraph.AddEdgeAcyclicIff(ChainEdges(files), h, base);
    assert ChainEdges(files) + {} == ChainEdges(files);
  }

  /** If the side condition fails, some directory order makes the new content unrestorable. */
  lemma UnsafePatchFails(files: Storage, h: Hash, base: Hash, delta: Delta)
    requires h !in files.blobs && Digraph.Reaches(ChainEdges(files), base, h)
    ensures var more := AddPatch(files, h, base, delta);
            exists listing :: Lists(listing, more) && Resolve(more, listing, h, {}).Err?
  {
    var more := AddPatch(files, h, base, delta);
    AddPatchEdges(files, h, base, delta);
    var n: nat :| Digraph.ReachesIn(ChainEdges(files), base, h, n);
    Digraph.Monotone(ChainEdges(files), ChainEdges(more), base, h, n);
    assert (h, base) in ChainEdges(more);
    assert Digraph.ReachesIn(ChainEdges(more), h, h, n + 1);
    var r := Digraph.CycleGivesTrap(ChainEdges(more), h, n + 1);
    var listing := TrapListing(more, r);
    TrappedFails(more, listing, r, h, {});
    assert Lists(listing, more) && Resolve(more, listing, h, {}).Err?;
  }

  lemma SaveKeepsSound(st: Store, listing: Listing, req: SaveRequest, env: SaveEnv)
    requires Inv(st) && Lists(listing, st.files) && Faithful(env.matcher)
    requires Safe(st.files, PlanOf(st, listing, req, env), req, env)
    ensures var files' := Saved(st, listing, req, env).0.files;
            Sound(files') && Grows(st.files, files')
  {
    var plan := PlanOf(st, listing, req, env);
    AddBlobSound(st.files, req.content);
    if plan.WriteDelta? {
      PlannedDeltaIsTrue(st, listing, req, env);
      if WritesPatch(st.files, plan, req, env) {
        AddPatchSoundIff(st.files, Digest(req.content), plan.base, plan.delta);
        AddPatchClosed(st.files, Digest(req.content), plan.base, plan.delta);
      }
    }
  }

  /** Every save that meets the side condition keeps the invariant, whether it reuses the
      prior's storage, writes a blob or a patch, falls back, or fails. */
  lemma SaveKeepsInv(st: Store, listing: Listing, req: SaveRequest, env: SaveEnv)
    requires Inv(st) && Lists(listing, st.files) && Faithful(env.matcher)
    requires Safe(st.files, PlanOf(st, listing, req, env), req, env)
    ensures Inv(Saved(st, listing, req, env).0)
  {
    var plan := PlanOf(st, listing, req, env);
    var st' := Saved(st, listing, req, env).0;
    SaveKeepsSound(st, listing, req, env);
    if plan.Reuse? {
      NewestIsPresent(st.manifests, req.key.file);
      AnchoredGrows(st.files, st'.files, plan.prior);
    }
    forall k | k in st'.manifests
      ensures Anchored(st'.files, st'.manifests[k].m)
    {
      if k in st.manifests { AnchoredGrows(st.files, st'.files, st.manifests[k].m); }
      SavedAnchored(st, listing, req, env, k);
    }
  }

  lemma SavedAnchored(st: Store, listing: Listing, req: SaveRequest, env: SaveEnv, k: Key)
    requires k in Saved(st, listing, req, env).0.manifests
    requires var (files', plan) := (Saved(st, listing, req, env).0.files, PlanOf(st, listing, req, env));
             && (k in st.manifests ==> Anchored(files', st.manifests[k].m))
             && (plan.Reuse? ==> plan.prior.hash == Some(Digest(req.content)) && Anchored(files', plan.prior))
    ensures var st' := Saved(st, listing, req, env).0;
            Anchored(st'.files, st'.manifests[k].m)
  {
  }

  ghost predicate AlwaysRestores(st: Store, key: Key, content: Bytes) {
    forall listing :: Lists(listing, st.files) ==> Restore(st, listing, key) == Ok(content)
  }

  /** The manifest a successful save wrote restores, under every later directory order,
      exactly when the side condition held. */
  lemma SaveRestoresIff(st: Store, listing: Listing, req: SaveRequest, env: SaveEnv)
    requires Inv(st) && Lists(listing, st.files) && Faithful(env.matcher)
    requires Saved(st, listing, req, env).1.Ok?
    ensures Safe(st.files, PlanOf(st, listing, req, env), req, env)
       <==> AlwaysRestores(Saved(st, listing, req, env).0, req.key, req.content)
  {
    var plan := PlanOf(st, listing, req, env);
    if Safe(st.files, plan, req, env) {
      SaveKeepsInv(st, listing, req, env);
      SavedManifest(st, listing, req, env);
      InvRestores(Saved(st, listing, req, env).0, req.key, req.content);
    } else {
      UnsafePatchFails(st.files, Digest(req.content), plan.base, plan.delta);
      PatchSaved(st, plan, req, env);
      Unrestorable(Saved(st, listing, req, env).0, req.key, req.content);
    }
  }

  lemma InvRestores(st: Store, key: Key, content: Bytes)
    requires Inv(st) && key in st.manifests && st.manifests[key].m.Live()
    requires st.manifests[key].m.hash == Some(Digest(content))
    ensures AlwaysRestores(st, key, content)
  {
    forall later | Lists(later, st.files)
      ensures Restore(st, later, key) == Ok(content)
    {
      RestoreLive(st, later, key);
    }
  }

  lemma Unrestorable(st: Store, key: Key, content: Bytes)
    requires key in st.manifests && st.manifests[key].m.encoding == Patched
    requires st.manifests[key].m.hash == Some(Digest(content))
    requires exists later :: Lists(later, st.files) && Resolve(st.files, later, Digest(content), {}).Err?
    ensures exists later :: Lists(later, st.files) && Restore(st, later, key).Err?
    ensures !AlwaysRestores(st, key, content)
  {
    var later :| Lists(later, st.files) && Resolve(st.files, later, Digest(content), {}).Err?;
    assert Restore(st, later, key).Err?;
  }

  lemma PatchSaved(st: Store, plan: Plan, req: SaveRequest, env: SaveEnv)
    requires WritesPatch(st.files, plan, req, env)
    ensures var (st', r) := Execute(st, plan, req, env);
            && st'.files == AddPatch(st.files, Digest(req.content), plan.base, plan.delta)
            && (env.manifestWrites ==>
                  && r == Ok(req.key) && req.key in st'.manifests
                  && st'.manifests[req.key].m.encoding == Patched
                  && st'.manifests[req.key].m.hash == Some(Digest(req.content)))
  {
  }

  predicate AllWritten(env: SaveEnv) {
    env.patchWrites && env.blobWrites && env.manifestWrites
  }

  /** A file's first snapshot is full. */
  lemma FirstSaved(st: Store, listing: Listing, req: SaveRequest, env: SaveEnv)
    requires AllWritten(env) && forall k :: k in st.manifests ==> k.file != req.key.file
    ensures PlanOf(st, listing, req, env) == WriteFull
    ensures Saved(st, listing, req, env) ==
            (Store(st.files.(blobs := Put(st.files.blobs, Digest(req.content), req.content)),
                   st.manifests[req.key := Entry(NewManifest(req, Full, None, 0), env.now)]),
             Ok(req.key))
  {
    NewestIsPresent(st.manifests, req.key.file);
  }

  /** A save that returns leaves a live manifest of the saved content at the new name, and
      every other manifest as it was. */
  lemma SavedManifest(st: Store, listing: Listing, req: SaveRequest, env: SaveEnv)
    ensures var (st', r) := Saved(st, listing, req, env);
            && (r.Ok? ==>
                  && req.key in st'.manifests && st'.manifests[req.key].m.Live()
                  && st'.manifests[req.key].m.hash == Some(Digest(req.content))
                  && st'.manifests[req.key].m.sizeBytes == |req.content|)
            && (r.Err? ==> st'.manifests == st.manifests)
            && st'.manifests - {req.key} == st.manifests - {req.key}
  {
  }
}
