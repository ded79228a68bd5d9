/** The store as the source runs it: calls that write, rewrite and unlink files in place,
  and walks that fill the reachable sets. Each call is proved against its specification
  in SnapshotStore; what those specifications promise is proved in the Snapshot modules. */
module HistoryStore {
  import opened Wrappers
  import opened Utf8
  import opened DeltaCodec
  import opened SnapshotStore
  import opened Sets

  class History {
    var blobs: map<Hash, Bytes>
    var patches: map<Edge, Delta>
    var manifests: map<Key, Entry>

    function Files(): Storage
      reads this
    {
      Storage(blobs, patches)
    }

    function State(): Store
      reads this
    {
      Store(Files(), manifests)
    }

    constructor ()
      ensures State() == EMPTY_STORE
    {
      blobs, patches, manifests := map[], map[], map[];
    }

    // ----- restore -----

    /** `_resolve_chain` */
    method ResolveChain(h: Hash, listing: Listing, seen: set<Hash>) returns (r: Result<Bytes, Error>)
      ensures r == Resolve(Files(), listing, h, seen)
      decreases PatchTargets(Files()) - seen
    {
      if h in seen {
        return Err(ValueError("Cycle detected"));
      }
      if h in blobs {
        return Ok(blobs[h]);
      }
      var first := FirstPatch(Files(), listing, h);
      if first.None? {
        return Err(FileNotFound);
      }
      FirstPatchIsTarget(Files(), listing, h);
      var base := ResolveChain(first.value, listing, seen + {h});
      if base.Err? {
        return base;
      }
      r := RunDelta(base.value, patches[(h, first.value)]);
    }

    /** `restore` */
    method RestoreSnapshot(key: Key, listing: Listing) returns (r: Result<Bytes, Error>)
      ensures r == Restore(State(), listing, key)
    {
      if key !in manifests {
        return Err(FileNotFound);
      }
      var m := manifests[key].m;
      if m.encoding == Dropped {
        return Err(ValueError("content was vacuumed"));
      }
      if m.hash.None? {
        return Err(ValueError("no hash"));
      }
      r := ResolveChain(m.hash.value, listing, {});
    }

    // ----- save -----

    method NewestManifest(file: string) returns (newest: Option<Manifest>)
      ensures newest == Newest(manifests, file)
    {
      var todo := manifests.Keys;
      var best: Option<Key> := None;
      while todo != {}
        invariant todo <= manifests.Keys
        invariant best.Some? ==> best.value in manifests.Keys - todo && best.value.file == file
        invariant forall k :: k in manifests.Keys - todo && k.file == file ==> best.Some? && k.name <= best.value.name
      {
        var k :| k in todo;
        todo := todo - {k};
        if k.file == file && (best.None? || best.value.name < k.name) {
          best := Some(k);
        }
      }
      if best.None? {
        assert forall k :: k in manifests ==> k.file != file;
        return None;
      }
      assert IsNewest(manifests, best.value) && best.value.file == file;
      NewestIs(manifests, best.value);
      return Some(manifests[best.value].m);
    }

    /** The first half of `save`: reuse the prior's storage, or write a blob or a delta. */
    method Decide(req: SaveRequest, env: SaveEnv, listing: Listing) returns (plan: Plan)
      ensures plan == PlanOf(State(), listing, req, env)
    {
      var prior := NewestManifest(req.key.file);
      if prior.None? || !prior.value.Live() {
        return WriteFull;
      }
      if prior.value.hash == Some(Digest(req.content)) {
        return Reuse(prior.value);
      }
      if prior.value.chainLength >= req.anchorInterval - 1 || prior.value.hash.None? {
        return WriteFull;
      }
      var base := prior.value.hash.value;
      var content := ResolveChain(base, listing, {});
      if content.Err? {
        return WriteFull;
      }
      var candidate := EncodeSuffix(content.value, req.content);
      if candidate.None? {
        if |req.content| > FULL_BLOB_MAX_SIZE {
          return WriteFull;
        }
        candidate := BuildDelta(content.value, req.content, env.matcher);
        if candidate.None? || !env.IsSmall(candidate.value, req.content) {
          return WriteFull;
        }
      }
      return WriteDelta(base, candidate.value, prior.value.chainLength + 1);
    }

    /** `save`: decide, write storage, fall back if the patch cannot be written, then write
        the manifest. */
    method Save(req: SaveRequest, env: SaveEnv, listing: Listing) returns (r: Result<Key, Error>)
      modifies this
      ensures (State(), r) == Saved(old(State()), listing, req, env)
    {
      var plan := Decide(req, env, listing);
      var h := Digest(req.content);
      var encoding, base, chainLength := Full, None, 0;
      if plan.Reuse? {
        encoding, base, chainLength := plan.prior.encoding, plan.prior.base, plan.prior.chainLength;
      } else {
        if plan.WriteDelta? && ((h, plan.base) in patches || env.patchWrites) {
          encoding, base, chainLength := Patched, Some(plan.base), plan.chainLength;
          if (h, plan.base) !in patches {
            patches := patches[(h, plan.base) := plan.delta];
          }
        } else if h !in blobs {
          if !env.blobWrites {
            return Err(OSError);
          }
          blobs := blobs[h := req.content];
        }
      }
      if !env.manifestWrites {
        return Err(OSError);
      }
      var m := NewManifest(req, encoding, base, chainLength);
      manifests := manifests[req.key := Entry(m, env.now)];
      return Ok(req.key);
    }

    // ----- vacuum -----

    /** `_mark_chain_reachable`, adding to the sets it is given. */
    method MarkChainReachable(h: Hash, listing: Listing, seen: set<Hash>, marks: Marks) returns (more: Marks)
      ensures more == Both(marks, MarkChain(Files(), listing, h, seen))
      decreases PatchTargets(Files()) - seen
    {
      more := marks;
      if h !in seen {
        if h in blobs {
          more := Marks(marks.blobs + {h}, marks.patches);
        } else {
          var first := FirstPatch(Files(), listing, h);
          if first.Some? {
            FirstPatchIsTarget(Files(), listing, h);
            more := Marks(marks.blobs, marks.patches + {(h, first.value)});
            more := MarkChainReachable(first.value, listing, seen + {h}, more);
          }
        }
      }
    }

    /** Phase 2b for one manifest. */
    method MarkManifest(m: Manifest, listing: Listing, marks: Marks) returns (more: Marks)
      ensures more == Both(marks, MarksOf(Files(), listing, m))
    {
      more := marks;
      if !m.Corrupt() {
        if m.encoding == Full {
          more := more.(blobs := more.blobs + {m.hash.value});
        } else if m.encoding == Patched {
          more := more.(patches := more.patches + {(m.hash.value, m.base.value)});
          more := MarkChainReachable(m.base.value, listing, {}, more);
        }
      }
    }

    /** Phase 2b over the given manifests. */
    method MarkManifests(keys: set<Key>, listings: Listings) returns (marks: Marks)
      requires keys <= manifests.Keys
      ensures marks == Reachable(State(), listings, keys)
    {
      marks := NO_MARKS;
      var todo := keys;
      assert keys - todo == {} && Reachable(State(), listings, {}) == NO_MARKS;
      while todo != {}
        invariant todo <= keys
        invariant marks == Reachable(State(), listings, keys - todo)
      {
        var k :| k in todo;
        marks := MarkManifest(manifests[k].m, listings(k), marks);
        ReachableStep(listings, keys - todo, k);
        assert keys - (todo - {k}) == keys - todo + {k};
        todo := todo - {k};
      }
      assert keys - {} == keys;
    }

    lemma ReachableStep(listings: Listings, done: set<Key>, k: Key)
      requires k in manifests
      ensures Reachable(State(), listings, done + {k}) ==
              Both(Reachable(State(), listings, done), KeyMarks(State(), listings, k))
    {
      var a := Reachable(State(), listings, done + {k});
      var b := Both(Reachable(State(), listings, done), KeyMarks(State(), listings, k));
      assert a.blobs == b.blobs;
      assert a.patches == b.patches;
    }

    /** Rewrite the named manifests to `dropped`. */
    method RewriteDropped(keys: set<Key>, now: int) returns (n: nat)
      modifies this`manifests
      ensures manifests == DropManifests(old(manifests), keys, now)
      ensures n == |keys * old(manifests.Keys)|
    {
      n := 0;
      var todo := keys * manifests.Keys;
      ghost var all := todo;
      while todo != {}
        invariant todo <= all && n == |all| - |todo|
        invariant manifests == DropManifests(old(manifests), all - todo, now)
      {
        var k :| k in todo;
        manifests := manifests[k := DropEntry(manifests[k], now)];
        n := n + 1;
        todo := todo - {k};
        assert |todo| == |todo + {k}| - 1;
      }
    }

    /** Phases 3 and 4: unlink the orphans that are there, or only measure them. */
    method Unlink(orphanBlobs: set<Hash>, orphanPatches: set<Edge>, sizes: Sizes, dryRun: bool)
      returns (b: nat, p: nat, bytes: nat)
      modifies this`blobs, this`patches
      ensures blobs == if dryRun then old(blobs) else old(blobs) - orphanBlobs
      ensures patches == if dryRun then old(patches) else old(patches) - orphanPatches
      ensures b == |orphanBlobs * old(blobs.Keys)| && p == |orphanPatches * old(patches.Keys)|
      ensures bytes == BytesOf(sizes, orphanBlobs * old(blobs.Keys), orphanPatches * old(patches.Keys))
    {
      var freedBlobs, freedPatches;
      if dryRun {
        b, freedBlobs := Measure(orphanBlobs * blobs.Keys, sizes.blob);
        p, freedPatches := Measure(orphanPatches * patches.Keys, sizes.patch);
      } else {
        blobs, b, freedBlobs := RemoveAll(blobs, orphanBlobs, sizes.blob);
        patches, p, freedPatches := RemoveAll(patches, orphanPatches, sizes.patch);
      }
      bytes := freedBlobs + freedPatches;
    }

    lemma KeepByRemoving(files: Storage, marks: Marks)
      ensures Keep(files, marks).blobs == files.blobs - (files.blobs.Keys - marks.blobs)
      ensures Keep(files, marks).patches == files.patches - (files.patches.Keys - marks.patches)
    {
    }

    /** Phases 2 to 4: refuse a corrupt store, mark, and unlink what is not marked. */
    method Sweep(listings: Listings, sizes: Sizes, dryRun: bool, dropped: nat) returns (r: VacuumResult)
      modifies this`blobs, this`patches
      ensures State() == if dryRun || AnyCorrupt(manifests) then old(State()) else Swept(old(State()), listings)
      ensures r == SweepReport(old(State()), listings, sizes, dropped)
    {
      var corrupt := CorruptKeys(manifests);
      if corrupt != {} {
        return VacuumResult(corrupt, dropped, 0, 0, 0);
      }
      ghost var st := State();
      var marks := MarkManifests(manifests.Keys, listings);
      var orphanBlobs, orphanPatches := blobs.Keys - marks.blobs, patches.Keys - marks.patches;
      assert orphanBlobs * blobs.Keys == orphanBlobs && orphanPatches * patches.Keys == orphanPatches;
      var b, p, bytes := Unlink(orphanBlobs, orphanPatches, sizes, dryRun);
      KeepByRemoving(st.files, marks);
      return VacuumResult({}, dropped, b, p, bytes);
    }

    /** `vacuum` */
    method Vacuum(listings: Listings, sizes: Sizes, dryRun: bool, cutoff: Option<int>, now: int)
      returns (r: VacuumResult)
      modifies this
      ensures State() == if dryRun then old(State()) else Vacuumed(old(State()), listings, cutoff, now)
      ensures r == Report(old(State()), listings, cutoff, now, sizes, dryRun)
    {
      var stale := StaleKeys(manifests, cutoff);
      var dropped := |stale|;
      if !dryRun {
        dropped := RewriteDropped(stale, now);
        assert stale * old(manifests.Keys) == stale;
        assert State() == DropStale(old(State()), cutoff, now);
      }
      r := Sweep(listings, sizes, dryRun, dropped);
    }

    // ----- enumerate, then delete -----

    /** `enumerate_vacuum_targets`: changes nothing. */
    method EnumerateVacuumTargets(listings: Listings, sizes: Sizes, cutoff: Option<int>)
      returns (t: Targets, bytes: nat)
      ensures t == Enumerated(State(), listings, cutoff)
      ensures bytes == BytesOf(sizes, t.blobs, t.patches)
    {
      var corrupt := CorruptKeys(manifests);
      if corrupt != {} {
        t, bytes := Targets(corrupt, {}, {}, {}), 0;
        return;
      }
      var drops := StaleKeys(manifests, cutoff);
      var marks := MarkManifests(manifests.Keys - drops, listings);
      t := Targets({}, blobs.Keys - marks.blobs, patches.Keys - marks.patches, drops);
      var b, freedBlobs := Measure(t.blobs, sizes.blob);
      var p, freedPatches := Measure(t.patches, sizes.patch);
      bytes := freedBlobs + freedPatches;
    }

    /** `delete_vacuum_targets`: a target that is gone already is skipped and not counted. */
    method DeleteVacuumTargets(t: Targets, sizes: Sizes, now: int) returns (r: VacuumResult)
      modifies this
      ensures State() == Deleted(old(State()), t, now)
      ensures r == VacuumResult({}, |t.drops * old(manifests.Keys)|,
                                |t.blobs * old(blobs.Keys)|, |t.patches * old(patches.Keys)|,
                                BytesOf(sizes, t.blobs * old(blobs.Keys), t.patches * old(patches.Keys)))
    {
      var dropped := RewriteDropped(t.drops, now);
      var b, p, bytes := Unlink(t.blobs, t.patches, sizes, false);
      r := VacuumResult({}, dropped, b, p, bytes);
    }
  }
}
