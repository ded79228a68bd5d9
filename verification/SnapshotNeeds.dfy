/** What a collector leaves is what the manifests that stay need, and nothing else. The
  need is said in terms of the walk a restore takes, step by step of a directory order. */
module SnapshotNeeds {
  import opened Wrappers
  import opened SnapshotStore
  import opened SnapshotInvariant
  import opened Sets

  /** From `h`, `n` steps along the first listed patches come to `x`. */
  ghost predicate WalksTo(files: Storage, listing: Listing, h: Hash, x: Hash, n: nat)
    decreases n
  {
    if n == 0 then x == h
    else h !in files.blobs && FirstPatch(files, listing, h).Some? && WalksTo(files, listing, listing[h], x, n - 1)
  }

  ghost predicate Visits(files: Storage, listing: Listing, h: Hash, x: Hash) {
    exists n: nat :: WalksTo(files, listing, h, x, n)
  }

  /** A full manifest needs its own blob; a delta manifest needs the blob the walk from its
      base comes to. */
  ghost predicate NeedsBlob(files: Storage, listing: Listing, m: Manifest, h: Hash) {
    || (m.encoding == Full && m.hash == Some(h))
    || (m.encoding == Patched && m.base.Some? && h in files.blobs && Visits(files, listing, m.base.value, h))
  }

  /** A delta manifest needs its own patch and each one that walk takes. */
  ghost predicate NeedsPatch(files: Storage, listing: Listing, m: Manifest, e: Edge) {
    && m.encoding == Patched && m.base.Some?
    && (|| (m.hash == Some(e.0) && m.base == Some(e.1))
        || (e.0 !in files.blobs && FirstPatch(files, listing, e.0) == Some(e.1)
            && Visits(files, listing, m.base.value, e.0)))
  }

  /** Live, and not older than the cutoff, if there is one. */
  ghost predicate Stays(e: Entry, cutoff: Option<int>) {
    (e.m.encoding == Full || e.m.encoding == Patched) && (cutoff.Some? ==> e.mtime > cutoff.value)
  }

  ghost predicate BlobNeeded(st: Store, listings: Listings, cutoff: Option<int>, h: Hash) {
    exists k :: k in st.manifests && Stays(st.manifests[k], cutoff)
                && NeedsBlob(st.files, listings(k), st.manifests[k].m, h)
  }

  ghost predicate PatchNeeded(st: Store, listings: Listings, cutoff: Option<int>, e: Edge) {
    exists k :: k in st.manifests && Stays(st.manifests[k], cutoff)
                && NeedsPatch(st.files, listings(k), st.manifests[k].m, e)
  }

  // ----- the marker's walk -----

  lemma VisitsNext(files: Storage, listing: Listing, h: Hash, x: Hash)
    requires h !in files.blobs && FirstPatch(files, listing, h).Some? && Visits(files, listing, listing[h], x)
    ensures Visits(files, listing, h, x)
  {
    var n: nat :| WalksTo(files, listing, listing[h], x, n);
    assert WalksTo(files, listing, h, x, n + 1);
  }

  /** Nothing is marked but what the walk visits. */
  lemma {:induction false} MarkedIsVisited(files: Storage, listing: Listing, h: Hash, seen: set<Hash>)
    ensures var marks := MarkChain(files, listing, h, seen);
            && (forall x :: x in marks.blobs ==> x in files.blobs && Visits(files, listing, h, x))
            && forall e :: e in marks.patches ==>
                 e.0 !in files.blobs && FirstPatch(files, listing, e.0) == Some(e.1) && Visits(files, listing, h, e.0)
    decreases PatchTargets(files) - seen
  {
    assert WalksTo(files, listing, h, h, 0);
    if h !in seen && h !in files.blobs && FirstPatch(files, listing, h).Some? {
      FirstPatchIsTarget(files, listing, h);
      var base := listing[h];
      MarkedIsVisited(files, listing, base, seen + {h});
      var rest := MarkChain(files, listing, base, seen + {h});
      forall x | x in rest.blobs
        ensures Visits(files, listing, h, x)
      {
        VisitsNext(files, listing, h, x);
      }
      forall e | e in rest.patches
        ensures Visits(files, listing, h, e.0)
      {
        VisitsNext(files, listing, h, e.0);
      }
    }
  }

  /** What the walk takes at `x` is marked, or `x` was seen before. */
  ghost predicate Handled(files: Storage, listing: Listing, marks: Marks, seen: set<Hash>, x: Hash) {
    || x in seen
    || (x in files.blobs && x in marks.blobs)
    || (x !in files.blobs &&
        match FirstPatch(files, listing, x) case None => true case Some(b) => (x, b) in marks.patches)
  }

  lemma {:induction false} MarksAreClosed(files: Storage, listing: Listing, h: Hash, seen: set<Hash>)
    ensures var marks := MarkChain(files, listing, h, seen);
            && Handled(files, listing, marks, seen, h)
            && forall e {:trigger e in marks.patches} :: e in marks.patches ==>
                 Handled(files, listing, marks, seen, e.1)
    decreases PatchTargets(files) - seen
  {
    if h !in seen && h !in files.blobs && FirstPatch(files, listing, h).Some? {
      FirstPatchIsTarget(files, listing, h);
      MarksAreClosed(files, listing, listing[h], seen + {h});
    }
  }

  lemma {:induction false} VisitedIsHandled(files: Storage, listing: Listing, marks: Marks, h: Hash, x: Hash, n: nat)
    requires Handled(files, listing, marks, {}, h)
    requires forall e {:trigger e in marks.patches} :: e in marks.patches ==> Handled(files, listing, marks, {}, e.1)
    requires WalksTo(files, listing, h, x, n)
    ensures Handled(files, listing, marks, {}, x)
    decreases n
  {
    if n == 0 {
    } else {
      assert (h, listing[h]) in marks.patches && (h, listing[h]).1 == listing[h];
      VisitedIsHandled(files, listing, marks, listing[h], x, n - 1);
    }
  }

  /** On any store, cyclic or not, the marker marks exactly what the walk takes. */
  lemma MarkChainIff(files: Storage, listing: Listing, h: Hash, x: Hash, e: Edge)
    ensures x in MarkChain(files, listing, h, {}).blobs <==> x in files.blobs && Visits(files, listing, h, x)
    ensures e in MarkChain(files, listing, h, {}).patches <==>
      e.0 !in files.blobs && FirstPatch(files, listing, e.0) == Some(e.1) && Visits(files, listing, h, e.0)
  {
    var marks := MarkChain(files, listing, h, {});
    MarkedIsVisited(files, listing, h, {});
    MarksAreClosed(files, listing, h, {});
    if Visits(files, listing, h, x) {
      var n: nat :| WalksTo(files, listing, h, x, n);
      VisitedIsHandled(files, listing, marks, h, x, n);
    }
    if Visits(files, listing, h, e.0) {
      var n: nat :| WalksTo(files, listing, h, e.0, n);
      VisitedIsHandled(files, listing, marks, h, e.0, n);
    }
  }

  lemma MarksOfIff(files: Storage, listing: Listing, m: Manifest, x: Hash, e: Edge)
    requires !m.Corrupt()
    ensures x in MarksOf(files, listing, m).blobs <==> NeedsBlob(files, listing, m, x)
    ensures e in MarksOf(files, listing, m).patches <==> NeedsPatch(files, listing, m, e)
  {
    if m.encoding == Patched { MarkChainIff(files, listing, m.base.value, x, e); }
  }

  lemma ReachableIff(st: Store, listings: Listings, keys: set<Key>, x: Hash, e: Edge)
    requires keys <= st.manifests.Keys && forall k :: k in keys ==> !st.manifests[k].m.Corrupt()
    ensures x in Reachable(st, listings, keys).blobs <==>
      exists k :: k in keys && NeedsBlob(st.files, listings(k), st.manifests[k].m, x)
    ensures e in Reachable(st, listings, keys).patches <==>
      exists k :: k in keys && NeedsPatch(st.files, listings(k), st.manifests[k].m, e)
  {
    forall k | k in keys
      ensures x in KeyMarks(st, listings, k).blobs <==> NeedsBlob(st.files, listings(k), st.manifests[k].m, x)
      ensures e in KeyMarks(st, listings, k).patches <==> NeedsPatch(st.files, listings(k), st.manifests[k].m, e)
    {
      MarksOfIff(st.files, listings(k), st.manifests[k].m, x, e);
    }
  }

  // ----- what is left -----

  /** Its encoding is one of the three, and it has the hashes that encoding asks for. */
  predicate WellFormed(m: Manifest) {
    || m.encoding == Dropped
    || (m.encoding == Full && m.hash.Some?)
    || (m.encoding == Patched && m.hash.Some? && m.base.Some?)
  }

  ghost predicate AllWellFormed(manifests: map<Key, Entry>) {
    forall k :: k in manifests ==> WellFormed(manifests[k].m)
  }

  lemma AllWellFormedIff(manifests: map<Key, Entry>)
    ensures AllWellFormed(manifests) <==> !AnyCorrupt(manifests)
  {
    if AnyCorrupt(manifests) {
      var k :| k in CorruptKeys(manifests);
      assert !WellFormed(manifests[k].m);
    }
    forall k | k in manifests && !WellFormed(manifests[k].m)
      ensures AnyCorrupt(manifests)
    {
      assert k in CorruptKeys(manifests);
    }
  }

  /** Enumeration, on any store without a corrupt manifest: its targets are the files that
      no manifest which stays needs, and the manifests that do not stay. A corrupt manifest
      makes it refuse. */
  lemma EnumeratedIff(st: Store, listings: Listings, cutoff: Option<int>, h: Hash, e: Edge, k: Key)
    ensures var t := Enumerated(st, listings, cutoff);
            if AllWellFormed(st.manifests) then
              && t.corrupt == {}
              && (h in t.blobs <==> h in st.files.blobs && !BlobNeeded(st, listings, cutoff, h))
              && (e in t.patches <==> e in st.files.patches && !PatchNeeded(st, listings, cutoff, e))
              && (k in t.drops <==> k in st.manifests && st.manifests[k].m.Live() && !Stays(st.manifests[k], cutoff))
            else
              t.blobs == {} && t.patches == {} && t.drops == {}
              && (k in t.corrupt <==> k in st.manifests && !WellFormed(st.manifests[k].m))
  {
    AllWellFormedIff(st.manifests);
    if AllWellFormed(st.manifests) {
      var keys := st.manifests.Keys - StaleKeys(st.manifests, cutoff);
      ReachableIff(st, listings, keys, h, e);
      StayingNeedsIff(st, listings, cutoff, h, e);
    }
  }

  lemma StayingNeedsIff(st: Store, listings: Listings, cutoff: Option<int>, h: Hash, e: Edge)
    ensures var keys := st.manifests.Keys - StaleKeys(st.manifests, cutoff);
            && (BlobNeeded(st, listings, cutoff, h) <==>
                exists k :: k in keys && NeedsBlob(st.files, listings(k), st.manifests[k].m, h))
            && (PatchNeeded(st, listings, cutoff, e) <==>
                exists k :: k in keys && NeedsPatch(st.files, listings(k), st.manifests[k].m, e))
  {
    var keys := st.manifests.Keys - StaleKeys(st.manifests, cutoff);
    forall k | k in st.manifests && st.manifests[k].m.Live()
      ensures k in keys <==> Stays(st.manifests[k], cutoff)
    {
    }
  }

  /** The single-shot vacuum, on any store: a blob or a patch is left, as it was, if and only
      if a manifest that stays needs it. When a manifest that retention does not rewrite is
      corrupt, every file is left. */
  lemma VacuumLeavesIff(st: Store, listings: Listings, cutoff: Option<int>, now: int, h: Hash, e: Edge)
    ensures var left := Vacuumed(st, listings, cutoff, now).files;
            if AllWellFormed(DropStale(st, cutoff, now).manifests) then
              && (h in left.blobs <==> h in st.files.blobs && BlobNeeded(st, listings, cutoff, h))
              && (e in left.patches <==> e in st.files.patches && PatchNeeded(st, listings, cutoff, e))
              && (h in left.blobs ==> left.blobs[h] == st.files.blobs[h])
              && (e in left.patches ==> left.patches[e] == st.files.patches[e])
            else left == st.files
  {
    var st1 := DropStale(st, cutoff, now);
    AllWellFormedIff(st1.manifests);
    if AllWellFormed(st1.manifests) {
      ReachableIff(st1, listings, st1.manifests.Keys, h, e);
      RewrittenNeedsIff(st, listings, cutoff, now, h, e);
    }
  }

  /** A rewritten manifest needs nothing, the others what they needed. */
  lemma RewrittenNeedsIff(st: Store, listings: Listings, cutoff: Option<int>, now: int, h: Hash, e: Edge)
    ensures var st1 := DropStale(st, cutoff, now);
            && st1.manifests.Keys == st.manifests.Keys
            && (BlobNeeded(st, listings, cutoff, h) <==>
                exists k :: k in st1.manifests && NeedsBlob(st1.files, listings(k), st1.manifests[k].m, h))
            && (PatchNeeded(st, listings, cutoff, e) <==>
                exists k :: k in st1.manifests && NeedsPatch(st1.files, listings(k), st1.manifests[k].m, e))
  {
    var st1 := DropStale(st, cutoff, now);
    forall k | k in st.manifests
      ensures NeedsBlob(st1.files, listings(k), st1.manifests[k].m, h) <==>
              Stays(st.manifests[k], cutoff) && NeedsBlob(st.files, listings(k), st.manifests[k].m, h)
      ensures NeedsPatch(st1.files, listings(k), st1.manifests[k].m, e) <==>
              Stays(st.manifests[k], cutoff) && NeedsPatch(st.files, listings(k), st.manifests[k].m, e)
    {
      assert k in st1.manifests;
    }
  }

  // ----- what is reported -----

  lemma Differ(sizes: Sizes, all: Storage, left: Storage)
    requires left.blobs.Keys <= all.blobs.Keys && left.patches.Keys <= all.patches.Keys
    ensures |all.blobs.Keys - left.blobs.Keys| == |all.blobs| - |left.blobs|
    ensures |all.patches.Keys - left.patches.Keys| == |all.patches| - |left.patches|
    ensures BytesOf(sizes, all.blobs.Keys - left.blobs.Keys, all.patches.Keys - left.patches.Keys) ==
            BytesOf(sizes, all.blobs.Keys, all.patches.Keys) - BytesOf(sizes, left.blobs.Keys, left.patches.Keys)
  {
    SumSplits(all.blobs.Keys, left.blobs.Keys, sizes.blob);
    SumSplits(all.patches.Keys, left.patches.Keys, sizes.patch);
    SizeSplits(all.blobs.Keys, left.blobs.Keys);
    SizeSplits(all.patches.Keys, left.patches.Keys);
  }

  lemma SweptKeys(st: Store, listings: Listings)
    ensures var marks, left := Reachable(st, listings, st.manifests.Keys), Swept(st, listings).files;
            && left.blobs.Keys == st.files.blobs.Keys * marks.blobs
            && left.patches.Keys == st.files.patches.Keys * marks.patches
            && st.files.blobs.Keys - marks.blobs == st.files.blobs.Keys - left.blobs.Keys
            && st.files.patches.Keys - marks.patches == st.files.patches.Keys - left.patches.Keys
  {
  }

  /** What a run reports is what it changed: as many blobs, patches and bytes as are gone,
      as many manifests as it rewrote, and the manifests it refused on. A dry run reports
      the files of a run without retention and the manifests of one with it. */
  lemma ReportIsDifference(st: Store, listings: Listings, cutoff: Option<int>, now: int, sizes: Sizes, dryRun: bool)
    ensures var r := Report(st, listings, cutoff, now, sizes, dryRun);
            var applied := if dryRun then None else cutoff;
            var seen, left := DropStale(st, applied, now), Vacuumed(st, listings, applied, now).files;
            && r.corrupt == (set k | k in seen.manifests && !WellFormed(seen.manifests[k].m))
            && r.manifestsDropped ==
               |set k | k in st.manifests && st.manifests[k].m.Live() && !Stays(st.manifests[k], cutoff)|
            && r.blobsDeleted == |st.files.blobs| - |left.blobs|
            && r.patchesDeleted == |st.files.patches| - |left.patches|
            && r.bytesFreed == BytesOf(sizes, st.files.blobs.Keys, st.files.patches.Keys)
                               - BytesOf(sizes, left.blobs.Keys, left.patches.Keys)
  {
    var applied := if dryRun then None else cutoff;
    NoCutoffDropsNothing(st, now);
    var seen := DropStale(st, applied, now);
    StaleAre(st.manifests, cutoff);
    CorruptAre(seen.manifests);
    if !AnyCorrupt(seen.manifests) {
      SweptKeys(seen, listings);
      Differ(sizes, st.files, Swept(seen, listings).files);
    }
  }

  lemma StaleAre(manifests: map<Key, Entry>, cutoff: Option<int>)
    ensures StaleKeys(manifests, cutoff) ==
            set k | k in manifests && manifests[k].m.Live() && !Stays(manifests[k], cutoff)
  {
  }

  lemma CorruptAre(manifests: map<Key, Entry>)
    ensures CorruptKeys(manifests) == set k | k in manifests && !WellFormed(manifests[k].m)
  {
  }

  lemma NoCutoffDropsNothing(st: Store, now: int)
    ensures DropStale(st, None, now) == st
  {
    assert StaleKeys(st.manifests, None) == {};
    assert DropManifests(st.manifests, {}, now) == st.manifests;
  }
}
