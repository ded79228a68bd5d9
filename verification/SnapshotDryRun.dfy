/** What a dry run of `vacuum` tells about the real run. */
module SnapshotDryRun {
  import opened Wrappers
  import opened Utf8
  import opened DeltaCodec
  import opened SnapshotStore
  import opened SnapshotVacuum
  import opened Sets

  /** Every file in the store that the manifest's chain holds is kept by the marks. */
  ghost predicate FreesNothing(files: Storage, own: Marks, kept: Marks) {
    own.blobs * files.blobs.Keys <= kept.blobs && own.patches * files.patches.Keys <= kept.patches
  }

  ghost function Surviving(st: Store, listings: Listings, cutoff: Option<int>): Marks {
    Reachable(st, listings, st.manifests.Keys - StaleKeys(st.manifests, cutoff))
  }

  /** Dropping the stale manifests frees no file: what each of them reaches, a manifest
      that stays reaches too. */
  ghost predicate RetentionFreesNothing(st: Store, listings: Listings, cutoff: Option<int>) {
    forall k :: k in StaleKeys(st.manifests, cutoff) ==>
      FreesNothing(st.files, KeyMarks(st, listings, k), Surviving(st, listings, cutoff))
  }

  ghost predicate RetentionCuresNothing(st: Store, cutoff: Option<int>) {
    CorruptKeys(st.manifests) * StaleKeys(st.manifests, cutoff) == {}
  }

  lemma DroppedNotCorrupt(st: Store, cutoff: Option<int>, now: int)
    ensures CorruptKeys(DropStale(st, cutoff, now).manifests) ==
            CorruptKeys(st.manifests) - StaleKeys(st.manifests, cutoff)
  {
  }

  lemma ReachableGrows(st: Store, listings: Listings, cutoff: Option<int>)
    ensures Within(Surviving(st, listings, cutoff), Reachable(st, listings, st.manifests.Keys))
  {
  }

  /** The marks of all manifests add no file to those of the surviving ones exactly when
      the stale ones free nothing. */
  lemma SameOrphansIff(st: Store, listings: Listings, cutoff: Option<int>)
    ensures RetentionFreesNothing(st, listings, cutoff)
       <==> FreesNothing(st.files, Reachable(st, listings, st.manifests.Keys), Surviving(st, listings, cutoff))
  {
    var all, kept := Reachable(st, listings, st.manifests.Keys), Surviving(st, listings, cutoff);
    var stale := StaleKeys(st.manifests, cutoff);
    if RetentionFreesNothing(st, listings, cutoff) {
      forall h | h in all.blobs * st.files.blobs.Keys
        ensures h in kept.blobs
      {
        var k :| k in st.manifests && h in KeyMarks(st, listings, k).blobs;
        if k in stale { assert FreesNothing(st.files, KeyMarks(st, listings, k), kept); }
      }
      forall e | e in all.patches * st.files.patches.Keys
        ensures e in kept.patches
      {
        var k :| k in st.manifests && e in KeyMarks(st, listings, k).patches;
        if k in stale { assert FreesNothing(st.files, KeyMarks(st, listings, k), kept); }
      }
    }
    forall k | k in stale
      ensures Within(KeyMarks(st, listings, k), all)
    {
      ReachableContains(st, listings, st.manifests.Keys, k);
    }
  }

  /** Counting the orphans under larger marks gives the same number exactly when it gives
      the same orphans. */
  lemma CountsAgreeIff(files: Storage, all: Marks, kept: Marks)
    requires Within(kept, all)
    ensures |files.blobs.Keys - all.blobs| == |files.blobs.Keys - kept.blobs|
            && |files.patches.Keys - all.patches| == |files.patches.Keys - kept.patches|
       <==> FreesNothing(files, all, kept)
    ensures FreesNothing(files, all, kept) ==>
              files.blobs.Keys - all.blobs == files.blobs.Keys - kept.blobs
              && files.patches.Keys - all.patches == files.patches.Keys - kept.patches
  {
    DifferenceIff(files.blobs.Keys, all.blobs, kept.blobs);
    DifferenceIff(files.patches.Keys, all.patches, kept.patches);
  }

  /** The dry run reports what the real run reports, counts, bytes and refusals alike,
      exactly when dropping the stale manifests frees no file, or, in a corrupt store,
      cures no corruption. */
  lemma DryRunPredictsIff(st: Store, listings: Listings, cutoff: Option<int>, now: int, sizes: Sizes)
    ensures Report(st, listings, cutoff, now, sizes, true) == Report(st, listings, cutoff, now, sizes, false)
       <==> if AnyCorrupt(st.manifests) then RetentionCuresNothing(st, cutoff)
            else RetentionFreesNothing(st, listings, cutoff)
  {
    DroppedNotCorrupt(st, cutoff, now);
    if AnyCorrupt(st.manifests) {
      CorruptCase(st, listings, cutoff, now, sizes);
    } else {
      var all, kept := Reachable(st, listings, st.manifests.Keys), Surviving(st, listings, cutoff);
      DroppedMarkNothing(st, listings, StaleKeys(st.manifests, cutoff), now);
      ReachableGrows(st, listings, cutoff);
      CountsAgreeIff(st.files, all, kept);
      SameOrphansIff(st, listings, cutoff);
    }
  }

  lemma CorruptCase(st: Store, listings: Listings, cutoff: Option<int>, now: int, sizes: Sizes)
    requires AnyCorrupt(st.manifests)
    ensures Report(st, listings, cutoff, now, sizes, true) == Report(st, listings, cutoff, now, sizes, false)
       <==> RetentionCuresNothing(st, cutoff)
  {
    DroppedNotCorrupt(st, cutoff, now);
    var corrupt, stale := CorruptKeys(st.manifests), StaleKeys(st.manifests, cutoff);
    if corrupt - stale == corrupt {
      assert forall k :: k in corrupt ==> k !in stale;
    } else {
      var k :| k in corrupt && k !in corrupt - stale;
      assert k in corrupt * stale;
    }
  }

  function OneFull(content: Bytes, key: Key): Store {
    var h := Digest(content);
    Store(Storage(map[h := content], map[]),
          map[key := Entry(Manifest(Some(h), Full, None, |content|, "", "", 0), 0)])
  }

  /** One full snapshot past the cutoff is enough for the two to differ: the dry run
      promises no blob, the real run deletes one. */
  lemma DryRunCanMislead(content: Bytes, key: Key, listings: Listings, sizes: Sizes)
    ensures var st := OneFull(content, key);
            && Report(st, listings, Some(0), 1, sizes, true) == VacuumResult({}, 1, 0, 0, 0)
            && Report(st, listings, Some(0), 1, sizes, false) ==
               VacuumResult({}, 1, 1, 0, sizes.blob(Digest(content)))
  {
    var st := OneFull(content, key);
    assert StaleKeys(st.manifests, Some(0)) == {key} && CorruptKeys(st.manifests) == {};
    DryHalf(content, key, listings, sizes);
    RealHalf(content, key, listings, sizes);
  }

  lemma DryHalf(content: Bytes, key: Key, listings: Listings, sizes: Sizes)
    ensures SweepReport(OneFull(content, key), listings, sizes, 1) == VacuumResult({}, 1, 0, 0, 0)
  {
    var st, h := OneFull(content, key), Digest(content);
    assert CorruptKeys(st.manifests) == {};
    var marks := Reachable(st, listings, st.manifests.Keys);
    assert h in KeyMarks(st, listings, key).blobs && h in marks.blobs;
    assert st.files.blobs.Keys - marks.blobs == {} && st.files.patches.Keys - marks.patches == {};
  }

  lemma RealHalf(content: Bytes, key: Key, listings: Listings, sizes: Sizes)
    ensures SweepReport(DropStale(OneFull(content, key), Some(0), 1), listings, sizes, 1) ==
            VacuumResult({}, 1, 1, 0, sizes.blob(Digest(content)))
  {
    var st, h := DropStale(OneFull(content, key), Some(0), 1), Digest(content);
    assert st.manifests.Keys == {key} && st.manifests[key].m.encoding == Dropped;
    assert CorruptKeys(st.manifests) == {};
    var marks := Reachable(st, listings, st.manifests.Keys);
    assert KeyMarks(st, listings, key) == NO_MARKS;
    assert marks.blobs == {} && marks.patches == {};
    assert st.files.blobs.Keys - marks.blobs == {h} && st.files.patches.Keys - marks.patches == {};
    SumRemove({h}, sizes.blob, h);
    assert {h} - {h} == {};
  }
}
