/** What restore refuses, over any store and over whole runs. */
module SnapshotRestore {
  import opened Wrappers
  import opened Utf8
  import opened DeltaCodec
  import opened SnapshotStore
  import opened SnapshotInvariant
  import opened SnapshotNeeds
  import R = SnapshotRuns
  import S = SnapshotSteps

  /** The manifest says where its content is: it is there, names a hash, and is not dropped. */
  predicate Restorable(st: Store, key: Key) {
    && key in st.manifests
    && st.manifests[key].m.encoding != Dropped
    && st.manifests[key].m.hash.Some?
  }

  /** Restore gives a content exactly when the manifest is there, not dropped and names a
      hash, and the walk from that hash comes to a blob from which the patches give it. */
  lemma RestoreIff(st: Store, listing: Listing, key: Key, content: Bytes)
    ensures Restore(st, listing, key) == Ok(content) <==>
      && Restorable(st, key)
      && Holds(st.files, listing, st.manifests[key].m.hash.value, content)
  {
    if Restorable(st, key) { ResolvesIff(st.files, listing, st.manifests[key].m.hash.value, content); }
  }

  /** Whatever its storage holds, and for each reason its own error: an unknown name is
      reported missing, a dropped snapshot and one without a hash as a bad value; so is a
      walk that never stops, and one that ends at nothing is a missing file again. */
  lemma RestoreErrors(st: Store, listing: Listing, key: Key)
    ensures key !in st.manifests ==> Restore(st, listing, key) == Err(FileNotFound)
    ensures key in st.manifests && st.manifests[key].m.encoding == Dropped ==>
              Restore(st, listing, key) == Err(ValueError("content was vacuumed"))
    ensures key in st.manifests && st.manifests[key].m.encoding != Dropped && st.manifests[key].m.hash.None? ==>
              Restore(st, listing, key) == Err(ValueError("no hash"))
    ensures Restorable(st, key) && NeverStops(st.files, listing, st.manifests[key].m.hash.value) ==>
              Restore(st, listing, key) == Err(ValueError("Cycle detected"))
    ensures Restorable(st, key) && (exists n: nat :: DeadEnds(st.files, listing, st.manifests[key].m.hash.value, n)) ==>
              Restore(st, listing, key) == Err(FileNotFound)
  {
    if Restorable(st, key) { ResolveIff(st.files, listing, st.manifests[key].m.hash.value); }
  }

  /** A snapshot that retention dropped is refused even where another file's snapshot keeps
      its blob. */
  lemma RetentionRefuses(st: Store, listings: Listings, cutoff: int, now: int, key: Key, listing: Listing)
    requires key in st.manifests && st.manifests[key].m.Live() && !Stays(st.manifests[key], Some(cutoff))
    ensures var st' := Vacuumed(st, listings, Some(cutoff), now);
            Restore(st', listing, key) == Err(ValueError("content was vacuumed"))
    ensures var st' := Deleted(st, Enumerated(st, listings, Some(cutoff)), now);
            AllWellFormed(st.manifests) ==> Restore(st', listing, key) == Err(ValueError("content was vacuumed"))
  {
    AllWellFormedIff(st.manifests);
  }

  ghost predicate IsDropped(st: Store, key: Key) {
    key in st.manifests && st.manifests[key].m.encoding == Dropped
  }

  lemma DroppedIsRefused(st: Store, key: Key, listing: Listing)
    requires IsDropped(st, key)
    ensures Restore(st, listing, key) == Err(ValueError("content was vacuumed"))
  {
  }

  /** Dropped is for good: however many calls follow, safe or not, on whatever files, the
      snapshot is refused under every directory order, unless a save takes its very name. */
  lemma {:induction false} DroppedForGood(w: R.World, evs: seq<R.Event>, key: Key, listing: Listing)
    requires IsDropped(w.st, key)
    requires forall k :: 0 <= k < |evs| && evs[k].SaveEvent? ==> evs[k].req.key != key
    ensures Restore(R.Run(w, evs).st, listing, key) == Err(ValueError("content was vacuumed"))
    decreases |evs|
  {
    if evs == [] {
      DroppedIsRefused(w.st, key, listing);
    } else {
      assert IsDropped(R.Step(w, evs[0]).st, key);
      DroppedForGood(R.Step(w, evs[0]), evs[1..], key, listing);
    }
  }

  ghost predicate NoSaveOf(w: S.World, evs: seq<S.Event>, key: Key) {
    && (forall id :: id in w.saves ==> w.saves[id].req.key != key)
    && forall k :: 0 <= k < |evs| && evs[k].PlanSave? ==> evs[k].req.key != key
  }

  lemma StepStaysDropped(w: S.World, ev: S.Event, key: Key)
    requires IsDropped(w.st, key) && NoSaveOf(w, [ev], key)
    ensures IsDropped(S.Step(w, ev).st, key)
    ensures forall id :: id in S.Step(w, ev).saves ==> S.Step(w, ev).saves[id].req.key != key
  {
    assert [ev][0] == ev;
  }

  /** The same for runs of single steps, with saves and collectors under way at once. */
  lemma {:induction false} DroppedForGoodInSteps(w: S.World, evs: seq<S.Event>, key: Key, listing: Listing)
    requires IsDropped(w.st, key) && NoSaveOf(w, evs, key)
    ensures Restore(S.Run(w, evs).st, listing, key) == Err(ValueError("content was vacuumed"))
    decreases |evs|
  {
    if evs == [] {
      DroppedIsRefused(w.st, key, listing);
    } else {
      StepStaysDropped(w, evs[0], key);
      DroppedForGoodInSteps(S.Step(w, evs[0]), evs[1..], key, listing);
    }
  }
}
