/** Both collectors are safe, and they agree. */
module SnapshotVacuum {
  import opened Wrappers
  import opened Utf8
  import opened DeltaCodec
  import opened SnapshotStore
  import opened SnapshotInvariant
  import Digraph

  /** The marks hold what the chain of `x` needs first: its blob, or, if it has none, one
      of its patches. */
  ghost predicate Covered(files: Storage, marks: Marks, x: Hash) {
    if x in files.blobs then x in marks.blobs
    else exists b :: (x, b) in marks.patches
  }

  /** Marked things exist, and the base of every marked patch is covered in turn. */
  ghost predicate SelfContained(files: Storage, marks: Marks) {
    && marks.blobs <= files.blobs.Keys
    && forall e {:trigger e in marks.patches} :: e in marks.patches ==>
         e in files.patches && Covered(files, marks, e.1)
  }

  ghost predicate Within(a: Marks, b: Marks) {
    a.blobs <= b.blobs && a.patches <= b.patches
  }

  lemma CoveredWithin(files: Storage, a: Marks, b: Marks, x: Hash)
    requires Within(a, b) && Covered(files, a, x)
    ensures Covered(files, b, x)
  {
  }

  lemma OneMoreMark(files: Storage, rest: Marks, h: Hash, base: Hash)
    requires SelfContained(files, rest) && Covered(files, rest, base)
    requires (h, base) in files.patches && h !in files.blobs
    ensures var marks := Both(Marks({}, {(h, base)}), rest);
            SelfContained(files, marks) && Covered(files, marks, h)
  {
    var marks := Both(Marks({}, {(h, base)}), rest);
    assert (h, base) in marks.patches;
    forall e | e in marks.patches
      ensures e in files.patches && Covered(files, marks, e.1)
    {
      assert e in rest.patches || e == (h, base);
      CoveredWithin(files, rest, marks, e.1);
    }
  }

  /** Whichever patches the directories list first, the walk marks a chain that ends in a blob. */
  lemma {:induction false} MarkChainCovers(files: Storage, listing: Listing, h: Hash, seen: set<Hash>)
    requires Sound(files) && Lists(listing, files) && Stored(files, h) && Visited(files, seen, h)
    ensures var marks := MarkChain(files, listing, h, seen);
            SelfContained(files, marks) && Covered(files, marks, h)
    decreases PatchTargets(files) - seen
  {
    NotVisited(files, seen, h);
    if h !in files.blobs {
      var base := FirstPatchServes(files, listing, h);
      StepVisited(files, seen, h, base);
      MarkChainCovers(files, listing, base, seen + {h});
      OneMoreMark(files, MarkChain(files, listing, base, seen + {h}), h, base);
    }
  }

  lemma MarksOfContained(files: Storage, listing: Listing, m: Manifest)
    requires Sound(files) && Lists(listing, files) && Anchored(files, m)
    ensures SelfContained(files, MarksOf(files, listing, m))
  {
    if !m.Corrupt() && m.encoding == Patched {
      assert (m.hash.value, m.base.value) in files.patches;
      MarkChainCovers(files, listing, m.base.value, {});
      var marks := MarksOf(files, listing, m);
      forall e | e in marks.patches
        ensures e in files.patches && Covered(files, marks, e.1)
      {
        CoveredWithin(files, MarkChain(files, listing, m.base.value, {}), marks, m.base.value);
        if e in MarkChain(files, listing, m.base.value, {}).patches {
          CoveredWithin(files, MarkChain(files, listing, m.base.value, {}), marks, e.1);
        }
      }
    }
  }

  lemma ReachableContains(st: Store, listings: Listings, keys: set<Key>, k: Key)
    requires k in keys && k in st.manifests
    ensures Within(KeyMarks(st, listings, k), Reachable(st, listings, keys))
  {
  }

  lemma ReachableContained(st: Store, listings: Listings, keys: set<Key>)
    requires Inv(st) && ListsAll(listings, st.files)
    ensures SelfContained(st.files, Reachable(st, listings, keys))
  {
    var marks := Reachable(st, listings, keys);
    forall h | h in marks.blobs
      ensures h in st.files.blobs
    {
      var k :| k in keys && k in st.manifests && h in KeyMarks(st, listings, k).blobs;
      MarksOfContained(st.files, listings(k), st.manifests[k].m);
    }
    forall e | e in marks.patches
      ensures e in st.files.patches && Covered(st.files, marks, e.1)
    {
      var k :| k in keys && k in st.manifests && e in KeyMarks(st, listings, k).patches;
      MarksOfContained(st.files, listings(k), st.manifests[k].m);
      ReachableContains(st, listings, keys, k);
      CoveredWithin(st.files, KeyMarks(st, listings, k), marks, e.1);
    }
  }

  /** A base that lost its blob would have been marked, so the kept patches cannot form a
      cycle that the deleted blobs used to break. */
  lemma KeepAcyclic(files: Storage, marks: Marks)
    requires Digraph.Acyclic(ChainEdges(files)) && SelfContained(files, marks)
    ensures Digraph.Acyclic(ChainEdges(Keep(files, marks)))
  {
    var before, after := ChainEdges(files), ChainEdges(Keep(files, marks));
    forall r: set<Hash>
      ensures !Digraph.Trap(after, r)
    {
      if Digraph.Trap(after, r) {
        var entered := set y | y in r && exists x :: (x, y) in after;
        assert entered != {} by {
          var x :| x in r;
          assert Digraph.HasNext(after, r, x);
          var y :| y in r && (x, y) in after;
          assert y in entered;
        }
        forall y | y in entered
          ensures Digraph.HasNext(before, entered, y)
        {
          assert Digraph.HasNext(after, r, y);
          var z :| z in r && (y, z) in after;
          assert z in entered;
          var x :| (x, y) in after;
          assert Covered(files, marks, (x, y).1);
          assert (y, z) in before;
        }
        assert Digraph.Trap(before, entered);
        Digraph.TrapGivesCycle(before, entered);
      }
    }
    Digraph.AcyclicIffNoTrap(after);
  }

  lemma KeepSound(files: Storage, marks: Marks)
    requires Sound(files) && SelfContained(files, marks)
    ensures Sound(Keep(files, marks))
  {
    var kept := Keep(files, marks);
    forall e | e in kept.patches
      ensures Stored(kept, e.1)
    {
      assert Covered(files, marks, e.1);
      if e.1 !in files.blobs {
        var b :| (e.1, b) in marks.patches;
        assert (e.1, b) in kept.patches;
      }
    }
    KeepAcyclic(files, marks);
  }

  lemma DropKeepsInv(st: Store, keys: set<Key>, now: int)
    requires Inv(st)
    ensures Inv(st.(manifests := DropManifests(st.manifests, keys, now)))
  {
    var st1 := st.(manifests := DropManifests(st.manifests, keys, now));
    forall k | k in st1.manifests
      ensures Anchored(st1.files, st1.manifests[k].m)
    {
      assert Anchored(st.files, st.manifests[k].m);
    }
  }

  /** Sweeping what the manifests do not reach keeps the invariant. */
  lemma SweepKeepsInv(st: Store, listings: Listings)
    requires Inv(st) && ListsAll(listings, st.files)
    ensures Inv(Swept(st, listings))
  {
    var marks := Reachable(st, listings, st.manifests.Keys);
    var kept := Keep(st.files, marks);
    ReachableContained(st, listings, st.manifests.Keys);
    KeepSound(st.files, marks);
    forall k | k in st.manifests
      ensures Anchored(kept, st.manifests[k].m)
    {
      assert Anchored(st.files, st.manifests[k].m);
      ReachableContains(st, listings, st.manifests.Keys, k);
    }
  }

  lemma VacuumKeepsInv(st: Store, listings: Listings, cutoff: Option<int>, now: int)
    requires Inv(st) && ListsAll(listings, st.files)
    ensures Inv(Vacuumed(st, listings, cutoff, now))
  {
    var st1 := DropStale(st, cutoff, now);
    DropKeepsInv(st, StaleKeys(st.manifests, cutoff), now);
    if !AnyCorrupt(st1.manifests) {
      SweepKeepsInv(st1, listings);
    }
  }

  /** Vacuum safety: a manifest that is live afterwards restores to exactly the bytes it
      restored to before, whatever the three walks (the restore before, the marker, the
      restore after) find listed first. */
  lemma VacuumSafe(st: Store, marker: Listings, cutoff: Option<int>, now: int, key: Key, before: Listing,
                   after: Listing)
    requires Inv(st) && ListsAll(marker, st.files) && Lists(before, st.files)
    requires var st' := Vacuumed(st, marker, cutoff, now);
             && Lists(after, st'.files)
             && key in st'.manifests && st'.manifests[key].m.Live()
    ensures var st' := Vacuumed(st, marker, cutoff, now);
            && Inv(st')
            && Restore(st', after, key).Ok?
            && Restore(st', after, key) == Restore(st, before, key)
  {
    VacuumKeepsInv(st, marker, cutoff, now);
    var st' := Vacuumed(st, marker, cutoff, now);
    assert key in st.manifests && st.manifests[key].m == st'.manifests[key].m;
    RestoreLive(st, before, key);
    RestoreLive(st', after, key);
  }

  /** Vacuum keeps every manifest as an audit record. One that is live and as old as the
      cutoff or older is rewritten: it says `dropped` and names no base, and is otherwise what
      it was. No other changes. */
  lemma VacuumManifests(st: Store, listings: Listings, cutoff: Option<int>, now: int, key: Key)
    requires key in st.manifests
    ensures var before, after := st.manifests, Vacuumed(st, listings, cutoff, now).manifests;
            && after.Keys == before.Keys
            && var (e, e') := (before[key], after[key]);
               if (e.m.encoding == Full || e.m.encoding == Patched) && cutoff.Some? && e.mtime <= cutoff.value then
                 e'.m == e.m.(encoding := Dropped, base := None) && e'.mtime == now
               else e' == e
  {
  }

  // ----- nothing that could go is left -----

  lemma {:induction false} MarkChainOfKept(files: Storage, listing: Listing, h: Hash, seen: set<Hash>, marks: Marks)
    requires Within(MarkChain(files, listing, h, seen), marks)
    ensures MarkChain(Keep(files, marks), listing, h, seen) == MarkChain(files, listing, h, seen)
    decreases PatchTargets(files) - seen
  {
    var kept := Keep(files, marks);
    if h !in seen && h !in files.blobs && FirstPatch(files, listing, h).Some? {
      FirstPatchIsTarget(files, listing, h);
      assert (h, listing[h]) in kept.patches;
      MarkChainOfKept(files, listing, listing[h], seen + {h}, marks);
    }
  }

  lemma SweepIdempotent(st: Store, listings: Listings)
    ensures Swept(Swept(st, listings), listings) == Swept(st, listings)
  {
    var once := Swept(st, listings);
    var keys := st.manifests.Keys;
    var marks := Reachable(st, listings, keys);
    forall k | k in keys
      ensures KeyMarks(once, listings, k) == KeyMarks(st, listings, k)
    {
      var m := st.manifests[k].m;
      ReachableContains(st, listings, keys, k);
      if !m.Corrupt() && m.encoding == Patched {
        MarkChainOfKept(st.files, listings(k), m.base.value, {}, marks);
      }
    }
    assert Reachable(once, listings, keys).blobs == marks.blobs;
    assert Reachable(once, listings, keys).patches == marks.patches;
    assert Keep(once.files, marks) == once.files;
  }

  /** A second vacuum finds no orphan. That what is kept is needed is proved in SnapshotNeeds. */
  lemma VacuumIdempotent(st: Store, listings: Listings, cutoff: Option<int>, now: int, later: int)
    ensures var once := Vacuumed(st, listings, cutoff, now);
            Vacuumed(once, listings, cutoff, later) == once
  {
    var once := Vacuumed(st, listings, cutoff, now);
    var st1 := DropStale(st, cutoff, now);
    assert once.manifests == st1.manifests;
    assert StaleKeys(once.manifests, cutoff) == {};
    assert DropManifests(once.manifests, {}, later) == once.manifests;
    assert DropStale(once, cutoff, later) == once;
    SweepIdempotent(st1, listings);
  }

  // ----- enumerate, then delete -----

  lemma DroppedMarkNothing(st: Store, listings: Listings, drops: set<Key>, now: int)
    ensures var st1 := st.(manifests := DropManifests(st.manifests, drops, now));
            Reachable(st1, listings, st1.manifests.Keys) == Reachable(st, listings, st.manifests.Keys - drops)
  {
    var st1 := st.(manifests := DropManifests(st.manifests, drops, now));
    assert st1.manifests.Keys == st.manifests.Keys;
    forall k | k in st.manifests
      ensures KeyMarks(st1, listings, k) ==
              if k in drops then NO_MARKS else KeyMarks(st, listings, k)
    {
    }
    var a := Reachable(st1, listings, st1.manifests.Keys);
    var b := Reachable(st, listings, st.manifests.Keys - drops);
    assert a.blobs == b.blobs;
    assert a.patches == b.patches;
  }

  lemma SplitEqualsSingle(st: Store, listings: Listings, cutoff: Option<int>, now: int)
    requires !AnyCorrupt(st.manifests)
    ensures Deleted(st, Enumerated(st, listings, cutoff), now) == Vacuumed(st, listings, cutoff, now)
  {
    var drops := StaleKeys(st.manifests, cutoff);
    var st1 := DropStale(st, cutoff, now);
    forall k | k in st1.manifests
      ensures !st1.manifests[k].m.Corrupt()
    {
      assert k !in CorruptKeys(st.manifests);
    }
    DroppedMarkNothing(st, listings, drops, now);
    var marks := Reachable(st, listings, st.manifests.Keys - drops);
    var split := Deleted(st, Enumerated(st, listings, cutoff), now);
    assert split.files.blobs == Keep(st.files, marks).blobs;
    assert split.files.patches == Keep(st.files, marks).patches;
  }

  lemma AbortedSplitChangesNothing(st: Store, listings: Listings, cutoff: Option<int>, now: int)
    requires AnyCorrupt(st.manifests)
    ensures Deleted(st, Enumerated(st, listings, cutoff), now) == st
  {
    assert DropManifests(st.manifests, {}, now) == st.manifests;
    assert st.files.blobs - {} == st.files.blobs;
    assert st.files.patches - {} == st.files.patches;
  }

  /** Archive-before-delete ends in the same store as the single-shot vacuum exactly when
      no manifest is corrupt or retention has nothing to drop. With a corrupt manifest the
      single-shot path has rewritten the stale ones before it aborts; the split has not. */
  lemma EnumerateDeleteRefinesIff(st: Store, listings: Listings, cutoff: Option<int>, now: int)
    ensures Deleted(st, Enumerated(st, listings, cutoff), now) == Vacuumed(st, listings, cutoff, now)
       <==> !AnyCorrupt(st.manifests) || StaleKeys(st.manifests, cutoff) == {}
  {
    if !AnyCorrupt(st.manifests) {
      SplitEqualsSingle(st, listings, cutoff, now);
    } else {
      AbortedSplitChangesNothing(st, listings, cutoff, now);
      var drops := StaleKeys(st.manifests, cutoff);
      if drops == {} {
        assert DropManifests(st.manifests, {}, now) == st.manifests;
      } else {
        var k :| k in drops;
        assert Vacuumed(st, listings, cutoff, now).manifests[k].m.encoding == Dropped;
        assert st.manifests[k].m.encoding != Dropped;
      }
    }
  }
}
