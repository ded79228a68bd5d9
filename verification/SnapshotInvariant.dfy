/** The store invariant, and why it is exactly what restore needs. */
module SnapshotInvariant {
  import opened Wrappers
  import opened Utf8
  import opened DeltaCodec
  import opened SnapshotStore
  import Digraph

  /** Patches a resolver may have to follow: those whose target has no blob. */
  ghost function ChainEdges(files: Storage): set<Edge> {
    set e | e in files.patches.Keys && e.0 !in files.blobs
  }

  ghost predicate HasPatch(files: Storage, h: Hash) {
    exists b :: (h, b) in files.patches
  }

  ghost predicate Stored(files: Storage, h: Hash) {
    h in files.blobs || HasPatch(files, h)
  }

  /** Every file holds what its name says. */
  ghost predicate Truthful(files: Storage) {
    && (forall h :: h in files.blobs ==> files.blobs[h] == h.of)
    && (forall e :: e in files.patches ==> ApplyDelta(e.1.of, files.patches[e]) == Ok(e.0.of))
  }

  /** Every patch's base is itself stored. */
  ghost predicate Closed(files: Storage) {
    forall e {:trigger e in files.patches} :: e in files.patches ==> Stored(files, e.1)
  }

  ghost predicate Sound(files: Storage) {
    Truthful(files) && Closed(files) && Digraph.Acyclic(ChainEdges(files))
  }

  /** A live manifest points at storage that exists. */
  ghost predicate Anchored(files: Storage, m: Manifest) {
    && (m.encoding == Full ==> m.hash.Some? && m.hash.value in files.blobs)
    && (m.encoding == Patched ==>
          m.hash.Some? && m.base.Some? && (m.hash.value, m.base.value) in files.patches)
  }

  ghost predicate Inv(st: Store) {
    && Sound(st.files)
    && forall k {:trigger st.manifests[k]} :: k in st.manifests ==> Anchored(st.files, st.manifests[k].m)
  }

  // ----- restore -----

  /** Following the first listed patches, a blob is met after `n` of them. */
  ghost predicate LeadsTo(files: Storage, listing: Listing, h: Hash, n: nat)
    decreases n
  {
    if n == 0 then h in files.blobs
    else h !in files.blobs && FirstPatch(files, listing, h).Some? && LeadsTo(files, listing, listing[h], n - 1)
  }

  /** That blob's content, with the patches applied on the way back. */
  ghost function Followed(files: Storage, listing: Listing, h: Hash, n: nat): Result<Bytes, Error>
    requires LeadsTo(files, listing, h, n)
    decreases n
  {
    if n == 0 then Ok(files.blobs[h])
    else
      match Followed(files, listing, listing[h], n - 1)
      case Err(e) => Err(e)
      case Ok(content) => ApplyDelta(content, files.patches[(h, listing[h])])
  }

  /** Following the first listed patches, a hash that has neither blob nor patch is met
      after `n` of them. */
  ghost predicate DeadEnds(files: Storage, listing: Listing, h: Hash, n: nat)
    decreases n
  {
    h !in files.blobs &&
    if n == 0 then FirstPatch(files, listing, h).None?
    else FirstPatch(files, listing, h).Some? && DeadEnds(files, listing, listing[h], n - 1)
  }

  ghost predicate Stops(files: Storage, listing: Listing, h: Hash, n: nat) {
    LeadsTo(files, listing, h, n) || DeadEnds(files, listing, h, n)
  }

  lemma {:induction false} StopsOnce(files: Storage, listing: Listing, h: Hash, n: nat, k: nat)
    requires Stops(files, listing, h, n) && Stops(files, listing, h, k)
    ensures n == k
    decreases n
  {
    if n == 0 || k == 0 {
    } else {
      StopsOnce(files, listing, listing[h], n - 1, k - 1);
    }
  }

  ghost predicate StopsLater(files: Storage, listing: Listing, h: Hash, n: nat) {
    exists k: nat :: k > n && Stops(files, listing, h, k)
  }

  /** What a walk that stops resolves to. */
  ghost function Outcome(files: Storage, listing: Listing, h: Hash, n: nat): Result<Bytes, Error>
    requires Stops(files, listing, h, n)
  {
    if LeadsTo(files, listing, h, n) then Followed(files, listing, h, n) else Err(FileNotFound)
  }

  lemma {:induction false} ResolveStops(files: Storage, listing: Listing, h: Hash, seen: set<Hash>, n: nat)
    requires Stops(files, listing, h, n)
    requires forall s :: s in seen ==> StopsLater(files, listing, s, n)
    ensures Resolve(files, listing, h, seen) == Outcome(files, listing, h, n)
    decreases n
  {
    if h in seen {
      var k: nat :| k > n && Stops(files, listing, h, k);
      StopsOnce(files, listing, h, n, k);
    } else if n == 0 {
    } else {
      FirstPatchIsTarget(files, listing, h);
      forall s | s in seen + {h}
        ensures StopsLater(files, listing, s, n - 1)
      {
        if s in seen {
          var k: nat :| k > n && Stops(files, listing, s, k);
        } else {
          assert Stops(files, listing, h, n);
        }
      }
      ResolveStops(files, listing, listing[h], seen + {h}, n - 1);
    }
  }

  ghost predicate NeverStops(files: Storage, listing: Listing, h: Hash) {
    forall n: nat :: !Stops(files, listing, h, n)
  }

  lemma {:induction false} ResolveLoops(files: Storage, listing: Listing, h: Hash, seen: set<Hash>)
    requires NeverStops(files, listing, h)
    ensures Resolve(files, listing, h, seen) == Err(ValueError("Cycle detected"))
    decreases PatchTargets(files) - seen
  {
    if h !in seen {
      assert !Stops(files, listing, h, 0);
      FirstPatchIsTarget(files, listing, h);
      forall n: nat
        ensures !Stops(files, listing, listing[h], n)
      {
        assert !Stops(files, listing, h, n + 1);
      }
      ResolveLoops(files, listing, listing[h], seen + {h});
    }
  }

  /** On any store whatever. If the first listed patches lead to a blob, the walk gives what
      applying them to it gives, so the cycle check never stops such a walk; if they lead to
      a hash that is not stored, the file is reported missing; and if they never stop, a cycle
      is reported. */
  lemma ResolveIff(files: Storage, listing: Listing, h: Hash)
    ensures forall n: nat {:trigger LeadsTo(files, listing, h, n)} :: LeadsTo(files, listing, h, n) ==>
              Resolve(files, listing, h, {}) == Followed(files, listing, h, n)
    ensures forall n: nat {:trigger DeadEnds(files, listing, h, n)} :: DeadEnds(files, listing, h, n) ==>
              Resolve(files, listing, h, {}) == Err(FileNotFound)
    ensures NeverStops(files, listing, h) ==> Resolve(files, listing, h, {}) == Err(ValueError("Cycle detected"))
  {
    forall n: nat | Stops(files, listing, h, n)
      ensures LeadsTo(files, listing, h, n) ==> Resolve(files, listing, h, {}) == Followed(files, listing, h, n)
      ensures DeadEnds(files, listing, h, n) ==> Resolve(files, listing, h, {}) == Err(FileNotFound)
    {
      ResolveStops(files, listing, h, {}, n);
      LeadsOrNot(files, listing, h, n);
    }
    if NeverStops(files, listing, h) { ResolveLoops(files, listing, h, {}); }
  }

  lemma {:induction false} LeadsOrNot(files: Storage, listing: Listing, h: Hash, n: nat)
    ensures !(LeadsTo(files, listing, h, n) && DeadEnds(files, listing, h, n))
    decreases n
  {
    if n > 0 && LeadsTo(files, listing, h, n) { LeadsOrNot(files, listing, listing[h], n - 1); }
  }

  /** The walk comes to a blob, and the patches on the way give this content. */
  ghost predicate Holds(files: Storage, listing: Listing, h: Hash, content: Bytes) {
    exists n: nat :: LeadsTo(files, listing, h, n) && Followed(files, listing, h, n) == Ok(content)
  }

  lemma ResolvesIff(files: Storage, listing: Listing, h: Hash, content: Bytes)
    ensures Resolve(files, listing, h, {}) == Ok(content) <==>
      Holds(files, listing, h, content)
  {
    ResolveIff(files, listing, h);
    if NeverStops(files, listing, h) {
      forall n: nat
        ensures !LeadsTo(files, listing, h, n)
      {
        assert !Stops(files, listing, h, n);
      }
    } else {
      var n: nat :| Stops(files, listing, h, n);
      forall k: nat | LeadsTo(files, listing, h, k)
        ensures k == n
      {
        StopsOnce(files, listing, h, n, k);
      }
      if LeadsTo(files, listing, h, n) {
        assert Resolve(files, listing, h, {}) == Followed(files, listing, h, n);
      } else {
        assert Resolve(files, listing, h, {}) == Err(FileNotFound);
      }
    }
  }

  ghost predicate Restores(files: Storage, listing: Listing, h: Hash) {
    Resolve(files, listing, h, {}) == Ok(h.of)
  }

  /** Each hash already visited is blob-less and has a patch to a visited hash or to `h`. */
  ghost predicate Visited(files: Storage, seen: set<Hash>, h: Hash) {
    forall s {:trigger s in seen} :: s in seen ==> Digraph.HasNext(ChainEdges(files), seen + {h}, s)
  }

  lemma NotVisited(files: Storage, seen: set<Hash>, h: Hash)
    requires Digraph.Acyclic(ChainEdges(files)) && Visited(files, seen, h)
    ensures h !in seen
  {
    if h in seen {
      assert seen + {h} == seen;
      assert Digraph.Trap(ChainEdges(files), seen);
      Digraph.TrapGivesCycle(ChainEdges(files), seen);
    }
  }

  lemma StepVisited(files: Storage, seen: set<Hash>, h: Hash, base: Hash)
    requires Visited(files, seen, h) && (h, base) in ChainEdges(files)
    ensures Visited(files, seen + {h}, base)
  {
    var edges := ChainEdges(files);
    forall s | s in seen + {h}
      ensures Digraph.HasNext(edges, seen + {h} + {base}, s)
    {
      if s in seen {
        assert Digraph.HasNext(edges, seen + {h}, s);
        var y :| y in seen + {h} && (s, y) in edges;
      } else {
        assert base in seen + {h} + {base};
      }
    }
  }

  /** A stored hash without a blob has a first patch, made for it, from a stored base. */
  lemma FirstPatchServes(files: Storage, listing: Listing, h: Hash) returns (base: Hash)
    requires Sound(files) && Lists(listing, files) && Stored(files, h) && h !in files.blobs
    ensures FirstPatch(files, listing, h) == Some(base) && h in PatchTargets(files)
    ensures (h, base) in files.patches && (h, base) in ChainEdges(files) && Stored(files, base)
    ensures ApplyDelta(base.of, files.patches[(h, base)]) == Ok(h.of)
  {
    var any :| (h, any) in files.patches;
    assert (h, any).0 in listing;
    base := listing[h];
    assert (h, base) in files.patches && (h, base).0 == h && (h, base).1 == base;
    FirstPatchIsTarget(files, listing, h);
  }

  lemma {:induction false} ResolveFrom(files: Storage, listing: Listing, h: Hash, seen: set<Hash>)
    requires Sound(files) && Lists(listing, files) && Stored(files, h) && Visited(files, seen, h)
    ensures Resolve(files, listing, h, seen) == Ok(h.of)
    decreases PatchTargets(files) - seen
  {
    NotVisited(files, seen, h);
    if h !in files.blobs {
      var base := FirstPatchServes(files, listing, h);
      StepVisited(files, seen, h, base);
      ResolveFrom(files, listing, base, seen + {h});
    }
  }

  /** In a sound store every stored hash resolves to its own content, whichever patch
      each directory lists first. */
  lemma ResolveStored(files: Storage, listing: Listing, h: Hash)
    requires Sound(files) && Lists(listing, files) && Stored(files, h)
    ensures Restores(files, listing, h)
  {
    ResolveFrom(files, listing, h, {});
  }

  lemma LiveIsStored(st: Store, key: Key)
    requires Inv(st) && key in st.manifests && st.manifests[key].m.Live()
    ensures st.manifests[key].m.hash.Some? && Stored(st.files, st.manifests[key].m.hash.value)
  {
    assert Anchored(st.files, st.manifests[key].m);
  }

  lemma RestoreLive(st: Store, listing: Listing, key: Key)
    requires Inv(st) && Lists(listing, st.files)
    requires key in st.manifests && st.manifests[key].m.Live()
    ensures st.manifests[key].m.hash.Some? && Restore(st, listing, key) == Ok(st.manifests[key].m.hash.value.of)
  {
    LiveIsStored(st, key);
    ResolveStored(st.files, listing, st.manifests[key].m.hash.value);
  }

  ghost predicate StaysInside(files: Storage, listing: Listing, r: set<Hash>, x: Hash) {
    x !in files.blobs && x in listing && listing[x] in r
  }

  ghost predicate KeepsInside(files: Storage, listing: Listing, r: set<Hash>) {
    forall x {:trigger StaysInside(files, listing, r, x)} :: x in r ==> StaysInside(files, listing, r, x)
  }

  /** A walk inside a trap never comes to a blob, so it never succeeds. */
  lemma {:induction false} TrappedFails(files: Storage, listing: Listing, r: set<Hash>, h: Hash, seen: set<Hash>)
    requires KeepsInside(files, listing, r)
    requires h in r
    ensures Resolve(files, listing, h, seen).Err?
    decreases PatchTargets(files) - seen
  {
    assert StaysInside(files, listing, r, h);
    if h !in seen && FirstPatch(files, listing, h).Some? {
      FirstPatchIsTarget(files, listing, h);
      TrappedFails(files, listing, r, listing[h], seen + {h});
    }
  }

  ghost function AnyListing(files: Storage): (listing: Listing)
    ensures Lists(listing, files)
  {
    map h | h in PatchTargets(files) :: var e :| e in files.patches && e.0 == h; e.1
  }

  /** The order that keeps a walk inside a trap. */
  ghost function TrapListing(files: Storage, r: set<Hash>): (listing: Listing)
    requires Digraph.Trap(ChainEdges(files), r)
    ensures Lists(listing, files)
    ensures KeepsInside(files, listing, r)
  {
    var inside := map x | x in r :: Digraph.NextOf(ChainEdges(files), r, x);
    var l := AnyListing(files) + inside;
    assert forall x {:trigger StaysInside(files, l, r, x)} :: x in r ==>
      l[x] == Digraph.NextOf(ChainEdges(files), r, x) && StaysInside(files, l, r, x);
    l
  }

  /** Acyclicity is not merely sufficient: without it some directory order makes some
      stored hash unrestorable. */
  lemma SoundIffRestorable(files: Storage)
    requires Truthful(files) && Closed(files)
    ensures Digraph.Acyclic(ChainEdges(files))
       <==> forall listing, h :: Lists(listing, files) && Stored(files, h) ==> Restores(files, listing, h)
  {
    if Digraph.Acyclic(ChainEdges(files)) {
      forall listing, h | Lists(listing, files) && Stored(files, h)
        ensures Restores(files, listing, h)
      {
        ResolveStored(files, listing, h);
      }
    } else {
      Digraph.AcyclicIffNoTrap(ChainEdges(files));
      var r: set<Hash> :| Digraph.Trap(ChainEdges(files), r);
      var listing := TrapListing(files, r);
      var h :| h in r;
      TrappedFails(files, listing, r, h, {});
      assert Digraph.HasNext(ChainEdges(files), r, h);
      assert Lists(listing, files) && Stored(files, h) && !Restores(files, listing, h);
    }
  }
}
