/** A run in which a restore applies more patches than its manifest's `chain_length`: the
  walk leaves the file's own chain through a content that another file saved too. */
module SnapshotDeep {
  import opened Wrappers
  import opened Utf8
  import opened DeltaCodec
  import opened SnapshotStore
  import opened SnapshotInvariant
  import opened SnapshotSave
  import opened SnapshotPending
  import opened SnapshotRuns
  import opened SnapshotAppends
  import opened SnapshotDepth
  import Digraph

  /** The first file: `s`, then `s + x`, then `s + x + y`, each after the first a delta. */
  lemma FirstFile(file: string, s: string, x: string, y: string, env: SaveEnv) returns (w: World, evs: seq<Event>)
    requires x != "" && y != "" && AllWritten(env) && Faithful(env.matcher)
    ensures |evs| == 3 && w == Run(START, evs) && SafeRun(START, evs) && AllSaves(evs)
    ensures WorldInv(w) && w.pending.None?
    ensures w.st.manifests.Keys == {Key(file, 1), Key(file, 2), Key(file, 3)}
    ensures w.st.files.blobs.Keys == {Digest(Encode(s))}
    ensures w.st.files.patches.Keys ==
            {(Digest(Encode(s + x)), Digest(Encode(s))), (Digest(Encode(s + x + y)), Digest(Encode(s + x)))}
  {
    StartInv();
    var e1, w1 := FirstStep(START, file, 1, s, 3, env);
    var e2, e3, w3 := FirstFileRest(w1, file, s, x, y, env);
    SafeThree(START, [], e1, e2, e3);
    MoreSaves([], e1, e2, e3);
    w, evs := w3, [] + [e1, e2, e3];
  }

  lemma FirstFileRest(w: World, file: string, s: string, x: string, y: string, env: SaveEnv)
    returns (e2: Event, e3: Event, w': World)
    requires x != "" && y != "" && AllWritten(env) && Faithful(env.matcher)
    requires AtText(w, file, 1, s, 0) && w.st.manifests.Keys == {Key(file, 1)}
    requires w.st.files == Storage(map[Digest(Encode(s)) := Encode(s)], map[])
    ensures IsSave(e2) && IsSave(e3) && Meets(w, e2) && Meets(Step(w, e2), e3) && w' == Step(Step(w, e2), e3)
    ensures WorldInv(w') && w'.pending.None?
    ensures w'.st.manifests.Keys == {Key(file, 1), Key(file, 2), Key(file, 3)}
    ensures w'.st.files.blobs.Keys == {Digest(Encode(s))}
    ensures w'.st.files.patches.Keys ==
            {(Digest(Encode(s + x)), Digest(Encode(s))), (Digest(Encode(s + x + y)), Digest(Encode(s + x)))}
  {
    var w2;
    LongerText(s, x);
    assert !Stored(w.st.files, Digest(Encode(s + x)));
    e2, w2 := AppendStep(w, file, 1, s, x, 0, 3, env);
    e3, w' := FirstFileThird(w2, file, s, s + x, y, env);
  }

  predicate IsSave(ev: Event) {
    ev.SaveEvent? && ev.req.anchorInterval == 3
  }

  ghost predicate AllSaves(evs: seq<Event>) {
    forall k :: 0 <= k < |evs| ==> IsSave(evs[k])
  }

  lemma MoreSaves(evs: seq<Event>, a: Event, b: Event, c: Event)
    requires AllSaves(evs) && IsSave(a) && IsSave(b) && IsSave(c)
    ensures AllSaves(evs + [a, b, c])
  {
  }

  lemma FirstFileThird(w: World, file: string, s: string, t: string, y: string, env: SaveEnv)
    returns (ev: Event, w': World)
    requires y != "" && AllWritten(env) && Faithful(env.matcher) && |Encode(t)| > |Encode(s)|
    requires AtText(w, file, 2, t, 1) && w.st.manifests.Keys == {Key(file, 1), Key(file, 2)}
    requires w.st.files.blobs.Keys == {Digest(Encode(s))}
    requires w.st.files.patches.Keys == {(Digest(Encode(t)), Digest(Encode(s)))}
    ensures ev.SaveEvent? && ev.req.anchorInterval == 3 && Meets(w, ev) && w' == Step(w, ev)
    ensures WorldInv(w') && w'.pending.None?
    ensures w'.st.manifests.Keys == {Key(file, 1), Key(file, 2), Key(file, 3)}
    ensures w'.st.files.blobs.Keys == {Digest(Encode(s))}
    ensures w'.st.files.patches.Keys ==
            {(Digest(Encode(t)), Digest(Encode(s))), (Digest(Encode(t + y)), Digest(Encode(t)))}
  {
    LongerText(t, y);
    assert !Stored(w.st.files, Digest(Encode(t + y)));
    ev, w' := AppendStep(w, file, 2, t, y, 1, 3, env);
  }

  /** The second file: `u`, then `t = u + z`, then `t + q`. */
  lemma SecondFile(w: World, file: string, u: string, z: string, t: string, q: string, env: SaveEnv)
    returns (e1: Event, e2: Event, e3: Event, w': World)
    requires t == u + z && z != "" && q != "" && AllWritten(env) && Faithful(env.matcher)
    requires WorldInv(w) && w.pending.None? && forall k :: k in w.st.manifests ==> k.file != file
    requires !Stored(w.st.files, Digest(Encode(t + q)))
    requires |Encode(u)| < |Encode(t)| < |Encode(t + q)|
    ensures IsSave(e1) && IsSave(e2) && IsSave(e3)
    ensures Meets(w, e1) && Meets(Step(w, e1), e2) && Meets(Step(Step(w, e1), e2), e3)
    ensures w' == Step(Step(Step(w, e1), e2), e3) && AtText(w', file, 3, t + q, 2)
    ensures w'.st.files.blobs.Keys == w.st.files.blobs.Keys + {Digest(Encode(u))}
    ensures w.st.files.patches.Keys + {(Digest(Encode(t + q)), Digest(Encode(t)))} <= w'.st.files.patches.Keys
  {
    var w1;
    e1, w1 := FirstStep(w, file, 1, u, 3, env);
    AddedBlob(w.st.files, w1.st.files, Digest(Encode(u)), Digest(Encode(t + q)));
    e2, e3, w' := SecondFileRest(w1, file, u, z, t, q, env);
  }

  lemma AddedBlob(files: Storage, more: Storage, b: Hash, h: Hash)
    requires more == files.(blobs := Put(files.blobs, b, b.of)) && b != h && !Stored(files, h)
    ensures !Stored(more, h) && more.blobs.Keys == files.blobs.Keys + {b}
  {
  }

  lemma SecondFileRest(w: World, file: string, u: string, z: string, t: string, q: string, env: SaveEnv)
    returns (e2: Event, e3: Event, w': World)
    requires t == u + z && z != "" && q != "" && AllWritten(env) && Faithful(env.matcher)
    requires AtText(w, file, 1, u, 0) && Digest(Encode(u)) in w.st.files.blobs
    requires !Stored(w.st.files, Digest(Encode(t + q)))
    requires |Encode(u)| < |Encode(t)| < |Encode(t + q)|
    ensures IsSave(e2) && IsSave(e3) && Meets(w, e2) && Meets(Step(w, e2), e3)
    ensures w' == Step(Step(w, e2), e3) && AtText(w', file, 3, t + q, 2)
    ensures w'.st.files.blobs == w.st.files.blobs
    ensures w.st.files.patches.Keys + {(Digest(Encode(t + q)), Digest(Encode(t)))} <= w'.st.files.patches.Keys
  {
    var w2;
    e2, w2 := AppendStep(w, file, 1, u, z, 0, 3, env);
    AddedPatch(w.st.files, w2.st.files, Digest(Encode(t)), Digest(Encode(u)), SuffixV1(z), Digest(Encode(t + q)));
    e3, w' := SecondFileThird(w2, file, t, q, env);
  }

  lemma AddedPatch(files: Storage, more: Storage, t: Hash, b: Hash, delta: Delta, h: Hash)
    requires more == AddPatch(files, t, b, delta) && t != h && !Stored(files, h)
    ensures !Stored(more, h) && more.patches.Keys == files.patches.Keys + {(t, b)}
  {
  }

  lemma SecondFileThird(w: World, file: string, t: string, q: string, env: SaveEnv) returns (ev: Event, w': World)
    requires q != "" && AllWritten(env) && Faithful(env.matcher) && AtText(w, file, 2, t, 1)
    requires !Stored(w.st.files, Digest(Encode(t + q)))
    ensures ev.SaveEvent? && ev.req.anchorInterval == 3 && Meets(w, ev) && w' == Step(w, ev)
    ensures AtText(w', file, 3, t + q, 2) && w'.st.files.blobs == w.st.files.blobs
    ensures w'.st.files.patches.Keys == w.st.files.patches.Keys + {(Digest(Encode(t + q)), Digest(Encode(t)))}
  {
    ev, w' := AppendStep(w, file, 2, t, q, 1, 3, env);
  }

  /** With anchor interval 3 a chain has at most two patches, and the second file's newest
      manifest says two. Some directory order restores it through three. */
  lemma RestoreCanGoDeeper(a: string, b: string, s: string, x: string, y: string, z: string, q: string, env: SaveEnv)
    returns (w: World, evs: seq<Event>)
    requires a != b && x != "" && y != "" && z != "" && q != "" && AllWritten(env) && Faithful(env.matcher)
    ensures |evs| == 6 && AllSaves(evs) && SafeRun(START, evs) && w == Run(START, evs)
    ensures Key(b, 3) in w.st.manifests && w.st.manifests[Key(b, 3)].m.Live()
    ensures var m := w.st.manifests[Key(b, 3)].m;
            && m.chainLength == 2 && m.hash.Some?
            && exists listing :: Lists(listing, w.st.files)
                 && PatchesApplied(w.st.files, listing, m.hash.value, {}) >= 3
  {
    Lengths(s, x, y, z, q);
    var u, t := s + x + y, s + x + y + z;
    assert s + x + (y + z) == t;
    var w1, evs1 := FirstFile(a, s, x, y + z, env);
    var e1, e2, e3, w2 := SecondHalf(w1, a, b, s, s + x, u, z, t, q, env);
    SafeThree(START, evs1, e1, e2, e3);
    MoreSaves(evs1, e1, e2, e3);
    w, evs := w2, evs1 + [e1, e2, e3];
  }

  lemma SecondHalf(w: World, a: string, b: string, s: string, v: string, u: string, z: string, t: string, q: string,
                   env: SaveEnv)
    returns (e1: Event, e2: Event, e3: Event, w': World)
    requires a != b && t == u + z && z != "" && q != "" && AllWritten(env) && Faithful(env.matcher)
    requires |Encode(s)| < |Encode(v)| < |Encode(u)| < |Encode(t)| < |Encode(t + q)|
    requires WorldInv(w) && w.pending.None? && w.st.manifests.Keys == {Key(a, 1), Key(a, 2), Key(a, 3)}
    requires w.st.files.blobs.Keys == {Digest(Encode(s))}
    requires w.st.files.patches.Keys ==
             {(Digest(Encode(v)), Digest(Encode(s))), (Digest(Encode(t)), Digest(Encode(v)))}
    ensures IsSave(e1) && IsSave(e2) && IsSave(e3)
    ensures Meets(w, e1) && Meets(Step(w, e1), e2) && Meets(Step(Step(w, e1), e2), e3)
    ensures w' == Step(Step(Step(w, e1), e2), e3) && AtText(w', b, 3, t + q, 2)
    ensures exists listing :: Lists(listing, w'.st.files)
              && PatchesApplied(w'.st.files, listing, Digest(Encode(t + q)), {}) >= 3
  {
    NotThere(w.st.files, Digest(Encode(t + q)), Digest(Encode(t)), Digest(Encode(v)), Digest(Encode(s)));
    e1, e2, e3, w' := SecondFile(w, b, u, z, t, q, env);
    ThreeHops(w.st.files, w'.st.files, Digest(Encode(t + q)), Digest(Encode(t)), Digest(Encode(v)), Digest(Encode(s)),
              Digest(Encode(u)));
  }

  /** All the contents differ, by length. */
  lemma Lengths(s: string, x: string, y: string, z: string, q: string)
    requires x != "" && y != "" && z != "" && q != ""
    ensures |Encode(s)| < |Encode(s + x)| < |Encode(s + x + y)|
    ensures |Encode(s + x + y)| < |Encode(s + x + y + z)| < |Encode(s + x + y + z + q)|
  {
    LongerText(s, x);
    LongerText(s + x, y);
    LongerText(s + x + y, z);
    LongerText(s + x + y + z, q);
  }

  lemma NotThere(files: Storage, d: Hash, c: Hash, b: Hash, a: Hash)
    requires d != c && d != b && d != a
    requires files.blobs.Keys == {a} && files.patches.Keys == {(b, a), (c, b)}
    ensures !Stored(files, d)
  {
  }

  lemma ThreeHops(files: Storage, more: Storage, d: Hash, c: Hash, b: Hash, a: Hash, u: Hash)
    requires Sound(more) && u !in {b, c, d} && a !in {b, c, d}
    requires files.blobs.Keys == {a} && files.patches.Keys == {(b, a), (c, b)}
    requires more.blobs.Keys == files.blobs.Keys + {u} && files.patches.Keys + {(d, c)} <= more.patches.Keys
    ensures exists listing :: Lists(listing, more) && PatchesApplied(more, listing, d, {}) >= 3
  {
    var edges := ChainEdges(more);
    assert (d, c) in edges && (c, b) in edges && (b, a) in edges;
    Digraph.EdgeReaches(edges, b, a);
    assert Digraph.ReachesIn(edges, c, a, 2);
    assert Digraph.ReachesIn(edges, d, a, 3);
    var listing := WalkIsListed(more, d, a, 3);
  }

  // ----- a save on a snapshot about to be dropped -----

  /** File `b` holds `t` in full, file `a` holds `s` and then `t` as a delta of it; only
      `b`'s manifest is as old as the cutoff. */
  ghost predicate Shared(st: Store, a: string, b: string, s: string, t: string) {
    var (hs, ht) := (Digest(Encode(s)), Digest(Encode(t)));
    && st.files.blobs.Keys == {hs, ht} && st.files.patches.Keys == {(ht, hs)} && hs != ht
    && st.manifests.Keys == {Key(b, 1), Key(a, 1), Key(a, 2)} && a != b
    && SharedManifests(st.manifests, a, b, hs, ht)
  }

  ghost predicate SharedManifests(manifests: map<Key, Entry>, a: string, b: string, hs: Hash, ht: Hash)
    requires manifests.Keys == {Key(b, 1), Key(a, 1), Key(a, 2)}
  {
    var (b1, a1, a2) := (manifests[Key(b, 1)], manifests[Key(a, 1)], manifests[Key(a, 2)]);
    && b1.m.encoding == Full && b1.m.hash == Some(ht) && b1.m.chainLength == 0 && b1.mtime == 0
    && a1.m.encoding == Full && a1.m.hash == Some(hs) && a1.mtime == 1
    && a2.m.encoding == Patched && a2.m.hash == Some(ht) && a2.m.base == Some(hs) && a2.mtime == 1
  }

  lemma SharedSaves(a: string, b: string, s: string, x: string, env0: SaveEnv, env1: SaveEnv)
    returns (e1: Event, e2: Event, e3: Event, w: World)
    requires a != b && x != "" && AllWritten(env0) && AllWritten(env1) && env0.now == 0 && env1.now == 1
    requires Faithful(env0.matcher) && Faithful(env1.matcher)
    ensures Meets(START, e1) && Meets(Step(START, e1), e2) && Meets(Step(Step(START, e1), e2), e3)
    ensures w == Step(Step(Step(START, e1), e2), e3) && WorldInv(w) && w.pending.None?
    ensures Shared(w.st, a, b, s, s + x)
  {
    StartInv();
    LongerText(s, x);
    var r1, r2, r3 := Request(b, 1, s + x, 3), Request(a, 1, s, 3), Request(a, 2, s + x, 3);
    e1, e2 := SaveEvent(map[], r1, env0), SaveEvent(map[], r2, env1);
    FirstSaved(START.st, map[], r1, env0);
    StepKeepsInv(START, e1);
    var w1 := Step(START, e1);
    FirstSaved(w1.st, map[], r2, env1);
    StepKeepsInv(w1, e2);
    var w2 := Step(w1, e2);
    e3, w := SharedThird(w2, a, b, s, x, r3, env1);
  }

  lemma SharedThird(w: World, a: string, b: string, s: string, x: string, req: SaveRequest, env: SaveEnv)
    returns (ev: Event, w': World)
    requires WorldInv(w) && w.pending.None? && x != "" && AllWritten(env) && Faithful(env.matcher) && env.now == 1
    requires a != b && req == Request(a, 2, s + x, 3) && Digest(Encode(s)) != Digest(Encode(s + x))
    requires w.st.files.blobs.Keys == {Digest(Encode(s)), Digest(Encode(s + x))} && w.st.files.patches == map[]
    requires w.st.manifests.Keys == {Key(b, 1), Key(a, 1)}
    requires var (b1, a1) := (w.st.manifests[Key(b, 1)], w.st.manifests[Key(a, 1)]);
             && b1.m.encoding == Full && b1.m.hash == Some(Digest(Encode(s + x)))
             && b1.m.chainLength == 0 && b1.mtime == 0
             && a1.m.encoding == Full && a1.m.hash == Some(Digest(Encode(s))) && a1.m.chainLength == 0 && a1.mtime == 1
    ensures Meets(w, ev) && w' == Step(w, ev) && WorldInv(w') && w'.pending.None?
    ensures Shared(w'.st, a, b, s, s + x)
  {
    var listing := AnyListing(w.st.files);
    ev := SaveEvent(listing, req, env);
    AppendSaved(w.st, listing, Key(a, 1), req, env, s, x);
    AppendKeepsInv(w.st, listing, Key(a, 1), req, env, s, x);
    StepKeepsInv(w, ev);
    w' := Step(w, ev);
  }

  /** Retention at that cutoff drops `b`'s manifest and makes the blob of `t` an orphan. */
  lemma SharedTargets(st: Store, a: string, b: string, s: string, t: string, listings: Listings)
    requires Shared(st, a, b, s, t)
    ensures Enumerated(st, listings, Some(0)) == Targets({}, {Digest(Encode(t))}, {}, {Key(b, 1)})
  {
    var (hs, ht) := (Digest(Encode(s)), Digest(Encode(t)));
    assert CorruptKeys(st.manifests) == {};
    assert StaleKeys(st.manifests, Some(0)) == {Key(b, 1)};
    assert st.manifests.Keys - {Key(b, 1)} == {Key(a, 1), Key(a, 2)};
    assert KeyMarks(st, listings, Key(a, 1)) == Marks({hs}, {});
    assert KeyMarks(st, listings, Key(a, 2)) == Marks({hs}, {(ht, hs)});
    SharedMarks(st, a, hs, ht, listings);
    assert st.files.blobs.Keys - {hs} == {ht} && st.files.patches.Keys - {(ht, hs)} == {};
  }

  lemma SharedMarks(st: Store, a: string, hs: Hash, ht: Hash, listings: Listings)
    requires Key(a, 1) in st.manifests && Key(a, 2) in st.manifests
    requires KeyMarks(st, listings, Key(a, 1)) == Marks({hs}, {})
    requires KeyMarks(st, listings, Key(a, 2)) == Marks({hs}, {(ht, hs)})
    ensures Reachable(st, listings, {Key(a, 1), Key(a, 2)}) == Marks({hs}, {(ht, hs)})
  {
    var marks := Reachable(st, listings, {Key(a, 1), Key(a, 2)});
    assert hs in KeyMarks(st, listings, Key(a, 1)).blobs;
    assert (ht, hs) in KeyMarks(st, listings, Key(a, 2)).patches;
    assert marks.blobs == {hs};
    assert marks.patches == {(ht, hs)};
  }

  lemma NewestOfShared(st: Store, a: string, b: string, s: string, t: string)
    requires Shared(st, a, b, s, t)
    ensures IsNewest(st.manifests, Key(b, 1))
    ensures var m := st.manifests[Key(b, 1)].m;
            m.Live() && m.hash == Some(Digest(Encode(t))) && m.chainLength == 0
  {
  }

  /** The save of `t + q` on `b`'s doomed snapshot, and then the delete. */
  lemma SavedOnDropped(w: World, a: string, b: string, s: string, t: string, q: string, env: SaveEnv)
    returns (ev: Event, w': World)
    requires WorldInv(w) && Shared(w.st, a, b, s, t) && q != "" && AllWritten(env) && Faithful(env.matcher)
    requires w.pending == Some(Targets({}, {Digest(Encode(t))}, {}, {Key(b, 1)}))
    requires |Encode(s)| < |Encode(t)| < |Encode(t + q)|
    ensures Meets(w, ev) && w' == Step(w, ev) && w'.pending == w.pending
    ensures w'.st.files.blobs == w.st.files.blobs
    ensures w'.st.files.patches.Keys == w.st.files.patches.Keys + {(Digest(Encode(t + q)), Digest(Encode(t)))}
    ensures Key(b, 2) in w'.st.manifests
    ensures var m := w'.st.manifests[Key(b, 2)].m;
            m.encoding == Patched && m.chainLength == 1 && m.hash == Some(Digest(Encode(t + q)))
  {
    var req := Request(b, 2, t + q, 3);
    var listing := AnyListing(w.st.files);
    ev := SaveEvent(listing, req, env);
    NewestOfShared(w.st, a, b, s, t);
    AppendSaved(w.st, listing, Key(b, 1), req, env, t, q);
    AppendOnDoomed(w, Key(b, 1), listing, req, env, s, t, q);
    w' := Step(w, ev);
    AppendedFields(w.st, Key(b, 1), req, env, t, q);
  }

  lemma AppendOnDoomed(w: World, prior: Key, listing: Listing, req: SaveRequest, env: SaveEnv, s: string, t: string,
                       q: string)
    requires WorldInv(w) && Lists(listing, w.st.files) && AllWritten(env) && Builds(w.st, prior, req, t)
    requires q != "" && req.content == Encode(t + q) && Faithful(env.matcher)
    requires |Encode(s)| < |Encode(t)| < |Encode(t + q)|
    requires w.st.files.blobs.Keys == {Digest(Encode(s)), Digest(Encode(t))}
    requires w.st.files.patches.Keys == {(Digest(Encode(t)), Digest(Encode(s)))}
    requires w.pending == Some(Targets({}, {Digest(Encode(t))}, {}, {prior}))
    ensures Meets(w, SaveEvent(listing, req, env))
  {
    AppendSaved(w.st, listing, prior, req, env, t, q);
    AppendKeepsInv(w.st, listing, prior, req, env, t, q);
    StandsOnDelta(w.st, Digest(Encode(s)), Digest(Encode(t)), Digest(Encode(t + q)), w.pending.value,
                  PlanOf(w.st, listing, req, env), req, env);
  }

  lemma AppendedFields(st: Store, prior: Key, req: SaveRequest, env: SaveEnv, base: string, tail: string)
    requires prior in st.manifests
    ensures var st' := Appended(st, prior, req, env, base, tail);
            && st'.files.blobs == st.files.blobs
            && st'.files.patches.Keys == st.files.patches.Keys + {(Digest(req.content), Digest(Encode(base)))}
            && req.key in st'.manifests
            && var m := st'.manifests[req.key].m;
               && m.encoding == Patched && m.chainLength == st.manifests[prior].m.chainLength + 1
               && m.hash == Some(Digest(req.content))
  {
  }

  lemma StandsOnDelta(st: Store, hs: Hash, ht: Hash, hq: Hash, targets: Targets, plan: Plan, req: SaveRequest,
                      env: SaveEnv)
    requires Fine(st, Listed(targets)) && targets.blobs == {ht} && targets.patches == {}
    requires st.files.blobs.Keys == {hs, ht} && st.files.patches.Keys == {(ht, hs)}
    requires hs != ht && hq != ht && hq != hs && hq == Digest(req.content)
    requires plan.WriteDelta? && plan.base == ht && AllWritten(env)
    ensures KeepsPending(st, Listed(targets), plan, req, env)
  {
    var kept := Left(st.files, Listed(targets));
    assert (ht, hs) in kept.patches && Stored(kept, ht);
    assert !Stored(kept, hq);
    if Digraph.Reaches(ChainEdges(kept), ht, hq) { ReachedIsStored(kept, ht, hq); }
  }

  lemma TwoHops(files: Storage, hs: Hash, ht: Hash, hq: Hash, listing: Listing)
    requires files.blobs.Keys == {hs} && files.patches.Keys == {(ht, hs), (hq, ht)}
    requires hs != ht && hq != ht && hq != hs && Lists(listing, files)
    ensures PatchesApplied(files, listing, hq, {}) == 2
  {
    assert (ht, hs) in files.patches && (hq, ht) in files.patches;
    assert (ht, hs).0 in listing && (hq, ht).0 in listing;
    assert listing[hq] == ht && listing[ht] == hs;
    FirstPatchIsTarget(files, listing, hq);
    FirstPatchIsTarget(files, listing, ht);
    assert PatchesApplied(files, listing, hs, {} + {hq} + {ht}) == 0;
    assert PatchesApplied(files, listing, ht, {} + {hq}) == 1;
  }

  /** Why the depth bound asks saves to build on a snapshot that stays: `t` is stored once in
      full and once as a delta; the full copy's manifest is enumerated for dropping, a save
      builds on it, and the delete leaves the delta. Every target has one patch, every step
      is safe, the new manifest says one, and its restore applies two. */
  lemma DroppedPriorGoesDeeper(a: string, b: string, s: string, x: string, q: string, env0: SaveEnv, env1: SaveEnv)
    returns (evs: seq<Event>, w: World)
    requires a != b && x != "" && q != "" && AllWritten(env0) && AllWritten(env1) && env0.now == 0 && env1.now == 1
    requires Faithful(env0.matcher) && Faithful(env1.matcher)
    ensures |evs| == 6 && SafeRun(START, evs) && w == Run(START, evs)
    ensures OnePatchEach(w.st.files)
    ensures Key(b, 2) in w.st.manifests
    ensures var m := w.st.manifests[Key(b, 2)].m;
            && m.Live() && m.chainLength == 1 && m.hash.Some?
            && forall listing :: Lists(listing, w.st.files) ==>
                 PatchesApplied(w.st.files, listing, m.hash.value, {}) == 2
  {
    var e1, e2, e3, w3 := SharedSaves(a, b, s, x, env0, env1);
    SafeThree(START, [], e1, e2, e3);
    LongerText(s, x);
    LongerText(s + x, q);
    var e4, e5, e6, w6 := DropAfterSave(w3, a, b, s, s + x, q, env1);
    SafeThree(START, [] + [e1, e2, e3], e4, e5, e6);
    evs, w := [] + [e1, e2, e3] + [e4, e5, e6], w6;
  }

  lemma DropAfterSave(w: World, a: string, b: string, s: string, t: string, q: string, env: SaveEnv)
    returns (e4: Event, e5: Event, e6: Event, w': World)
    requires WorldInv(w) && w.pending.None? && Shared(w.st, a, b, s, t)
    requires q != "" && AllWritten(env) && Faithful(env.matcher)
    requires |Encode(s)| < |Encode(t)| < |Encode(t + q)|
    ensures Meets(w, e4) && Meets(Step(w, e4), e5) && Meets(Step(Step(w, e4), e5), e6)
    ensures w' == Step(Step(Step(w, e4), e5), e6)
    ensures OnePatchEach(w'.st.files) && Key(b, 2) in w'.st.manifests
    ensures var m := w'.st.manifests[Key(b, 2)].m;
            && m.Live() && m.chainLength == 1 && m.hash.Some?
            && forall listing :: Lists(listing, w'.st.files) ==>
                 PatchesApplied(w'.st.files, listing, m.hash.value, {}) == 2
  {
    var w5;
    e4, e5, w5 := EnumerateThenSave(w, a, b, s, t, q, env);
    e6 := DeleteEvent(2);
    w' := Step(w5, e6);
    AfterDelete(w5, b, Digest(Encode(s)), Digest(Encode(t)), Digest(Encode(t + q)));
  }

  lemma AfterDelete(w: World, b: string, hs: Hash, ht: Hash, hq: Hash)
    requires w.pending == Some(Targets({}, {ht}, {}, {Key(b, 1)})) && Key(b, 2) in w.st.manifests
    requires w.st.files.blobs.Keys == {hs, ht} && w.st.files.patches.Keys == {(ht, hs), (hq, ht)}
    requires hs != ht && hq != ht && hq != hs
    ensures var t := Step(w, DeleteEvent(2));
            && Key(b, 2) in t.st.manifests && t.st.manifests[Key(b, 2)] == w.st.manifests[Key(b, 2)]
            && OnePatchEach(t.st.files)
            && forall listing :: Lists(listing, t.st.files) ==> PatchesApplied(t.st.files, listing, hq, {}) == 2
  {
    var t := Step(w, DeleteEvent(2));
    assert t.st.files.blobs.Keys == {hs} && t.st.files.patches.Keys == {(ht, hs), (hq, ht)};
    forall listing | Lists(listing, t.st.files)
      ensures PatchesApplied(t.st.files, listing, hq, {}) == 2
    {
      TwoHops(t.st.files, hs, ht, hq, listing);
    }
  }

  lemma EnumerateThenSave(w: World, a: string, b: string, s: string, t: string, q: string, env: SaveEnv)
    returns (e4: Event, e5: Event, w': World)
    requires WorldInv(w) && w.pending.None? && Shared(w.st, a, b, s, t)
    requires q != "" && AllWritten(env) && Faithful(env.matcher)
    requires |Encode(s)| < |Encode(t)| < |Encode(t + q)|
    ensures Meets(w, e4) && Meets(Step(w, e4), e5) && w' == Step(Step(w, e4), e5)
    ensures w'.pending == Some(Targets({}, {Digest(Encode(t))}, {}, {Key(b, 1)}))
    ensures w'.st.files.blobs == w.st.files.blobs
    ensures w'.st.files.patches.Keys == w.st.files.patches.Keys + {(Digest(Encode(t + q)), Digest(Encode(t)))}
    ensures Key(b, 2) in w'.st.manifests
    ensures var m := w'.st.manifests[Key(b, 2)].m;
            m.encoding == Patched && m.chainLength == 1 && m.hash == Some(Digest(Encode(t + q)))
  {
    var listings: Listings := k => AnyListing(w.st.files);
    e4 := EnumerateEvent(listings, Some(0));
    SharedTargets(w.st, a, b, s, t, listings);
    StepKeepsInv(w, e4);
    e5, w' := SavedOnDropped(Step(w, e4), a, b, s, t, q, env);
  }
}
