/** Saving a content again. A delta whose base is itself a delta of the saved content closes
  a cycle of patch names; the comment in `_resolve_chain` that names "cannot cycle" does
  not hold of it. */
module SnapshotCycle {
  import opened Wrappers
  import opened Utf8
  import opened TextLines
  import opened DeltaCodec
  import opened SnapshotStore
  import opened SnapshotInvariant
  import opened SnapshotSave
  import opened SnapshotRuns
  import opened SnapshotAppends
  import Digraph

  /** In any sound store: a delta over a base that is a delta of the saved content, neither
      having a blob, leaves a snapshot that some directory order cannot restore. */
  lemma BackPatchFails(st: Store, listing: Listing, req: SaveRequest, env: SaveEnv)
    requires Inv(st) && Lists(listing, st.files) && Faithful(env.matcher)
    requires var plan := PlanOf(st, listing, req, env);
             && WritesPatch(st.files, plan, req, env) && env.manifestWrites
             && (plan.base, Digest(req.content)) in st.files.patches
             && plan.base !in st.files.blobs && Digest(req.content) !in st.files.blobs
    ensures !Safe(st.files, PlanOf(st, listing, req, env), req, env)
    ensures var (st', r) := Saved(st, listing, req, env);
            && r == Ok(req.key) && req.key in st'.manifests && st'.manifests[req.key].m.Live()
            && exists later :: Lists(later, st'.files) && Restore(st', later, req.key).Err?
  {
    var plan := PlanOf(st, listing, req, env);
    var h := Digest(req.content);
    assert (plan.base, h) in ChainEdges(st.files);
    Digraph.EdgeReaches(ChainEdges(st.files), plan.base, h);
    UnsafePatchFails(st.files, h, plan.base, plan.delta);
    PatchSaved(st, plan, req, env);
    Unrestorable(Saved(st, listing, req, env).0, req.key, req.content);
  }

  // ----- the run F, X, Y, X -----

  function DeltaBack(x: string, y: string, env: SaveEnv): Delta {
    var ops := env.matcher(SplitLines(y), SplitLines(x));
    LinesV1(ops, InsertBlocks(ops, SplitLines(x)))
  }

  /** Contents whose line delta back from the longer to the shorter is kept: decodable text
      within the cap, and the gzipped delta takes less than half of the gzipped content. */
  ghost predicate DeltaBackIsKept(x: string, y: string, env: SaveEnv) {
    && LooksLikeText(Encode(x)) && LooksLikeText(Encode(y)) && |Encode(x)| <= FULL_BLOB_MAX_SIZE
    && env.IsSmall(DeltaBack(x, y, env), Encode(x))
  }

  /** Three snapshots of one file, each after the first an append. */
  lemma ThreeSaves(file: string, f: string, g: string, k: string, interval: int, env: SaveEnv)
    returns (w: World, evs: seq<Event>)
    requires g != "" && k != "" && interval >= 4 && AllWritten(env) && Faithful(env.matcher)
    ensures |evs| == 3 && w == Run(START, evs) && SafeRun(START, evs)
    ensures evs[0].SaveEvent? && evs[0].req == Request(file, 1, f, interval)
    ensures evs[1].SaveEvent? && evs[1].req == Request(file, 2, f + g, interval)
    ensures evs[2].SaveEvent? && evs[2].req == Request(file, 3, f + g + k, interval)
    ensures AtText(w, file, 3, f + g + k, 2)
    ensures var (x, y) := (Digest(Encode(f + g)), Digest(Encode(f + g + k)));
            (y, x) in w.st.files.patches && x !in w.st.files.blobs && y !in w.st.files.blobs
  {
    var e1, w1 := FirstOfThree(file, f, interval, env);
    var e2, e3, w3 := TwoAppends(w1, file, f, g, k, interval, env);
    w, evs := w3, [e1, e2, e3];
    SafeFromStart(e1, e2, e3);
  }

  lemma FirstOfThree(file: string, f: string, interval: int, env: SaveEnv) returns (ev: Event, w: World)
    requires AllWritten(env) && Faithful(env.matcher)
    ensures ev.SaveEvent? && ev.req == Request(file, 1, f, interval) && Meets(START, ev) && w == Step(START, ev)
    ensures AtText(w, file, 1, f, 0) && w.st.files == Storage(map[Digest(Encode(f)) := Encode(f)], map[])
  {
    StartInv();
    ev, w := FirstStep(START, file, 1, f, interval, env);
  }

  lemma SafeFromStart(a: Event, b: Event, c: Event)
    requires Meets(START, a) && Meets(Step(START, a), b) && Meets(Step(Step(START, a), b), c)
    ensures SafeRun(START, [a, b, c]) && Run(START, [a, b, c]) == Step(Step(Step(START, a), b), c)
  {
    SafeThree(START, [], a, b, c);
    assert [] + [a, b, c] == [a, b, c];
  }

  lemma TwoAppends(w: World, file: string, f: string, g: string, k: string, interval: int, env: SaveEnv)
    returns (e2: Event, e3: Event, w': World)
    requires g != "" && k != "" && interval >= 4 && AllWritten(env) && Faithful(env.matcher)
    requires AtText(w, file, 1, f, 0) && w.st.files == Storage(map[Digest(Encode(f)) := Encode(f)], map[])
    ensures e2.SaveEvent? && e2.req == Request(file, 2, f + g, interval) && Meets(w, e2)
    ensures e3.SaveEvent? && e3.req == Request(file, 3, f + g + k, interval) && Meets(Step(w, e2), e3)
    ensures w' == Step(Step(w, e2), e3) && AtText(w', file, 3, f + g + k, 2)
    ensures var (x, y) := (Digest(Encode(f + g)), Digest(Encode(f + g + k)));
            (y, x) in w'.st.files.patches && x !in w'.st.files.blobs && y !in w'.st.files.blobs
  {
    var w2;
    LongerText(f, g);
    e2, w2 := SecondStep(w, file, f, g, interval, env);
    e3, w' := ThirdStep(w2, file, f, f + g, k, interval, env);
  }

  lemma SecondStep(w: World, file: string, f: string, g: string, interval: int, env: SaveEnv)
    returns (ev: Event, w': World)
    requires g != "" && interval >= 4 && AllWritten(env) && Faithful(env.matcher)
    requires AtText(w, file, 1, f, 0) && w.st.files == Storage(map[Digest(Encode(f)) := Encode(f)], map[])
    ensures ev.SaveEvent? && ev.req == Request(file, 2, f + g, interval)
    ensures Meets(w, ev) && w' == Step(w, ev) && AtText(w', file, 2, f + g, 1)
    ensures w'.st.files.blobs == w.st.files.blobs
    ensures w'.st.files.patches.Keys == {(Digest(Encode(f + g)), Digest(Encode(f)))}
    ensures Digest(Encode(f + g)) != Digest(Encode(f))
  {
    LongerText(f, g);
    ev, w' := AppendStep(w, file, 1, f, g, 0, interval, env);
  }

  lemma ThirdStep(w: World, file: string, f: string, x: string, k: string, interval: int, env: SaveEnv)
    returns (ev: Event, w': World)
    requires k != "" && interval >= 4 && AllWritten(env) && Faithful(env.matcher)
    requires AtText(w, file, 2, x, 1) && w.st.files.blobs.Keys == {Digest(Encode(f))}
    requires w.st.files.patches.Keys == {(Digest(Encode(x)), Digest(Encode(f)))}
    requires |Encode(x)| > |Encode(f)|
    ensures ev.SaveEvent? && ev.req == Request(file, 3, x + k, interval)
    ensures Meets(w, ev) && w' == Step(w, ev) && AtText(w', file, 3, x + k, 2)
    ensures (Digest(Encode(x + k)), Digest(Encode(x))) in w'.st.files.patches
    ensures Digest(Encode(x)) !in w'.st.files.blobs && Digest(Encode(x + k)) !in w'.st.files.blobs
  {
    LongerText(x, k);
    var h := Digest(Encode(x + k));
    assert h != Digest(Encode(x)) && h != Digest(Encode(f));
    assert !Stored(w.st.files, h);
    ev, w' := AppendStep(w, file, 2, x, k, 1, interval, env);
  }

  /** For every F, X = F + g and Y = X + k whose delta back is kept: after the saves F, X, Y
      and X again, all of which succeed, the newest snapshot fails to restore under some
      directory order. Only the fourth save breaks the side condition. */
  lemma ResaveCanCycle(file: string, f: string, g: string, k: string, interval: int, env: SaveEnv)
    returns (w: World, evs: seq<Event>, last: Event)
    requires g != "" && k != "" && interval >= 4 && AllWritten(env) && Faithful(env.matcher)
    requires DeltaBackIsKept(f + g, f + g + k, env)
    ensures |evs| == 3 && w == Run(START, evs) && SafeRun(START, evs)
    ensures evs[0].SaveEvent? && evs[0].req == Request(file, 1, f, interval)
    ensures evs[1].SaveEvent? && evs[1].req == Request(file, 2, f + g, interval)
    ensures evs[2].SaveEvent? && evs[2].req == Request(file, 3, f + g + k, interval)
    ensures last.SaveEvent? && last.req == Request(file, 4, f + g, interval) && last.env == env
    ensures Possible(w, last) && !SafeEvent(w, last)
    ensures var (st, key) := (Step(w, last).st, Key(file, 4));
            && key in st.manifests && st.manifests[key].m.Live()
            && st.manifests[key].m.hash == Some(Digest(Encode(f + g)))
            && exists later :: Lists(later, st.files) && Restore(st, later, key).Err?
  {
    w, evs := ThreeSaves(file, f, g, k, interval, env);
    var listing := AnyListing(w.st.files);
    var req := Request(file, 4, f + g, interval);
    last := SaveEvent(listing, req, env);
    FourthPlan(w.st, listing, req, env, Key(file, 3), f + g, k);
    BackPatchFails(w.st, listing, req, env);
    SavedManifest(w.st, listing, req, env);
  }

  /** Going back to the shorter content is no append, so its line delta is planned. */
  lemma FourthPlan(st: Store, listing: Listing, req: SaveRequest, env: SaveEnv, prior: Key, x: string, k: string)
    requires Inv(st) && Lists(listing, st.files) && Builds(st, prior, req, x + k)
    requires k != "" && req.content == Encode(x) && DeltaBackIsKept(x, x + k, env)
    ensures var plan := PlanOf(st, listing, req, env);
            plan.WriteDelta? && plan.base == Digest(Encode(x + k))
  {
    NewestIs(st.manifests, prior);
    LiveIsStored(st, prior);
    ResolveStored(st.files, listing, Digest(Encode(x + k)));
    LongerText(x, k);
    DecodeIffEncode(Encode(x), x);
    DecodeIffEncode(Encode(x + k), x + k);
    PlanBack(st.files, listing, st.manifests[prior].m, req, env, Encode(x + k), DeltaBack(x, x + k, env));
  }

  lemma PlanBack(files: Storage, listing: Listing, p: Manifest, req: SaveRequest, env: SaveEnv, y: Bytes, delta: Delta)
    requires p.Live() && p.hash == Some(Digest(y)) && p.chainLength < req.anchorInterval - 1
    requires Resolve(files, listing, Digest(y), {}) == Ok(y)
    requires EncodeSuffix(y, req.content) == None && EncodeDelta(y, req.content, env.matcher) == Some(delta)
    requires y != req.content && |req.content| <= FULL_BLOB_MAX_SIZE && env.IsSmall(delta, req.content)
    ensures PlanSave(files, listing, Some(p), req, env) == WriteDelta(Digest(y), delta, p.chainLength + 1)
  {
  }
}
