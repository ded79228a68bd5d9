/** Saves that append text to a file's newest snapshot: the suffix form, whatever difflib
  and gzip would say. */
module SnapshotAppends {
  import opened Wrappers
  import opened Utf8
  import opened DeltaCodec
  import opened SnapshotStore
  import opened SnapshotInvariant
  import opened SnapshotSave
  import opened SnapshotRuns
  import Digraph

  lemma {:induction false} EncodeAppend(a: string, b: string)
    ensures Encode(a + b) == Encode(a) + Encode(b)
    decreases |a|
  {
    if a == "" {
      assert a + b == b;
    } else {
      EncodeAppend(a[1..], b);
      assert (a + b)[1..] == a[1..] + b;
    }
  }

  lemma LongerText(a: string, b: string)
    requires b != ""
    ensures |Encode(a + b)| > |Encode(a)| && Encode(a) <= Encode(a + b)
    ensures Digest(Encode(a + b)) != Digest(Encode(a))
  {
    EncodeAppend(a, b);
  }

  lemma AppendIsSuffix(base: string, tail: string)
    ensures EncodeSuffix(Encode(base), Encode(base + tail)) == Some(SuffixV1(tail))
  {
    EncodeAppend(base, tail);
    DecodeIffEncode(Encode(base), base);
    DecodeIffEncode(Encode(tail), tail);
    assert Encode(base + tail)[|Encode(base)|..] == Encode(tail);
  }

  /** The file's newest snapshot is `base`, live, and below the anchor limit. */
  ghost predicate Builds(st: Store, prior: Key, req: SaveRequest, base: string) {
    && IsNewest(st.manifests, prior) && prior.file == req.key.file
    && var m := st.manifests[prior].m;
       m.Live() && m.hash == Some(Digest(Encode(base))) && m.chainLength < req.anchorInterval - 1
  }

  ghost function Appended(st: Store, prior: Key, req: SaveRequest, env: SaveEnv, base: string, tail: string): Store
    requires prior in st.manifests
  {
    var h, b := Digest(req.content), Digest(Encode(base));
    var m := NewManifest(req, Patched, Some(b), st.manifests[prior].m.chainLength + 1);
    Store(AddPatch(st.files, h, b, SuffixV1(tail)), st.manifests[req.key := Entry(m, env.now)])
  }

  lemma AppendSaved(st: Store, listing: Listing, prior: Key, req: SaveRequest, env: SaveEnv, base: string, tail: string)
    requires Inv(st) && Lists(listing, st.files) && AllWritten(env) && Builds(st, prior, req, base)
    requires tail != "" && req.content == Encode(base + tail)
    ensures PlanOf(st, listing, req, env) ==
            WriteDelta(Digest(Encode(base)), SuffixV1(tail), st.manifests[prior].m.chainLength + 1)
    ensures Saved(st, listing, req, env) == (Appended(st, prior, req, env, base, tail), Ok(req.key))
  {
    NewestIs(st.manifests, prior);
    LiveIsStored(st, prior);
    ResolveStored(st.files, listing, Digest(Encode(base)));
    LongerText(base, tail);
    AppendIsSuffix(base, tail);
    PlanAppend(st.files, listing, st.manifests[prior].m, req, env, Encode(base), SuffixV1(tail));
    DeltaExecuted(st, Digest(Encode(base)), SuffixV1(tail), st.manifests[prior].m.chainLength + 1, req, env);
  }

  lemma DeltaExecuted(st: Store, base: Hash, delta: Delta, chainLength: int, req: SaveRequest, env: SaveEnv)
    requires AllWritten(env)
    ensures Execute(st, WriteDelta(base, delta, chainLength), req, env) ==
            (Store(AddPatch(st.files, Digest(req.content), base, delta),
                   st.manifests[req.key := Entry(NewManifest(req, Patched, Some(base), chainLength), env.now)]),
             Ok(req.key))
  {
  }

  lemma PlanAppend(files: Storage, listing: Listing, p: Manifest, req: SaveRequest, env: SaveEnv, base: Bytes,
                   delta: Delta)
    requires p.Live() && p.hash == Some(Digest(base)) && p.chainLength < req.anchorInterval - 1
    requires Resolve(files, listing, Digest(base), {}) == Ok(base) && base != req.content
    requires EncodeSuffix(base, req.content) == Some(delta)
    ensures PlanSave(files, listing, Some(p), req, env) == WriteDelta(Digest(base), delta, p.chainLength + 1)
  {
  }

  lemma ReachedIsStored(files: Storage, base: Hash, h: Hash)
    requires Closed(files) && Digraph.Reaches(ChainEdges(files), base, h) && base != h
    ensures Stored(files, h)
  {
    var n: nat :| Digraph.ReachesIn(ChainEdges(files), base, h, n);
    var x := Digraph.LastEdge(ChainEdges(files), base, h, n);
    assert Stored(files, (x, h).1);
  }

  lemma BlobIsSafe(files: Storage, h: Hash, base: Hash)
    requires base in files.blobs && base != h
    ensures !Digraph.Reaches(ChainEdges(files), base, h)
  {
    forall n: nat
      ensures !Digraph.ReachesIn(ChainEdges(files), base, h, n)
    {
    }
  }

  /** An append of new content, or onto a blob, meets the side condition. */
  lemma AppendKeepsInv(st: Store, listing: Listing, prior: Key, req: SaveRequest, env: SaveEnv, base: string,
                       tail: string)
    requires Inv(st) && Lists(listing, st.files) && AllWritten(env) && Builds(st, prior, req, base)
    requires tail != "" && req.content == Encode(base + tail) && Faithful(env.matcher)
    requires !Stored(st.files, Digest(req.content)) || Digest(Encode(base)) in st.files.blobs
    ensures Safe(st.files, PlanOf(st, listing, req, env), req, env)
    ensures Inv(Appended(st, prior, req, env, base, tail))
  {
    AppendSaved(st, listing, prior, req, env, base, tail);
    LongerText(base, tail);
    if Digest(Encode(base)) in st.files.blobs {
      BlobIsSafe(st.files, Digest(req.content), Digest(Encode(base)));
    } else if Digraph.Reaches(ChainEdges(st.files), Digest(Encode(base)), Digest(req.content)) {
      ReachedIsStored(st.files, Digest(Encode(base)), Digest(req.content));
    }
    SaveKeepsInv(st, listing, req, env);
  }

  // ----- the same, as events of a run -----

  function Request(file: string, n: nat, text: string, interval: int): SaveRequest {
    SaveRequest(Key(file, n), Encode(text), "alpha", "", interval)
  }

  /** The newest snapshot of `file` is number `n`, holds `text`, and is `chainLength` deep. */
  ghost predicate AtText(w: World, file: string, n: nat, text: string, chainLength: int) {
    && WorldInv(w) && w.pending.None?
    && IsNewest(w.st.manifests, Key(file, n))
    && var m := w.st.manifests[Key(file, n)].m;
       m.Live() && m.hash == Some(Digest(Encode(text))) && m.chainLength == chainLength
  }

  lemma FirstStep(w: World, file: string, n: nat, text: string, interval: int, env: SaveEnv)
    returns (ev: Event, w': World)
    requires WorldInv(w) && w.pending.None? && AllWritten(env) && Faithful(env.matcher)
    requires forall k :: k in w.st.manifests ==> k.file != file
    ensures ev.SaveEvent? && ev.req == Request(file, n, text, interval) && ev.env == env
    ensures Meets(w, ev) && w' == Step(w, ev) && AtText(w', file, n, text, 0)
    ensures w'.st.files == w.st.files.(blobs := Put(w.st.files.blobs, Digest(Encode(text)), Encode(text)))
    ensures w'.st.manifests.Keys == w.st.manifests.Keys + {Key(file, n)}
  {
    var req := Request(file, n, text, interval);
    var listing := AnyListing(w.st.files);
    ev := SaveEvent(listing, req, env);
    FirstSaved(w.st, listing, req, env);
    StepKeepsInv(w, ev);
    w' := Step(w, ev);
  }

  /** Appending `tail`: a new content, or an append onto a blob. */
  lemma AppendStep(w: World, file: string, n: nat, base: string, tail: string, chainLength: int, interval: int,
                   env: SaveEnv)
    returns (ev: Event, w': World)
    requires AtText(w, file, n, base, chainLength) && chainLength < interval - 1 && tail != ""
    requires AllWritten(env) && Faithful(env.matcher)
    requires !Stored(w.st.files, Digest(Encode(base + tail))) || Digest(Encode(base)) in w.st.files.blobs
    ensures ev.SaveEvent? && ev.req == Request(file, n + 1, base + tail, interval) && ev.env == env
    ensures Meets(w, ev) && w' == Step(w, ev) && AtText(w', file, n + 1, base + tail, chainLength + 1)
    ensures w'.st.files == AddPatch(w.st.files, Digest(Encode(base + tail)), Digest(Encode(base)), SuffixV1(tail))
    ensures w'.st.manifests.Keys == w.st.manifests.Keys + {Key(file, n + 1)}
  {
    var req := Request(file, n + 1, base + tail, interval);
    var listing := AnyListing(w.st.files);
    ev := SaveEvent(listing, req, env);
    AppendSaved(w.st, listing, Key(file, n), req, env, base, tail);
    AppendKeepsInv(w.st, listing, Key(file, n), req, env, base, tail);
    StepKeepsInv(w, ev);
    w' := Step(w, ev);
  }
}
