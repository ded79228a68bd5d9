/** How a save decides, and what it then writes. */
module SnapshotPlans {
  import opened Wrappers
  import opened Utf8
  import opened TextLines
  import opened DeltaCodec
  import opened SnapshotStore
  import opened SnapshotInvariant

  // ----- the two delta forms -----

  /** The content is the base's, which is text, with this text after it. */
  ghost predicate Appends(base: Bytes, content: Bytes, tail: string) {
    Decode(base).Some? && content == base + Encode(tail)
  }

  lemma AppendsIff(base: Bytes, content: Bytes, tail: string)
    ensures EncodeSuffix(base, content) == Some(SuffixV1(tail)) <==> Appends(base, content, tail)
  {
    if Decode(base).Some? { SuffixIff(base, content, tail); }
  }

  predicate NoZero(b: Bytes) {
    forall k :: 0 <= k < |b| && k < 8192 ==> b[k] != 0
  }

  /** Both are text: UTF-8 throughout, no zero byte among the first 8192. */
  predicate BothText(a: Bytes, b: Bytes) {
    NoZero(a) && NoZero(b) && Decode(a).Some? && Decode(b).Some?
  }

  /** A line delta is made exactly for two texts, with difflib's own opcodes. */
  lemma LineDeltaIff(base: Bytes, content: Bytes, matcher: Matcher)
    ensures EncodeDelta(base, content, matcher).Some? <==> BothText(base, content)
    ensures BothText(base, content) ==>
              var delta := EncodeDelta(base, content, matcher).value;
              delta.LinesV1? && delta.ops == matcher(SplitLines(Decode(base).value), SplitLines(Decode(content).value))
  {
    LooksLikeTextIff(base);
    LooksLikeTextIff(content);
  }

  lemma LooksLikeTextIff(b: Bytes)
    ensures LooksLikeText(b) <==> NoZero(b)
  {
    var sample := if |b| <= 8192 then b else b[..8192];
    assert forall k :: 0 <= k < |sample| ==> sample[k] == b[k];
  }

  /** A line delta is kept for a content of at most 5 MiB when, gzipped, it takes less than
      half of the gzipped content. */
  ghost predicate Kept(base: Bytes, content: Bytes, env: SaveEnv) {
    && BothText(base, content) && |content| <= 5 * 1024 * 1024
    && 2 * env.deltaSize(EncodeDelta(base, content, env.matcher).value) < env.fullSize(content)
  }

  // ----- the decision -----

  /** A save decides by the newest manifest of its file. It reuses the storage exactly when
      that manifest is live and names the very content; it writes a delta over that content
      exactly when the manifest is live, its chain is below the limit, its content can be
      read, and the new content either appends to it or has a line delta worth keeping; the
      first of these forms is the one that is written. Otherwise it writes the content in full. */
  lemma PlanIff(st: Store, listing: Listing, newest: Key, req: SaveRequest, env: SaveEnv)
    requires IsNewest(st.manifests, newest) && newest.file == req.key.file
    ensures var (m, plan) := (st.manifests[newest].m, PlanOf(st, listing, req, env));
            && (plan.Reuse? <==> m.Live() && m.hash == Some(Digest(req.content)))
            && (plan.Reuse? ==> plan.prior == m)
    ensures var (m, plan) := (st.manifests[newest].m, PlanOf(st, listing, req, env));
            plan.WriteDelta? <==>
              && m.Live() && m.hash.Some? && m.hash.value != Digest(req.content)
              && m.chainLength + 1 < req.anchorInterval
              && exists c :: Holds(st.files, listing, m.hash.value, c)
                             && ((exists tail :: Appends(c, req.content, tail)) || Kept(c, req.content, env))
    ensures var (m, plan) := (st.manifests[newest].m, PlanOf(st, listing, req, env));
            plan.WriteDelta? ==>
              && m.hash == Some(plan.base) && plan.chainLength == m.chainLength + 1
              && forall c :: Holds(st.files, listing, plan.base, c) ==>
                   if exists tail :: Appends(c, req.content, tail) then
                     plan.delta.SuffixV1? && Appends(c, req.content, plan.delta.suffix)
                   else EncodeDelta(c, req.content, env.matcher) == Some(plan.delta)
  {
    NewestIs(st.manifests, newest);
    var m := st.manifests[newest].m;
    if m.Live() && m.hash.Some? && m.hash.value != Digest(req.content) {
      DeltaIff(st.files, listing, m, req, env);
    }
  }

  lemma ContentIs(files: Storage, listing: Listing, h: Hash)
    ensures Resolve(files, listing, h, {}).Err? ==> forall c :: !Holds(files, listing, h, c)
    ensures Resolve(files, listing, h, {}).Ok? ==>
              forall c :: Holds(files, listing, h, c) <==> c == Resolve(files, listing, h, {}).value
  {
    forall c
      ensures Holds(files, listing, h, c) <==> Resolve(files, listing, h, {}) == Ok(c)
    {
      ResolvesIff(files, listing, h, c);
    }
  }

  lemma FormIs(base: Bytes, content: Bytes, env: SaveEnv)
    ensures EncodeSuffix(base, content).Some? <==> exists tail :: Appends(base, content, tail)
    ensures EncodeSuffix(base, content).Some? ==>
              EncodeSuffix(base, content).value.SuffixV1?
              && Appends(base, content, EncodeSuffix(base, content).value.suffix)
  {
    forall tail
      ensures EncodeSuffix(base, content) == Some(SuffixV1(tail)) <==> Appends(base, content, tail)
    {
      AppendsIff(base, content, tail);
    }
  }

  lemma DeltaIff(files: Storage, listing: Listing, m: Manifest, req: SaveRequest, env: SaveEnv)
    requires m.Live() && m.hash.Some? && m.hash.value != Digest(req.content)
    ensures var plan := PlanSave(files, listing, Some(m), req, env);
            && !plan.Reuse?
            && (plan.WriteDelta? <==>
                  && m.chainLength + 1 < req.anchorInterval
                  && exists c :: Holds(files, listing, m.hash.value, c)
                                 && ((exists tail :: Appends(c, req.content, tail)) || Kept(c, req.content, env)))
            && (plan.WriteDelta? ==>
                  && m.hash == Some(plan.base) && plan.chainLength == m.chainLength + 1
                  && forall c :: Holds(files, listing, plan.base, c) ==>
                       if exists tail :: Appends(c, req.content, tail) then
                         plan.delta.SuffixV1? && Appends(c, req.content, plan.delta.suffix)
                       else EncodeDelta(c, req.content, env.matcher) == Some(plan.delta))
  {
    ContentIs(files, listing, m.hash.value);
    var r := Resolve(files, listing, m.hash.value, {});
    if r.Ok? {
      assert Holds(files, listing, m.hash.value, r.value);
      FormIs(r.value, req.content, env);
      LineDeltaIff(r.value, req.content, env.matcher);
    }
  }

  lemma FirstIsFull(st: Store, listing: Listing, req: SaveRequest, env: SaveEnv)
    requires forall k :: k in st.manifests ==> k.file != req.key.file
    ensures PlanOf(st, listing, req, env) == WriteFull
  {
    NewestIsPresent(st.manifests, req.key.file);
  }

  // ----- what is written -----

  /** The patch is there or can be written; if not, the content is written in full. */
  predicate TakesPatch(st: Store, plan: Plan, req: SaveRequest, env: SaveEnv) {
    plan.WriteDelta? && ((Digest(req.content), plan.base) in st.files.patches || env.patchWrites)
  }

  /** The manifest that says so. */
  function Described(plan: Plan, patch: bool, req: SaveRequest): Manifest {
    var h := Some(Digest(req.content));
    var encoding, base, chainLength :=
      if plan.Reuse? then plan.prior.encoding else if patch then Patched else Full,
      if plan.Reuse? then plan.prior.base else if patch && plan.WriteDelta? then Some(plan.base) else None,
      if plan.Reuse? then plan.prior.chainLength else if patch && plan.WriteDelta? then plan.chainLength else 0;
    Manifest(h, encoding, base, |req.content|, req.agent, req.summary, chainLength)
  }

  /** What a save leaves, on any store and whatever the system refuses: at most one file
      more, none changed; a result exactly when what it needs is there or was written; and
      then one manifest more, that says how the content is stored. */
  lemma SavedIs(st: Store, listing: Listing, req: SaveRequest, env: SaveEnv)
    ensures var (st', r, plan) := (Saved(st, listing, req, env).0, Saved(st, listing, req, env).1,
                                   PlanOf(st, listing, req, env));
            var h, patch := Digest(req.content), TakesPatch(st, plan, req, env);
            var full := !plan.Reuse? && !patch;
            && st'.files.patches ==
               (if patch && (h, plan.base) !in st.files.patches then st.files.patches[(h, plan.base) := plan.delta]
                else st.files.patches)
            && st'.files.blobs ==
               (if full && h !in st.files.blobs && env.blobWrites then st.files.blobs[h := req.content]
                else st.files.blobs)
            && (r.Ok? <==> env.manifestWrites && (full ==> h in st'.files.blobs))
            && (r.Err? ==> r == Err(OSError) && st'.manifests == st.manifests)
            && (r.Ok? ==>
                  && r == Ok(req.key)
                  && st'.manifests == st.manifests[req.key := Entry(Described(plan, patch, req), env.now)])
  {
  }

  /** Saving what the newest live snapshot holds adds a manifest and no file, and the two
      manifests name the same storage. */
  lemma ResaveAddsNothing(st: Store, listing: Listing, newest: Key, req: SaveRequest, env: SaveEnv)
    requires IsNewest(st.manifests, newest) && newest.file == req.key.file && env.manifestWrites
    requires st.manifests[newest].m.Live() && st.manifests[newest].m.hash == Some(Digest(req.content))
    ensures var (st', r) := Saved(st, listing, req, env);
            && r == Ok(req.key) && st'.files == st.files
            && var (was, now) := (st.manifests[newest].m, st'.manifests[req.key].m);
               && now.hash == was.hash && now.encoding == was.encoding && now.base == was.base
               && now.chainLength == was.chainLength
  {
    PlanIff(st, listing, newest, req, env);
  }
}
