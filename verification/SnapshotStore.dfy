/** The content-addressed snapshot store as values: what each public call of
  `_history_store.py` does to the files under `.history/`.

  A sha256 digest is a free constructor: two contents share a digest only if they are
  equal, and a digest names one content. All files below one base directory share the
  blobs and the patches; each file has its own manifests. */
module SnapshotStore {
  import opened Wrappers
  import opened Utf8
  import opened DeltaCodec
  import opened Sets

  const FULL_BLOB_MAX_SIZE: nat := 5 * 1024 * 1024

  datatype Hash = Digest(of: Bytes)

  datatype Encoding = Full | Patched | Dropped | Unknown(text: string)

  datatype Manifest = Manifest(
    hash: Option<Hash>, encoding: Encoding, base: Option<Hash>, sizeBytes: nat,
    agent: string, summary: string, chainLength: int)
  {
    /** The storage can still be reconstructed: encoding `full` or `delta`. */
    predicate Live() {
      encoding == Full || encoding == Patched
    }

    /** What phase 2a of both collectors refuses to go on with. */
    predicate Corrupt() {
      || encoding.Unknown?
      || (Live() && hash.None?)
      || (encoding == Patched && base.None?)
    }
  }

  /** `name` is the place of `<timestamp>_<agent>.yaml` in the order of manifest names. */
  datatype Key = Key(file: string, name: nat)

  datatype Entry = Entry(m: Manifest, mtime: int)

  type Edge = (Hash, Hash)

  /** Files under `blobs/` and `patches/`; a patch is named by its target and its base. */
  datatype Storage = Storage(blobs: map<Hash, Bytes>, patches: map<Edge, Delta>)

  datatype Store = Store(files: Storage, manifests: map<Key, Entry>)

  const EMPTY_STORE := Store(Storage(map[], map[]), map[])

  /** Directory order: for each target, the base of the patch that is listed first. Two
      walks may see two orders. */
  type Listing = map<Hash, Hash>

  /** The walks of a marker, one for each manifest, list the directories afresh. */
  type Listings = Key -> Listing

  ghost predicate Lists(listing: Listing, files: Storage) {
    forall e :: e in files.patches ==> e.0 in listing && (e.0, listing[e.0]) in files.patches
  }

  ghost predicate ListsAll(listings: Listings, files: Storage) {
    forall k :: Lists(listings(k), files)
  }

  function FirstPatch(files: Storage, listing: Listing, h: Hash): Option<Hash> {
    if h in listing && (h, listing[h]) in files.patches then Some(listing[h]) else None
  }

  ghost function PatchTargets(files: Storage): set<Hash> {
    set e | e in files.patches.Keys :: e.0
  }

  lemma FirstPatchIsTarget(files: Storage, listing: Listing, h: Hash)
    ensures FirstPatch(files, listing, h).Some? ==> h in PatchTargets(files)
  {
    if FirstPatch(files, listing, h).Some? {
      assert (h, listing[h]) in files.patches.Keys;
    }
  }

  // ----- restore -----

  /** `_resolve_chain` */
  function Resolve(files: Storage, listing: Listing, h: Hash, seen: set<Hash>): Result<Bytes, Error>
    decreases PatchTargets(files) - seen
  {
    if h in seen then Err(ValueError("Cycle detected"))
    else if h in files.blobs then Ok(files.blobs[h])
    else
      match FirstPatch(files, listing, h)
      case None => Err(FileNotFound)
      case Some(base) =>
        FirstPatchIsTarget(files, listing, h);
        match Resolve(files, listing, base, seen + {h})
        case Err(e) => Err(e)
        case Ok(content) => ApplyDelta(content, files.patches[(h, base)])
  }

  function Restore(st: Store, listing: Listing, key: Key): Result<Bytes, Error> {
    if key !in st.manifests then Err(FileNotFound)
    else
      var m := st.manifests[key].m;
      if m.encoding == Dropped then Err(ValueError("content was vacuumed"))
      else if m.hash.None? then Err(ValueError("no hash"))
      else Resolve(st.files, listing, m.hash.value, {})
  }

  // ----- save -----

  /** What a save finds outside the store: difflib, the sizes gzip gives to a content and to
      a delta's JSON, which writes the operating system accepts, and the clock. */
  datatype SaveEnv = SaveEnv(
    matcher: Matcher, fullSize: Bytes -> nat, deltaSize: Delta -> nat,
    patchWrites: bool, blobWrites: bool, manifestWrites: bool, now: int)
  {
    /** A line delta is kept if it takes less than half of the gzipped content. */
    predicate IsSmall(delta: Delta, content: Bytes) {
      2 * deltaSize(delta) < fullSize(content)
    }
  }

  datatype SaveRequest = SaveRequest(
    key: Key, content: Bytes, agent: string, summary: string, anchorInterval: int)

  datatype Plan =
    | Reuse(prior: Manifest)
    | WriteFull
    | WriteDelta(base: Hash, delta: Delta, chainLength: int)

  ghost predicate IsNewest(manifests: map<Key, Entry>, key: Key) {
    key in manifests && forall k :: k in manifests && k.file == key.file ==> k.name <= key.name
  }

  /** The first manifest of `_list_manifest_files`. */
  ghost function Newest(manifests: map<Key, Entry>, file: string): Option<Manifest> {
    if exists k :: IsNewest(manifests, k) && k.file == file then
      var k :| IsNewest(manifests, k) && k.file == file;
      Some(manifests[k].m)
    else None
  }

  lemma NewestIsPresent(manifests: map<Key, Entry>, file: string)
    ensures var p := Newest(manifests, file);
            p.Some? ==> exists k :: IsNewest(manifests, k) && k.file == file && p.value == manifests[k].m
  {
  }

  lemma NewestIs(manifests: map<Key, Entry>, key: Key)
    requires IsNewest(manifests, key)
    ensures Newest(manifests, key.file) == Some(manifests[key].m)
  {
    NewestIsPresent(manifests, key.file);
    assert IsNewest(manifests, key) && key.file == key.file;
    var k :| IsNewest(manifests, k) && k.file == key.file && Newest(manifests, key.file).value == manifests[k].m;
    assert k.name <= key.name;
    assert key.name <= k.name;
    assert k == key;
  }

  function PlanSave(files: Storage, listing: Listing, prior: Option<Manifest>, req: SaveRequest, env: SaveEnv): Plan {
    if prior.None? || !prior.value.Live() then WriteFull
    else
      var p := prior.value;
      if p.hash == Some(Digest(req.content)) then Reuse(p)
      else if p.chainLength < req.anchorInterval - 1 && p.hash.Some? then
        match Resolve(files, listing, p.hash.value, {})
        case Err(_) => WriteFull
        case Ok(priorContent) =>
          match EncodeSuffix(priorContent, req.content)
          case Some(suffix) => WriteDelta(p.hash.value, suffix, p.chainLength + 1)
          case None =>
            if |req.content| <= FULL_BLOB_MAX_SIZE then
              match EncodeDelta(priorContent, req.content, env.matcher)
              case Some(delta) =>
                if env.IsSmall(delta, req.content) then WriteDelta(p.hash.value, delta, p.chainLength + 1)
                else WriteFull
              case None => WriteFull
            else WriteFull
      else WriteFull
  }

  /** `_atomic_write_bytes`: an existing name is left alone. */
  function Put<K, V>(m: map<K, V>, k: K, v: V): map<K, V> {
    if k in m then m else m[k := v]
  }

  function NewManifest(req: SaveRequest, encoding: Encoding, base: Option<Hash>, chainLength: int): Manifest {
    Manifest(Some(Digest(req.content)), encoding, base, |req.content|, req.agent, req.summary, chainLength)
  }

  function AddManifest(st: Store, req: SaveRequest, env: SaveEnv, encoding: Encoding, base: Option<Hash>,
                       chainLength: int): (Store, Result<Key, Error>)
  {
    if !env.manifestWrites then (st, Err(OSError))
    else
      var m := NewManifest(req, encoding, base, chainLength);
      (st.(manifests := st.manifests[req.key := Entry(m, env.now)]), Ok(req.key))
  }

  function SaveFull(st: Store, req: SaveRequest, env: SaveEnv): (Store, Result<Key, Error>) {
    var h := Digest(req.content);
    if h !in st.files.blobs && !env.blobWrites then (st, Err(OSError))
    else AddManifest(st.(files := st.files.(blobs := Put(st.files.blobs, h, req.content))), req, env, Full, None, 0)
  }

  /** Carry out a plan; a patch that cannot be written becomes a full blob. */
  function Execute(st: Store, plan: Plan, req: SaveRequest, env: SaveEnv): (Store, Result<Key, Error>) {
    match plan
    case Reuse(prior) => AddManifest(st, req, env, prior.encoding, prior.base, prior.chainLength)
    case WriteFull => SaveFull(st, req, env)
    case WriteDelta(base, delta, chainLength) =>
      var e := (Digest(req.content), base);
      if e !in st.files.patches && !env.patchWrites then SaveFull(st, req, env)
      else
        AddManifest(st.(files := st.files.(patches := Put(st.files.patches, e, delta))), req, env,
                    Patched, Some(base), chainLength)
  }

  ghost function PlanOf(st: Store, listing: Listing, req: SaveRequest, env: SaveEnv): Plan {
    PlanSave(st.files, listing, Newest(st.manifests, req.key.file), req, env)
  }

  /** `save` */
  ghost function Saved(st: Store, listing: Listing, req: SaveRequest, env: SaveEnv): (Store, Result<Key, Error>) {
    Execute(st, PlanOf(st, listing, req, env), req, env)
  }

  // ----- vacuum -----

  datatype Marks = Marks(blobs: set<Hash>, patches: set<Edge>)

  const NO_MARKS := Marks({}, {})

  function Both(a: Marks, b: Marks): Marks {
    Marks(a.blobs + b.blobs, a.patches + b.patches)
  }

  /** `_mark_chain_reachable` */
  function MarkChain(files: Storage, listing: Listing, h: Hash, seen: set<Hash>): Marks
    decreases PatchTargets(files) - seen
  {
    if h in seen then NO_MARKS
    else if h in files.blobs then Marks({h}, {})
    else
      match FirstPatch(files, listing, h)
      case None => NO_MARKS
      case Some(base) =>
        FirstPatchIsTarget(files, listing, h);
        Both(Marks({}, {(h, base)}), MarkChain(files, listing, base, seen + {h}))
  }

  function MarksOf(files: Storage, listing: Listing, m: Manifest): Marks {
    if m.Corrupt() then NO_MARKS
    else if m.encoding == Full then Marks({m.hash.value}, {})
    else if m.encoding == Patched then
      Both(Marks({}, {(m.hash.value, m.base.value)}), MarkChain(files, listing, m.base.value, {}))
    else NO_MARKS
  }

  function KeyMarks(st: Store, listings: Listings, k: Key): Marks
    requires k in st.manifests
  {
    MarksOf(st.files, listings(k), st.manifests[k].m)
  }

  ghost function Reachable(st: Store, listings: Listings, keys: set<Key>): Marks {
    Marks(
      set k, h | k in keys && k in st.manifests && h in KeyMarks(st, listings, k).blobs :: h,
      set k, e | k in keys && k in st.manifests && e in KeyMarks(st, listings, k).patches :: e)
  }

  function Keep(files: Storage, marks: Marks): Storage {
    Storage(map h | h in files.blobs && h in marks.blobs :: files.blobs[h],
            map e | e in files.patches && e in marks.patches :: files.patches[e])
  }

  /** Retention applies: older than the cutoff (if one was asked for) and still live. */
  predicate Stale(e: Entry, cutoff: Option<int>) {
    cutoff.Some? && e.mtime <= cutoff.value && e.m.Live()
  }

  function DropEntry(e: Entry, now: int): Entry {
    Entry(e.m.(encoding := Dropped, base := None), now)
  }

  function DropManifests(manifests: map<Key, Entry>, keys: set<Key>, now: int): map<Key, Entry> {
    map k | k in manifests :: if k in keys then DropEntry(manifests[k], now) else manifests[k]
  }

  function StaleKeys(manifests: map<Key, Entry>, cutoff: Option<int>): set<Key> {
    set k | k in manifests && Stale(manifests[k], cutoff)
  }

  function CorruptKeys(manifests: map<Key, Entry>): set<Key> {
    set k | k in manifests && manifests[k].m.Corrupt()
  }

  predicate AnyCorrupt(manifests: map<Key, Entry>) {
    CorruptKeys(manifests) != {}
  }

  function DropStale(st: Store, cutoff: Option<int>, now: int): Store {
    st.(manifests := DropManifests(st.manifests, StaleKeys(st.manifests, cutoff), now))
  }

  ghost function Swept(st: Store, listings: Listings): Store {
    st.(files := Keep(st.files, Reachable(st, listings, st.manifests.Keys)))
  }

  /** `vacuum(dry_run=False)`: retention rewrites first, then validation, then the sweep. */
  ghost function Vacuumed(st: Store, listings: Listings, cutoff: Option<int>, now: int): Store {
    var st1 := DropStale(st, cutoff, now);
    if AnyCorrupt(st1.manifests) then st1 else Swept(st1, listings)
  }

  /** The sizes of the gzipped files. */
  datatype Sizes = Sizes(blob: Hash -> nat, patch: Edge -> nat)

  datatype VacuumResult = VacuumResult(
    corrupt: set<Key>, manifestsDropped: nat, blobsDeleted: nat, patchesDeleted: nat, bytesFreed: nat)

  ghost function BytesOf(sizes: Sizes, blobs: set<Hash>, patches: set<Edge>): nat {
    SumOf(blobs, sizes.blob) + SumOf(patches, sizes.patch)
  }

  /** What the sweep of a store reports, `dropped` manifests having been counted before. */
  ghost function SweepReport(st: Store, listings: Listings, sizes: Sizes, dropped: nat): VacuumResult {
    if AnyCorrupt(st.manifests) then VacuumResult(CorruptKeys(st.manifests), dropped, 0, 0, 0)
    else
      var marks := Reachable(st, listings, st.manifests.Keys);
      var blobs, patches := st.files.blobs.Keys - marks.blobs, st.files.patches.Keys - marks.patches;
      VacuumResult({}, dropped, |blobs|, |patches|, BytesOf(sizes, blobs, patches))
  }

  /** `vacuum`'s result. A dry run counts the stale manifests but sweeps the store as it is. */
  ghost function Report(st: Store, listings: Listings, cutoff: Option<int>, now: int, sizes: Sizes,
                        dryRun: bool): VacuumResult {
    var seen := if dryRun then st else DropStale(st, cutoff, now);
    SweepReport(seen, listings, sizes, |StaleKeys(st.manifests, cutoff)|)
  }

  // ----- enumerate, then delete -----

  /** `corrupt` is not empty when the enumeration refused. */
  datatype Targets = Targets(corrupt: set<Key>, blobs: set<Hash>, patches: set<Edge>, drops: set<Key>)

  /** `enumerate_vacuum_targets` */
  ghost function Enumerated(st: Store, listings: Listings, cutoff: Option<int>): Targets {
    if AnyCorrupt(st.manifests) then Targets(CorruptKeys(st.manifests), {}, {}, {})
    else
      var drops := StaleKeys(st.manifests, cutoff);
      var marks := Reachable(st, listings, st.manifests.Keys - drops);
      Targets({}, st.files.blobs.Keys - marks.blobs, st.files.patches.Keys - marks.patches, drops)
  }

  /** The storage that is left once the targets are unlinked. */
  function Without(files: Storage, targets: Targets): Storage {
    Storage(files.blobs - targets.blobs, files.patches - targets.patches)
  }

  /** `delete_vacuum_targets` */
  function Deleted(st: Store, targets: Targets, now: int): Store {
    Store(Without(st.files, targets),
          DropManifests(st.manifests, targets.drops, now))
  }
}
