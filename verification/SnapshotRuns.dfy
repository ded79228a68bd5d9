/** Runs of whole calls: each save, each vacuum, each enumeration and each delete is one step.
  Saves may come between an enumeration and its delete; the collectors themselves exclude
  one another. `SnapshotSteps` takes the calls apart and lets saves fall inside a walk. */
module SnapshotRuns {
  import opened Wrappers
  import opened Utf8
  import opened DeltaCodec
  import opened SnapshotStore
  import opened SnapshotInvariant
  import opened SnapshotSave
  import opened SnapshotVacuum
  import opened SnapshotPending
  import Digraph

  /** Between an enumeration and its delete the targets are archived; `AbandonEvent` is an
      archive that failed. */
  datatype Event =
    | SaveEvent(listing: Listing, req: SaveRequest, env: SaveEnv)
    | VacuumEvent(listings: Listings, cutoff: Option<int>, now: int)
    | EnumerateEvent(listings: Listings, cutoff: Option<int>)
    | DeleteEvent(now: int)
    | AbandonEvent

  /** The store, the bytes passed to the save that wrote each manifest, and the targets of an
      enumeration that waits for its delete. */
  datatype World = World(st: Store, written: map<Key, Bytes>, pending: Option<Targets>)

  const START := World(EMPTY_STORE, map[], None)

  ghost function Step(w: World, ev: Event): World {
    match ev
    case SaveEvent(listing, req, env) =>
      var (st', r) := Saved(w.st, listing, req, env);
      World(st', if r.Ok? then w.written[req.key := req.content] else w.written, w.pending)
    case VacuumEvent(listings, cutoff, now) => w.(st := Vacuumed(w.st, listings, cutoff, now))
    case EnumerateEvent(listings, cutoff) => w.(pending := Some(Enumerated(w.st, listings, cutoff)))
    case DeleteEvent(now) =>
      if w.pending.None? then w else w.(st := Deleted(w.st, w.pending.value, now), pending := None)
    case AbandonEvent => w.(pending := None)
  }

  ghost function Run(w: World, evs: seq<Event>): World
    decreases |evs|
  {
    if evs == [] then w else Run(Step(w, evs[0]), evs[1..])
  }

  /** The directory orders are the store's, difflib keeps its contract, and no collector
      starts while another is at work. */
  ghost predicate Possible(w: World, ev: Event) {
    match ev
    case SaveEvent(listing, _, env) => Lists(listing, w.st.files) && Faithful(env.matcher)
    case VacuumEvent(listings, _, _) => w.pending.None? && ListsAll(listings, w.st.files)
    case EnumerateEvent(listings, _) => w.pending.None? && ListsAll(listings, w.st.files)
    case DeleteEvent(_) => w.pending.Some?
    case AbandonEvent => true
  }

  /** A save meets its side condition, and keeps a pending delete harmless. */
  ghost predicate SafeEvent(w: World, ev: Event) {
    ev.SaveEvent? ==>
      var plan := PlanOf(w.st, ev.listing, ev.req, ev.env);
      && Safe(w.st.files, plan, ev.req, ev.env)
      && (w.pending.Some? ==> KeepsPending(w.st, Listed(w.pending.value), plan, ev.req, ev.env))
  }

  ghost predicate SafeRun(w: World, evs: seq<Event>)
    decreases |evs|
  {
    evs != [] ==> Possible(w, evs[0]) && SafeEvent(w, evs[0]) && SafeRun(Step(w, evs[0]), evs[1..])
  }

  /** Every manifest names the digest of what was passed to its save. */
  ghost predicate Recorded(w: World) {
    forall k :: k in w.st.manifests ==>
      k in w.written && w.st.manifests[k].m.hash == Some(Digest(w.written[k]))
  }

  ghost predicate WellFormed(st: Store) {
    !AnyCorrupt(st.manifests)
  }

  ghost predicate WorldInv(w: World) {
    && Inv(w.st) && Recorded(w) && WellFormed(w.st)
    && (w.pending.Some? ==> Fine(w.st, Listed(w.pending.value)))
  }

  lemma AnchoredNotCorrupt(st: Store, k: Key)
    requires k in st.manifests && Anchored(st.files, st.manifests[k].m) && !st.manifests[k].m.encoding.Unknown?
    ensures !st.manifests[k].m.Corrupt()
  {
  }

  lemma SaveStep(w: World, ev: Event)
    requires WorldInv(w) && ev.SaveEvent? && Possible(w, ev) && SafeEvent(w, ev)
    ensures WorldInv(Step(w, ev))
  {
    SaveKeepsInv(w.st, ev.listing, ev.req, ev.env);
    if w.pending.Some? { KeepsPendingIff(w.st, ev.listing, ev.req, ev.env, Listed(w.pending.value)); }
    var w' := Step(w, ev);
    forall k | k in w'.st.manifests
      ensures k in w'.written && w'.st.manifests[k].m.hash == Some(Digest(w'.written[k]))
      ensures !w'.st.manifests[k].m.Corrupt()
    {
      SavedRecorded(w, ev, k);
    }
  }

  lemma SavedRecorded(w: World, ev: Event, k: Key)
    requires Recorded(w) && WellFormed(w.st) && ev.SaveEvent?
    requires k in Step(w, ev).st.manifests && Inv(Step(w, ev).st)
    ensures var w' := Step(w, ev);
            && k in w'.written && w'.st.manifests[k].m.hash == Some(Digest(w'.written[k]))
            && !w'.st.manifests[k].m.Corrupt()
  {
    var w' := Step(w, ev);
    SavedManifest(w.st, ev.listing, ev.req, ev.env);
    if k != ev.req.key || Saved(w.st, ev.listing, ev.req, ev.env).1.Err? {
      assert k in w.st.manifests && w'.st.manifests[k] == w.st.manifests[k] by {
        assert k != ev.req.key ==> k in w'.st.manifests - {ev.req.key};
      }
      assert k !in CorruptKeys(w.st.manifests);
    } else {
      assert Anchored(w'.st.files, w'.st.manifests[k].m);
      AnchoredNotCorrupt(w'.st, k);
    }
  }

  lemma VacuumStep(w: World, listings: Listings, cutoff: Option<int>, now: int)
    requires WorldInv(w) && ListsAll(listings, w.st.files) && w.pending.None?
    ensures WorldInv(w.(st := Vacuumed(w.st, listings, cutoff, now)))
  {
    VacuumKeepsInv(w.st, listings, cutoff, now);
    var st' := Vacuumed(w.st, listings, cutoff, now);
    forall k | k in st'.manifests
      ensures k in w.written && st'.manifests[k].m.hash == Some(Digest(w.written[k]))
      ensures !st'.manifests[k].m.Corrupt()
    {
      VacuumManifests(w.st, listings, cutoff, now, k);
      assert k !in CorruptKeys(w.st.manifests);
    }
  }

  lemma DeleteStep(w: World, now: int)
    requires WorldInv(w) && w.pending.Some?
    ensures WorldInv(Step(w, DeleteEvent(now)))
  {
    var st' := Deleted(w.st, w.pending.value, now);
    FineListedIff(w.st, w.pending.value, now);
    forall k | k in st'.manifests
      ensures k in w.written && st'.manifests[k].m.hash == Some(Digest(w.written[k]))
      ensures !st'.manifests[k].m.Corrupt()
    {
      assert k !in CorruptKeys(w.st.manifests);
    }
  }

  lemma StepKeepsInv(w: World, ev: Event)
    requires WorldInv(w) && Possible(w, ev) && SafeEvent(w, ev)
    ensures WorldInv(Step(w, ev))
  {
    match ev
    case SaveEvent(_, _, _) => SaveStep(w, ev);
    case VacuumEvent(listings, cutoff, now) => VacuumStep(w, listings, cutoff, now);
    case EnumerateEvent(listings, cutoff) => EnumeratedHarmless(w.st, listings, cutoff);
    case DeleteEvent(now) => DeleteStep(w, now);
    case AbandonEvent =>
  }

  lemma {:induction false} RunKeepsInv(w: World, evs: seq<Event>)
    requires WorldInv(w) && SafeRun(w, evs)
    ensures WorldInv(Run(w, evs))
    decreases |evs|
  {
    if evs == [] {
    } else {
      StepKeepsInv(w, evs[0]);
      RunKeepsInv(Step(w, evs[0]), evs[1..]);
    }
  }

  lemma StartInv()
    ensures WorldInv(START)
  {
    forall v, n: nat | n >= 1
      ensures !Digraph.ReachesIn(ChainEdges(START.st.files), v, v, n)
    {
    }
  }

  /** Round trip over whole runs: every manifest that was not dropped restores, under any
      directory order, to the bytes passed to the save that wrote it. */
  lemma RunRoundTrip(evs: seq<Event>, key: Key, listing: Listing)
    requires SafeRun(START, evs)
    requires var w := Run(START, evs);
             Lists(listing, w.st.files) && key in w.st.manifests && w.st.manifests[key].m.encoding != Dropped
    ensures var w := Run(START, evs);
            key in w.written && Restore(w.st, listing, key) == Ok(w.written[key])
  {
    StartInv();
    RunKeepsInv(START, evs);
    var w := Run(START, evs);
    assert key !in CorruptKeys(w.st.manifests);
    RestoreLive(w.st, listing, key);
  }

  // ----- a save that comes between -----

  /** A save of `content` to a file without snapshots, with every write accepted. */
  function PlainSave(key: Key, content: Bytes, env: SaveEnv): Event {
    SaveEvent(map[], SaveRequest(key, content, "alpha", "", 20), env)
  }

  /** Without that half of the side condition a snapshot is lost at once: a content whose
      only manifest was enumerated for dropping is saved again to another file, the save
      finds its blob and writes none, and the delete unlinks it under the new manifest. */
  lemma SaveBeforeDeleteCanLose(content: Bytes, a: Key, b: Key, env: SaveEnv, listings: Listings)
    returns (evs: seq<Event>)
    requires a.file != b.file && AllWritten(env) && Faithful(env.matcher)
    ensures evs == [PlainSave(a, content, env), EnumerateEvent(listings, Some(env.now)),
                    PlainSave(b, content, env), DeleteEvent(env.now)]
    ensures Possible(START, evs[0]) && Possible(Run(START, evs[..1]), evs[1])
    ensures Possible(Run(START, evs[..2]), evs[2]) && Possible(Run(START, evs[..3]), evs[3])
    ensures var w := Run(START, evs);
            && b in w.st.manifests && w.st.manifests[b].m.Live() && !Inv(w.st)
            && forall listing :: Restore(w.st, listing, b) == Err(FileNotFound)
  {
    var save, again := PlainSave(a, content, env), PlainSave(b, content, env);
    evs := [save, EnumerateEvent(listings, Some(env.now)), again, DeleteEvent(env.now)];
    var w1 := Step(START, evs[0]);
    var w2 := Step(w1, evs[1]);
    var w3 := Step(w2, evs[2]);
    var w4 := Step(w3, evs[3]);
    RunFour(START, evs);
    FirstSaved(START.st, map[], save.req, env);
    FirstTargets(w1.st, content, a, listings, env.now);
    FirstSaved(w2.st, map[], again.req, env);
    assert w4.st.files.blobs == map[] && w4.st.files.patches == map[];
    assert w4.st.manifests[b].m == w3.st.manifests[b].m;
    assert !Anchored(w4.st.files, w4.st.manifests[b].m);
  }

  lemma FirstTargets(st: Store, content: Bytes, a: Key, listings: Listings, now: int)
    requires st.files == Storage(map[Digest(content) := content], map[])
    requires st.manifests.Keys == {a} && st.manifests[a].m.encoding == Full && st.manifests[a].mtime == now
    requires st.manifests[a].m.hash.Some?
    ensures Enumerated(st, listings, Some(now)) == Targets({}, {Digest(content)}, {}, {a})
  {
    assert CorruptKeys(st.manifests) == {};
    assert StaleKeys(st.manifests, Some(now)) == {a};
    assert st.manifests.Keys - {a} == {};
    assert Reachable(st, listings, {}) == NO_MARKS;
  }

  lemma RunFour(w: World, evs: seq<Event>)
    requires |evs| == 4
    ensures Run(w, evs[..1]) == Step(w, evs[0])
    ensures Run(w, evs[..2]) == Step(Step(w, evs[0]), evs[1])
    ensures Run(w, evs[..3]) == Step(Step(Step(w, evs[0]), evs[1]), evs[2])
    ensures Run(w, evs) == Step(Step(Step(Step(w, evs[0]), evs[1]), evs[2]), evs[3])
  {
    RunSnoc(w, [], evs[0]);
    RunSnoc(w, evs[..1], evs[1]);
    RunSnoc(w, evs[..2], evs[2]);
    RunSnoc(w, evs[..3], evs[3]);
    assert [] + [evs[0]] == evs[..1] && evs[..1] + [evs[1]] == evs[..2];
    assert evs[..2] + [evs[2]] == evs[..3] && evs[..3] + [evs[3]] == evs;
  }

  lemma {:induction false} RunSnoc(w: World, evs: seq<Event>, ev: Event)
    ensures Run(w, evs + [ev]) == Step(Run(w, evs), ev)
    decreases |evs|
  {
    if evs == [] {
      assert ([] + [ev])[1..] == [];
    } else {
      assert (evs + [ev])[1..] == evs[1..] + [ev];
      RunSnoc(Step(w, evs[0]), evs[1..], ev);
    }
  }

  ghost predicate Meets(w: World, ev: Event) {
    Possible(w, ev) && SafeEvent(w, ev)
  }

  lemma SafeThree(w: World, evs: seq<Event>, a: Event, b: Event, c: Event)
    requires SafeRun(w, evs)
    requires var v := Run(w, evs);
             Meets(v, a) && Meets(Step(v, a), b) && Meets(Step(Step(v, a), b), c)
    ensures SafeRun(w, evs + [a, b, c]) && Run(w, evs + [a, b, c]) == Step(Step(Step(Run(w, evs), a), b), c)
  {
    SafeSnoc(w, evs, a);
    SafeSnoc(w, evs + [a], b);
    SafeSnoc(w, evs + [a] + [b], c);
    assert evs + [a] + [b] + [c] == evs + [a, b, c];
  }

  lemma {:induction false} SafeSnoc(w: World, evs: seq<Event>, ev: Event)
    requires SafeRun(w, evs) && Meets(Run(w, evs), ev)
    ensures SafeRun(w, evs + [ev]) && Run(w, evs + [ev]) == Step(Run(w, evs), ev)
    decreases |evs|
  {
    RunSnoc(w, evs, ev);
    if evs == [] {
      assert ([] + [ev])[1..] == [];
    } else {
      assert (evs + [ev])[1..] == evs[1..] + [ev];
      SafeSnoc(Step(w, evs[0]), evs[1..], ev);
    }
  }
}
