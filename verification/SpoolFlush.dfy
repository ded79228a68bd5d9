/** What a flush of the counter spool does, cause by cause: which status it reports, what
  becomes of each line, and which day a record ends up with. */
module SpoolFlush {
  import opened Wrappers
  import opened CounterSpool

  // ----- what a batch asks for -----

  /** The aggregator takes the line up. */
  predicate Counts(l: Line) {
    l.id != "" && l.counter != "" && l.delta != 0
  }

  /** Some line that counts is for this record; `Bumps`: for this counter of it. */
  ghost predicate Touches(lines: seq<Line>, id: string) {
    exists k :: 0 <= k < |lines| && Counts(lines[k]) && lines[k].id == id
  }

  ghost predicate Bumps(lines: seq<Line>, id: string, counter: string) {
    exists k :: 0 <= k < |lines| && Counts(lines[k]) && lines[k].id == id && lines[k].counter == counter
  }

  ghost predicate Carries(lines: seq<Line>) {
    exists k :: 0 <= k < |lines| && Counts(lines[k])
  }

  lemma {:induction false} AggregateHas(lines: seq<Line>, id: string, counter: string)
    ensures id in AggregateOf(lines) <==> Touches(lines, id)
    ensures id in AggregateOf(lines) && counter in AggregateOf(lines)[id] <==> Bumps(lines, id, counter)
  {
    if lines == [] {
    } else {
      var rest := lines[..|lines| - 1];
      AggregateHas(rest, id, counter);
      assert forall k :: 0 <= k < |rest| ==> rest[k] == lines[k];
      assert Touches(lines, id) <==>
             Touches(rest, id) || (Counts(lines[|rest|]) && lines[|rest|].id == id);
      assert Bumps(lines, id, counter) <==>
             || Bumps(rest, id, counter)
             || (Counts(lines[|rest|]) && lines[|rest|].id == id && lines[|rest|].counter == counter);
    }
  }

  lemma {:induction false} CarriesIff(lines: seq<Line>)
    ensures |AggregateOf(lines)| > 0 <==> Carries(lines)
  {
    var agg := AggregateOf(lines);
    if Carries(lines) {
      var k :| 0 <= k < |lines| && Counts(lines[k]);
      AggregateHas(lines, lines[k].id, "");
    }
    if agg != map[] {
      var id :| id in agg;
      AggregateHas(lines, id, "");
    }
  }

  /** The record is there and takes the batch: it has stats, or the batch (or one that
      landed before it) holds a retrieval of it. */
  ghost predicate TakesBatch(store: Store, earlier: seq<Line>, lines: seq<Line>, id: string) {
    && id in store
    && (store[id].stats.Some? || Bumps(earlier, id, "retrieval_count") || Bumps(lines, id, "retrieval_count"))
  }

  ghost predicate Changes(store: Store, earlier: seq<Line>, lines: seq<Line>) {
    exists id :: Touches(lines, id) && TakesBatch(store, earlier, lines, id)
  }

  lemma TakesIff(store: Store, lines: seq<Line>, id: string)
    requires Touches(lines, id) && id in store
    ensures id in AggregateOf(lines)
    ensures Takes(store[id], AggregateOf(lines)[id]) <==> TakesBatch(store, [], lines, id)
  {
    AggregateHas(lines, id, "retrieval_count");
  }

  lemma WritesIff(store: Store, lines: seq<Line>)
    ensures Writes(store, AggregateOf(lines)) <==> Changes(store, [], lines)
  {
    forall id | id in store
      ensures id in AggregateOf(lines) && Takes(store[id], AggregateOf(lines)[id]) <==>
              Touches(lines, id) && TakesBatch(store, [], lines, id)
    {
      AggregateHas(lines, id, "retrieval_count");
    }
  }

  /** The store after a batch: a record has stats if it had them or took a retrieval. */
  lemma MergeTakes(store: Store, earlier: seq<Line>, lines: seq<Line>)
    ensures var mid := Merge(store, AggregateOf(earlier), earlier);
            && mid.Keys == store.Keys
            && (Changes(mid, [], lines) <==> Changes(store, earlier, lines))
  {
    var mid := Merge(store, AggregateOf(earlier), earlier);
    forall id | id in store
      ensures TakesBatch(mid, [], lines, id) <==> TakesBatch(store, earlier, lines, id)
    {
      AggregateHas(earlier, id, "retrieval_count");
    }
  }

  /** Why a line adds nothing: its record is not in the store, or has no stats and its batch
      holds no retrieval of it. */
  lemma RefusalIff(store: Store, batch: seq<Line>, l: Line)
    ensures Refusal(store, AggregateOf(batch), l) ==
            if Touches(batch, l.id) && l.id !in store then Some(MissingId)
            else if Touches(batch, l.id) && !TakesBatch(store, [], batch, l.id) then Some(NoStats)
            else None
  {
    AggregateHas(batch, l.id, "retrieval_count");
  }

  // ----- what stops a batch -----

  /** The backend fails; or there is no store to write, or it reads back empty; or the write
      is turned down for want of the claim, which takes something to write. */
  ghost predicate StopsOn(status: Status, store: Option<Store>, earlier: seq<Line>, lines: seq<Line>,
                          backend: Backend)
  {
    Carries(lines) &&
    match status
    case Failed => backend == OtherError
    case Retained => backend != OtherError && store.GetOr(map[]) == map[]
    case NoClaimDropped =>
      backend == NoClaimRaised && store.GetOr(map[]) != map[] && Changes(store.value, earlier, lines)
    case _ => false
  }

  ghost predicate Passes(store: Option<Store>, earlier: seq<Line>, lines: seq<Line>, backend: Backend) {
    forall status :: !StopsOn(status, store, earlier, lines, backend)
  }

  lemma DrainStatus(w: World, backend: Backend)
    requires w.box.flushing.Some?
    ensures var (store, lines, status) := (w.box.store, w.box.flushing.value, Drain(w, backend).1);
            && (status == Flushed <==> Passes(store, [], lines, backend))
            && (forall s :: StopsOn(s, store, [], lines, backend) <==> s == status && status != Flushed)
  {
    var lines := w.box.flushing.value;
    CarriesIff(lines);
    if w.box.store.Some? { WritesIff(w.box.store.value, lines); }
    assert Drain(w, backend).1 != Flushed ==> StopsOn(Drain(w, backend).1, w.box.store, [], lines, backend);
  }

  // ----- each status has its cause -----

  ghost predicate Locked(b: Box, env: FlushEnv) {
    (b.flushing.Some? || (Lines(b.spool) != [] && env.due)) && !env.busy
  }

  /** A flush under the lock stops at the residue or, the residue having passed, at the
      spooled lines. */
  ghost predicate Stopped(status: Status, b: Box, env: FlushEnv) {
    var (first, second) := (Lines(b.flushing), Lines(b.spool));
    Locked(b, env) &&
    (|| StopsOn(status, b.store, [], first, env.first)
     || (Passes(b.store, [], first, env.first) && StopsOn(status, b.store, first, second, env.second)))
  }

  ghost predicate Through(b: Box, env: FlushEnv) {
    && Passes(b.store, [], Lines(b.flushing), env.first)
    && Passes(b.store, Lines(b.flushing), Lines(b.spool), env.second)
  }

  /** How far the flush comes: through the residue, through the spooled lines too. */
  ghost predicate ResidueThrough(b: Box, env: FlushEnv) {
    Locked(b, env) && Passes(b.store, [], Lines(b.flushing), env.first)
  }

  ghost predicate AllThrough(b: Box, env: FlushEnv) {
    Locked(b, env) && Through(b, env)
  }

  function AfterResidue(w: World, env: FlushEnv): (World, Status) {
    if w.box.flushing.Some? then Drain(w, env.first) else (w, Flushed)
  }

  lemma SecondStops(store: Store, first: seq<Line>, second: seq<Line>, backend: Backend, s: Status)
    ensures StopsOn(s, Some(Merge(store, AggregateOf(first), first)), [], second, backend) <==>
            StopsOn(s, Some(store), first, second, backend)
  {
    MergeTakes(store, first, second);
    assert Merge(store, AggregateOf(first), first) == map[] <==> store == map[] by {
      assert Merge(store, AggregateOf(first), first).Keys == {} <==> store.Keys == {};
    }
  }

  /** What stops the residue, and, once it is through, what stops the spooled lines. */
  lemma ResidueStops(w: World, env: FlushEnv, s: Status)
    ensures var (w1, s1) := AfterResidue(w, env);
            && (s1 == Flushed <==> Passes(w.box.store, [], Lines(w.box.flushing), env.first))
            && (StopsOn(s, w.box.store, [], Lines(w.box.flushing), env.first) <==> s == s1 && s1 != Flushed)
            && (s1 == Flushed ==>
                  (StopsOn(s, w1.box.store, [], Lines(w.box.spool), env.second) <==>
                   StopsOn(s, w.box.store, Lines(w.box.flushing), Lines(w.box.spool), env.second)))
  {
    var (w1, s1) := AfterResidue(w, env);
    if w.box.flushing.Some? {
      DrainStatus(w, env.first);
      if s1 == Flushed && w.box.store.Some? {
        SecondStops(w.box.store.value, w.box.flushing.value, Lines(w.box.spool), env.second, s);
      }
    } else {
      assert !Carries([]);
    }
  }

  lemma DrainBothStatus(w: World, env: FlushEnv, s: Status)
    ensures var status := DrainBoth(w, env).1;
            var (first, second) := (Lines(w.box.flushing), Lines(w.box.spool));
            s != Flushed ==>
              (status == s <==>
               || StopsOn(s, w.box.store, [], first, env.first)
               || (Passes(w.box.store, [], first, env.first) && StopsOn(s, w.box.store, first, second, env.second)))
  {
    var (w1, s1) := AfterResidue(w, env);
    ResidueStops(w, env, s);
    if s1 == Flushed {
      if Lines(w1.box.spool) == [] {
        assert !Carries(Lines(w.box.spool));
      } else {
        DrainStatus(Rotated(w1), env.second);
      }
    }
  }

  /** A flush reports each status exactly for its cause. */
  lemma StatusIff(w: World, env: FlushEnv, s: Status)
    ensures var (b, status) := (Migrated(w).box, FlushOf(w, env).1);
            && (status == Empty <==> b.flushing.None? && Lines(b.spool) == [])
            && (status == Deferred <==> b.flushing.None? && Lines(b.spool) != [] && !env.due)
            && (status == Busy <==> env.busy && (b.flushing.Some? || (Lines(b.spool) != [] && env.due)))
            && (s in {Failed, Retained, NoClaimDropped} ==> (status == s <==> Stopped(s, b, env)))
            && (status == Flushed <==> AllThrough(b, env))
  {
    var m := Migrated(w);
    if Locked(m.box, env) {
      DrainBothStatus(m, env, s);
      LockedStatus(m, env);
      forall t | t in {Empty, Deferred, Busy, Failed, Retained, NoClaimDropped}
        ensures DrainBoth(m, env).1 == t <==> Stopped(t, m.box, env)
      {
        DrainBothStatus(m, env, t);
      }
    }
  }

  lemma LockedStatus(w: World, env: FlushEnv)
    ensures DrainBoth(w, env).1 == Flushed <==> Through(w.box, env)
    ensures DrainBoth(w, env).1 !in {Empty, Deferred, Busy}
  {
    var (first, second) := (Lines(w.box.flushing), Lines(w.box.spool));
    var status := DrainBoth(w, env).1;
    if status != Flushed {
      DrainBothStatus(w, env, status);
    } else {
      forall s
        ensures !StopsOn(s, w.box.store, [], first, env.first)
      {
        if s != Flushed { DrainBothStatus(w, env, s); }
      }
      forall s
        ensures !StopsOn(s, w.box.store, first, second, env.second)
      {
        if s != Flushed { DrainBothStatus(w, env, s); }
      }
    }
  }

  // ----- what becomes of the lines -----

  /** It adds to its record, or its record was not in the batch at all (a blank or zero line). */
  ghost predicate MayLand(store: Store, earlier: seq<Line>, batch: seq<Line>, l: Line) {
    Touches(batch, l.id) ==> TakesBatch(store, earlier, batch, l.id)
  }

  /** The reason given is the case. */
  ghost predicate TrueReason(store: Store, earlier: seq<Line>, batch: seq<Line>, d: Drop) {
    Touches(batch, d.line.id) &&
    match d.reason
    case MissingId => d.line.id !in store
    case NoStats => d.line.id in store && !TakesBatch(store, earlier, batch, d.line.id)
    case NoClaim => false
  }

  /** Every line of the batch landed, and could, or was dropped, for its true reason. */
  ghost predicate Settles(store: Store, earlier: seq<Line>, batch: seq<Line>, landed: seq<Line>, drops: seq<Drop>) {
    && multiset(batch) == multiset(landed) + multiset(LinesOf(drops))
    && (forall l :: l in landed ==> MayLand(store, earlier, batch, l))
    && (forall d :: d in drops ==> TrueReason(store, earlier, batch, d))
  }

  lemma {:induction false} RefusedFor(store: Store, agg: Aggregate, lines: seq<Line>)
    ensures forall l :: l in Landed(store, agg, lines) ==> Refusal(store, agg, l).None?
    ensures forall d :: d in Refused(store, agg, lines) ==> Refusal(store, agg, d.line) == Some(d.reason)
  {
    if lines == [] {
    } else {
      RefusedFor(store, agg, lines[..|lines| - 1]);
    }
  }

  lemma BatchSettles(store: Store, batch: seq<Line>)
    ensures var agg := AggregateOf(batch);
            Settles(store, [], batch, Landed(store, agg, batch), Refused(store, agg, batch))
  {
    var agg := AggregateOf(batch);
    BatchSplits(store, agg, batch);
    RefusedFor(store, agg, batch);
    forall l | l in Landed(store, agg, batch)
      ensures MayLand(store, [], batch, l)
    {
      RefusalIff(store, batch, l);
    }
    forall d | d in Refused(store, agg, batch)
      ensures TrueReason(store, [], batch, d)
    {
      RefusalIff(store, batch, d.line);
    }
  }

  lemma SecondSettles(store: Store, first: seq<Line>, second: seq<Line>, landed: seq<Line>, drops: seq<Drop>)
    requires Settles(Merge(store, AggregateOf(first), first), [], second, landed, drops)
    ensures Settles(store, first, second, landed, drops)
  {
    var mid := Merge(store, AggregateOf(first), first);
    forall id
      ensures TakesBatch(mid, [], second, id) <==> TakesBatch(store, first, second, id)
    {
      if id in store { AggregateHas(first, id, "retrieval_count"); }
    }
    assert mid.Keys == store.Keys;
    assert forall l :: l in landed ==> (MayLand(mid, [], second, l) <==> MayLand(store, first, second, l));
    assert forall d :: d in drops ==> (TrueReason(mid, [], second, d) <==> TrueReason(store, first, second, d));
  }

  /** What both files hold, the residue first. */
  function Waiting(b: Box): seq<Line> {
    Lines(b.flushing) + Lines(b.spool)
  }

  ghost predicate Gains(w: World, t: World, landed: seq<Line>, drops: seq<Drop>) {
    t.ledger == w.ledger.(settled := w.ledger.settled + landed, dropped := w.ledger.dropped + drops)
  }

  /** One drain: the batch is settled and its file gone, or nothing happens. */
  lemma DrainEffect(w: World, backend: Backend) returns (landed: seq<Line>, drops: seq<Drop>)
    requires w.box.flushing.Some?
    ensures var (t, status) := Drain(w, backend);
            && (status == Flushed ==>
                  && Settles(w.box.store.GetOr(map[]), [], w.box.flushing.value, landed, drops)
                  && Gains(w, t, landed, drops)
                  && t.box == w.box.(flushing := None, store := t.box.store)
                  && t.box.store == MergedWith(w.box.store, w.box.flushing.value))
            && (status != Flushed ==> t == w)
  {
    var lines := w.box.flushing.value;
    var store, agg := w.box.store.GetOr(map[]), AggregateOf(lines);
    landed, drops := Landed(store, agg, lines), Refused(store, agg, lines);
    BatchSettles(store, lines);
  }

  function MergedWith(store: Option<Store>, lines: seq<Line>): Option<Store> {
    if store.None? then None else Some(Merge(store.value, AggregateOf(lines), lines))
  }

  // ----- the whole flush -----

  /** The lines of the batches that were not settled. */
  ghost function Rest(b: Box, env: FlushEnv): seq<Line> {
    if AllThrough(b, env) then [] else if ResidueThrough(b, env) then Lines(b.spool) else Waiting(b)
  }

  /** What a flush does to the files and the ledger: a batch that comes through is settled,
      line by line, each line landing where its record takes it and dropped for the reason
      that it does not. The others wait for the next flush, all of them; only when the claim
      is refused are they dropped. */
  ghost predicate Effect(w: World, env: FlushEnv, t: World, status: Status, landed: seq<Line>, drops: seq<Drop>,
                         landed2: seq<Line>, drops2: seq<Drop>)
  {
    var b := Migrated(w).box;
    var store, first, second := b.store.GetOr(map[]), Lines(b.flushing), Lines(b.spool);
    var refused := if status == NoClaimDropped then Refuse(Rest(b, env), NoClaim) else [];
    && (if ResidueThrough(b, env) then Settles(store, [], first, landed, drops) else landed == [] && drops == [])
    && (if AllThrough(b, env) then Settles(store, first, second, landed2, drops2) else landed2 == [] && drops2 == [])
    && Gains(w, t, landed + landed2, drops + drops2 + refused)
    && Waiting(t.box) == (if status == NoClaimDropped then [] else Rest(b, env))
    && t.box.legacySpool.None? && t.box.legacyFlushing.None?
  }

  lemma EmptySettles(store: Store)
    ensures Settles(store, [], [], [], [])
  {
  }

  /** The residue, when it comes through or there is none. */
  lemma ResidueEffect(m: World, env: FlushEnv) returns (landed: seq<Line>, drops: seq<Drop>)
    requires Passes(m.box.store, [], Lines(m.box.flushing), env.first)
    ensures var w1 := AfterResidue(m, env).0;
            && AfterResidue(m, env).1 == Flushed
            && Settles(m.box.store.GetOr(map[]), [], Lines(m.box.flushing), landed, drops)
            && Gains(m, w1, landed, drops)
            && w1.box == m.box.(flushing := None, store := w1.box.store)
            && w1.box.store == (if m.box.flushing.None? then m.box.store
                                else MergedWith(m.box.store, Lines(m.box.flushing)))
  {
    ResidueStops(m, env, Flushed);
    if m.box.flushing.Some? {
      landed, drops := DrainEffect(m, env.first);
    } else {
      landed, drops := [], [];
      assert m.ledger.settled + [] == m.ledger.settled && m.ledger.dropped + [] == m.ledger.dropped;
    }
  }

  lemma SettledGains(w: World, t: World, status: Status, landed: seq<Line>, drops: seq<Drop>)
    requires Gains(w, t, landed, drops)
    ensures var (t', _) := Settle(t, status);
            Gains(w, t', landed, drops + (if status == NoClaimDropped then Refuse(Waiting(t.box), NoClaim) else []))
  {
    assert drops + [] == drops;
    var refused := Refuse(Waiting(t.box), NoClaim);
    assert w.ledger.dropped + (drops + refused) == w.ledger.dropped + drops + refused;
  }

  /** The residue stays. */
  lemma StoppedAtResidue(m: World, env: FlushEnv)
    requires !Passes(m.box.store, [], Lines(m.box.flushing), env.first)
    ensures var (t, status) := DrainBoth(m, env);
            && t.box.store == m.box.store
            && Gains(m, t, [], if status == NoClaimDropped then Refuse(Waiting(m.box), NoClaim) else [])
            && Waiting(t.box) == (if status == NoClaimDropped then [] else Waiting(m.box))
            && t.box.legacySpool == m.box.legacySpool && t.box.legacyFlushing == m.box.legacyFlushing
  {
    ResidueStops(m, env, Flushed);
    assert !Carries([]);
    var landed, drops := DrainEffect(m, env.first);
    var (w1, s1) := Drain(m, env.first);
    assert m.ledger.settled + [] == m.ledger.settled && m.ledger.dropped + [] == m.ledger.dropped;
    SettledGains(m, m, s1, [], []);
    assert [] + Refuse(Waiting(m.box), NoClaim) == Refuse(Waiting(m.box), NoClaim);
  }

  /** The second batch, rotated into place: settled, or left there. */
  lemma RotatedEffect(w1: World, env: FlushEnv) returns (landed2: seq<Line>, drops2: seq<Drop>)
    requires w1.box.flushing.None?
    ensures var (t, status) := DrainBoth(w1, env);
            var through := Passes(w1.box.store, [], Lines(w1.box.spool), env.second);
            var refused := if status == NoClaimDropped then Refuse(Lines(w1.box.spool), NoClaim) else [];
            && (if through then Settles(w1.box.store.GetOr(map[]), [], Lines(w1.box.spool), landed2, drops2)
                else landed2 == [] && drops2 == [])
            && Gains(w1, t, landed2, drops2 + refused)
            && Waiting(t.box) == (if through || status == NoClaimDropped then [] else Lines(w1.box.spool))
            && t.box.legacySpool == w1.box.legacySpool && t.box.legacyFlushing == w1.box.legacyFlushing
  {
    landed2, drops2 := [], [];
    assert w1.ledger.settled + [] == w1.ledger.settled && w1.ledger.dropped + [] == w1.ledger.dropped;
    if Lines(w1.box.spool) == [] {
      assert !Carries([]);
      assert drops2 + [] == [];
      EmptySettles(w1.box.store.GetOr(map[]));
    } else {
      var rotated := Rotated(w1);
      DrainStatus(rotated, env.second);
      var (t, status) := Drain(rotated, env.second);
      if status == Flushed {
        landed2, drops2 := DrainEffect(rotated, env.second);
        SettledGains(w1, t, status, landed2, drops2);
      } else {
        var l, d := DrainEffect(rotated, env.second);
        SettledGains(w1, rotated, status, [], []);
      }
      assert Waiting(rotated.box) == Lines(w1.box.spool);
    }
  }

  lemma ThenRotated(m: World, env: FlushEnv)
    requires AfterResidue(m, env).1 == Flushed && AfterResidue(m, env).0.box.flushing.None?
    ensures DrainBoth(m, env) == DrainBoth(AfterResidue(m, env).0, env)
  {
  }

  lemma MidSettles(b: Box, w1: World, landed: seq<Line>, drops: seq<Drop>)
    requires w1.box.store == (if b.flushing.None? then b.store else MergedWith(b.store, Lines(b.flushing)))
    requires Settles(w1.box.store.GetOr(map[]), [], Lines(b.spool), landed, drops)
    ensures Settles(b.store.GetOr(map[]), Lines(b.flushing), Lines(b.spool), landed, drops)
  {
    var store, first := b.store.GetOr(map[]), Lines(b.flushing);
    if b.flushing.Some? {
      assert w1.box.store.GetOr(map[]) == Merge(store, AggregateOf(first), first);
      SecondSettles(store, first, Lines(b.spool), landed, drops);
    }
  }

  lemma SecondPassesIff(m: World, env: FlushEnv)
    requires AfterResidue(m, env).1 == Flushed
    ensures Passes(AfterResidue(m, env).0.box.store, [], Lines(m.box.spool), env.second) <==>
            Passes(m.box.store, Lines(m.box.flushing), Lines(m.box.spool), env.second)
  {
    forall s
      ensures StopsOn(s, AfterResidue(m, env).0.box.store, [], Lines(m.box.spool), env.second) <==>
              StopsOn(s, m.box.store, Lines(m.box.flushing), Lines(m.box.spool), env.second)
    {
      ResidueStops(m, env, s);
    }
  }

  lemma GainsTwice(w: World, w1: World, t: World, landed: seq<Line>, drops: seq<Drop>, landed2: seq<Line>,
                   drops2: seq<Drop>, refused: seq<Drop>)
    requires Gains(w, w1, landed, drops) && Gains(w1, t, landed2, drops2 + refused)
    ensures Gains(w, t, landed + landed2, drops + drops2 + refused)
  {
    assert w.ledger.settled + landed + landed2 == w.ledger.settled + (landed + landed2);
    assert w.ledger.dropped + drops + (drops2 + refused) == w.ledger.dropped + (drops + drops2 + refused);
  }

  lemma NothingSettled(w: World, t: World, refused: seq<Drop>)
    requires Gains(w, t, [], refused)
    ensures Gains(w, t, [] + [], [] + [] + refused)
  {
    assert [] + [] + refused == refused;
  }

  lemma UnlockedEffect(w: World, env: FlushEnv)
    requires !Locked(Migrated(w).box, env)
    ensures var (t, status) := FlushOf(w, env); Effect(w, env, t, status, [], [], [], [])
  {
    StatusIff(w, env, NoClaimDropped);
    assert w.ledger.settled + [] == w.ledger.settled && w.ledger.dropped + [] == w.ledger.dropped;
    NothingSettled(w, Migrated(w), []);
  }

  lemma StoppedEffect(w: World, env: FlushEnv)
    requires Locked(Migrated(w).box, env) && !ResidueThrough(Migrated(w).box, env)
    ensures var (t, status) := FlushOf(w, env); Effect(w, env, t, status, [], [], [], [])
  {
    var m := Migrated(w);
    var (t, status) := FlushOf(w, env);
    StoppedAtResidue(m, env);
    NothingSettled(w, t, if status == NoClaimDropped then Refuse(Waiting(m.box), NoClaim) else []);
  }

  lemma ThroughEffect(w: World, env: FlushEnv)
    returns (landed: seq<Line>, drops: seq<Drop>, landed2: seq<Line>, drops2: seq<Drop>)
    requires ResidueThrough(Migrated(w).box, env)
    ensures var (t, status) := FlushOf(w, env); Effect(w, env, t, status, landed, drops, landed2, drops2)
  {
    var m := Migrated(w);
    var (t, status) := FlushOf(w, env);
    var refused := if status == NoClaimDropped then Refuse(Rest(m.box, env), NoClaim) else [];
    landed, drops := ResidueEffect(m, env);
    var w1 := AfterResidue(m, env).0;
    ThenRotated(m, env);
    SecondPassesIff(m, env);
    landed2, drops2 := RotatedEffect(w1, env);
    StatusIff(w, env, NoClaimDropped);
    GainsTwice(m, w1, t, landed, drops, landed2, drops2, refused);
    if AllThrough(m.box, env) { MidSettles(m.box, w1, landed2, drops2); }
  }

  /** For every flush, whatever the files, the store, the lock and the backend. */
  lemma FlushEffect(w: World, env: FlushEnv)
    returns (landed: seq<Line>, drops: seq<Drop>, landed2: seq<Line>, drops2: seq<Drop>)
    ensures var (t, status) := FlushOf(w, env); Effect(w, env, t, status, landed, drops, landed2, drops2)
  {
    landed, drops, landed2, drops2 := [], [], [], [];
    if !Locked(Migrated(w).box, env) {
      UnlockedEffect(w, env);
    } else if !ResidueThrough(Migrated(w).box, env) {
      StoppedEffect(w, env);
    } else {
      landed, drops, landed2, drops2 := ThroughEffect(w, env);
    }
  }

  /** A flush that meets no refusal of the claim drops nothing for want of it: what does not
      land and is not turned away by the store itself is still in the files. */
  lemma NothingDroppedWithoutCause(w: World, env: FlushEnv)
    returns (landed: seq<Line>, drops: seq<Drop>)
    requires env.first != NoClaimRaised && env.second != NoClaimRaised
    ensures var t := FlushOf(w, env).0;
            && Gains(w, t, landed, drops)
            && multiset(Waiting(Migrated(w).box)) ==
               multiset(Waiting(t.box)) + multiset(landed) + multiset(LinesOf(drops))
            && forall d :: d in drops ==> d.reason != NoClaim
  {
    var l, d, l2, d2 := FlushEffect(w, env);
    landed, drops := l + l2, d + d2;
    NoRefusal(w, env);
    RestAndSettled(w, env, FlushOf(w, env).0, FlushOf(w, env).1, l, d, l2, d2);
    WithoutRefusal(w, env, FlushOf(w, env).0, FlushOf(w, env).1, l, d, l2, d2);
  }

  lemma NoRefusal(w: World, env: FlushEnv)
    requires env.first != NoClaimRaised && env.second != NoClaimRaised
    ensures FlushOf(w, env).1 != NoClaimDropped
  {
    StatusIff(w, env, NoClaimDropped);
  }

  lemma WithoutRefusal(w: World, env: FlushEnv, t: World, status: Status, landed: seq<Line>, drops: seq<Drop>,
                       landed2: seq<Line>, drops2: seq<Drop>)
    requires Effect(w, env, t, status, landed, drops, landed2, drops2) && status != NoClaimDropped
    ensures Gains(w, t, landed + landed2, drops + drops2) && Waiting(t.box) == Rest(Migrated(w).box, env)
    ensures multiset(landed + landed2) == multiset(landed) + multiset(landed2)
    ensures multiset(LinesOf(drops + drops2)) == multiset(LinesOf(drops)) + multiset(LinesOf(drops2))
    ensures forall d :: d in drops + drops2 ==> d.reason != NoClaim
  {
    assert drops + drops2 + [] == drops + drops2;
    LinesOfAppend(drops, drops2);
  }

  /** Every waiting line is in one of the places an effect names. */
  lemma RestAndSettled(w: World, env: FlushEnv, t: World, status: Status, landed: seq<Line>, drops: seq<Drop>,
                       landed2: seq<Line>, drops2: seq<Drop>)
    requires Effect(w, env, t, status, landed, drops, landed2, drops2)
    ensures var b := Migrated(w).box;
            multiset(Waiting(b)) ==
            multiset(Rest(b, env)) + (multiset(landed) + multiset(LinesOf(drops)))
            + (multiset(landed2) + multiset(LinesOf(drops2)))
  {
    var b := Migrated(w).box;
    assert multiset(Waiting(b)) == multiset(Lines(b.flushing)) + multiset(Lines(b.spool));
  }

  /** With a store to write, a backend that works, the interval over and the lock free,
      nothing waits afterwards, and each line that did not land names a record that is not
      in the store, or one without stats of which no batch so far held a retrieval. */
  lemma FineFlushEmpties(w: World, env: FlushEnv) returns (landed: seq<Line>, drops: seq<Drop>)
    requires env.first == Fine && env.second == Fine && env.due && !env.busy
    requires w.box.store.Some? && w.box.store.value != map[]
    ensures var t := FlushOf(w, env).0;
            && Pending(t.box) == [] && Gains(w, t, landed, drops)
            && multiset(Pending(w.box)) == multiset(landed) + multiset(LinesOf(drops))
            && forall d :: d in drops ==> OwnReason(w.box.store.value, d)
  {
    var b := Migrated(w).box;
    var l, d, l2, d2 := FlushEffect(w, env);
    landed, drops := l + l2, d + d2;
    assert drops + [] == drops;
    FinePasses(w, env);
    LinesOfAppend(d, d2);
    MigratedPending(w);
    MultisetsAdd(Lines(b.flushing), Lines(b.spool), l, LinesOf(d), l2, LinesOf(d2));
    forall x | x in drops
      ensures OwnReason(w.box.store.value, x)
    {
      assert x in d || x in d2;
    }
  }

  /** The store itself turned the line away. */
  ghost predicate OwnReason(store: Store, d: Drop) {
    || (d.reason == MissingId && d.line.id !in store)
    || (d.reason == NoStats && d.line.id in store && store[d.line.id].stats.None?)
  }

  lemma MultisetsAdd(a: seq<Line>, b: seq<Line>, l: seq<Line>, d: seq<Line>, l2: seq<Line>, d2: seq<Line>)
    requires multiset(a) == multiset(l) + multiset(d) && multiset(b) == multiset(l2) + multiset(d2)
    ensures multiset(a) + multiset(b) == multiset(l + l2) + multiset(d + d2)
  {
  }

  lemma MigratedPending(w: World)
    ensures var b := Migrated(w).box;
            && b.store == w.box.store
            && multiset(Pending(w.box)) == multiset(Lines(b.flushing)) + multiset(Lines(b.spool))
  {
  }

  /** Nothing stops it; or there is nothing to do. */
  lemma FinePasses(w: World, env: FlushEnv)
    requires env.first == Fine && env.second == Fine && env.due && !env.busy
    requires w.box.store.Some? && w.box.store.value != map[]
    ensures var b := Migrated(w).box;
            var status := FlushOf(w, env).1;
            && status != NoClaimDropped && Rest(b, env) == []
            && (!AllThrough(b, env) ==> !Locked(b, env) && status == Empty)
            && (!Locked(b, env) ==> Lines(b.flushing) == [] && Lines(b.spool) == [])
  {
    var b := Migrated(w).box;
    StatusIff(w, env, NoClaimDropped);
    assert Passes(b.store, [], Lines(b.flushing), env.first);
    assert Passes(b.store, Lines(b.flushing), Lines(b.spool), env.second);
  }

  // ----- the day a record was last retrieved -----

  /** The order of texts: not after. */
  predicate AtMost(a: string, b: string) {
    !Less(b, a)
  }

  lemma {:induction false} AtMostTrans(a: string, b: string, c: string)
    requires AtMost(a, b) && AtMost(b, c)
    ensures AtMost(a, c)
  {
    if a == "" || c == "" {
    } else if b != "" && a[0] == b[0] && b[0] == c[0] {
      AtMostTrans(a[1..], b[1..], c[1..]);
    }
  }

  lemma {:induction false} LessIsAtMost(a: string, b: string)
    ensures AtMost(a, a) && (Less(a, b) ==> AtMost(a, b))
  {
    if a != "" && b != "" { LessIsAtMost(a[1..], b[1..]); }
    if a != "" { LessIsAtMost(a[1..], a[1..]); }
  }

  /** Of two texts in order the first `n` characters are in order. */
  lemma {:induction false} CutAtMost(a: string, b: string, n: nat)
    requires AtMost(a, b) && n <= |a| && n <= |b|
    ensures AtMost(a[..n], b[..n])
    decreases n
  {
    if n > 0 && a[0] == b[0] {
      CutAtMost(a[1..], b[1..], n - 1);
      assert a[..n][1..] == a[1..][..n - 1] && b[..n][1..] == b[1..][..n - 1];
    }
  }

  /** The line tells when its record was retrieved. */
  predicate Tells(l: Line, id: string) {
    l.id == id && l.counter == "retrieval_count" && |l.ts| >= 10
  }

  lemma {:induction false} LatestIsLatest(lines: seq<Line>, id: string)
    ensures var r := LatestTs(lines, id);
            && (r.Some? <==> exists k :: 0 <= k < |lines| && Tells(lines[k], id))
            && (r.Some? ==> exists k :: 0 <= k < |lines| && Tells(lines[k], id) && lines[k].ts == r.value)
            && forall k :: 0 <= k < |lines| && Tells(lines[k], id) ==> AtMost(lines[k].ts, r.value)
  {
    if lines == [] {
    } else {
      var rest, l := lines[..|lines| - 1], lines[|lines| - 1];
      LatestIsLatest(rest, id);
      var before, r := LatestTs(rest, id), LatestTs(lines, id);
      assert forall k :: 0 <= k < |rest| ==> rest[k] == lines[k];
      LessIsAtMost(l.ts, l.ts);
      if before.Some? { LessIsAtMost(before.value, l.ts); }
      forall k | 0 <= k < |lines| && Tells(lines[k], id)
        ensures r.Some? && AtMost(lines[k].ts, r.value)
      {
        if k < |rest| { AtMostTrans(lines[k].ts, before.value, r.value); }
      }
    }
  }

  /** `now` is the day there was, or the day of one of the retrievals, and none is later. */
  ghost predicate IsLatestDay(now: Option<string>, was: Option<string>, lines: seq<Line>, id: string) {
    && (now == was || exists k :: 0 <= k < |lines| && Tells(lines[k], id) && now == Some(lines[k].ts[..10]))
    && (was.Some? ==> now.Some? && AtMost(was.value, now.value))
    && forall k :: 0 <= k < |lines| && Tells(lines[k], id) ==> now.Some? && AtMost(lines[k].ts[..10], now.value)
  }

  lemma RetrievedIsLatest(stats: Stats, lines: seq<Line>, id: string)
    ensures IsLatestDay(Retrieved(stats, LatestTs(lines, id)).lastRetrieved, stats.lastRetrieved, lines, id)
  {
    LatestIsLatest(lines, id);
    var was, latest := stats.lastRetrieved, LatestTs(lines, id);
    var now := Retrieved(stats, latest).lastRetrieved;
    if was.Some? { LessIsAtMost(was.value, was.value); }
    if latest.Some? {
      var day := latest.value[..10];
      assert Day(latest.value) == day;
      LessIsAtMost(day, day);
      if was.Some? { LessIsAtMost(was.value, day); }
      forall k | 0 <= k < |lines| && Tells(lines[k], id)
        ensures AtMost(lines[k].ts[..10], now.value)
      {
        CutAtMost(lines[k].ts, latest.value, 10);
        AtMostTrans(lines[k].ts[..10], day, now.value);
      }
    }
  }

  /** A record that takes a batch was last retrieved on the day it had, or on the day of one
      of the batch's retrievals, whichever is latest. */
  lemma StampIsLatest(store: Store, lines: seq<Line>, id: string)
    requires Touches(lines, id) && TakesBatch(store, [], lines, id)
    ensures var was := store[id].stats.GetOr(Stats(map[], None)).lastRetrieved;
            var after := Merge(store, AggregateOf(lines), lines);
            && id in after && after[id].stats.Some?
            && IsLatestDay(after[id].stats.value.lastRetrieved, was, lines, id)
  {
    TakesIff(store, lines, id);
    var stats := store[id].stats.GetOr(Stats(map[], None));
    var added := stats.(counters := AddCounters(stats.counters, AggregateOf(lines)[id]));
    RetrievedIsLatest(added, lines, id);
  }
}
