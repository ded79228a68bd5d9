/** The experience counter spool: append, migrate, rotate, drain (`_experience_stats_spool.py`),
  with the aggregator of `utilization-flush.py`.

  A file is None when absent. A line append is atomic, and record ids are unique in the
  store. The ledger is not part of the source: it says where each recorded line went. */
module CounterSpool {
  import opened Wrappers

  datatype Line = Line(id: string, counter: string, delta: int, ts: string)

  type File = Option<seq<Line>>

  datatype Stats = Stats(counters: map<string, int>, lastRetrieved: Option<string>)

  datatype Rec = Rec(stats: Option<Stats>)

  type Store = map<string, Rec>

  datatype Box = Box(spool: File, flushing: File, legacySpool: File, legacyFlushing: File, store: Option<Store>)

  // ----- aggregation -----

  type Aggregate = map<string, map<string, int>>

  function AddLine(agg: Aggregate, l: Line): Aggregate {
    if l.id == "" || l.counter == "" || l.delta == 0 then agg
    else
      var counters := if l.id in agg then agg[l.id] else map[];
      agg[l.id := counters[l.counter := l.delta + if l.counter in counters then counters[l.counter] else 0]]
  }

  function AggregateOf(lines: seq<Line>): Aggregate {
    if lines == [] then map[] else AddLine(AggregateOf(lines[..|lines| - 1]), lines[|lines| - 1])
  }

  method AggregateLines(lines: seq<Line>) returns (agg: Aggregate)
    ensures agg == AggregateOf(lines)
  {
    agg := map[];
    for k := 0 to |lines|
      invariant agg == AggregateOf(lines[..k])
    {
      assert lines[..k + 1][..k] == lines[..k];
      agg := AddLine(agg, lines[k]);
    }
    assert lines[..|lines|] == lines;
  }

  function AggValue(agg: Aggregate, id: string, counter: string): int {
    if id in agg && counter in agg[id] then agg[id][counter] else 0
  }

  function Delta(l: Line, id: string, counter: string): int {
    if l.id == id && l.counter == counter then l.delta else 0
  }

  /** What the lines add to one counter of one record. */
  function Sum(lines: seq<Line>, id: string, counter: string): int {
    if lines == [] then 0 else Sum(lines[..|lines| - 1], id, counter) + Delta(lines[|lines| - 1], id, counter)
  }

  /** The aggregator is the per-counter sum. */
  lemma {:induction false} AggregateIsSum(lines: seq<Line>, id: string, counter: string)
    requires id != "" && counter != ""
    ensures AggValue(AggregateOf(lines), id, counter) == Sum(lines, id, counter)
    ensures id !in AggregateOf(lines) ==> Sum(lines, id, counter) == 0
  {
    if lines == [] {
    } else {
      AggregateIsSum(lines[..|lines| - 1], id, counter);
    }
  }

  // ----- one record -----

  predicate Less(a: string, b: string) {
    b != "" && (a == "" || a[0] < b[0] || (a[0] == b[0] && Less(a[1..], b[1..])))
  }

  function Day(ts: string): string {
    if |ts| <= 10 then ts else ts[..10]
  }

  function Retrieved(stats: Stats, lastTs: Option<string>): Stats {
    if lastTs.None? || lastTs.value == "" then stats
    else if stats.lastRetrieved.None? || Less(stats.lastRetrieved.value, Day(lastTs.value)) then
      stats.(lastRetrieved := Some(Day(lastTs.value)))
    else stats
  }

  function AddCounters(base: map<string, int>, more: map<string, int>): map<string, int> {
    map c | c in base.Keys + more.Keys ::
      (if c in base then base[c] else 0) + (if c in more then more[c] else 0)
  }

  /** A record without stats takes a batch only when it holds a retrieval. */
  predicate Takes(rec: Rec, counters: map<string, int>) {
    rec.stats.Some? || "retrieval_count" in counters
  }

  /** `apply_to_record`; the derived `utility_ratio` is not part of this model. */
  function ApplyTo(rec: Rec, counters: map<string, int>, lastTs: Option<string>): Rec {
    if !Takes(rec, counters) then rec
    else
      var stats := rec.stats.GetOr(Stats(map[], None));
      Rec(Some(Retrieved(stats.(counters := AddCounters(stats.counters, counters)), lastTs)))
  }

  class Record {
    var rec: Rec

    constructor (r: Rec)
      ensures rec == r
    {
      rec := r;
    }

    /** `apply_to_record`: add the deltas in place, one counter at a time. */
    method ApplyCounters(counters: map<string, int>, lastTs: Option<string>) returns (changed: bool)
      modifies this
      ensures changed == Takes(old(rec), counters)
      ensures rec == ApplyTo(old(rec), counters, lastTs)
    {
      if rec.stats.None? && "retrieval_count" !in counters {
        return false;
      }
      var stats := if rec.stats.Some? then rec.stats.value else Stats(map[], None);
      ghost var start := stats.counters;
      var todo := counters.Keys;
      while todo != {}
        invariant todo <= counters.Keys
        invariant stats.lastRetrieved == rec.stats.GetOr(Stats(map[], None)).lastRetrieved
        invariant stats.counters == AddCounters(start, map c | c in counters && c !in todo :: counters[c])
      {
        var c :| c in todo;
        var current := if c in stats.counters then stats.counters[c] else 0;
        stats := stats.(counters := stats.counters[c := current + counters[c]]);
        todo := todo - {c};
      }
      assert (map c | c in counters && c !in todo :: counters[c]) == counters;
      rec := Rec(Some(Retrieved(stats, lastTs)));
      return true;
    }
  }

  // ----- drain -----

  function LatestTs(lines: seq<Line>, id: string): Option<string> {
    if lines == [] then None
    else
      var before := LatestTs(lines[..|lines| - 1], id);
      var l := lines[|lines| - 1];
      if l.id == id && l.counter == "retrieval_count" && |l.ts| >= 10 && Less(before.GetOr(""), l.ts) then Some(l.ts)
      else before
  }

  function Merge(store: Store, agg: Aggregate, lines: seq<Line>): Store {
    map id | id in store :: if id in agg then ApplyTo(store[id], agg[id], LatestTs(lines, id)) else store[id]
  }

  datatype Reason = MissingId | NoStats | NoClaim

  datatype Drop = Drop(line: Line, reason: Reason)

  /** Why a drained line adds nothing to the store, if it does not. */
  function Refusal(store: Store, agg: Aggregate, l: Line): Option<Reason> {
    if l.id !in agg then None
    else if l.id !in store then Some(MissingId)
    else if !Takes(store[l.id], agg[l.id]) then Some(NoStats)
    else None
  }

  function Landed(store: Store, agg: Aggregate, lines: seq<Line>): seq<Line> {
    if lines == [] then []
    else
      Landed(store, agg, lines[..|lines| - 1])
      + (if Refusal(store, agg, lines[|lines| - 1]).None? then [lines[|lines| - 1]] else [])
  }

  function Refused(store: Store, agg: Aggregate, lines: seq<Line>): seq<Drop> {
    if lines == [] then []
    else
      var why := Refusal(store, agg, lines[|lines| - 1]);
      Refused(store, agg, lines[..|lines| - 1]) + (if why.Some? then [Drop(lines[|lines| - 1], why.value)] else [])
  }

  function LinesOf(drops: seq<Drop>): seq<Line> {
    seq(|drops|, i requires 0 <= i < |drops| => drops[i].line)
  }

  function Refuse(lines: seq<Line>, why: Reason): seq<Drop> {
    seq(|lines|, i requires 0 <= i < |lines| => Drop(lines[i], why))
  }

  /** Where recorded lines went: applied by a completed drain, dropped with a reason, or
      applied once too often because a crash kept the batch. */
  datatype Ledger = Ledger(recorded: seq<Line>, settled: seq<Line>, dropped: seq<Drop>, extra: seq<Line>)

  datatype World = World(box: Box, ledger: Ledger)

  /** What the storage backend does with the drain's write. */
  datatype Backend = Fine | NoClaimRaised | OtherError

  datatype Status = Empty | Deferred | Busy | Flushed | NoClaimDropped | Retained | Failed

  /** `_drain` of the flushing file. */
  function Drain(w: World, backend: Backend): (World, Status)
    requires w.box.flushing.Some?
  {
    var lines := w.box.flushing.value;
    var agg := AggregateOf(lines);
    var store := w.box.store.GetOr(map[]);
    if |agg| > 0 && backend == OtherError then (w, Failed)
    else if |agg| > 0 && store == map[] then (w, Retained)
    else if |agg| > 0 && backend == NoClaimRaised && Writes(store, agg) then (w, NoClaimDropped)
    else
      var box := w.box.(flushing := None, store := if w.box.store.Some? then Some(Merge(store, agg, lines)) else None);
      (World(box, w.ledger.(settled := w.ledger.settled + Landed(store, agg, lines),
                            dropped := w.ledger.dropped + Refused(store, agg, lines))),
       Flushed)
  }

  /** Some spooled id changes a record; otherwise the whole-store write is skipped. */
  predicate Writes(store: Store, agg: Aggregate) {
    exists id :: id in agg && id in store && Takes(store[id], agg[id])
  }

  /** The crash window: the store was written, the flushing file was not unlinked. */
  function DrainThenCrash(w: World): World
    requires w.box.flushing.Some?
  {
    var lines := w.box.flushing.value;
    var agg := AggregateOf(lines);
    if w.box.store.None? then w
    else
      var store := w.box.store.value;
      World(w.box.(store := Some(Merge(store, agg, lines))),
            w.ledger.(extra := w.ledger.extra + Landed(store, agg, lines)))
  }

  // ----- record, migrate, flush -----

  function Lines(f: File): seq<Line> {
    f.GetOr([])
  }

  /** Relocate one legacy file: rename it, or append it to what is there. */
  function Moved(src: File, dst: File): File {
    if src.None? then dst else if dst.None? then src else Some(dst.value + src.value)
  }

  function Migrated(w: World): World {
    w.(box := w.box.(spool := Moved(w.box.legacySpool, w.box.spool), legacySpool := None,
                     flushing := Moved(w.box.legacyFlushing, w.box.flushing), legacyFlushing := None))
  }

  /** `record`; a blank id or counter is turned away. */
  function Recorded(w: World, l: Line): (World, bool) {
    if l.id == "" || l.counter == "" then (w, false)
    else
      var m := Migrated(w);
      (World(m.box.(spool := Some(Lines(m.box.spool) + [l])), m.ledger.(recorded := m.ledger.recorded + [l])), true)
  }

  /** A named line is taken and waits in the spool behind what was there, the legacy lines
      brought along; a nameless one changes nothing. */
  lemma RecordedIs(w: World, l: Line)
    ensures var (t, ok) := Recorded(w, l);
            && (ok <==> l.id != "" && l.counter != "")
            && (!ok ==> t == w)
            && (ok ==> Lines(t.box.spool) == Lines(w.box.spool) + Lines(w.box.legacySpool) + [l]
                       && t.ledger == w.ledger.(recorded := w.ledger.recorded + [l])
                       && t.box.store == w.box.store
                       && Lines(t.box.flushing) == Lines(w.box.flushing) + Lines(w.box.legacyFlushing)
                       && t.box.legacySpool.None? && t.box.legacyFlushing.None?)
  {
  }

  /** `_drop_unlandable` */
  function DropUnlandable(w: World): World {
    var lost := Lines(w.box.flushing) + Lines(w.box.spool);
    World(w.box.(flushing := None, spool := None),
          w.ledger.(dropped := w.ledger.dropped + Refuse(lost, NoClaim)))
  }

  datatype FlushEnv = FlushEnv(due: bool, busy: bool, first: Backend, second: Backend)

  function Settle(w: World, status: Status): (World, Status) {
    if status == NoClaimDropped then (DropUnlandable(w), status) else (w, status)
  }

  /** The locked part of `flush`: the residue first, then the rotated spool. */
  function DrainBoth(w: World, env: FlushEnv): (World, Status) {
    var (w1, s1) := if w.box.flushing.Some? then Drain(w, env.first) else (w, Flushed);
    if s1 != Flushed then Settle(w1, s1)
    else if Lines(w1.box.spool) == [] then (w1, Flushed)
    else
      var rotated := w1.(box := w1.box.(flushing := w1.box.spool, spool := None));
      var (w2, s2) := Drain(rotated, env.second);
      Settle(w2, s2)
  }

  /** `flush` */
  function FlushOf(w: World, env: FlushEnv): (World, Status) {
    var m := Migrated(w);
    if m.box.flushing.None? && Lines(m.box.spool) == [] then (m, Empty)
    else if m.box.flushing.None? && !env.due then (m, Deferred)
    else if env.busy then (m, Busy)
    else DrainBoth(m, env)
  }

  /** The spool directory of one agent, with its ledger. */
  class Spool {
    var box: Box
    ghost var ledger: Ledger

    ghost function State(): World
      reads this
    {
      World(box, ledger)
    }

    constructor (b: Box, ghost l: Ledger)
      ensures State() == World(b, l)
    {
      box, ledger := b, l;
    }

    method MigrateLegacy()
      modifies this
      ensures State() == Migrated(old(State()))
    {
      if box.legacySpool.Some? {
        box := box.(spool := if box.spool.None? then box.legacySpool else Some(box.spool.value + box.legacySpool.value),
                    legacySpool := None);
      }
      if box.legacyFlushing.Some? {
        box := box.(flushing := if box.flushing.None? then box.legacyFlushing
                                else Some(box.flushing.value + box.legacyFlushing.value),
                    legacyFlushing := None);
      }
    }

    method RecordLine(l: Line) returns (ok: bool)
      modifies this
      ensures (State(), ok) == Recorded(old(State()), l)
    {
      if l.id == "" || l.counter == "" {
        return false;
      }
      MigrateLegacy();
      box := box.(spool := Some(Lines(box.spool) + [l]));
      ledger := ledger.(recorded := ledger.recorded + [l]);
      return true;
    }

    method DrainFlushing(backend: Backend) returns (status: Status)
      requires box.flushing.Some?
      modifies this
      ensures (State(), status) == Drain(old(State()), backend)
    {
      var lines := box.flushing.value;
      var agg := AggregateLines(lines);
      var store := box.store.GetOr(map[]);
      if |agg| > 0 {
        if backend == OtherError {
          return Failed;
        }
        if store == map[] {
          return Retained;
        }
        if Writes(store, agg) && backend == NoClaimRaised {
          return NoClaimDropped;
        }
      }
      if box.store.Some? {
        box := box.(store := Some(Merge(store, agg, lines)));
      }
      box := box.(flushing := None);
      ledger := ledger.(settled := ledger.settled + Landed(store, agg, lines),
                        dropped := ledger.dropped + Refused(store, agg, lines));
      return Flushed;
    }

    method DropAll()
      modifies this
      ensures State() == DropUnlandable(old(State()))
    {
      ledger := ledger.(dropped := ledger.dropped + Refuse(Lines(box.flushing) + Lines(box.spool), NoClaim));
      box := box.(flushing := None, spool := None);
    }

    method Flush(env: FlushEnv) returns (status: Status)
      modifies this
      ensures (State(), status) == FlushOf(old(State()), env)
    {
      MigrateLegacy();
      var residue := box.flushing.Some?;
      if !residue && Lines(box.spool) == [] {
        return Empty;
      }
      if !residue && !env.due {
        return Deferred;
      }
      if env.busy {
        return Busy;
      }
      status := Flushed;
      if residue {
        status := DrainFlushing(env.first);
      }
      if status == Flushed && Lines(box.spool) != [] {
        box := box.(flushing := box.spool, spool := None);
        status := DrainFlushing(env.second);
      }
      if status == NoClaimDropped {
        DropAll();
      }
    }
  }

  // ----- conservation -----

  function Value(store: Option<Store>, id: string, counter: string): int {
    if store.Some? && id in store.value && store.value[id].stats.Some?
       && counter in store.value[id].stats.value.counters
    then store.value[id].stats.value.counters[counter] else 0
  }

  function Pending(b: Box): seq<Line> {
    Lines(b.spool) + Lines(b.flushing) + Lines(b.legacySpool) + Lines(b.legacyFlushing)
  }

  /** Every recorded line is in exactly one place, and the store is its start value plus
      what was settled and what was applied again. */
  ghost predicate Conserved(start: Option<Store>, w: World) {
    && multiset(w.ledger.recorded) ==
       multiset(Pending(w.box)) + multiset(w.ledger.settled) + multiset(LinesOf(w.ledger.dropped))
    && forall id, counter :: id != "" && counter != "" ==>
         Value(w.box.store, id, counter) ==
         Value(start, id, counter) + Sum(w.ledger.settled, id, counter) + Sum(w.ledger.extra, id, counter)
  }

  lemma {:induction false} SumAppend(a: seq<Line>, b: seq<Line>, id: string, counter: string)
    ensures Sum(a + b, id, counter) == Sum(a, id, counter) + Sum(b, id, counter)
    decreases |b|
  {
    if b == [] {
      assert a + b == a;
    } else {
      assert (a + b)[..|a + b| - 1] == a + b[..|b| - 1];
      SumAppend(a, b[..|b| - 1], id, counter);
    }
  }

  lemma LinesOfAppend(a: seq<Drop>, b: seq<Drop>)
    ensures LinesOf(a + b) == LinesOf(a) + LinesOf(b)
  {
  }

  lemma LinesOfRefuse(lines: seq<Line>, why: Reason)
    ensures LinesOf(Refuse(lines, why)) == lines
  {
  }

  lemma MultisetSnoc(rest: seq<Line>, last: Line)
    ensures multiset(rest + [last]) == multiset(rest) + multiset{last}
  {
  }

  lemma OneMoreSplits(rest: seq<Line>, last: Line, landed: seq<Line>, refused: seq<Line>)
    requires multiset(rest) == multiset(landed) + multiset(refused)
    ensures multiset(rest + [last]) == multiset(landed + [last]) + multiset(refused)
    ensures multiset(rest + [last]) == multiset(landed) + multiset(refused + [last])
  {
    MultisetSnoc(rest, last);
    MultisetSnoc(landed, last);
    MultisetSnoc(refused, last);
  }

  lemma LastSplits(store: Store, agg: Aggregate, rest: seq<Line>, last: Line)
    ensures var (landed, refused) := (Landed(store, agg, rest), LinesOf(Refused(store, agg, rest)));
            if Refusal(store, agg, last).None? then
              Landed(store, agg, rest + [last]) == landed + [last]
              && LinesOf(Refused(store, agg, rest + [last])) == refused
            else
              Landed(store, agg, rest + [last]) == landed
              && LinesOf(Refused(store, agg, rest + [last])) == refused + [last]
  {
    assert (rest + [last])[..|rest|] == rest;
  }

  /** A drained batch splits into what landed and what was refused. */
  lemma {:induction false} BatchSplits(store: Store, agg: Aggregate, lines: seq<Line>)
    ensures multiset(lines) == multiset(Landed(store, agg, lines)) + multiset(LinesOf(Refused(store, agg, lines)))
  {
    if lines == [] {
    } else {
      var rest, last := lines[..|lines| - 1], lines[|lines| - 1];
      BatchSplits(store, agg, rest);
      assert lines == rest + [last];
      LastSplits(store, agg, rest, last);
      OneMoreSplits(rest, last, Landed(store, agg, rest), LinesOf(Refused(store, agg, rest)));
    }
  }

  lemma {:induction false} LandedSum(store: Store, agg: Aggregate, lines: seq<Line>, id: string, counter: string)
    requires id in agg
    ensures Sum(Landed(store, agg, lines), id, counter) ==
            if id in store && Takes(store[id], agg[id]) then Sum(lines, id, counter) else 0
  {
    if lines == [] {
    } else {
      var rest, last := lines[..|lines| - 1], lines[|lines| - 1];
      LandedSum(store, agg, rest, id, counter);
      SumAppend(Landed(store, agg, rest), if Refusal(store, agg, last).None? then [last] else [], id, counter);
      assert [last][..0] == [];
    }
  }

  lemma {:induction false} LandedZero(store: Store, agg: Aggregate, lines: seq<Line>, id: string, counter: string)
    requires forall k :: 0 <= k < |lines| ==> Delta(lines[k], id, counter) == 0
    ensures Sum(Landed(store, agg, lines), id, counter) == 0
  {
    if lines == [] {
    } else {
      var rest, last := lines[..|lines| - 1], lines[|lines| - 1];
      LandedZero(store, agg, rest, id, counter);
      SumAppend(Landed(store, agg, rest), if Refusal(store, agg, last).None? then [last] else [], id, counter);
      assert [last][..0] == [];
    }
  }

  lemma {:induction false} AbsentIsZero(lines: seq<Line>, id: string, k: nat)
    requires id != "" && id !in AggregateOf(lines) && k < |lines| && lines[k].id == id && lines[k].counter != ""
    ensures lines[k].delta == 0
  {
    var rest := lines[..|lines| - 1];
    if k < |rest| { AbsentIsZero(rest, id, k); }
  }

  lemma MergedValue(store: Store, agg: Aggregate, lines: seq<Line>, id: string, counter: string)
    ensures Value(Some(Merge(store, agg, lines)), id, counter) ==
            Value(Some(store), id, counter)
            + (if id in store && id in agg && Takes(store[id], agg[id]) then AggValue(agg, id, counter) else 0)
  {
    if id in store && id in agg && Takes(store[id], agg[id]) {
      AppliedValue(store[id], agg[id], LatestTs(lines, id), counter);
    }
  }

  lemma AppliedValue(rec: Rec, counters: map<string, int>, lastTs: Option<string>, counter: string)
    requires Takes(rec, counters)
    ensures ApplyTo(rec, counters, lastTs).stats.Some?
    ensures ApplyTo(rec, counters, lastTs).stats.value.counters ==
            AddCounters(rec.stats.GetOr(Stats(map[], None)).counters, counters)
  {
  }

  /** The store gains exactly what landed. */
  lemma MergeAddsLanded(store: Store, lines: seq<Line>, id: string, counter: string)
    requires id != "" && counter != ""
    ensures var agg := AggregateOf(lines);
            Value(Some(Merge(store, agg, lines)), id, counter) ==
            Value(Some(store), id, counter) + Sum(Landed(store, agg, lines), id, counter)
  {
    var agg := AggregateOf(lines);
    AggregateIsSum(lines, id, counter);
    MergedValue(store, agg, lines, id, counter);
    if id in agg {
      LandedSum(store, agg, lines, id, counter);
    } else {
      forall k | 0 <= k < |lines|
        ensures Delta(lines[k], id, counter) == 0
      {
        if lines[k].id == id && lines[k].counter == counter { AbsentIsZero(lines, id, k); }
      }
      LandedZero(store, agg, lines, id, counter);
    }
  }

  lemma DrainAddsLanded(w: World, backend: Backend, id: string, counter: string)
    requires w.box.flushing.Some? && Drain(w, backend).1 == Flushed && id != "" && counter != ""
    ensures var t := Drain(w, backend).0;
            Value(t.box.store, id, counter) + Sum(w.ledger.settled, id, counter) ==
            Value(w.box.store, id, counter) + Sum(t.ledger.settled, id, counter)
  {
    var lines := w.box.flushing.value;
    var agg := AggregateOf(lines);
    var store := w.box.store.GetOr(map[]);
    MergeAddsLanded(store, lines, id, counter);
    SumAppend(w.ledger.settled, Landed(store, agg, lines), id, counter);
    assert Value(Some(store), id, counter) == Value(w.box.store, id, counter);
    assert w.box.store.None? ==> Value(Some(Merge(store, agg, lines)), id, counter) == 0;
  }

  lemma DrainMovesLines(w: World, backend: Backend)
    requires w.box.flushing.Some? && Drain(w, backend).1 == Flushed
    ensures var t := Drain(w, backend).0;
            multiset(Pending(w.box)) + multiset(w.ledger.settled) + multiset(LinesOf(w.ledger.dropped)) ==
            multiset(Pending(t.box)) + multiset(t.ledger.settled) + multiset(LinesOf(t.ledger.dropped))
  {
    var lines := w.box.flushing.value;
    var agg := AggregateOf(lines);
    var store := w.box.store.GetOr(map[]);
    BatchSplits(store, agg, lines);
    LinesOfAppend(w.ledger.dropped, Refused(store, agg, lines));
  }

  /** A drain that completes moves the batch out of the flushing file and into the ledger. */
  lemma DrainConserves(start: Option<Store>, w: World, backend: Backend)
    requires Conserved(start, w) && w.box.flushing.Some?
    ensures Conserved(start, Drain(w, backend).0)
  {
    var (t, status) := Drain(w, backend);
    if status == Flushed {
      DrainMovesLines(w, backend);
      forall id, counter | id != "" && counter != ""
        ensures Value(t.box.store, id, counter) ==
                Value(start, id, counter) + Sum(t.ledger.settled, id, counter) + Sum(t.ledger.extra, id, counter)
      {
        DrainAddsLanded(w, backend, id, counter);
      }
    }
  }

  lemma CrashConserves(start: Option<Store>, w: World)
    requires Conserved(start, w) && w.box.flushing.Some?
    ensures Conserved(start, DrainThenCrash(w))
  {
    if w.box.store.Some? {
      var lines := w.box.flushing.value;
      var t := DrainThenCrash(w);
      forall id, counter | id != "" && counter != ""
        ensures Value(t.box.store, id, counter) ==
                Value(start, id, counter) + Sum(t.ledger.settled, id, counter) + Sum(t.ledger.extra, id, counter)
      {
        MergeAddsLanded(w.box.store.value, lines, id, counter);
        SumAppend(w.ledger.extra, Landed(w.box.store.value, AggregateOf(lines), lines), id, counter);
      }
    }
  }

  lemma MigrateConserves(start: Option<Store>, w: World)
    requires Conserved(start, w)
    ensures Conserved(start, Migrated(w))
  {
    assert multiset(Pending(Migrated(w).box)) == multiset(Pending(w.box));
  }

  lemma DropConserves(start: Option<Store>, w: World)
    requires Conserved(start, w)
    ensures Conserved(start, DropUnlandable(w))
  {
    var lost := Lines(w.box.flushing) + Lines(w.box.spool);
    LinesOfRefuse(lost, NoClaim);
    LinesOfAppend(w.ledger.dropped, Refuse(lost, NoClaim));
  }

  lemma RecordConserves(start: Option<Store>, w: World, l: Line)
    requires Conserved(start, w)
    ensures Conserved(start, Recorded(w, l).0)
  {
    MigrateConserves(start, w);
  }

  function Rotated(w: World): World {
    w.(box := w.box.(flushing := w.box.spool, spool := None))
  }

  lemma RotatedConserves(start: Option<Store>, w: World)
    requires Conserved(start, w) && w.box.flushing.None?
    ensures Conserved(start, Rotated(w))
  {
    assert Pending(Rotated(w).box) == Pending(w.box);
  }

  lemma SettleConserves(start: Option<Store>, w: World, backend: Backend)
    requires Conserved(start, w) && w.box.flushing.Some?
    ensures var (t, status) := Drain(w, backend); Conserved(start, Settle(t, status).0)
  {
    var (t, status) := Drain(w, backend);
    DrainConserves(start, w, backend);
    if status == NoClaimDropped { DropConserves(start, t); }
  }

  lemma DrainBothConserves(start: Option<Store>, w: World, env: FlushEnv)
    requires Conserved(start, w)
    ensures Conserved(start, DrainBoth(w, env).0)
  {
    var (w1, s1) := if w.box.flushing.Some? then Drain(w, env.first) else (w, Flushed);
    if w.box.flushing.Some? {
      DrainConserves(start, w, env.first);
      SettleConserves(start, w, env.first);
    }
    if s1 == Flushed && Lines(w1.box.spool) != [] {
      RotatedConserves(start, w1);
      SettleConserves(start, Rotated(w1), env.second);
    }
  }

  lemma FlushConserves(start: Option<Store>, w: World, env: FlushEnv)
    requires Conserved(start, w)
    ensures Conserved(start, FlushOf(w, env).0)
  {
    MigrateConserves(start, w);
    DrainBothConserves(start, Migrated(w), env);
  }

  // ----- whole runs -----

  /** `LegacyRecord` is a writer still running the old code; `CrashFlush` stops in the
      window between the store write and the unlink. */
  datatype Event = DoRecord(line: Line) | LegacyRecord(line: Line) | Migrate | DoFlush(env: FlushEnv) | CrashFlush

  function ReadyToDrain(w: World): World {
    if w.box.flushing.None? && w.box.spool.Some? then Rotated(w) else w
  }

  function Crashed(w: World): World {
    if w.box.flushing.Some? then DrainThenCrash(w) else w
  }

  function CrashedFrom(w: World): World {
    Crashed(ReadyToDrain(Migrated(w)))
  }

  function Step(w: World, ev: Event): World {
    match ev
    case DoRecord(l) => Recorded(w, l).0
    case LegacyRecord(l) =>
      World(w.box.(legacySpool := Some(Lines(w.box.legacySpool) + [l])), w.ledger.(recorded := w.ledger.recorded + [l]))
    case Migrate => Migrated(w)
    case DoFlush(env) => FlushOf(w, env).0
    case CrashFlush => CrashedFrom(w)
  }

  function Run(w: World, evs: seq<Event>): World
    decreases |evs|
  {
    if evs == [] then w else Run(Step(w, evs[0]), evs[1..])
  }

  lemma LegacyConserves(start: Option<Store>, w: World, l: Line)
    requires Conserved(start, w)
    ensures Conserved(start, Step(w, LegacyRecord(l)))
  {
    var t := Step(w, LegacyRecord(l));
    assert multiset(Pending(t.box)) == multiset(Pending(w.box)) + multiset{l};
  }

  lemma ReadyConserves(start: Option<Store>, w: World)
    requires Conserved(start, w)
    ensures Conserved(start, ReadyToDrain(w))
  {
    assert multiset(Pending(ReadyToDrain(w).box)) == multiset(Pending(w.box));
  }

  lemma CrashedConserves(start: Option<Store>, w: World)
    requires Conserved(start, w)
    ensures Conserved(start, Crashed(w))
  {
    if w.box.flushing.Some? { CrashConserves(start, w); }
  }

  lemma StepConserves(start: Option<Store>, w: World, ev: Event)
    requires Conserved(start, w)
    ensures Conserved(start, Step(w, ev))
  {
    var t := Step(w, ev);
    match ev
    case DoRecord(l) => RecordStepConserves(start, w, l);
    case LegacyRecord(l) => LegacyConserves(start, w, l);
    case Migrate =>
      assert t == Migrated(w);
      MigrateConserves(start, w);
    case DoFlush(env) => FlushStepConserves(start, w, env);
    case CrashFlush =>
      assert t == CrashedFrom(w);
      CrashStepConserves(start, w);
  }

  lemma RecordStepConserves(start: Option<Store>, w: World, l: Line)
    requires Conserved(start, w)
    ensures Conserved(start, Step(w, DoRecord(l)))
  {
    RecordConserves(start, w, l);
  }

  lemma FlushStepConserves(start: Option<Store>, w: World, env: FlushEnv)
    requires Conserved(start, w)
    ensures Conserved(start, Step(w, DoFlush(env)))
  {
    FlushConserves(start, w, env);
  }

  lemma CrashStepConserves(start: Option<Store>, w: World)
    requires Conserved(start, w)
    ensures Conserved(start, CrashedFrom(w))
  {
    MigrateConserves(start, w);
    ReadyConserves(start, Migrated(w));
    CrashedConserves(start, ReadyToDrain(Migrated(w)));
  }

  lemma OnlyCrashesRepeat(w: World, ev: Event)
    requires ev != CrashFlush
    ensures Step(w, ev).ledger.extra == w.ledger.extra
  {
  }

  lemma {:induction false} RunConserves(start: Option<Store>, w: World, evs: seq<Event>)
    requires Conserved(start, w)
    ensures Conserved(start, Run(w, evs))
    decreases |evs|
  {
    if evs == [] {
    } else {
      StepConserves(start, w, evs[0]);
      RunConserves(start, Step(w, evs[0]), evs[1..]);
      assert Run(w, evs) == Run(Step(w, evs[0]), evs[1..]);
    }
  }

  lemma {:induction false} RunRepeatsNothing(w: World, evs: seq<Event>)
    requires CrashFlush !in evs
    ensures Run(w, evs).ledger.extra == w.ledger.extra
    decreases |evs|
  {
    if evs == [] {
    } else {
      OnlyCrashesRepeat(w, evs[0]);
      RunRepeatsNothing(Step(w, evs[0]), evs[1..]);
    }
  }

  lemma {:induction false} SumOfMultiset(a: seq<Line>, b: seq<Line>, id: string, counter: string)
    requires multiset(a) == multiset(b)
    ensures Sum(a, id, counter) == Sum(b, id, counter)
    decreases |a|
  {
    if a == [] {
      assert |multiset(a)| == 0 && |multiset(b)| == |b|;
    } else {
      var rest, x := a[..|a| - 1], a[|a| - 1];
      assert a == rest + [x];
      assert x in multiset(a) && x in multiset(b);
      var k :| 0 <= k < |b| && b[k] == x;
      assert b == b[..k] + [x] + b[k + 1..];
      assert multiset(rest) == multiset(a) - multiset{x};
      assert multiset(b[..k] + b[k + 1..]) == multiset(b) - multiset{x};
      SumOfMultiset(rest, b[..k] + b[k + 1..], id, counter);
      SumAppend(b[..k], b[k + 1..], id, counter);
      SumAppend(b[..k] + [x], b[k + 1..], id, counter);
      SumAppend(b[..k], [x], id, counter);
    }
  }

  /** A box with nothing accounted for yet: what is already in its files counts as recorded. */
  function Opened(b: Box): World {
    World(b, Ledger(Pending(b), [], [], []))
  }

  /** Counter conservation, for every counter of every record and every run: what was
      recorded is what reached the store, plus what is still in one of the four files,
      plus what was dropped with a reason. A crash between the store write and the unlink
      loses nothing either: it applies a batch once more than the ledger settles. */
  lemma CountersConserved(b: Box, evs: seq<Event>, id: string, counter: string)
    requires id != "" && counter != ""
    ensures var w := Run(Opened(b), evs);
            && Sum(w.ledger.recorded, id, counter) ==
               Value(w.box.store, id, counter) - Value(b.store, id, counter) - Sum(w.ledger.extra, id, counter)
               + Sum(Pending(w.box), id, counter) + Sum(LinesOf(w.ledger.dropped), id, counter)
            && (CrashFlush !in evs ==> Sum(w.ledger.extra, id, counter) == 0)
            && multiset(w.ledger.recorded) ==
               multiset(Pending(w.box)) + multiset(w.ledger.settled) + multiset(LinesOf(w.ledger.dropped))
  {
    RunConserves(b.store, Opened(b), evs);
    if CrashFlush !in evs { RunRepeatsNothing(Opened(b), evs); }
    var w := Run(Opened(b), evs);
    var places := Pending(w.box) + w.ledger.settled + LinesOf(w.ledger.dropped);
    SumOfMultiset(w.ledger.recorded, places, id, counter);
    SumAppend(Pending(w.box) + w.ledger.settled, LinesOf(w.ledger.dropped), id, counter);
    SumAppend(Pending(w.box), w.ledger.settled, id, counter);
  }

  /** A drain drops a line only for an id the store does not hold, or for a record without
      stats whose batch holds no retrieval. */
  lemma {:induction false} DrainDropsOnly(store: Store, lines: seq<Line>, batch: seq<Line>, d: Drop)
    requires d in Refused(store, AggregateOf(batch), lines)
    ensures d.line in lines
    ensures d.reason == MissingId ==> d.line.id !in store
    ensures d.reason == NoStats ==> d.line.id in store && store[d.line.id].stats.None?
    ensures d.reason == NoStats ==>
      forall k :: 0 <= k < |batch| && batch[k].id == d.line.id && batch[k].delta != 0 ==>
        batch[k].counter != "retrieval_count"
    ensures d.reason != NoClaim
    decreases |lines|
  {
    var rest, last := lines[..|lines| - 1], lines[|lines| - 1];
    if d in Refused(store, AggregateOf(batch), rest) {
      DrainDropsOnly(store, rest, batch, d);
    } else {
      forall k | 0 <= k < |batch| && batch[k].id == last.id && batch[k].delta != 0
                 && batch[k].counter == "retrieval_count" && last.id != ""
        ensures last.id in AggregateOf(batch) && "retrieval_count" in AggregateOf(batch)[last.id]
      {
        KeyStays(batch, k);
      }
      BlankNotAggregated(batch);
    }
  }

  lemma {:induction false} KeyStays(batch: seq<Line>, k: nat)
    requires k < |batch| && batch[k].id != "" && batch[k].counter != "" && batch[k].delta != 0
    ensures batch[k].id in AggregateOf(batch) && batch[k].counter in AggregateOf(batch)[batch[k].id]
  {
    if k < |batch| - 1 { KeyStays(batch[..|batch| - 1], k); }
  }

  lemma {:induction false} BlankNotAggregated(batch: seq<Line>)
    ensures "" !in AggregateOf(batch)
  {
    if batch == [] {
    } else {
      BlankNotAggregated(batch[..|batch| - 1]);
    }
  }
}
