/** `loop_state_cas_retry`: optimistic concurrency keyed on `slot_meta[slot].update_count`,
  for any number of writers that may each have had its lock stolen. */
module CasRetry {
  import opened Wrappers

  const CAS_RETRY_CAP: nat := 3

  /** `slot_meta[slot]` as found on disk: absent, not a dict or not a number, or a count. */
  datatype Meta = Absent | Garbage | Count(n: int)

  datatype Wm = Wm(meta: Meta, counters: map<string, int>)

  /** `_slot_update_count` */
  function SlotUpdateCount(wm: Wm): int {
    if wm.meta.Count? then wm.meta.n else 0
  }

  function Counter(wm: Wm, name: string): int {
    if name in wm.counters then wm.counters[name] else 0
  }

  type Writer = nat

  /** Each writer's mutation; None is its idempotent no-op. */
  type Mutations = (Writer, Wm) -> Option<Wm>

  /** The callers' contract: a mutation advances the update count. */
  ghost predicate Advances(muts: Mutations) {
    forall w, wm :: muts(w, wm).Some? ==> SlotUpdateCount(muts(w, wm).value) > SlotUpdateCount(wm)
  }

  /** `read` is the state the attempt read, `from` how many writes had landed by then. */
  datatype Phase =
    | Ready(attempt: nat)
    | Mutated(attempt: nat, from: nat, read: Wm, token: int, wm: Wm)
    | Spent(from: nat, read: Wm, wm: Wm)
    | Committed(attempts: nat, conflicted: bool)
    | Exhausted
    | NoOp(attempts: nat)

  /** `log` lists the writers in the order their writes landed; `forced` holds the places
      of the fail-open ones. */
  datatype Sys = Sys(disk: Wm, log: seq<Writer>, phases: map<Writer, Phase>, forced: set<nat>)

  ghost predicate Init(s: Sys, start: Wm) {
    s.disk == start && s.log == [] && s.forced == {} && forall w :: w in s.phases ==> s.phases[w] == Ready(0)
  }

  /** Read, capture the token, mutate. */
  function ReadMutate(muts: Mutations, s: Sys, w: Writer): Sys
    requires w in s.phases && s.phases[w].Ready?
  {
    var a := s.phases[w].attempt;
    match muts(w, s.disk)
    case None => s.(phases := s.phases[w := NoOp(a + 1)])
    case Some(wm) => s.(phases := s.phases[w := Mutated(a, |s.log|, s.disk, SlotUpdateCount(s.disk), wm)])
  }

  /** Re-read the count and write if it still is the token. The re-read may fail, which
      counts as a conflict. */
  function VerifyWrite(s: Sys, w: Writer, readFails: bool): Sys
    requires w in s.phases && s.phases[w].Mutated?
  {
    var p := s.phases[w];
    if !readFails && SlotUpdateCount(s.disk) == p.token then
      Sys(p.wm, s.log + [w], s.phases[w := Committed(p.attempt + 1, p.attempt > 0)], s.forced)
    else if p.attempt + 1 < CAS_RETRY_CAP then s.(phases := s.phases[w := Ready(p.attempt + 1)])
    else s.(phases := s.phases[w := Spent(p.from, p.read, p.wm)])
  }

  /** All retries spent: commit the last mutated state all the same. */
  function FailOpen(s: Sys, w: Writer): Sys
    requires w in s.phases && s.phases[w].Spent?
  {
    Sys(s.phases[w].wm, s.log + [w], s.phases[w := Exhausted], s.forced + {|s.log|})
  }

  datatype Action = DoReadMutate(w: Writer) | DoVerifyWrite(w: Writer, readFails: bool) | DoFailOpen(w: Writer)

  ghost predicate Next(muts: Mutations, s: Sys, a: Action, t: Sys) {
    a.w in s.phases &&
    match a
    case DoReadMutate(w) => s.phases[w].Ready? && t == ReadMutate(muts, s, w)
    case DoVerifyWrite(w, readFails) => s.phases[w].Mutated? && t == VerifyWrite(s, w, readFails)
    case DoFailOpen(w) => s.phases[w].Spent? && t == FailOpen(s, w)
  }

  ghost predicate IsRun(muts: Mutations, start: Wm, states: seq<Sys>, actions: seq<Action>) {
    && |states| == |actions| + 1
    && Init(states[0], start)
    && forall k :: 0 <= k < |actions| ==> Next(muts, states[k], actions[k], states[k + 1])
  }

  ghost predicate NoneExhausted(actions: seq<Action>) {
    forall k :: 0 <= k < |actions| ==> !actions[k].DoFailOpen?
  }

  ghost function Fold(muts: Mutations, start: Wm, log: seq<Writer>): Wm {
    if log == [] then start
    else
      var before := Fold(muts, start, log[..|log| - 1]);
      muts(log[|log| - 1], before).GetOr(before)
  }

  /** Every logged writer did mutate, so the count rises with each commit. */
  ghost predicate Effective(muts: Mutations, start: Wm, log: seq<Writer>) {
    forall k {:trigger log[..k]} :: 0 <= k < |log| ==> muts(log[k], Fold(muts, start, log[..k])).Some?
  }

  ghost predicate PhaseOk(muts: Mutations, start: Wm, s: Sys, w: Writer)
    requires w in s.phases
  {
    var p := s.phases[w];
    && (p.Ready? || p.Mutated? ==> p.attempt < CAS_RETRY_CAP)
    && (p.Mutated? ==> (
          && p.from <= |s.log|
          && p.token == SlotUpdateCount(Fold(muts, start, s.log[..p.from]))
          && muts(w, Fold(muts, start, s.log[..p.from])) == Some(p.wm)))
    && (p.Spent? ==> p.from <= |s.log| && muts(w, Fold(muts, start, s.log[..p.from])) == Some(p.wm))
    && (p.Committed? ==> 1 <= p.attempts <= CAS_RETRY_CAP && (p.conflicted <==> p.attempts > 1))
    && (p.NoOp? ==> 1 <= p.attempts <= CAS_RETRY_CAP)
    && (p.Committed? <==> w in s.log)
    && (p.Committed? ==> multiset(s.log)[w] == 1)
  }

  ghost predicate Good(muts: Mutations, start: Wm, s: Sys) {
    && s.disk == Fold(muts, start, s.log)
    && Effective(muts, start, s.log)
    && (forall w {:trigger PhaseOk(muts, start, s, w)} :: w in s.phases ==> PhaseOk(muts, start, s, w))
    && (forall k :: 0 <= k < |s.log| ==> s.log[k] in s.phases)
  }

  lemma {:induction false} CountsRise(muts: Mutations, start: Wm, log: seq<Writer>, k: nat)
    requires Advances(muts) && Effective(muts, start, log) && k < |log|
    ensures SlotUpdateCount(Fold(muts, start, log[..k])) < SlotUpdateCount(Fold(muts, start, log))
    decreases |log|
  {
    var before := log[..|log| - 1];
    assert forall j {:trigger before[..j]} :: 0 <= j < |before| ==> before[..j] == log[..j] && before[j] == log[j];
    assert muts(log[|log| - 1], Fold(muts, start, log[..|log| - 1])).Some?;
    if k < |before| {
      CountsRise(muts, start, before, k);
      assert before[..k] == log[..k];
    } else {
      assert log[..k] == before;
    }
  }

  lemma PhaseStays(muts: Mutations, start: Wm, s: Sys, t: Sys, w: Writer, d: Writer)
    requires Good(muts, start, s) && w in s.phases && w != d
    requires w in t.phases && t.phases[w] == s.phases[w]
    requires t.log == s.log || t.log == s.log + [d]
    ensures PhaseOk(muts, start, t, w)
  {
    assert PhaseOk(muts, start, s, w);
    var p := s.phases[w];
    if p.Mutated? || p.Spent? {
      assert t.log[..p.from] == s.log[..p.from];
    }
  }

  lemma CommitExtendsFold(muts: Mutations, start: Wm, s: Sys, w: Writer)
    requires Advances(muts) && Good(muts, start, s) && w in s.phases && s.phases[w].Mutated?
    requires SlotUpdateCount(s.disk) == s.phases[w].token
    ensures muts(w, s.disk) == Some(s.phases[w].wm)
  {
    assert PhaseOk(muts, start, s, w);
    var p := s.phases[w];
    if p.from < |s.log| { CountsRise(muts, start, s.log, p.from); }
    assert s.log[..|s.log|] == s.log;
  }

  lemma AppendEffective(muts: Mutations, start: Wm, log: seq<Writer>, w: Writer)
    requires Effective(muts, start, log) && muts(w, Fold(muts, start, log)).Some?
    ensures Effective(muts, start, log + [w])
    ensures Fold(muts, start, log + [w]) == muts(w, Fold(muts, start, log)).value
  {
    var more := log + [w];
    assert more[..|log|] == log;
    forall k | 0 <= k < |more|
      ensures muts(more[k], Fold(muts, start, more[..k])).Some?
    {
      if k < |log| { assert more[..k] == log[..k]; }
    }
  }

  lemma ActorOk(muts: Mutations, start: Wm, s: Sys, a: Action, t: Sys)
    requires Good(muts, start, s) && Next(muts, s, a, t) && !a.DoFailOpen?
    ensures PhaseOk(muts, start, t, a.w)
  {
    assert PhaseOk(muts, start, s, a.w);
    assert s.log[..|s.log|] == s.log;
  }

  lemma NextKeepsGood(muts: Mutations, start: Wm, s: Sys, a: Action, t: Sys)
    requires Advances(muts) && Good(muts, start, s) && Next(muts, s, a, t) && !a.DoFailOpen?
    ensures Good(muts, start, t)
  {
    if t.log != s.log {
      CommitExtendsFold(muts, start, s, a.w);
      AppendEffective(muts, start, s.log, a.w);
    }
    forall w | w in t.phases
      ensures PhaseOk(muts, start, t, w)
    {
      if w == a.w {
        ActorOk(muts, start, s, a, t);
      } else {
        PhaseStays(muts, start, s, t, w, a.w);
      }
    }
  }

  lemma {:induction false} RunIsGood(muts: Mutations, start: Wm, states: seq<Sys>, actions: seq<Action>)
    requires Advances(muts) && IsRun(muts, start, states, actions) && NoneExhausted(actions)
    ensures Good(muts, start, states[|actions|])
    decreases |actions|
  {
    var n := |actions|;
    if n == 0 {
    } else {
      RunIsGood(muts, start, states[..n], actions[..n - 1]);
      NextKeepsGood(muts, start, states[n - 1], actions[n - 1], states[n]);
    }
  }

  // ----- every run, fail-open writes included -----

  /** A fail-open write landed at or after place `from`. */
  ghost predicate ForcedSince(s: Sys, from: nat) {
    exists k :: k in s.forced && from <= k
  }

  /** While no fail-open write has landed since the read, every write raised the count. */
  ghost predicate ReadOk(muts: Mutations, s: Sys, w: Writer)
    requires w in s.phases
  {
    var p := s.phases[w];
    && (p.Mutated? ==>
          && p.from <= |s.log| && p.token == SlotUpdateCount(p.read) && muts(w, p.read) == Some(p.wm)
          && (ForcedSince(s, p.from) || Unforced(s, p.from, p.read)))
    && (p.Spent? ==> p.from <= |s.log| && muts(w, p.read) == Some(p.wm))
  }

  ghost predicate Unforced(s: Sys, from: nat, read: Wm) {
    if from == |s.log| then s.disk == read else SlotUpdateCount(s.disk) > SlotUpdateCount(read)
  }

  ghost predicate Sane(muts: Mutations, s: Sys) {
    && (forall k :: k in s.forced ==> k < |s.log|)
    && forall w {:trigger ReadOk(muts, s, w)} :: w in s.phases ==> ReadOk(muts, s, w)
  }

  lemma OtherStaysSane(muts: Mutations, s: Sys, a: Action, t: Sys, w: Writer)
    requires Advances(muts) && Sane(muts, s) && Next(muts, s, a, t) && w in s.phases && w != a.w
    ensures ReadOk(muts, t, w)
  {
    assert ReadOk(muts, s, w) && ReadOk(muts, s, a.w);
    var p := s.phases[w];
    if p.Mutated? && !a.DoReadMutate? && t.log != s.log {
      if a.DoFailOpen? {
        assert |s.log| in t.forced;
      } else if ForcedSince(s, p.from) {
        var k :| k in s.forced && p.from <= k;
        assert k in t.forced;
      } else {
        assert Unforced(s, p.from, p.read);
      }
    }
  }

  lemma NextKeepsSane(muts: Mutations, s: Sys, a: Action, t: Sys)
    requires Advances(muts) && Sane(muts, s) && Next(muts, s, a, t)
    ensures Sane(muts, t)
  {
    forall w | w in t.phases
      ensures ReadOk(muts, t, w)
    {
      if w == a.w {
        assert ReadOk(muts, s, w);
      } else {
        OtherStaysSane(muts, s, a, t, w);
      }
    }
  }

  lemma {:induction false} RunIsSane(muts: Mutations, start: Wm, states: seq<Sys>, actions: seq<Action>)
    requires Advances(muts) && IsRun(muts, start, states, actions)
    ensures Sane(muts, states[|actions|])
    decreases |actions|
  {
    var n := |actions|;
    if n == 0 {
    } else {
      RunIsSane(muts, start, states[..n], actions[..n - 1]);
      NextKeepsSane(muts, states[n - 1], actions[n - 1], states[n]);
    }
  }

  /** The call's verify re-read finds the count it captured, so it commits. */
  ghost predicate Verifies(s: Sys, w: Writer) {
    w in s.phases && s.phases[w].Mutated? && SlotUpdateCount(s.disk) == s.phases[w].token
  }

  /** In every run: a write that passes its verify re-read replaces the very state it read,
      and is its mutation, unless a fail-open write has landed since that read. */
  lemma CommitIsCurrent(muts: Mutations, start: Wm, states: seq<Sys>, actions: seq<Action>, w: Writer)
    requires Advances(muts) && IsRun(muts, start, states, actions) && Verifies(states[|actions|], w)
    requires !ForcedSince(states[|actions|], states[|actions|].phases[w].from)
    ensures var s := states[|actions|];
            s.disk == s.phases[w].read && muts(w, s.disk) == Some(s.phases[w].wm)
  {
    RunIsSane(muts, start, states, actions);
    assert ReadOk(muts, states[|actions|], w);
  }

  /** In every run: a write that passes its verify re-read overwrites writes it never saw
      exactly when a fail-open write has landed since its read. */
  lemma StaleCommitIff(muts: Mutations, start: Wm, states: seq<Sys>, actions: seq<Action>, w: Writer)
    requires Advances(muts) && IsRun(muts, start, states, actions) && Verifies(states[|actions|], w)
    ensures var s := states[|actions|];
            s.phases[w].from < |s.log| <==> ForcedSince(s, s.phases[w].from)
  {
    RunIsSane(muts, start, states, actions);
    var s := states[|actions|];
    assert ReadOk(muts, s, w);
    if ForcedSince(s, s.phases[w].from) {
      var k :| k in s.forced && s.phases[w].from <= k;
      assert k < |s.log|;
    }
  }

  // ----- counters -----

  /** Each mutation adds `delta(w, name)` to every counter. */
  ghost predicate Adds(muts: Mutations, delta: (Writer, string) -> int) {
    forall w, wm, name :: muts(w, wm).Some? ==>
      Counter(muts(w, wm).value, name) == Counter(wm, name) + delta(w, name)
  }

  ghost function Total(delta: (Writer, string) -> int, log: seq<Writer>, name: string): int {
    if log == [] then 0 else Total(delta, log[..|log| - 1], name) + delta(log[|log| - 1], name)
  }

  lemma {:induction false} FoldTotals(muts: Mutations, start: Wm, log: seq<Writer>, delta: (Writer, string) -> int,
                                      name: string)
    requires Adds(muts, delta) && Effective(muts, start, log)
    ensures Counter(Fold(muts, start, log), name) == Counter(start, name) + Total(delta, log, name)
    decreases |log|
  {
    if log == [] {
    } else {
      var before := log[..|log| - 1];
      assert forall j {:trigger before[..j]} :: 0 <= j < |before| ==> before[..j] == log[..j] && before[j] == log[j];
      assert muts(log[|log| - 1], Fold(muts, start, log[..|log| - 1])).Some?;
      FoldTotals(muts, start, before, delta, name);
    }
  }

  /** In every run without an exhausted call, every counter is its start value plus all
      committed increments; a committed call is in that sum once, any other call not at all. */
  lemma NoIncrementLost(muts: Mutations, start: Wm, states: seq<Sys>, actions: seq<Action>,
                        delta: (Writer, string) -> int, name: string, w: Writer)
    requires Advances(muts) && Adds(muts, delta)
    requires IsRun(muts, start, states, actions) && NoneExhausted(actions)
    requires w in states[|actions|].phases
    ensures var s := states[|actions|];
            && Counter(s.disk, name) == Counter(start, name) + Total(delta, s.log, name)
            && (s.phases[w].Committed? ==> multiset(s.log)[w] == 1)
            && (!s.phases[w].Committed? ==> w !in s.log)
  {
    RunIsGood(muts, start, states, actions);
    FoldTotals(muts, start, states[|actions|].log, delta, name);
    assert PhaseOk(muts, start, states[|actions|], w);
  }

  lemma {:induction false} TotalSplits(delta: (Writer, string) -> int, a: seq<Writer>, b: seq<Writer>, name: string)
    ensures Total(delta, a + b, name) == Total(delta, a, name) + Total(delta, b, name)
    decreases |b|
  {
    if b == [] {
      assert a + b == a;
    } else {
      assert (a + b)[..|a + b| - 1] == a + b[..|b| - 1];
      TotalSplits(delta, a, b[..|b| - 1], name);
    }
  }

  /** The first fail-open write: from a run in which nothing was lost so far, an exhausted
      commit keeps a counter's sum exactly when what peers committed since its last read
      adds nothing to that counter. */
  lemma FailOpenIff(muts: Mutations, start: Wm, states: seq<Sys>, actions: seq<Action>,
                    delta: (Writer, string) -> int, name: string, w: Writer)
    requires Advances(muts) && Adds(muts, delta)
    requires IsRun(muts, start, states, actions) && NoneExhausted(actions)
    requires w in states[|actions|].phases && states[|actions|].phases[w].Spent?
    ensures var s := states[|actions|];
            var t := FailOpen(s, w);
            && s.phases[w].from <= |s.log|
            && (Counter(t.disk, name) == Counter(start, name) + Total(delta, t.log, name)
               <==> Total(delta, s.log[s.phases[w].from..], name) == 0)
  {
    RunIsGood(muts, start, states, actions);
    var s := states[|actions|];
    var t := FailOpen(s, w);
    var from := s.phases[w].from;
    assert PhaseOk(muts, start, s, w);
    var read := s.log[..from];
    assert forall j {:trigger read[..j]} :: 0 <= j < |read| ==> read[..j] == s.log[..j] && read[j] == s.log[j];
    FoldTotals(muts, start, read, delta, name);
    assert s.log == read + s.log[from..];
    TotalSplits(delta, read, s.log[from..], name);
    assert t.log[..|t.log| - 1] == s.log;
  }

  // ----- what every run loses -----

  /** By how much a write takes the counter back: what landed since its read. */
  ghost function Overwritten(s: Sys, a: Action, t: Sys, name: string): int {
    if t.log == s.log || a.w !in s.phases then 0
    else if s.phases[a.w].Mutated? then Counter(s.disk, name) - Counter(s.phases[a.w].read, name)
    else if s.phases[a.w].Spent? then Counter(s.disk, name) - Counter(s.phases[a.w].read, name)
    else 0
  }

  ghost function Lost(states: seq<Sys>, actions: seq<Action>, name: string): int
    requires |states| == |actions| + 1
    decreases |actions|
  {
    var n := |actions|;
    if n == 0 then 0
    else Lost(states[..n], actions[..n - 1], name) + Overwritten(states[n - 1], actions[n - 1], states[n], name)
  }

  /** Conservation in every run, fail-open writes included: a counter is its start value
      plus the increments of all writes that landed, less what each of them overwrote. */
  lemma {:induction false} CountersBalance(muts: Mutations, start: Wm, states: seq<Sys>, actions: seq<Action>,
                                           delta: (Writer, string) -> int, name: string)
    requires Advances(muts) && Adds(muts, delta) && IsRun(muts, start, states, actions)
    ensures var s := states[|actions|];
            Counter(s.disk, name) == Counter(start, name) + Total(delta, s.log, name) - Lost(states, actions, name)
    decreases |actions|
  {
    var n := |actions|;
    if n == 0 {
    } else {
      CountersBalance(muts, start, states[..n], actions[..n - 1], delta, name);
      RunIsSane(muts, start, states[..n], actions[..n - 1]);
      assert Next(muts, states[n - 1], actions[n - 1], states[n]);
      assert ReadOk(muts, states[n - 1], actions[n - 1].w);
      StepBalance(muts, states[n - 1], actions[n - 1], states[n], delta, name);
    }
  }

  lemma StepBalance(muts: Mutations, s: Sys, a: Action, t: Sys, delta: (Writer, string) -> int, name: string)
    requires Adds(muts, delta) && Next(muts, s, a, t)
    requires ReadOk(muts, s, a.w)
    ensures Counter(t.disk, name) - Total(delta, t.log, name) ==
            Counter(s.disk, name) - Total(delta, s.log, name) - Overwritten(s, a, t, name)
  {
    if t.log == s.log {
      assert t.disk == s.disk;
    } else {
      var p := s.phases[a.w];
      assert muts(a.w, p.read) == Some(t.disk);
      WriteAdds(muts, delta, a.w, p.read, t.disk, name);
      TotalSnoc(delta, s.log, a.w, name);
    }
  }

  lemma WriteAdds(muts: Mutations, delta: (Writer, string) -> int, w: Writer, read: Wm, wm: Wm, name: string)
    requires Adds(muts, delta) && muts(w, read) == Some(wm)
    ensures Counter(wm, name) == Counter(read, name) + delta(w, name)
  {
  }

  lemma TotalSnoc(delta: (Writer, string) -> int, log: seq<Writer>, w: Writer, name: string)
    ensures Total(delta, log + [w], name) == Total(delta, log, name) + delta(w, name)
  {
    assert (log + [w])[..|log|] == log;
  }

  // ----- runs that lose nothing -----

  /** A step that writes replaces the very state its call read: nothing landed in between. */
  ghost predicate SeesAll(s: Sys, a: Action, t: Sys) {
    t.log != s.log && a.w in s.phases && (s.phases[a.w].Mutated? || s.phases[a.w].Spent?) ==>
      s.phases[a.w].from == |s.log|
  }

  ghost predicate AllSee(states: seq<Sys>, actions: seq<Action>)
    requires |states| == |actions| + 1
  {
    forall k {:trigger actions[k]} :: 0 <= k < |actions| ==> SeesAll(states[k], actions[k], states[k + 1])
  }

  ghost predicate ForcedSee(states: seq<Sys>, actions: seq<Action>)
    requires |states| == |actions| + 1
  {
    forall k {:trigger actions[k]} :: 0 <= k < |actions| && actions[k].DoFailOpen? ==>
      SeesAll(states[k], actions[k], states[k + 1])
  }

  /** While every fail-open write saw all there was, every write has raised the count. */
  ghost predicate Rising(muts: Mutations, s: Sys) {
    forall w {:trigger s.phases[w]} :: w in s.phases ==>
      var p := s.phases[w];
      p.Mutated? || p.Spent? ==> p.from <= |s.log| && muts(w, p.read) == Some(p.wm) && Unforced(s, p.from, p.read)
  }

  lemma WriteRaises(muts: Mutations, s: Sys, a: Action, t: Sys)
    requires Advances(muts) && Sane(muts, s) && Rising(muts, s) && Next(muts, s, a, t) && t.log != s.log
    requires a.DoFailOpen? ==> SeesAll(s, a, t)
    ensures SeesAll(s, a, t) && s.phases[a.w].read == s.disk && SlotUpdateCount(t.disk) > SlotUpdateCount(s.disk)
  {
    assert ReadOk(muts, s, a.w);
    assert Unforced(s, s.phases[a.w].from, s.phases[a.w].read);
  }

  lemma NextKeepsRising(muts: Mutations, s: Sys, a: Action, t: Sys)
    requires Advances(muts) && Sane(muts, s) && Rising(muts, s) && Next(muts, s, a, t)
    requires a.DoFailOpen? ==> SeesAll(s, a, t)
    ensures Rising(muts, t) && SeesAll(s, a, t)
    ensures forall name :: Overwritten(s, a, t, name) == 0
  {
    if t.log != s.log { WriteRaises(muts, s, a, t); }
    forall w | w in t.phases && (t.phases[w].Mutated? || t.phases[w].Spent?)
      ensures var p := t.phases[w];
              p.from <= |t.log| && muts(w, p.read) == Some(p.wm) && Unforced(t, p.from, p.read)
    {
      if w != a.w || a.DoVerifyWrite? { assert Unforced(s, s.phases[w].from, s.phases[w].read); }
    }
  }

  lemma {:induction false} RunLosesNothing(muts: Mutations, start: Wm, states: seq<Sys>, actions: seq<Action>)
    requires Advances(muts) && IsRun(muts, start, states, actions) && ForcedSee(states, actions)
    ensures Rising(muts, states[|actions|]) && AllSee(states, actions)
    ensures forall name :: Lost(states, actions, name) == 0
    decreases |actions|
  {
    var n := |actions|;
    if n == 0 {
    } else {
      var less, acts := states[..n], actions[..n - 1];
      PrefixRun(muts, start, states, actions);
      RunLosesNothing(muts, start, less, acts);
      RunIsSane(muts, start, less, acts);
      NextKeepsRising(muts, states[n - 1], actions[n - 1], states[n]);
      LastSees(states, actions);
    }
  }

  lemma PrefixRun(muts: Mutations, start: Wm, states: seq<Sys>, actions: seq<Action>)
    requires IsRun(muts, start, states, actions) && ForcedSee(states, actions) && actions != []
    ensures var n := |actions|;
            && IsRun(muts, start, states[..n], actions[..n - 1]) && ForcedSee(states[..n], actions[..n - 1])
            && Next(muts, states[n - 1], actions[n - 1], states[n])
            && (actions[n - 1].DoFailOpen? ==> SeesAll(states[n - 1], actions[n - 1], states[n]))
  {
    var n := |actions|;
    var acts := actions[..n - 1];
    forall k | 0 <= k < n - 1 && acts[k].DoFailOpen?
      ensures SeesAll(states[..n][k], acts[k], states[..n][k + 1])
    {
      assert acts[k] == actions[k];
    }
  }

  lemma LastSees(states: seq<Sys>, actions: seq<Action>)
    requires |states| == |actions| + 1 && actions != []
    requires AllSee(states[..|actions|], actions[..|actions| - 1])
    requires SeesAll(states[|actions| - 1], actions[|actions| - 1], states[|actions|])
    ensures AllSee(states, actions)
  {
    var n := |actions|;
    forall k | 0 <= k < n
      ensures SeesAll(states[k], actions[k], states[k + 1])
    {
      if k < n - 1 { assert actions[..n - 1][k] == actions[k]; }
    }
  }

  /** In every run: all writes replace the state their calls read exactly when the fail-open
      ones do. Then nothing of any counter is lost, however many calls are exhausted. */
  lemma AllSeeIff(muts: Mutations, start: Wm, states: seq<Sys>, actions: seq<Action>, name: string)
    requires Advances(muts) && IsRun(muts, start, states, actions)
    ensures AllSee(states, actions) <==> ForcedSee(states, actions)
    ensures ForcedSee(states, actions) ==> Lost(states, actions, name) == 0
  {
    if ForcedSee(states, actions) { RunLosesNothing(muts, start, states, actions); }
  }

  /** Spent calls that peers overtook exist: one caller's re-reads fail three times, a peer
      commits while it backs off, and its fail-open write takes the peer's increment away. */
  lemma ExhaustedLosesIncrement(s: Sys, muts: Mutations)
    requires muts == ((w, wm) => Some(Wm(Count(SlotUpdateCount(wm) + 1), wm.counters["n" := Counter(wm, "n") + 1])))
    requires Init(s, Wm(Absent, map[])) && 0 in s.phases && 1 in s.phases
    ensures var s1 := VerifyWrite(ReadMutate(muts, s, 0), 0, true);
            var s2 := VerifyWrite(ReadMutate(muts, s1, 0), 0, true);
            var s3 := VerifyWrite(ReadMutate(muts, s2, 0), 0, true);
            var s4 := VerifyWrite(ReadMutate(muts, s3, 1), 1, false);
            s4.phases[0].Spent? && s4.log == [1]
            && FailOpen(s4, 0).log == [1, 0] && Counter(FailOpen(s4, 0).disk, "n") == 1
  {
    var one := Wm(Count(1), map["n" := 1]);
    var s1 := VerifyWrite(ReadMutate(muts, s, 0), 0, true);
    assert s1.disk == s.disk && s1.phases[0] == Ready(1);
    var s2 := VerifyWrite(ReadMutate(muts, s1, 0), 0, true);
    assert s2.disk == s.disk && s2.phases[0] == Ready(2);
    var s3 := VerifyWrite(ReadMutate(muts, s2, 0), 0, true);
    assert s3.disk == s.disk && s3.phases[0] == Spent(0, s.disk, one) && s3.phases[1] == Ready(0);
    assert muts(1, s3.disk) == Some(one);
  }

  // ----- the count comes back -----

  /** Each writer counts for itself. */
  function OwnName(w: Writer): string {
    seq(w + 1, _ => 'w')
  }

  function CountOwn(w: Writer, wm: Wm): Option<Wm> {
    Some(Wm(Count(SlotUpdateCount(wm) + 1), wm.counters[OwnName(w) := Counter(wm, OwnName(w)) + 1]))
  }

  function CommitFirst(s: Sys, w: Writer): Sys
    requires w in s.phases && s.phases[w].Ready?
  {
    var t := ReadMutate(CountOwn, s, w);
    VerifyWrite(t, w, false)
  }

  /** Writer 0 spends its retries at count 0. Writer 1 commits, writer 2 reads at count 1,
      writer 3 commits. Writer 0 fails open, which puts the count back to 1. Writer 2 then
      passes its verify re-read, reports a clean commit on its first attempt, and erases
      writer 0's increment. */
  lemma CountComesBack(s: Sys)
    requires Init(s, Wm(Absent, map[])) && s.phases.Keys == {0, 1, 2, 3}
    ensures var s1 := VerifyWrite(ReadMutate(CountOwn, s, 0), 0, true);
            var s2 := VerifyWrite(ReadMutate(CountOwn, s1, 0), 0, true);
            var s3 := VerifyWrite(ReadMutate(CountOwn, s2, 0), 0, true);
            var s4 := ReadMutate(CountOwn, CommitFirst(s3, 1), 2);
            var s5 := FailOpen(CommitFirst(s4, 3), 0);
            var s6 := VerifyWrite(s5, 2, false);
            && Verifies(s5, 2) && s6.phases[2] == Committed(1, false)
            && Counter(s5.disk, OwnName(0)) == 1 && Counter(s6.disk, OwnName(0)) == 0
            && s6.log == [1, 3, 0, 2] && ForcedSince(s5, s5.phases[2].from)
  {
    Names();
    var s3 := SpentFirst(s);
    var one := Wm(Count(1), map[OwnName(1) := 1]);
    var a := CommitFirst(s3, 1);
    assert a.disk == one && a.log == [1] && a.phases[2] == Ready(0) && a.phases[3] == Ready(0);
    assert a.phases[0] == s3.phases[0] && a.forced == {};
    SecondHalf(a, one);
  }

  /** From the state in which only writer 1 has committed. */
  lemma SecondHalf(a: Sys, one: Wm)
    requires one == Wm(Count(1), map[OwnName(1) := 1]) && a.disk == one && a.log == [1] && a.forced == {}
    requires a.phases.Keys == {0, 1, 2, 3} && a.phases[2] == Ready(0) && a.phases[3] == Ready(0)
    requires a.phases[0] == Spent(0, Wm(Absent, map[]), Wm(Count(1), map[OwnName(0) := 1]))
    requires forall v: nat, w: nat :: v != w ==> OwnName(v) != OwnName(w)
    ensures var s4 := ReadMutate(CountOwn, a, 2);
            var s5 := FailOpen(CommitFirst(s4, 3), 0);
            var s6 := VerifyWrite(s5, 2, false);
            && Verifies(s5, 2) && s6.phases[2] == Committed(1, false)
            && Counter(s5.disk, OwnName(0)) == 1 && Counter(s6.disk, OwnName(0)) == 0
            && s6.log == [1, 3, 0, 2] && ForcedSince(s5, s5.phases[2].from)
  {
    var s4 := ReadMutate(CountOwn, a, 2);
    assert s4.phases[2] == Mutated(0, 1, one, 1, CountOwn(2, one).value);
    var b := CommitFirst(s4, 3);
    assert b.log == [1, 3] && b.phases[0] == a.phases[0];
    var s5 := FailOpen(b, 0);
    assert 2 in s5.forced && SlotUpdateCount(s5.disk) == 1;
  }

  lemma Names()
    ensures forall v: nat, w: nat :: v != w ==> OwnName(v) != OwnName(w)
  {
    forall v: nat, w: nat | v != w
      ensures OwnName(v) != OwnName(w)
    {
      assert |OwnName(v)| == v + 1 && |OwnName(w)| == w + 1;
    }
  }

  lemma SpentFirst(s: Sys) returns (s3: Sys)
    requires Init(s, Wm(Absent, map[])) && s.phases.Keys == {0, 1, 2, 3}
    ensures s3 == var s1 := VerifyWrite(ReadMutate(CountOwn, s, 0), 0, true);
                  var s2 := VerifyWrite(ReadMutate(CountOwn, s1, 0), 0, true);
                  VerifyWrite(ReadMutate(CountOwn, s2, 0), 0, true)
    ensures s3.disk == s.disk && s3.log == [] && s3.forced == {} && s3.phases.Keys == {0, 1, 2, 3}
    ensures s3.phases[0] == Spent(0, s.disk, Wm(Count(1), map[OwnName(0) := 1]))
    ensures s3.phases[1] == s3.phases[2] == s3.phases[3] == Ready(0)
  {
    var s1 := VerifyWrite(ReadMutate(CountOwn, s, 0), 0, true);
    assert s1.disk == s.disk && s1.phases[0] == Ready(1);
    var s2 := VerifyWrite(ReadMutate(CountOwn, s1, 0), 0, true);
    assert s2.disk == s.disk && s2.phases[0] == Ready(2);
    s3 := VerifyWrite(ReadMutate(CountOwn, s2, 0), 0, true);
  }

  // ----- how many attempts, and when the write is forced -----

  /** A verify re-read after which nothing is written. */
  ghost predicate Refused(states: seq<Sys>, actions: seq<Action>, k: nat)
    requires |states| == |actions| + 1 && k < |actions|
  {
    actions[k].DoVerifyWrite? && states[k + 1].log == states[k].log
  }

  /** How many of this writer's verify re-reads among the first `n` steps wrote nothing. */
  ghost function Refusals(states: seq<Sys>, actions: seq<Action>, w: Writer, n: nat): nat
    requires |states| == |actions| + 1 && n <= |actions|
    decreases n
  {
    if n == 0 then 0
    else
      Refusals(states, actions, w, n - 1)
      + (if actions[n - 1].w == w && Refused(states, actions, n - 1) then 1 else 0)
  }

  ghost predicate Accounted(p: Phase, refusals: nat) {
    match p
    case Ready(attempt) => attempt == refusals < 3
    case Mutated(attempt, _, _, _, _) => attempt == refusals < 3
    case Spent(_, _, _) => refusals == 3
    case Exhausted => refusals == 3
    case Committed(attempts, conflicted) => attempts == refusals + 1 <= 3 && (conflicted <==> refusals > 0)
    case NoOp(attempts) => attempts == refusals + 1 <= 3
  }

  /** In every run: a call comes to its fail-open write exactly with its third conflict; one
      that commits or finds nothing to do reports as many attempts as it met conflicts, and
      one more. */
  lemma {:induction false} AttemptsAccounted(muts: Mutations, start: Wm, states: seq<Sys>, actions: seq<Action>,
                                             w: Writer, n: nat)
    requires IsRun(muts, start, states, actions) && n <= |actions| && w in states[n].phases
    ensures Accounted(states[n].phases[w], Refusals(states, actions, w, n))
    decreases n
  {
    if n == 0 {
    } else {
      SameWriters(muts, start, states, actions, n - 1);
      AttemptsAccounted(muts, start, states, actions, w, n - 1);
      StepAccounted(muts, start, states, actions, w, n - 1);
    }
  }

  lemma SameWriters(muts: Mutations, start: Wm, states: seq<Sys>, actions: seq<Action>, k: nat)
    requires IsRun(muts, start, states, actions) && k < |actions|
    ensures states[k].phases.Keys == states[k + 1].phases.Keys
  {
    assert Next(muts, states[k], actions[k], states[k + 1]);
  }

  lemma StepAccounted(muts: Mutations, start: Wm, states: seq<Sys>, actions: seq<Action>, w: Writer, k: nat)
    requires IsRun(muts, start, states, actions) && k < |actions| && w in states[k].phases
    requires Accounted(states[k].phases[w], Refusals(states, actions, w, k))
    ensures w in states[k + 1].phases && Accounted(states[k + 1].phases[w], Refusals(states, actions, w, k + 1))
  {
    assert Next(muts, states[k], actions[k], states[k + 1]);
    assert |states[k].log + [actions[k].w]| != |states[k].log|;
  }

  /** The step at which a writer that is about to verify read. */
  lemma {:induction false} LastRead(muts: Mutations, start: Wm, states: seq<Sys>, actions: seq<Action>, w: Writer,
                                    k: nat)
    returns (j: nat)
    requires IsRun(muts, start, states, actions) && k <= |actions|
    requires w in states[k].phases && states[k].phases[w].Mutated?
    ensures j < k && actions[j] == DoReadMutate(w) && states[k].phases[w].token == SlotUpdateCount(states[j].disk)
    ensures forall i :: j < i < k ==> actions[i] != DoReadMutate(w)
    decreases k
  {
    assert Next(muts, states[k - 1], actions[k - 1], states[k - 1 + 1]);
    if actions[k - 1] == DoReadMutate(w) {
      j := k - 1;
    } else {
      j := LastRead(muts, start, states, actions, w, k - 1);
    }
  }

  /** A verify re-read refuses the write exactly when it fails, or finds another count than
      its call last read. */
  lemma RefusedIff(muts: Mutations, start: Wm, states: seq<Sys>, actions: seq<Action>, k: nat) returns (j: nat)
    requires IsRun(muts, start, states, actions) && k < |actions| && actions[k].DoVerifyWrite?
    ensures j < k && actions[j] == DoReadMutate(actions[k].w)
    ensures forall i :: j < i < k ==> actions[i] != DoReadMutate(actions[k].w)
    ensures Refused(states, actions, k) <==>
      actions[k].readFails || SlotUpdateCount(states[k].disk) != SlotUpdateCount(states[j].disk)
  {
    assert Next(muts, states[k], actions[k], states[k + 1]);
    j := LastRead(muts, start, states, actions, actions[k].w, k);
    assert |states[k].log + [actions[k].w]| != |states[k].log|;
  }

  // ----- one caller's loop -----

  datatype Report = Report(noop: bool, attempts: nat, conflicted: bool, exhausted: bool)

  /** What the caller meets in one attempt: what peers leave on disk before the verify
      re-read, and whether that re-read fails. */
  datatype Weather = Weather(before: Option<Wm>, readFails: bool, after: Option<Wm>)

  /** What is on disk when attempt `k` reads. */
  function SeenAt(start: Wm, weather: seq<Weather>, k: nat): Wm
    requires k <= |weather|
    decreases k
  {
    if k == 0 then start
    else weather[k - 1].after.GetOr(weather[k - 1].before.GetOr(SeenAt(start, weather, k - 1)))
  }

  /** Its verify re-read fails, or finds another count than it read. */
  predicate Conflicts(start: Wm, weather: seq<Weather>, k: nat)
    requires k < |weather|
  {
    var seen := SeenAt(start, weather, k);
    weather[k].readFails || SlotUpdateCount(weather[k].before.GetOr(seen)) != SlotUpdateCount(seen)
  }

  /** Each of the first `n` attempts had something to write and met a conflict. */
  predicate Overtaken(start: Wm, mutate: Wm -> Option<Wm>, weather: seq<Weather>, n: nat)
    requires n <= |weather|
  {
    forall k :: 0 <= k < n ==> mutate(SeenAt(start, weather, k)).Some? && Conflicts(start, weather, k)
  }

  class Disk {
    var wm: Wm

    constructor (start: Wm)
      ensures wm == start
    {
      wm := start;
    }

    method PeerWrites(other: Option<Wm>)
      modifies this
      ensures wm == other.GetOr(old(wm))
    {
      if other.Some? {
        wm := other.value;
      }
    }

    /** `loop_state_cas_retry`. The call stops at its first attempt that finds nothing to do or
        meets no conflict, and writes what it made of the state that attempt read; only
        when all three meet a conflict does it write regardless. A no-op writes nothing. */
    method LoopStateCasRetry(mutate: Wm -> Option<Wm>, weather: seq<Weather>) returns (r: Report)
      requires |weather| == CAS_RETRY_CAP
      modifies this
      ensures 1 <= r.attempts <= 3 && Overtaken(old(wm), mutate, weather, r.attempts - 1)
      ensures r.exhausted <==> Overtaken(old(wm), mutate, weather, 3)
      ensures r.noop <==> !r.exhausted && mutate(SeenAt(old(wm), weather, r.attempts - 1)).None?
      ensures r.noop ==> wm == SeenAt(old(wm), weather, r.attempts - 1)
      ensures !r.noop ==> mutate(SeenAt(old(wm), weather, r.attempts - 1)) == Some(wm)
      ensures !r.noop && !r.exhausted ==> !Conflicts(old(wm), weather, r.attempts - 1)
      ensures r.exhausted ==> r.attempts == 3
      ensures r.conflicted <==> !r.noop && (r.attempts > 1 || r.exhausted)
    {
      var attempt := 0;
      var last: Wm := wm;
      while attempt < CAS_RETRY_CAP
        invariant attempt <= CAS_RETRY_CAP
        invariant wm == SeenAt(old(wm), weather, attempt)
        invariant Overtaken(old(wm), mutate, weather, attempt)
        invariant attempt > 0 ==> mutate(SeenAt(old(wm), weather, attempt - 1)) == Some(last)
      {
        var token := SlotUpdateCount(wm);
        var mutated := mutate(wm);
        if mutated.None? {
          return Report(true, attempt + 1, false, false);
        }
        last := mutated.value;
        PeerWrites(weather[attempt].before);
        var conflict := weather[attempt].readFails || SlotUpdateCount(wm) != token;
        if !conflict {
          wm := last;
          return Report(false, attempt + 1, attempt > 0, false);
        }
        PeerWrites(weather[attempt].after);
        attempt := attempt + 1;
      }
      wm := last;
      return Report(false, CAS_RETRY_CAP, true, true);
    }
  }
}
