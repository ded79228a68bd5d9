/** Optimistic concurrency without mutual exclusion: `_rmw_with_conflict_retry` around the
  cycle of `locked_modify_jsonl`, for any number of clients whose locks may be stolen.

  The backend is a versioned register. `refresh` takes its current version and value; the
  conditional write is atomic and is rejected unless the version is still the one that was
  taken (If-Match, section 13.1.1 of RFC 9110; 412, section 15.5.13). */
module ConflictRetry {
  import opened Wrappers

  const CONFLICT_RETRY_CAP: nat := 3

  type Client = nat

  /** Where a caller stands. `at` is the version its value was read at. */
  datatype Phase<V> =
    | Ready(attempt: nat)
    | Fetched(attempt: nat, at: nat, value: V)
    | Modified(attempt: nat, at: nat, value: V)
    | Returned(attempt: nat, value: V)
    | Conflicted(attempt: nat)
    | Failed(attempt: nat)

  /** The register, and the callers whose write it accepted, in order. */
  datatype Sys<V> = Sys(value: V, version: nat, log: seq<Client>, phases: map<Client, Phase<V>>)

  /** Each caller's modifier; None where it raises. */
  type Modifiers<!V> = (Client, V) -> Option<V>

  ghost predicate Init<V>(s: Sys<V>, start: V) {
    s.value == start && s.version == 0 && s.log == [] && forall c :: c in s.phases ==> s.phases[c] == Ready(0)
  }

  function Moved<V>(s: Sys<V>, c: Client, p: Phase<V>): Sys<V> {
    s.(phases := s.phases[c := p])
  }

  function Refresh<V>(s: Sys<V>, c: Client): Sys<V>
    requires c in s.phases && s.phases[c].Ready?
  {
    Moved(s, c, Fetched(s.phases[c].attempt, s.version, s.value))
  }

  function Modify<V>(mods: Modifiers<V>, s: Sys<V>, c: Client): Sys<V>
    requires c in s.phases && s.phases[c].Fetched?
  {
    var p := s.phases[c];
    match mods(c, p.value)
    case None => Moved(s, c, Failed(p.attempt))
    case Some(v) => Moved(s, c, Modified(p.attempt, p.at, v))
  }

  /** The conditional write, and what the retry loop makes of a rejection: it re-raises on
      the last attempt or past the deadline. */
  function Put<V>(s: Sys<V>, c: Client, pastDeadline: bool): Sys<V>
    requires c in s.phases && s.phases[c].Modified?
  {
    var p := s.phases[c];
    if p.at == s.version then
      Sys(p.value, s.version + 1, s.log + [c], s.phases[c := Returned(p.attempt, p.value)])
    else if p.attempt == CONFLICT_RETRY_CAP - 1 || pastDeadline then Moved(s, c, Conflicted(p.attempt))
    else Moved(s, c, Ready(p.attempt + 1))
  }

  datatype Action = DoRefresh(c: Client) | DoModify(c: Client) | DoPut(c: Client, pastDeadline: bool)

  ghost predicate Next<V>(mods: Modifiers<V>, s: Sys<V>, a: Action, t: Sys<V>) {
    a.c in s.phases &&
    match a
    case DoRefresh(c) => s.phases[c].Ready? && t == Refresh(s, c)
    case DoModify(c) => s.phases[c].Fetched? && t == Modify(mods, s, c)
    case DoPut(c, pastDeadline) => s.phases[c].Modified? && t == Put(s, c, pastDeadline)
  }

  ghost predicate IsRun<V>(mods: Modifiers<V>, start: V, states: seq<Sys<V>>, actions: seq<Action>) {
    && |states| == |actions| + 1
    && Init(states[0], start)
    && forall k :: 0 <= k < |actions| ==> Next(mods, states[k], actions[k], states[k + 1])
  }

  /** The committed callers' modifiers, folded over the start value in commit order. */
  ghost function Fold<V>(mods: Modifiers<V>, start: V, log: seq<Client>): V {
    if log == [] then start
    else
      var before := Fold(mods, start, log[..|log| - 1]);
      mods(log[|log| - 1], before).GetOr(before)
  }

  /** Every committed modifier succeeded on the value it was folded over. */
  ghost predicate Effective<V>(mods: Modifiers<V>, start: V, log: seq<Client>) {
    forall k {:trigger log[..k]} :: 0 <= k < |log| ==> mods(log[k], Fold(mods, start, log[..k])).Some?
  }

  lemma AppendEffective<V>(mods: Modifiers<V>, start: V, log: seq<Client>, c: Client)
    requires Effective(mods, start, log) && mods(c, Fold(mods, start, log)).Some?
    ensures Effective(mods, start, log + [c])
  {
    var more := log + [c];
    assert more[..|log|] == log;
    forall k | 0 <= k < |more|
      ensures mods(more[k], Fold(mods, start, more[..k])).Some?
    {
      if k < |log| { assert more[..k] == log[..k]; }
    }
  }

  ghost predicate Once(log: seq<Client>, c: Client) {
    multiset(log)[c] == 1
  }

  /** `value` is what the fold gives right after a commit of `c`. */
  ghost predicate Gave<V>(mods: Modifiers<V>, start: V, log: seq<Client>, c: Client, value: V) {
    exists k :: 0 <= k < |log| && log[k] == c && value == Fold(mods, start, log[..k + 1])
  }

  ghost predicate PhaseOk<V>(mods: Modifiers<V>, start: V, s: Sys<V>, c: Client)
    requires c in s.phases
  {
    var p := s.phases[c];
    && p.attempt < CONFLICT_RETRY_CAP
    && (p.Returned? <==> c in s.log)
    && (p.Returned? ==> Once(s.log, c))
    && (p.Fetched? ==> p.at <= s.version == |s.log| && p.value == Fold(mods, start, s.log[..p.at]))
    && (p.Modified? ==> p.at <= s.version == |s.log|
                        && mods(c, Fold(mods, start, s.log[..p.at])) == Some(p.value))
    && (p.Returned? ==> Gave(mods, start, s.log, c, p.value))
  }

  ghost predicate Good<V>(mods: Modifiers<V>, start: V, s: Sys<V>) {
    && s.version == |s.log|
    && s.value == Fold(mods, start, s.log) && Effective(mods, start, s.log)
    && (forall c {:trigger PhaseOk(mods, start, s, c)} :: c in s.phases ==> PhaseOk(mods, start, s, c))
    && (forall k :: 0 <= k < |s.log| ==> s.log[k] in s.phases)
  }

  lemma OnceStays(log: seq<Client>, c: Client, d: Client)
    requires Once(log, c) && c != d
    ensures Once(log + [d], c)
  {
    assert multiset(log + [d]) == multiset(log) + multiset{d};
  }

  lemma GaveStays<V>(mods: Modifiers<V>, start: V, log: seq<Client>, c: Client, d: Client, value: V)
    requires Gave(mods, start, log, c, value)
    ensures Gave(mods, start, log + [d], c, value)
  {
    var k :| 0 <= k < |log| && log[k] == c && value == Fold(mods, start, log[..k + 1]);
    assert (log + [d])[..k + 1] == log[..k + 1] && (log + [d])[k] == c;
  }

  lemma PhaseStays<V>(mods: Modifiers<V>, start: V, s: Sys<V>, t: Sys<V>, c: Client, d: Client)
    requires Good(mods, start, s) && c in s.phases && c != d
    requires c in t.phases && t.phases[c] == s.phases[c]
    requires (t.log == s.log && t.version == s.version) || (t.log == s.log + [d] && t.version == s.version + 1)
    ensures PhaseOk(mods, start, t, c)
  {
    assert PhaseOk(mods, start, s, c);
    var p := s.phases[c];
    if p.Fetched? || p.Modified? {
      assert t.log[..p.at] == s.log[..p.at];
    }
    if p.Returned? {
      OnceStays(s.log, c, d);
      GaveStays(mods, start, s.log, c, d, p.value);
    }
  }

  lemma PutCommits<V>(mods: Modifiers<V>, start: V, s: Sys<V>, c: Client, late: bool)
    requires Good(mods, start, s) && c in s.phases && s.phases[c].Modified? && s.phases[c].at == s.version
    ensures Good(mods, start, Put(s, c, late))
  {
    var t := Put(s, c, late);
    var p := s.phases[c];
    assert PhaseOk(mods, start, s, c);
    assert s.log[..p.at] == s.log;
    AppendEffective(mods, start, s.log, c);
    assert t.log[..|t.log| - 1] == s.log && t.log[|t.log| - 1] == c;
    assert t.log[..|s.log| + 1] == t.log && t.log[|s.log|] == c;
    assert Gave(mods, start, t.log, c, t.phases[c].value);
    assert t.log[|s.log|] == c && forall j :: 0 <= j < |t.log| && t.log[j] == c ==> j == |s.log|;
    forall d | d in t.phases
      ensures PhaseOk(mods, start, t, d)
    {
      if d != c { PhaseStays(mods, start, s, t, d, c); }
    }
  }

  lemma NextKeepsGood<V>(mods: Modifiers<V>, start: V, s: Sys<V>, a: Action, t: Sys<V>)
    requires Good(mods, start, s) && Next(mods, s, a, t)
    ensures Good(mods, start, t)
  {
    assert PhaseOk(mods, start, s, a.c);
    if a.DoPut? && s.phases[a.c].at == s.version {
      PutCommits(mods, start, s, a.c, a.pastDeadline);
    } else {
      assert s.log[..s.version] == s.log;
      forall d | d in t.phases
        ensures PhaseOk(mods, start, t, d)
      {
        if d != a.c { PhaseStays(mods, start, s, t, d, a.c); }
      }
    }
  }

  lemma {:induction false} RunIsGood<V>(mods: Modifiers<V>, start: V, states: seq<Sys<V>>, actions: seq<Action>)
    requires IsRun(mods, start, states, actions)
    ensures Good(mods, start, states[|actions|])
    decreases |actions|
  {
    var n := |actions|;
    if n == 0 {
    } else {
      RunIsGood(mods, start, states[..n], actions[..n - 1]);
      NextKeepsGood(mods, start, states[n - 1], actions[n - 1], states[n]);
    }
  }

  /** No lost update, in every run of any number of callers: the stored value is the
      committed modifiers folded in commit order; a call that returned is in that fold
      exactly once and returned the value it made; a call that re-raised the conflict, or
      whose modifier raised, is not in it; and no call goes beyond its third attempt. */
  lemma NoLostUpdate<V>(mods: Modifiers<V>, start: V, states: seq<Sys<V>>, actions: seq<Action>, c: Client)
    requires IsRun(mods, start, states, actions) && c in states[|actions|].phases
    ensures var s := states[|actions|];
            var p := s.phases[c];
            && s.value == Fold(mods, start, s.log) && Effective(mods, start, s.log)
            && (p.Returned? ==> Once(s.log, c))
            && (p.Returned? ==> Gave(mods, start, s.log, c, p.value))
            && (!p.Returned? ==> c !in s.log)
            && p.attempt < CONFLICT_RETRY_CAP
  {
    RunIsGood(mods, start, states, actions);
    assert PhaseOk(mods, start, states[|actions|], c);
  }

  // ----- when a call retries, and when it gives up -----

  /** A conditional write that the register turned away. */
  ghost predicate TurnedAway<V>(states: seq<Sys<V>>, actions: seq<Action>, k: nat)
    requires |states| == |actions| + 1 && k < |actions|
  {
    actions[k].DoPut? && states[k + 1].log == states[k].log
  }

  /** How many of the first `n` steps are writes of this caller that were turned away. */
  ghost function Rejections<V>(states: seq<Sys<V>>, actions: seq<Action>, c: Client, n: nat): nat
    requires |states| == |actions| + 1 && n <= |actions|
    decreases n
  {
    if n == 0 then 0
    else
      Rejections(states, actions, c, n - 1)
      + (if actions[n - 1].c == c && TurnedAway(states, actions, n - 1) then 1 else 0)
  }

  lemma {:induction false} RejectionsCounted<V>(mods: Modifiers<V>, start: V, states: seq<Sys<V>>,
                                                actions: seq<Action>, c: Client, n: nat)
    requires IsRun(mods, start, states, actions) && n <= |actions| && c in states[n].phases
    ensures var p := states[n].phases[c];
            Rejections(states, actions, c, n) == if p.Conflicted? then p.attempt + 1 else p.attempt
    ensures states[n].phases[c].attempt <= 2
    decreases n
  {
    if n == 0 {
    } else {
      assert Next(mods, states[n - 1], actions[n - 1], states[n - 1 + 1]);
      RejectionsCounted(mods, start, states, actions, c, n - 1);
    }
  }

  /** What becomes of a write, in every run. One that is turned away changes nothing, and
      the caller begins again from its read, unless it was its third or came past the
      deadline: then it re-raises the conflict. One that is not turned away returns. */
  lemma PutOutcome<V>(mods: Modifiers<V>, start: V, states: seq<Sys<V>>, actions: seq<Action>, k: nat)
    requires IsRun(mods, start, states, actions) && k < |actions| && actions[k].DoPut?
    ensures var (s, t, c) := (states[k], states[k + 1], actions[k].c);
            var n := Rejections(states, actions, c, k + 1);
            && c in t.phases && n <= 3
            && if TurnedAway(states, actions, k) then
                 && t.value == s.value && t.version == s.version
                 && t.phases[c] == (if n == 3 || actions[k].pastDeadline then Conflicted(n - 1) else Ready(n))
               else t.log == s.log + [c] && t.phases[c].Returned? && t.phases[c].value == t.value
  {
    assert Next(mods, states[k], actions[k], states[k + 1]);
    RejectionsCounted(mods, start, states, actions, actions[k].c, k);
    assert |states[k].log + [actions[k].c]| != |states[k].log|;
  }

  ghost predicate GivesUp<V>(states: seq<Sys<V>>, actions: seq<Action>, c: Client, k: nat)
    requires |states| == |actions| + 1 && k < |actions|
  {
    && actions[k].c == c && TurnedAway(states, actions, k)
    && (actions[k].pastDeadline || Rejections(states, actions, c, k + 1) == 3)
  }

  /** In every run a call has re-raised the conflict exactly when its third write was turned
      away, or an earlier one past the deadline. */
  lemma {:induction false} ConflictedIff<V>(mods: Modifiers<V>, start: V, states: seq<Sys<V>>, actions: seq<Action>,
                                            c: Client, n: nat)
    requires IsRun(mods, start, states, actions) && n <= |actions| && c in states[n].phases
    ensures states[n].phases[c].Conflicted? <==> exists k :: 0 <= k < n && GivesUp(states, actions, c, k)
    decreases n
  {
    if n == 0 {
    } else {
      ConflictedIff(mods, start, states, actions, c, n - 1);
      GivesUpAtStep(mods, start, states, actions, c, n - 1);
    }
  }

  lemma GivesUpAtStep<V>(mods: Modifiers<V>, start: V, states: seq<Sys<V>>, actions: seq<Action>, c: Client, k: nat)
    requires IsRun(mods, start, states, actions) && k < |actions| && c in states[k + 1].phases
    ensures c in states[k].phases
    ensures states[k + 1].phases[c].Conflicted? <==>
      states[k].phases[c].Conflicted? || GivesUp(states, actions, c, k)
  {
    assert Next(mods, states[k], actions[k], states[k + 1]);
    if actions[k].DoPut? { PutOutcome(mods, start, states, actions, k); }
  }

  lemma {:induction false} LogGrows<V>(mods: Modifiers<V>, start: V, states: seq<Sys<V>>, actions: seq<Action>,
                                       j: nat, k: nat)
    requires IsRun(mods, start, states, actions) && j <= k <= |actions|
    ensures states[j].log <= states[k].log && states[k].version == |states[k].log|
    decreases k
  {
    if k == 0 {
    } else {
      assert Next(mods, states[k - 1], actions[k - 1], states[k - 1 + 1]);
      LogGrows(mods, start, states, actions, if j < k then j else j - 1, k - 1);
    }
  }

  /** The step at which a caller that is between its read and its write read. */
  lemma {:induction false} LastRead<V>(mods: Modifiers<V>, start: V, states: seq<Sys<V>>, actions: seq<Action>,
                                       c: Client, k: nat)
    returns (j: nat)
    requires IsRun(mods, start, states, actions) && k <= |actions| && c in states[k].phases
    requires states[k].phases[c].Fetched? || states[k].phases[c].Modified?
    ensures j < k && actions[j] == DoRefresh(c) && states[k].phases[c].at == states[j].version
    ensures forall i :: j < i < k ==> actions[i] != DoRefresh(c)
    decreases k
  {
    assert Next(mods, states[k - 1], actions[k - 1], states[k - 1 + 1]);
    if actions[k - 1] == DoRefresh(c) {
      j := k - 1;
    } else {
      j := LastRead(mods, start, states, actions, c, k - 1);
    }
  }

  /** A write is turned away exactly when somebody's write was accepted since the caller
      last read. */
  lemma TurnedAwayIff<V>(mods: Modifiers<V>, start: V, states: seq<Sys<V>>, actions: seq<Action>, k: nat)
    returns (j: nat)
    requires IsRun(mods, start, states, actions) && k < |actions| && actions[k].DoPut?
    ensures j < k && actions[j] == DoRefresh(actions[k].c)
    ensures forall i :: j < i < k ==> actions[i] != DoRefresh(actions[k].c)
    ensures TurnedAway(states, actions, k) <==> states[k].log != states[j].log
  {
    assert Next(mods, states[k], actions[k], states[k + 1]);
    j := LastRead(mods, start, states, actions, actions[k].c, k);
    LogGrows(mods, start, states, actions, j, k);
    LogGrows(mods, start, states, actions, j, j);
  }

  // ----- one caller's loop -----

  class Register<V> {
    var value: V
    var version: nat

    constructor (v: V)
      ensures value == v && version == 0
    {
      value, version := v, 0;
    }

    method ConditionalPut(v: V, at: nat) returns (ok: bool)
      modifies this
      ensures ok <==> at == old(version)
      ensures ok ==> value == v && version == at + 1
      ensures !ok ==> value == old(value) && version == old(version)
    {
      ok := at == version;
      if ok {
        value, version := v, version + 1;
      }
    }

    /** What peers write while this caller is between its read and its write. */
    method PeersWrite(values: seq<V>)
      modifies this
      ensures version == old(version) + |values|
      ensures value == if values == [] then old(value) else values[|values| - 1]
    {
      for k := 0 to |values|
        invariant version == old(version) + k
        invariant value == if k == 0 then old(value) else values[k - 1]
      {
        value, version := values[k], version + 1;
      }
    }
  }

  datatype Outcome<V> = Wrote(value: V) | Reraised | ModifierRaised

  /** The peers' writes and the deadline, attempt by attempt. */
  datatype Weather<V> = Weather(peers: seq<V>, pastDeadline: bool)

  /** The value left in the register and the outcome, from attempt `k` on. */
  function Attempts<V>(value: V, modifier: V -> Option<V>, weather: seq<Weather<V>>, k: nat): (V, Outcome<V>)
    requires k < |weather| == CONFLICT_RETRY_CAP
    decreases |weather| - k
  {
    match modifier(value)
    case None => (value, ModifierRaised)
    case Some(v) =>
      var peers := weather[k].peers;
      if peers == [] then (v, Wrote(v))
      else if k == CONFLICT_RETRY_CAP - 1 || weather[k].pastDeadline then (peers[|peers| - 1], Reraised)
      else Attempts(peers[|peers| - 1], modifier, weather, k + 1)
  }

  /** `_rmw_with_conflict_retry` over the read-modify-write cycle. */
  method RmwWithConflictRetry<V>(reg: Register<V>, modifier: V -> Option<V>, weather: seq<Weather<V>>)
    returns (r: Outcome<V>)
    requires |weather| == CONFLICT_RETRY_CAP
    modifies reg
    ensures (reg.value, r) == Attempts(old(reg.value), modifier, weather, 0)
  {
    var attempt := 0;
    while attempt < CONFLICT_RETRY_CAP
      invariant attempt < CONFLICT_RETRY_CAP
      invariant Attempts(old(reg.value), modifier, weather, 0) == Attempts(reg.value, modifier, weather, attempt)
    {
      var at, seen := reg.version, reg.value;
      var v := modifier(seen);
      if v.None? {
        return ModifierRaised;
      }
      reg.PeersWrite(weather[attempt].peers);
      var ok := reg.ConditionalPut(v.value, at);
      if ok {
        return Wrote(v.value);
      }
      if attempt == CONFLICT_RETRY_CAP - 1 || weather[attempt].pastDeadline {
        return Reraised;
      }
      attempt := attempt + 1;
    }
  }

  /** The last value the register held before this caller's last write attempt. */
  function LastSeen<V>(value: V, weather: seq<Weather<V>>, k: nat): V
    requires k <= |weather|
    decreases k
  {
    if k == 0 then value
    else
      var peers := weather[k - 1].peers;
      if peers == [] then LastSeen(value, weather, k - 1) else peers[|peers| - 1]
  }

  /** A caller that writes applies its modifier to a value nobody has overwritten: either
      the start value or the latest peer's; a caller that does not write leaves the
      latest peer's value in place. */
  lemma {:induction false} AttemptsApplyToCurrent<V>(start: V, modifier: V -> Option<V>, weather: seq<Weather<V>>,
                                                     k: nat)
    returns (n: nat)
    requires k < |weather| == CONFLICT_RETRY_CAP
    ensures var (final, r) := Attempts(LastSeen(start, weather, k), modifier, weather, k);
            && k <= n <= CONFLICT_RETRY_CAP
            && (r.Wrote? ==> n < CONFLICT_RETRY_CAP && weather[n].peers == []
                             && modifier(LastSeen(start, weather, n)) == Some(final) && r.value == final)
            && (!r.Wrote? ==> final == LastSeen(start, weather, n))
    decreases |weather| - k
  {
    var value := LastSeen(start, weather, k);
    n := k;
    if modifier(value).Some? && weather[k].peers != [] {
      if k == CONFLICT_RETRY_CAP - 1 || weather[k].pastDeadline {
        n := k + 1;
      } else {
        n := AttemptsApplyToCurrent(start, modifier, weather, k + 1);
      }
    }
  }

  /** Every earlier attempt's write was overtaken by a peer, before the deadline. */
  predicate Attempted<V>(start: V, modifier: V -> Option<V>, weather: seq<Weather<V>>, n: nat)
    requires n < |weather|
  {
    forall j :: 0 <= j < n ==>
      modifier(LastSeen(start, weather, j)).Some? && weather[j].peers != [] && !weather[j].pastDeadline
  }

  lemma {:induction false} AttemptsFrom<V>(start: V, modifier: V -> Option<V>, weather: seq<Weather<V>>, k: nat)
    returns (n: nat)
    requires k < |weather| == 3 && Attempted(start, modifier, weather, k)
    ensures n < 3 && Attempted(start, modifier, weather, n)
    ensures Attempts(LastSeen(start, weather, k), modifier, weather, k) == Ended(start, modifier, weather, n)
    ensures Last(start, modifier, weather, n)
    decreases |weather| - k
  {
    n := k;
    if !Last(start, modifier, weather, k) {
      n := AttemptsFrom(start, modifier, weather, k + 1);
    }
  }

  /** After this attempt there is no other. */
  predicate Last<V>(start: V, modifier: V -> Option<V>, weather: seq<Weather<V>>, n: nat)
    requires n < |weather|
  {
    modifier(LastSeen(start, weather, n)).None? || weather[n].peers == [] || n == 2 || weather[n].pastDeadline
  }

  /** What the register holds and the caller gets when attempt `n` is the last. */
  function Ended<V>(start: V, modifier: V -> Option<V>, weather: seq<Weather<V>>, n: nat): (V, Outcome<V>)
    requires n < |weather|
  {
    match modifier(LastSeen(start, weather, n))
    case None => (LastSeen(start, weather, n), ModifierRaised)
    case Some(v) => if weather[n].peers == [] then (v, Wrote(v)) else (LastSeen(start, weather, n + 1), Reraised)
  }

  lemma OnlyOneLast<V>(start: V, modifier: V -> Option<V>, weather: seq<Weather<V>>, n: nat, k: nat)
    requires n < |weather| == 3 && k < 3 && Attempted(start, modifier, weather, n) && Last(start, modifier, weather, n)
    requires Attempted(start, modifier, weather, k) && Last(start, modifier, weather, k)
    ensures n == k
  {
  }

  /** One caller makes up to three attempts. It writes exactly when one of them meets no
      peer's write, all before it having been overtaken in time; it re-raises exactly when
      the third is overtaken, or an earlier one past the deadline. */
  lemma AttemptsIff<V>(start: V, modifier: V -> Option<V>, weather: seq<Weather<V>>, v: V)
    requires |weather| == 3
    ensures var (final, r) := Attempts(start, modifier, weather, 0);
            && (r == Wrote(v) <==>
                exists n :: 0 <= n < 3 && Attempted(start, modifier, weather, n) && weather[n].peers == []
                            && modifier(LastSeen(start, weather, n)) == Some(v))
            && (r == Reraised <==>
                exists n :: 0 <= n < 3 && Attempted(start, modifier, weather, n) && weather[n].peers != []
                            && modifier(LastSeen(start, weather, n)).Some? && (n == 2 || weather[n].pastDeadline))
            && (r == ModifierRaised <==>
                exists n :: 0 <= n < 3 && Attempted(start, modifier, weather, n)
                            && modifier(LastSeen(start, weather, n)).None?)
            && (r.Wrote? ==> final == r.value)
  {
    var n := AttemptsFrom(start, modifier, weather, 0);
    forall k | 0 <= k < 3 && Attempted(start, modifier, weather, k) && Last(start, modifier, weather, k)
      ensures k == n
    {
      OnlyOneLast(start, modifier, weather, n, k);
    }
  }
}
