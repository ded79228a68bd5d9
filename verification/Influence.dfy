/** The influence decision over a grant store, and subtree scopes (`_grants.py`). */
module Influence {
  import opened Wrappers
  import opened Grants
  import ManifestText
  import Digraph

  // ----- scopes -----

  const ROOT_SCOPE := "/"

  function StripSlashesLeft(s: string): string {
    if s != "" && s[0] == '/' then StripSlashesLeft(s[1..]) else s
  }

  function StripSlashesRight(s: string): string {
    if s != "" && s[|s| - 1] == '/' then StripSlashesRight(s[..|s| - 1]) else s
  }

  function StripSlashes(s: string): string {
    StripSlashesRight(StripSlashesLeft(s))
  }

  function NormalizeScope(scope: Option<string>): string {
    match scope
    case None => ROOT_SCOPE
    case Some(text) =>
      var s := ManifestText.Strip(text);
      if s == "" || s == ROOT_SCOPE then ROOT_SCOPE else StripSlashes(s)
  }

  function NormalizeKey(nodeKey: string): string {
    StripSlashes(ManifestText.Strip(nodeKey))
  }

  /** `covers` */
  function Covers(scope: Option<string>, nodeKey: Option<string>): bool {
    var sc := NormalizeScope(scope);
    if sc == ROOT_SCOPE then true
    else if nodeKey.None? || NormalizeKey(nodeKey.value) == "" then false
    else
      var key := NormalizeKey(nodeKey.value);
      key == sc || sc + "/" <= key
  }

  /** A tree path as its segments. */
  function Segments(path: string): (r: seq<string>)
    ensures r != []
  {
    if path == "" then [""]
    else
      var rest := Segments(path[1..]);
      if path[0] == '/' then [""] + rest else [[path[0]] + rest[0]] + rest[1..]
  }

  /** On the separator boundary: a path lies at or below another exactly when the other's
      segments come first in its own. */
  lemma {:induction false} BelowIff(scope: string, key: string)
    ensures key == scope || scope + "/" <= key <==> Segments(scope) <= Segments(key)
    decreases |scope|
  {
    if scope != "" && key != "" && scope[0] == key[0] {
      BelowIff(scope[1..], key[1..]);
      SameFirst(scope, key);
      SegmentsSameFirst(scope, key);
    } else if scope == "" {
      assert scope + "/" == "/";
    } else {
      SegmentsDiffer(scope, key);
    }
  }

  lemma SameFirst(a: string, b: string)
    requires a != "" && b != "" && a[0] == b[0]
    ensures b == a <==> b[1..] == a[1..]
    ensures a + "/" <= b <==> a[1..] + "/" <= b[1..]
  {
    assert a == [a[0]] + a[1..] && b == [b[0]] + b[1..];
    assert (a + "/")[1..] == a[1..] + "/";
    PrefixSameFirst(a + "/", b);
  }

  lemma PrefixSameFirst(p: string, q: string)
    requires p != "" && q != "" && p[0] == q[0]
    ensures p <= q <==> p[1..] <= q[1..]
  {
    if p <= q { assert p[1..] == q[1..][..|p| - 1]; }
    if p[1..] <= q[1..] {
      assert forall k :: 1 <= k < |p| ==> p[k] == p[1..][k - 1] == q[1..][k - 1] == q[k];
      assert p == q[..|p|];
    }
  }

  lemma SegmentsSameFirst(a: string, b: string)
    requires a != "" && b != "" && a[0] == b[0]
    ensures Segments(a) <= Segments(b) <==> Segments(a[1..]) <= Segments(b[1..])
  {
    var r, s := Segments(a[1..]), Segments(b[1..]);
    if a[0] == '/' {
      assert ([""] + r)[1..] == r && ([""] + s)[1..] == s;
    } else {
      LongerFirst(a[0], r, s);
    }
  }

  lemma LongerFirst(c: char, r: seq<string>, s: seq<string>)
    requires r != [] && s != []
    ensures [[c] + r[0]] + r[1..] <= [[c] + s[0]] + s[1..] <==> r <= s
  {
    var p, q := [[c] + r[0]] + r[1..], [[c] + s[0]] + s[1..];
    assert p[0][1..] == r[0] && q[0][1..] == s[0];
    assert forall k :: 1 <= k < |r| ==> p[k] == r[k];
    assert forall k :: 1 <= k < |s| ==> q[k] == s[k];
    if p <= q {
      assert forall k :: 0 <= k < |p| ==> p[k] == q[k];
      assert r == s[..|r|];
    }
    if r <= s { assert p == q[..|p|]; }
  }

  lemma SegmentsDiffer(a: string, b: string)
    requires a != "" && (b == "" || a[0] != b[0])
    ensures !(Segments(a) <= Segments(b)) && a != b && !(a + "/" <= b)
  {
    assert (a + "/")[0] == a[0];
    if b != "" && a[0] != '/' && b[0] != '/' {
      assert Segments(a)[0][0] == a[0] && Segments(b)[0][0] == b[0];
    }
  }

  /** A scope covers a node exactly when it is the root scope, or the node's path starts
      with the scope's own segments: the node itself and its descendants, never a sibling
      whose name merely begins alike. */
  lemma CoversIff(scope: Option<string>, key: string)
    ensures Covers(scope, Some(key)) <==>
      || NormalizeScope(scope) == ROOT_SCOPE
      || (NormalizeKey(key) != "" && Segments(NormalizeScope(scope)) <= Segments(NormalizeKey(key)))
  {
    BelowIff(NormalizeScope(scope), NormalizeKey(key));
  }

  /** What a scope or a node is compared by: its text without the white space around it,
      and without the separators at either end of that. */
  lemma NormalizedIs(text: string) returns (from: nat, to: nat)
    ensures from <= to <= |text| && NormalizeKey(text) == text[from..to]
    ensures forall k :: 0 <= k < from || to <= k < |text| ==> ManifestText.IsSpace(text[k]) || text[k] == '/'
    ensures from < to ==> text[from] != '/' && text[to - 1] != '/'
    ensures NormalizeScope(Some(text)) ==
            if ManifestText.Strip(text) in {"", "/"} then "/" else NormalizeKey(text)
    ensures NormalizeScope(None) == "/"
  {
    var i, j := ManifestText.StripIs(text);
    var k, l := StripSlashesIs(text[i..j]);
    from, to := i + k, i + l;
    SliceOfSlice(text, i, j, k, l);
    SliceAt(text, i, j);
    if from < to { assert text[i..j][k] == text[from] && text[i..j][l - 1] == text[to - 1]; }
  }

  lemma SliceAt(text: string, i: nat, j: nat)
    requires i <= j <= |text|
    ensures forall n :: i <= n < j ==> text[i..j][n - i] == text[n]
  {
  }

  lemma SliceOfSlice(s: string, i: nat, j: nat, k: nat, l: nat)
    requires i <= j <= |s| && k <= l <= j - i
    ensures s[i..j][k..l] == s[i + k..i + l]
  {
    var t := s[i..j];
    assert forall n :: k <= n < l ==> t[n] == s[i + n];
  }

  lemma {:induction false} StripSlashesIs(s: string) returns (from: nat, to: nat)
    ensures from <= to <= |s| && StripSlashes(s) == s[from..to]
    ensures forall k :: 0 <= k < from || to <= k < |s| ==> s[k] == '/'
    ensures from < to ==> s[from] != '/' && s[to - 1] != '/'
    decreases |s|
  {
    if s != "" && s[0] == '/' {
      from, to := StripSlashesIs(s[1..]);
      assert s[1..][from..to] == s[from + 1..to + 1];
      assert forall k :: 0 <= k < |s| - 1 ==> s[1..][k] == s[k + 1];
      from, to := from + 1, to + 1;
    } else {
      to := StripSlashesRightIs(s);
      from := 0;
    }
  }

  lemma {:induction false} StripSlashesRightIs(s: string) returns (to: nat)
    ensures to <= |s| && StripSlashesRight(s) == s[..to]
    ensures forall k :: to <= k < |s| ==> s[k] == '/'
    ensures to > 0 ==> s[to - 1] != '/'
    decreases |s|
  {
    to := |s|;
    if s != "" && s[|s| - 1] == '/' {
      to := StripSlashesRightIs(s[..|s| - 1]);
      assert s[..|s| - 1][..to] == s[..to];
    }
  }

  // ----- the decision -----

  const MAX_INFLUENCE_DEPTH := 1

  datatype Verdict = Allow(grantId: Option<string>) | Deny(guardrail: string, grantId: Option<string>)

  function Candidates(store: seq<Grant>, src: Env, dst: Env): seq<Grant> {
    if store == [] then []
    else
      var last := store[|store| - 1];
      Candidates(store[..|store| - 1], src, dst) + (if last.fromEnv == src && last.toEnv == dst then [last] else [])
  }

  type Index = map<(Env, Env), seq<Grant>>

  function Indexed(index: Index, src: Env, dst: Env): seq<Grant> {
    if (src, dst) in index then index[(src, dst)] else []
  }

  /** `build_index`: the index finds, for every edge, what a scan of the store finds. */
  method BuildIndex(store: seq<Grant>) returns (index: Index)
    ensures forall a, b :: Indexed(index, a, b) == Candidates(store, a, b)
  {
    index := map[];
    for k := 0 to |store|
      invariant forall a, b :: Indexed(index, a, b) == Candidates(store[..k], a, b)
    {
      var g := store[k];
      assert store[..k + 1][..k] == store[..k];
      index := index[(g.fromEnv, g.toEnv) := Indexed(index, g.fromEnv, g.toEnv) + [g]];
    }
    assert store[..|store|] == store;
  }

  method Scan(store: seq<Grant>, src: Env, dst: Env) returns (out: seq<Grant>)
    ensures out == Candidates(store, src, dst)
  {
    out := [];
    for k := 0 to |store|
      invariant out == Candidates(store[..k], src, dst)
    {
      assert store[..k + 1][..k] == store[..k];
      if store[k].fromEnv == src && store[k].toEnv == dst {
        out := out + [store[k]];
      }
    }
    assert store[..|store|] == store;
  }

  function NodeCovered(g: Grant, nodeKey: Option<string>): bool {
    nodeKey.Some? ==> Covers(g.scope, nodeKey)
  }

  /** An active, human-approved grant that covers the node asked about. */
  predicate Permits(g: Grant, nodeKey: Option<string>) {
    g.Active() && IsHuman(g.approvedBy) && NodeCovered(g, nodeKey)
  }

  function Judge(g: Grant, nodeKey: Option<string>): Verdict {
    if !g.Active() then Deny("G1", Some(g.grantId))
    else if !IsHuman(g.approvedBy) then Deny("G3", Some(g.grantId))
    else if !NodeCovered(g, nodeKey) then Deny("G1", Some(g.grantId))
    else Allow(Some(g.grantId))
  }

  /** `check_influence` over the candidates found for the edge. */
  function Decide(src: Env, dst: Env, candidates: seq<Grant>, depth: int, nodeKey: Option<string>): Verdict {
    if src == "" || dst == "" then Deny("G0", None)
    else if src == dst then Allow(None)
    else if depth > MAX_INFLUENCE_DEPTH then Deny("G4", None)
    else if candidates == [] then Deny("G1", None)
    else Judge(candidates[0], nodeKey)
  }

  /** `check_influence`; with an index built from the store the verdict is the scan's. */
  method CheckInfluence(src: Env, dst: Env, store: seq<Grant>, depth: int, nodeKey: Option<string>,
                        index: Option<Index>)
    returns (v: Verdict)
    ensures index.None? ==> v == Decide(src, dst, Candidates(store, src, dst), depth, nodeKey)
    ensures index.Some? ==> v == Decide(src, dst, Indexed(index.value, src, dst), depth, nodeKey)
  {
    if src == "" || dst == "" {
      return Deny("G0", None);
    }
    if src == dst {
      return Allow(None);
    }
    if depth > MAX_INFLUENCE_DEPTH {
      return Deny("G4", None);
    }
    var candidates := [];
    if index.Some? {
      candidates := Indexed(index.value, src, dst);
    } else {
      candidates := Scan(store, src, dst);
    }
    if candidates != [] {
      // Every branch of the source's loop body returns.
      return Judge(candidates[0], nodeKey);
    }
    v := Deny("G1", None);
  }

  lemma {:induction false} CandidateIff(store: seq<Grant>, src: Env, dst: Env, g: Grant)
    ensures g in Candidates(store, src, dst) <==> g in store && g.fromEnv == src && g.toEnv == dst
  {
    if store == [] {
    } else {
      CandidateIff(store[..|store| - 1], src, dst, g);
      assert store == store[..|store| - 1] + [store[|store| - 1]];
    }
  }

  /** No transitive influence: one world influences another only over a direct edge of the
      active graph, granted to it by a person and covering the node. */
  lemma AllowIsDirect(store: seq<Grant>, src: Env, dst: Env, depth: int, nodeKey: Option<string>)
    requires Decide(src, dst, Candidates(store, src, dst), depth, nodeKey).Allow? && src != dst
    ensures (src, dst) in ActiveEdges(store) && depth <= 1
    ensures exists g :: g in store && g.fromEnv == src && g.toEnv == dst && Permits(g, nodeKey)
  {
    CandidateIff(store, src, dst, Candidates(store, src, dst)[0]);
  }

  /** The first grant of an edge, in store order. */
  predicate IsFirstOf(store: seq<Grant>, src: Env, dst: Env, k: nat) {
    && k < |store| && store[k].fromEnv == src && store[k].toEnv == dst
    && forall j :: 0 <= j < k ==> store[j].fromEnv != src || store[j].toEnv != dst
  }

  lemma {:induction false} FirstCandidate(store: seq<Grant>, src: Env, dst: Env, k: nat)
    requires IsFirstOf(store, src, dst, k)
    ensures Candidates(store, src, dst) != [] && Candidates(store, src, dst)[0] == store[k]
    decreases |store|
  {
    var rest := store[..|store| - 1];
    if k < |rest| {
      FirstCandidate(rest, src, dst, k);
    } else if Candidates(rest, src, dst) != [] {
      CandidateIff(rest, src, dst, Candidates(rest, src, dst)[0]);
    }
  }

  /** `check_influence`, verdict by verdict: what each one says of the question and the store. */
  lemma VerdictIff(store: seq<Grant>, src: Env, dst: Env, depth: int, nodeKey: Option<string>)
    ensures var v := Decide(src, dst, Candidates(store, src, dst), depth, nodeKey);
            var asked := src != "" && dst != "" && src != dst && depth <= 1;
            && (v == Deny("G0", None) <==> src == "" || dst == "")
            && (v == Allow(None) <==> src != "" && src == dst)
            && (v == Deny("G4", None) <==> src != "" && dst != "" && src != dst && depth > 1)
            && (v == Deny("G1", None) <==> asked && forall g :: g in store ==> g.fromEnv != src || g.toEnv != dst)
            && forall k: nat :: asked && IsFirstOf(store, src, dst, k) ==>
                 var g := store[k];
                 && (v == Allow(Some(g.grantId)) <==> Permits(g, nodeKey))
                 && (v == Deny("G3", Some(g.grantId)) <==> g.Active() && !IsHuman(g.approvedBy))
                 && (v == Deny("G1", Some(g.grantId)) <==>
                     !g.Active() || (IsHuman(g.approvedBy) && nodeKey.Some? && !Covers(g.scope, nodeKey)))
  {
    assert "G0"[1] == '0' && "G1"[1] == '1' && "G3"[1] == '3' && "G4"[1] == '4';
    forall k: nat | IsFirstOf(store, src, dst, k)
      ensures Candidates(store, src, dst) != [] && Candidates(store, src, dst)[0] == store[k]
    {
      FirstCandidate(store, src, dst, k);
    }
    forall g
      ensures g in Candidates(store, src, dst) <==> g in store && g.fromEnv == src && g.toEnv == dst
    {
      CandidateIff(store, src, dst, g);
    }
  }

  /** Who may influence whom, some node or other, by way of a grant. */
  ghost function Influences(store: seq<Grant>): set<(Env, Env)> {
    set e | e in ActiveEdges(store) && e.0 != e.1
            && exists nodeKey :: Decide(e.0, e.1, Candidates(store, e.0, e.1), 1, nodeKey).Allow?
  }

  /** After any validated run influence never comes back: no world may influence another
      that may, over however many worlds, influence it. */
  lemma InfluenceIsAcyclic(stores: seq<seq<Grant>>, src: Env, dst: Env, depth: int, nodeKey: Option<string>)
    requires IsRun(stores)
    ensures var store := stores[|stores| - 1];
            && Digraph.Acyclic(Influences(store))
            && (src != dst && Decide(src, dst, Candidates(store, src, dst), depth, nodeKey).Allow? ==>
                  (src, dst) in Influences(store) && !Digraph.Reaches(Influences(store), dst, src))
  {
    var store := stores[|stores| - 1];
    RunStaysAcyclic(stores);
    Digraph.SubgraphAcyclic(Influences(store), ActiveEdges(store));
    if src != dst && Decide(src, dst, Candidates(store, src, dst), depth, nodeKey).Allow? {
      AllowIsDirect(store, src, dst, depth, nodeKey);
      assert Decide((src, dst).0, (src, dst).1, Candidates(store, src, dst), 1, nodeKey).Allow?;
      assert Influences(store) + {(src, dst)} == Influences(store);
      Digraph.AddEdgeAcyclicIff(Influences(store), src, dst);
    }
  }

  /** What validation promises of a decision: a grant that was accepted permits its edge at
      once exactly when its approver is a person and its edge carries no earlier grant, or
      the edge's first grant permits. */
  lemma AcceptedAllowsIff(store: seq<Grant>, g: Grant)
    requires Admissible(store, g) && g.Active()
    ensures var earlier := Candidates(store, g.fromEnv, g.toEnv);
            Decide(g.fromEnv, g.toEnv, Candidates(store + [g], g.fromEnv, g.toEnv), 1, None).Allow?
            <==> if earlier == [] then IsHuman(g.approvedBy) else Permits(earlier[0], None)
  {
    var earlier := Candidates(store, g.fromEnv, g.toEnv);
    assert (store + [g])[..|store|] == store;
    assert Candidates(store + [g], g.fromEnv, g.toEnv) == earlier + [g];
    if g.fromEnv == g.toEnv { Digraph.ReachesRefl(ActiveEdges(store), g.fromEnv); }
  }

  // ----- the decision along a run -----

  /** What becomes of a grant in a store: nothing, or it is withdrawn. */
  ghost predicate Aged(g: Grant, h: Grant) {
    h == g || (h == g.(status := h.status) && !h.Active())
  }

  lemma StepAges(a: seq<Grant>, b: seq<Grant>, n: nat)
    requires StoreStep(a, b) && n < |a|
    ensures n < |b| && Aged(a[n], b[n])
  {
  }

  lemma {:induction false} RunAges(stores: seq<seq<Grant>>, i: nat, j: nat, n: nat)
    requires IsRun(stores) && i <= j < |stores| && n < |stores[i]|
    ensures n < |stores[j]| && Aged(stores[i][n], stores[j][n])
    decreases j
  {
    if i == j {
    } else {
      RunAges(stores, i, j - 1, n);
      StepAges(stores[j - 1], stores[j], n);
    }
  }

  predicate OnEdge(g: Grant, src: Env, dst: Env) {
    g.fromEnv == src && g.toEnv == dst
  }

  /** Grant `n` is the first of its edge. */
  ghost predicate FirstOn(store: seq<Grant>, src: Env, dst: Env, n: nat) {
    n < |store| && OnEdge(store[n], src, dst) && forall k :: 0 <= k < n ==> !OnEdge(store[k], src, dst)
  }

  lemma {:induction false} NoneOnEdge(store: seq<Grant>, src: Env, dst: Env)
    requires forall k :: 0 <= k < |store| ==> !OnEdge(store[k], src, dst)
    ensures Candidates(store, src, dst) == []
  {
    if store == [] {
    } else {
      NoneOnEdge(store[..|store| - 1], src, dst);
      assert !OnEdge(store[|store| - 1], src, dst);
    }
  }

  lemma {:induction false} FirstIsConsulted(store: seq<Grant>, src: Env, dst: Env, n: nat)
    requires FirstOn(store, src, dst, n)
    ensures Candidates(store, src, dst) != [] && Candidates(store, src, dst)[0] == store[n]
    decreases |store|
  {
    var less := store[..|store| - 1];
    if n < |less| {
      FirstIsConsulted(less, src, dst, n);
    } else {
      NoneOnEdge(less, src, dst);
    }
  }

  /** The first grant of the edge decides; without one there is no candidate. */
  lemma CandidatesOf(store: seq<Grant>, src: Env, dst: Env)
    ensures var n := FirstIndex(store, src, dst);
            if n < |store| then
              Candidates(store, src, dst) != [] && Candidates(store, src, dst)[0] == store[n]
            else Candidates(store, src, dst) == []
  {
    var n := FirstIndex(store, src, dst);
    if n < |store| {
      FirstIsConsulted(store, src, dst, n);
    } else {
      NoneOnEdge(store, src, dst);
    }
  }

  lemma FirstStays(stores: seq<seq<Grant>>, i: nat, j: nat, src: Env, dst: Env, n: nat)
    requires IsRun(stores) && i <= j < |stores| && FirstOn(stores[i], src, dst, n)
    ensures FirstOn(stores[j], src, dst, n) && Aged(stores[i][n], stores[j][n])
  {
    RunAges(stores, i, j, n);
    forall k | 0 <= k < n
      ensures !OnEdge(stores[j][k], src, dst)
    {
      RunAges(stores, i, j, k);
    }
  }

  ghost function FirstIndex(store: seq<Grant>, src: Env, dst: Env): (n: nat)
    ensures n <= |store| && (n < |store| ==> FirstOn(store, src, dst, n))
    ensures n == |store| ==> forall k :: 0 <= k < |store| ==> !OnEdge(store[k], src, dst)
  {
    if store == [] then 0
    else
      var n := FirstIndex(store[..|store| - 1], src, dst);
      if n < |store| - 1 || OnEdge(store[n], src, dst) then n else |store|
  }

  /** Once an edge that has a grant is denied, it is denied in every later store of the run,
      whatever validated grants follow: only its first grant is ever consulted, and that one
      cannot become active or approved again. */
  lemma DenialIsFinal(stores: seq<seq<Grant>>, i: nat, j: nat, src: Env, dst: Env, depth: int, nodeKey: Option<string>)
    requires IsRun(stores) && i <= j < |stores| && Candidates(stores[i], src, dst) != []
    requires Decide(src, dst, Candidates(stores[i], src, dst), depth, nodeKey).Deny?
    ensures Decide(src, dst, Candidates(stores[j], src, dst), depth, nodeKey).Deny?
  {
    var n := FirstIndex(stores[i], src, dst);
    CandidatesOf(stores[i], src, dst);
    FirstStays(stores, i, j, src, dst, n);
    FirstIsConsulted(stores[j], src, dst, n);
  }

  /** Step `i` of the run gave the edge its first grant. */
  ghost predicate Opens(stores: seq<seq<Grant>>, i: nat, src: Env, dst: Env) {
    && i + 1 < |stores| && |stores[i + 1]| == |stores[i]| + 1
    && FirstOn(stores[i + 1], src, dst, |stores[i]|)
  }

  /** The grant that opened the edge permitted it then, and has not been withdrawn since. */
  ghost predicate FirstStands(stores: seq<seq<Grant>>, i: nat, src: Env, dst: Env, nodeKey: Option<string>)
    requires Opens(stores, i, src, dst)
  {
    var n := |stores[i]|;
    var store := stores[|stores| - 1];
    Permits(stores[i + 1][n], nodeKey) && n < |store| && store[n].Active()
  }

  /** After any run of validated additions and revocations, an edge is allowed exactly when
      the grant that first opened it permitted it and still stands; later grants of the
      edge make it active, but never allowed. */
  lemma AllowedIffFirstStands(stores: seq<seq<Grant>>, src: Env, dst: Env, nodeKey: Option<string>)
    requires IsRun(stores) && src != "" && dst != "" && src != dst
    ensures var store := stores[|stores| - 1];
            Decide(src, dst, Candidates(store, src, dst), 1, nodeKey).Allow?
            <==> exists i :: Opens(stores, i, src, dst) && FirstStands(stores, i, src, dst, nodeKey)
  {
    var last := |stores| - 1;
    CandidatesOf(stores[last], src, dst);
    if FirstIndex(stores[last], src, dst) < |stores[last]| {
      var i := OpeningStep(stores, last, src, dst);
      OpenedDecides(stores, i, src, dst, nodeKey);
    }
    forall i | Opens(stores, i, src, dst)
      ensures Decide(src, dst, Candidates(stores[last], src, dst), 1, nodeKey).Allow?
              <==> FirstStands(stores, i, src, dst, nodeKey)
    {
      OpenedDecides(stores, i, src, dst, nodeKey);
    }
  }

  lemma OpenedDecides(stores: seq<seq<Grant>>, i: nat, src: Env, dst: Env, nodeKey: Option<string>)
    requires IsRun(stores) && src != "" && dst != "" && src != dst && Opens(stores, i, src, dst)
    ensures Decide(src, dst, Candidates(stores[|stores| - 1], src, dst), 1, nodeKey).Allow?
            <==> FirstStands(stores, i, src, dst, nodeKey)
  {
    var n := |stores[i]|;
    FirstStays(stores, i + 1, |stores| - 1, src, dst, n);
    FirstIsConsulted(stores[|stores| - 1], src, dst, n);
  }

  lemma {:induction false} OpeningStep(stores: seq<seq<Grant>>, j: nat, src: Env, dst: Env) returns (i: nat)
    requires IsRun(stores) && j < |stores| && FirstIndex(stores[j], src, dst) < |stores[j]|
    ensures Opens(stores, i, src, dst)
    decreases j
  {
    assert j > 0;
    var a, b := stores[j - 1], stores[j];
    assert StoreStep(stores[j - 1], stores[j - 1 + 1]);
    if FirstIndex(a, src, dst) < |a| {
      i := OpeningStep(stores, j - 1, src, dst);
    } else {
      i := j - 1;
      var n := FirstIndex(b, src, dst);
      if n < |a| { StepAges(a, b, n); }
      forall k | 0 <= k < |a|
        ensures !OnEdge(b[k], src, dst)
      {
        StepAges(a, b, k);
      }
    }
  }

  /** A run in which this matters: a grant is revoked and renewed; the renewal passes
      validation with a person's approval and is active, and the edge stays denied. */
  lemma RenewalIsDenied(first: Grant, renewed: Grant)
    requires first.Complete() && first.Active() && IsHuman(first.approvedBy) && first.approvedAt != ""
    requires first.originEnv == first.fromEnv && first.fromEnv != first.toEnv
    requires renewed == first.(grantId := renewed.grantId) && renewed.grantId != ""
    ensures var gone := first.(status := "revoked");
            IsRun([[], [first], [gone], [gone, renewed]])
            && (first.fromEnv, first.toEnv) in ActiveEdges([gone, renewed])
            && Decide(first.fromEnv, first.toEnv, Candidates([gone, renewed], first.fromEnv, first.toEnv), 1, None)
               == Deny("G1", Some(first.grantId))
  {
    var gone := first.(status := "revoked");
    NoEdgesNoReach([], first);
    NoEdgesNoReach([gone], renewed);
    assert [] + [first] == [first] && [gone] + [renewed] == [gone, renewed];
    assert [first][0 := first.(status := "revoked")] == [gone];
    var stores := [[], [first], [gone], [gone, renewed]];
    assert StoreStep(stores[0], stores[1]) by { assert Admissible([], first); }
    assert StoreStep(stores[1], stores[2]) by { assert [first][0].(status := "revoked") == gone; }
    assert StoreStep(stores[2], stores[3]) by { assert Admissible([gone], renewed); }
    assert renewed in [gone, renewed];
    assert [gone, renewed][..1] == [gone] && [gone][..0] == [];
    assert Candidates([gone], first.fromEnv, first.toEnv) == [gone];
    assert Candidates([gone, renewed], first.fromEnv, first.toEnv) == [gone, renewed];
  }

  lemma NoEdgesNoReach(store: seq<Grant>, g: Grant)
    requires forall h :: h in store ==> !h.Active()
    requires g.fromEnv != g.toEnv
    ensures !Digraph.Reaches(ActiveEdges(store), g.toEnv, g.fromEnv)
  {
    assert ActiveEdges(store) == {};
    forall n: nat
      ensures !Digraph.ReachesIn(ActiveEdges(store), g.toEnv, g.fromEnv, n)
    {
    }
  }
}
