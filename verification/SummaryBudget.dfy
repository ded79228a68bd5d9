/** Which goals a budgeted summary lists, and what its entries say. */
module SummaryBudget {
  import opened Wrappers
  import opened GoalStatus
  import opened CompactSummary
  import Decimal

  // ----- the greedy loop, row by row -----

  /** What a row takes of the budget: its text and a comma. */
  function Cost(row: Row): nat {
    |Text(row.json)| + 1
  }

  /** What the kept ones of these rows take. */
  function SpentOn(rows: seq<Row>, kept: seq<bool>): nat
    requires |rows| == |kept|
  {
    if rows == [] then 0 else (if kept[0] then Cost(rows[0]) else 0) + SpentOn(rows[1..], kept[1..])
  }

  /** The rows of aspiration `i` that were kept, or those that were not, in their order. */
  function Picked(rows: seq<Row>, kept: seq<bool>, which: bool, i: nat): seq<Row>
    requires |rows| == |kept|
  {
    if rows == [] then []
    else (if kept[0] == which && rows[0].index == i then [rows[0]] else []) + Picked(rows[1..], kept[1..], which, i)
  }

  /** A row is kept exactly when what the rows kept before it leave of the budget pays for
      it; one that does not fit does not stop a smaller one after it. */
  ghost predicate GreedyChoice(rows: seq<Row>, kept: seq<bool>, start: nat, budget: int) {
    && |kept| == |rows|
    && forall k :: 0 <= k < |rows| ==>
         (kept[k] <==> start + SpentOn(rows[..k], kept[..k]) + Cost(rows[k]) <= budget)
  }

  lemma SpentOnRest(rows: seq<Row>, kept: seq<bool>, k: nat)
    requires 1 <= k <= |rows| == |kept|
    ensures SpentOn(rows[..k], kept[..k]) ==
            (if kept[0] then Cost(rows[0]) else 0) + SpentOn(rows[1..][..k - 1], kept[1..][..k - 1])
  {
    assert rows[..k][1..] == rows[1..][..k - 1] && kept[..k][1..] == kept[1..][..k - 1];
  }

  lemma ChoiceFrom(rows: seq<Row>, kept: seq<bool>, start: nat, budget: int, first: bool)
    requires rows != [] && (first <==> start + Cost(rows[0]) <= budget)
    requires GreedyChoice(rows[1..], kept, start + if first then Cost(rows[0]) else 0, budget)
    ensures GreedyChoice(rows, [first] + kept, start, budget)
  {
    var all := [first] + kept;
    assert all[1..] == kept;
    forall k | 0 <= k < |rows|
      ensures all[k] <==> start + SpentOn(rows[..k], all[..k]) + Cost(rows[k]) <= budget
    {
      if k > 0 {
        SpentOnRest(rows, all, k);
        assert all[k] == kept[k - 1] && rows[1..][k - 1] == rows[k];
      }
    }
  }

  lemma TakeIs(t: Tally, row: Row, budget: int)
    requires row.index < |t.kept| == |t.omitted|
    ensures var r, fits := Take(t, row, budget), t.spent + Cost(row) <= budget;
            && r.spent == t.spent + (if fits then Cost(row) else 0)
            && |r.kept| == |r.omitted| == |t.kept|
            && forall i :: 0 <= i < |t.kept| ==>
                 && r.kept[i] == t.kept[i] + (if fits && row.index == i then [row] else [])
                 && r.omitted[i] == t.omitted[i] + (if !fits && row.index == i then 1 else 0)
  {
    TextLen(row.json);
  }

  lemma {:induction false} GreedyIs(t: Tally, rows: seq<Row>, budget: int) returns (kept: seq<bool>)
    requires |t.kept| == |t.omitted| && Indexed(rows, |t.kept|)
    ensures GreedyChoice(rows, kept, t.spent, budget)
    ensures var r := Greedy(t, rows, budget);
            && r.spent == t.spent + SpentOn(rows, kept)
            && forall i :: 0 <= i < |t.kept| ==>
                 && r.kept[i] == t.kept[i] + Picked(rows, kept, true, i)
                 && r.omitted[i] == t.omitted[i] + |Picked(rows, kept, false, i)|
    decreases |rows|
  {
    if rows == [] {
      kept := [];
    } else {
      var first := t.spent + Cost(rows[0]) <= budget;
      TakeIs(t, rows[0], budget);
      var rest := GreedyIs(Take(t, rows[0], budget), rows[1..], budget);
      ChoiceFrom(rows, rest, t.spent, budget, first);
      kept := [first] + rest;
      assert kept[1..] == rest;
    }
  }

  /** `build_summary`, for every list of aspirations and every budget: along the stable order
      of tiers and positions a goal is omitted exactly when its cost exceeds what the shells,
      the reserves and the goals kept before it leave of the budget. */
  lemma BudgetedIs(merged: seq<Aspiration>, budget: int) returns (kept: seq<bool>)
    ensures var rows, t := SortRows(AllRows(merged, 0)), Budgeted(merged, budget);
            && GreedyChoice(rows, kept, ShellCost(merged), budget)
            && t.spent == ShellCost(merged) + SpentOn(rows, kept)
            && forall i :: 0 <= i < |merged| ==>
                 && t.kept[i] == Picked(rows, kept, true, i)
                 && t.omitted[i] == |Picked(rows, kept, false, i)|
  {
    AllRowsIndexed(merged, 0);
    SortedIndexed(AllRows(merged, 0), |merged|);
    StartShape(merged);
    TextLen(Arr(Drafts(Shells(merged), Empties(|merged|))));
    kept := GreedyIs(Start(merged), SortRows(AllRows(merged, 0)), budget);
  }

  // ----- the tiers -----

  /** Shown before anything else: recurring, or under way, or blocked. */
  predicate Pressing(g: Goal) {
    g.recurring || g.status == "in-progress" || g.status == "blocked"
  }

  predicate Eligible(g: Goal) {
    g.recurring || g.status !in TERMINAL_STATUSES
  }

  /** The priority, whatever the case of each letter; anything but the three names is medium. */
  predicate Priority(g: Goal, name: string) {
    && |g.priority| == |name|
    && forall k :: 0 <= k < |name| ==> g.priority[k] == name[k] || g.priority[k] as int == name[k] as int + 32
  }

  lemma PriorityIff(g: Goal, name: string)
    requires forall k :: 0 <= k < |name| ==> 'A' <= name[k] <= 'Z'
    ensures Priority(g, name) <==> Upper(g.priority) == name
  {
    if Upper(g.priority) == name {
      assert forall k :: 0 <= k < |name| ==> Upper(g.priority)[k] == name[k];
    }
  }

  predicate Sooner(a: Goal, b: Goal) {
    if Pressing(a) || Pressing(b) then Pressing(a) && !Pressing(b)
    else if Priority(a, "HIGH") || Priority(b, "HIGH") then Priority(a, "HIGH") && !Priority(b, "HIGH")
    else !Priority(a, "LOW") && Priority(b, "LOW")
  }

  /** Pressing goals first, then high, medium and low priority; the finished ones not at all. */
  lemma TierOrder(a: Goal, b: Goal)
    ensures Tier(a).Some? <==> Eligible(a)
    ensures Eligible(a) && Eligible(b) ==> (Tier(a).value < Tier(b).value <==> Sooner(a, b))
  {
    assert "in-progress" !in TERMINAL_STATUSES && "blocked" !in TERMINAL_STATUSES;
    assert "HIGH"[0] != "LOW"[0];
    PriorityIff(a, "HIGH");
    PriorityIff(b, "HIGH");
    PriorityIff(a, "LOW");
    PriorityIff(b, "LOW");
  }

  // ----- when everything fits -----

  /** The eligible goals of one tier, in their order, as they are written. */
  function OfTier(goals: seq<Goal>, tier: nat): seq<Json> {
    if goals == [] then []
    else (if Tier(goals[0]) == Some(tier) then [goals[0].projected] else []) + OfTier(goals[1..], tier)
  }

  function OfTiers(goals: seq<Goal>, n: nat): seq<Json> {
    if n == 0 then [] else OfTiers(goals, n - 1) + OfTier(goals, n - 1)
  }

  function AllCost(rows: seq<Row>): nat {
    if rows == [] then 0 else Cost(rows[0]) + AllCost(rows[1..])
  }

  /** The rows of one aspiration. */
  function InIndex(rows: seq<Row>, i: nat): seq<Row> {
    if rows == [] then [] else (if rows[0].index == i then [rows[0]] else []) + InIndex(rows[1..], i)
  }

  lemma {:induction false} AllFit(rows: seq<Row>, kept: seq<bool>, start: nat, budget: int, i: nat)
    requires GreedyChoice(rows, kept, start, budget) && start + AllCost(rows) <= budget
    ensures Picked(rows, kept, true, i) == InIndex(rows, i) && Picked(rows, kept, false, i) == []
    decreases |rows|
  {
    if rows == [] {
    } else {
      assert rows[..0] == [] && kept[..0] == [] && kept[0];
      forall k | 0 <= k < |rows| - 1
        ensures kept[1..][k] <==>
          start + Cost(rows[0]) + SpentOn(rows[1..][..k], kept[1..][..k]) + Cost(rows[1..][k]) <= budget
      {
        SpentOnRest(rows, kept, k + 1);
        assert rows[1..][k] == rows[k + 1] && kept[1..][k] == kept[k + 1];
      }
      AllFit(rows[1..], kept[1..], start + Cost(rows[0]), budget, i);
    }
  }

  lemma {:induction false} InIndexAppend(a: seq<Row>, b: seq<Row>, i: nat)
    ensures InIndex(a + b, i) == InIndex(a, i) + InIndex(b, i)
    decreases |a|
  {
    if a == [] {
      assert a + b == b;
    } else {
      InIndexAppend(a[1..], b, i);
      assert (a + b)[1..] == a[1..] + b;
    }
  }

  lemma {:induction false} InIndexOfTier(rows: seq<Row>, tier: nat, i: nat)
    ensures InIndex(InTier(rows, tier), i) == InTier(InIndex(rows, i), tier)
  {
    if rows == [] {
    } else {
      InIndexOfTier(rows[1..], tier, i);
      var one := if rows[0].index == i then [rows[0]] else [];
      InTierAppend(one, InIndex(rows[1..], i), tier);
      assert one != [] ==> one[1..] == [];
      if rows[0].tier == tier { assert InTier(rows, tier)[1..] == InTier(rows[1..], tier); }
    }
  }

  lemma {:induction false} InTierAppend(a: seq<Row>, b: seq<Row>, tier: nat)
    ensures InTier(a + b, tier) == InTier(a, tier) + InTier(b, tier)
    decreases |a|
  {
    if a == [] {
      assert a + b == b;
    } else {
      InTierAppend(a[1..], b, tier);
      assert (a + b)[1..] == a[1..] + b;
    }
  }

  lemma {:induction false} InIndexLaid(rows: seq<Row>, n: nat, i: nat)
    ensures InIndex(Laid(rows, n), i) == Laid(InIndex(rows, i), n)
    decreases n
  {
    if n == 0 {
    } else {
      InIndexLaid(rows, n - 1, i);
      InIndexOfTier(rows, n - 1, i);
      InIndexAppend(Laid(rows, n - 1), InTier(rows, n - 1), i);
    }
  }

  lemma {:induction false} OwnIndex(rows: seq<Row>, i: nat, own: bool)
    requires forall k :: 0 <= k < |rows| ==> (rows[k].index == i <==> own)
    ensures InIndex(rows, i) == if own then rows else []
  {
    if rows == [] {
    } else {
      OwnIndex(rows[1..], i, own);
    }
  }

  lemma {:induction false} RowsInIndex(merged: seq<Aspiration>, from: nat, i: nat)
    requires from <= i < from + |merged|
    ensures InIndex(AllRows(merged, from), i) == RowsOf(merged[i - from].goals, i)
    decreases |merged|
  {
    RowTiers(merged[0].goals, from);
    InIndexAppend(RowsOf(merged[0].goals, from), AllRows(merged[1..], from + 1), i);
    OwnIndex(RowsOf(merged[0].goals, from), i, i == from);
    if i == from {
      AllTiers(merged[1..], from + 1);
      OwnIndex(AllRows(merged[1..], from + 1), i, false);
    } else {
      RowsInIndex(merged[1..], from + 1, i);
    }
  }

  lemma {:induction false} TierJsons(goals: seq<Goal>, index: nat, tier: nat)
    ensures Jsons(InTier(RowsOf(goals, index), tier)) == OfTier(goals, tier)
  {
    if goals == [] {
    } else {
      TierJsons(goals[1..], index, tier);
      if Tier(goals[0]).Some? {
        var row := Row(Tier(goals[0]).value, index, goals[0].projected);
        assert RowsOf(goals, index)[1..] == RowsOf(goals[1..], index);
        JsonsAppend([row], InTier(RowsOf(goals[1..], index), tier));
        assert Jsons([row]) == [row.json];
      }
    }
  }

  lemma JsonsAppend(a: seq<Row>, b: seq<Row>)
    ensures Jsons(a + b) == Jsons(a) + Jsons(b)
  {
  }

  lemma {:induction false} LaidJsons(goals: seq<Goal>, rows: seq<Row>, n: nat)
    requires forall tier: nat :: Jsons(InTier(rows, tier)) == OfTier(goals, tier)
    ensures Jsons(Laid(rows, n)) == OfTiers(goals, n)
    decreases n
  {
    if n == 0 {
    } else {
      LaidJsons(goals, rows, n - 1);
      JsonsAppend(Laid(rows, n - 1), InTier(rows, n - 1));
    }
  }

  lemma SortedJsons(goals: seq<Goal>, index: nat)
    ensures Jsons(SortRows(RowsOf(goals, index))) == OfTiers(goals, 4)
  {
    var rows := RowsOf(goals, index);
    forall tier: nat
      ensures Jsons(InTier(rows, tier)) == OfTier(goals, tier)
    {
      TierJsons(goals, index, tier);
    }
    LaidJsons(goals, rows, 4);
  }

  /** What the shells and the reserves take, before any goal. */
  function ShellCost(merged: seq<Aspiration>): nat {
    |Text(Arr(Drafts(Shells(merged), Empties(|merged|))))| + 24 * |merged|
  }

  lemma AllKept(merged: seq<Aspiration>, budget: int, i: nat)
    requires i < |merged| && ShellCost(merged) + AllCost(SortRows(AllRows(merged, 0))) <= budget
    ensures Budgeted(merged, budget).omitted[i] == 0
    ensures Budgeted(merged, budget).kept[i] == SortRows(RowsOf(merged[i].goals, i))
  {
    var all := AllRows(merged, 0);
    var kept := BudgetedIs(merged, budget);
    AllFit(SortRows(all), kept, ShellCost(merged), budget, i);
    InIndexLaid(all, 4, i);
    RowsInIndex(merged, 0, i);
  }

  /** When the budget pays for every eligible goal, every entry is its shell and all its
      eligible goals, tier after tier and each tier in the goals' own order, with no omission
      record. */
  lemma EverythingFits(merged: seq<Aspiration>, budget: int, i: nat)
    requires i < |merged| && ShellCost(merged) + AllCost(SortRows(AllRows(merged, 0))) <= budget
    ensures SummaryOf(merged, Budgeted(merged, budget))[i] ==
            Obj(merged[i].shell + [Field("goals", Arr(OfTiers(merged[i].goals, 4)))])
  {
    AllKept(merged, budget, i);
    SortedJsons(merged[i].goals, i);
  }

  // ----- what an entry says -----

  /** The value of a key, as a reader finds it. */
  function Lookup(fields: seq<Field>, name: string): Option<Json> {
    if fields == [] then None
    else if fields[0].name == name then Some(fields[0].value) else Lookup(fields[1..], name)
  }

  lemma {:induction false} SetFieldLooksUp(fields: seq<Field>, name: string, value: Json, other: string)
    ensures Lookup(SetField(fields, name, value), other) ==
            if other == name then Some(value) else Lookup(fields, other)
  {
    if fields == [] {
      assert [Field(name, value)][1..] == [];
    } else if fields[0].name == name {
      assert ([Field(name, value)] + fields[1..])[1..] == fields[1..];
    } else {
      SetFieldLooksUp(fields[1..], name, value, other);
      assert ([fields[0]] + SetField(fields[1..], name, value))[1..] == SetField(fields[1..], name, value);
    }
  }

  lemma {:induction false} LookupAppend(a: seq<Field>, f: Field, name: string)
    ensures Lookup(a + [f], name) ==
            if Lookup(a, name).Some? then Lookup(a, name) else if f.name == name then Some(f.value) else None
  {
    if a == [] {
      assert a + [f] == [f] && [f][1..] == [];
    } else {
      LookupAppend(a[1..], f, name);
      assert (a + [f])[1..] == a[1..] + [f];
    }
  }

  /** An entry lists the goals kept, says how many were omitted when any were, and is its
      shell otherwise. */
  lemma EntrySays(shell: seq<Field>, kept: seq<Row>, omitted: nat, name: string)
    requires Lookup(shell, "goals").None?
    ensures var entry := Finished(shell, kept, omitted);
            && entry.Obj?
            && Lookup(entry.fields, name) ==
               if name == "goals" then Some(Arr(Jsons(kept)))
               else if name == "goals_omitted" && omitted > 0 then Some(Num(Decimal.ToDigits(omitted)))
               else Lookup(shell, name)
  {
    assert |"goals"| != |"goals_omitted"|;
    LookupAppend(shell, Field("goals", Arr(Jsons(kept))), name);
    SetFieldLooksUp(Entry(shell, kept), "goals_omitted", Num(Decimal.ToDigits(omitted)), name);
  }
}
