/** The byte-budgeted projection (`build_summary` in `_compact_summary.py`). */
module CompactSummary {
  import opened Wrappers
  import opened GoalStatus
  import Decimal

  // ----- encoded length -----

  /** A JSON value as `json.dumps(separators=(',', ':'), ensure_ascii=True)` writes it; a
      number is given by its text. */
  datatype Json =
    | Null | Bool(b: bool) | Num(text: string) | Str(s: string) | Arr(items: seq<Json>) | Obj(fields: seq<Field>)

  datatype Field = Field(name: string, value: Json)

  /** Bytes one character takes inside a JSON string. */
  function CharLen(c: char): nat {
    if c in {'"', '\\', '\n', '\r', '\t', '\U{08}', '\U{0C}'} then 2
    else if ' ' <= c <= '~' then 1
    else if c as int < 0x1_0000 then 6
    else 12
  }

  function CharsLen(s: string): nat {
    if s == "" then 0 else CharLen(s[0]) + CharsLen(s[1..])
  }

  function StrLen(s: string): nat {
    2 + CharsLen(s)
  }

  /** `_encoded_len`, part by part; `TextLen` ties it to the text. */
  function EncodedLen(j: Json): nat
    decreases j
  {
    match j
    case Null => 4
    case Bool(b) => if b then 4 else 5
    case Num(text) => |text|
    case Str(s) => StrLen(s)
    case Arr(items) => 2 + ItemsLen(items) + Commas(|items|)
    case Obj(fields) => 2 + FieldsLen(fields) + Commas(|fields|)
  }

  function Commas(n: nat): nat {
    if n == 0 then 0 else n - 1
  }

  function ItemsLen(items: seq<Json>): nat
    decreases items
  {
    if items == [] then 0 else EncodedLen(items[0]) + ItemsLen(items[1..])
  }

  function FieldsLen(fields: seq<Field>): nat
    decreases fields
  {
    if fields == [] then 0 else StrLen(fields[0].name) + 1 + EncodedLen(fields[0].value) + FieldsLen(fields[1..])
  }

  // ----- the text whose length that is -----

  function HexDigit(n: nat): char
    requires n < 16
  {
    "0123456789abcdef"[n]
  }

  function Hex4(n: nat): (s: string)
    requires n < 0x1_0000
    ensures |s| == 4
  {
    [HexDigit(n / 0x1000), HexDigit(n / 0x100 % 16), HexDigit(n / 16 % 16), HexDigit(n % 16)]
  }

  function CharText(c: char): string {
    if c == '"' then "\\\""
    else if c == '\\' then "\\\\"
    else if c == '\n' then "\\n"
    else if c == '\r' then "\\r"
    else if c == '\t' then "\\t"
    else if c == '\U{08}' then "\\b"
    else if c == '\U{0C}' then "\\f"
    else if ' ' <= c <= '~' then [c]
    else if c as int < 0x1_0000 then "\\u" + Hex4(c as int)
    else
      var v := c as int - 0x1_0000;
      "\\u" + Hex4(0xD800 + v / 0x400) + "\\u" + Hex4(0xDC00 + v % 0x400)
  }

  function CharsText(s: string): string {
    if s == "" then "" else CharText(s[0]) + CharsText(s[1..])
  }

  function StrText(s: string): string {
    "\"" + CharsText(s) + "\""
  }

  /** `json.dumps(separators=(',', ':'), ensure_ascii=True)`: all ASCII, so one byte each. */
  function Text(j: Json): string
    decreases j
  {
    match j
    case Null => "null"
    case Bool(b) => if b then "true" else "false"
    case Num(text) => text
    case Str(s) => StrText(s)
    case Arr(items) => "[" + ItemsText(items) + "]"
    case Obj(fields) => "{" + FieldsText(fields) + "}"
  }

  function ItemsText(items: seq<Json>): string
    decreases items
  {
    if items == [] then ""
    else Text(items[0]) + (if |items| == 1 then "" else "," + ItemsText(items[1..]))
  }

  function FieldsText(fields: seq<Field>): string
    decreases fields
  {
    if fields == [] then ""
    else
      StrText(fields[0].name) + ":" + Text(fields[0].value)
      + (if |fields| == 1 then "" else "," + FieldsText(fields[1..]))
  }

  lemma {:induction false} CharsTextLen(s: string)
    ensures |CharsText(s)| == CharsLen(s)
  {
    if s == "" {
    } else {
      CharsTextLen(s[1..]);
    }
  }

  /** `_encoded_len` is the length of what the writer writes. */
  lemma {:induction false} TextLen(j: Json)
    ensures |Text(j)| == EncodedLen(j)
    decreases j
  {
    match j
    case Str(s) => CharsTextLen(s);
    case Arr(items) => ItemsTextLen(items);
    case Obj(fields) => FieldsTextLen(fields);
    case _ =>
  }

  lemma {:induction false} ItemsTextLen(items: seq<Json>)
    ensures |ItemsText(items)| == ItemsLen(items) + Commas(|items|)
    decreases items
  {
    if items == [] {
    } else {
      TextLen(items[0]);
      ItemsTextLen(items[1..]);
    }
  }

  lemma {:induction false} FieldsTextLen(fields: seq<Field>)
    ensures |FieldsText(fields)| == FieldsLen(fields) + Commas(|fields|)
    decreases fields
  {
    if fields == [] {
    } else {
      CharsTextLen(fields[0].name);
      TextLen(fields[0].value);
      FieldsTextLen(fields[1..]);
    }
  }

  // ----- rows -----

  /** `goal_tier`'s inputs and `project_goal`'s result. */
  datatype Goal = Goal(recurring: bool, status: string, priority: string, projected: Json)

  /** `shell` is `project_shell`'s result: no `goals` key. */
  datatype Aspiration = Aspiration(shell: seq<Field>, goals: seq<Goal>)

  function UpperChar(c: char): char {
    if 'a' <= c <= 'z' then ((c as int) - 32) as char else c
  }

  function Upper(s: string): string {
    seq(|s|, i requires 0 <= i < |s| => UpperChar(s[i]))
  }

  /** `goal_tier`: None excludes the goal. */
  function Tier(g: Goal): (r: Option<nat>)
    ensures r.Some? ==> r.value <= 3
    ensures r.None? <==> !g.recurring && g.status in TERMINAL_STATUSES
  {
    if g.recurring then Some(0)
    else if g.status in TERMINAL_STATUSES then None
    else if g.status == "in-progress" || g.status == "blocked" then Some(0)
    else if Upper(g.priority) == "HIGH" then Some(1)
    else if Upper(g.priority) == "LOW" then Some(3)
    else Some(2)
  }

  datatype Row = Row(tier: nat, index: nat, json: Json)

  function RowsOf(goals: seq<Goal>, index: nat): seq<Row> {
    if goals == [] then []
    else if Tier(goals[0]).None? then RowsOf(goals[1..], index)
    else [Row(Tier(goals[0]).value, index, goals[0].projected)] + RowsOf(goals[1..], index)
  }

  function AllRows(merged: seq<Aspiration>, from: nat): seq<Row> {
    if merged == [] then [] else RowsOf(merged[0].goals, from) + AllRows(merged[1..], from + 1)
  }

  function InTier(rows: seq<Row>, tier: nat): seq<Row> {
    if rows == [] then []
    else if rows[0].tier == tier then [rows[0]] + InTier(rows[1..], tier)
    else InTier(rows[1..], tier)
  }

  /** The first `n` tiers, end to end. */
  function Laid(rows: seq<Row>, n: nat): seq<Row> {
    if n == 0 then [] else Laid(rows, n - 1) + InTier(rows, n - 1)
  }

  /** `rows.sort(key=(tier, index))`: Python's sort is stable and the rows come with their
      indices already in order, so the tiers are laid end to end. */
  function SortRows(rows: seq<Row>): seq<Row> {
    Laid(rows, 4)
  }

  // ----- the greedy loop -----

  const OMITTED_KEY_RESERVE: nat := 24

  datatype Tally = Tally(spent: nat, kept: seq<seq<Row>>, omitted: seq<nat>)

  function Take(t: Tally, row: Row, budget: int): Tally
    requires row.index < |t.kept| == |t.omitted|
  {
    var cost := EncodedLen(row.json) + 1;
    if t.spent + cost > budget then t.(omitted := t.omitted[row.index := t.omitted[row.index] + 1])
    else Tally(t.spent + cost, t.kept[row.index := t.kept[row.index] + [row]], t.omitted)
  }

  ghost predicate Indexed(rows: seq<Row>, n: nat) {
    forall k :: 0 <= k < |rows| ==> rows[k].index < n
  }

  function Greedy(t: Tally, rows: seq<Row>, budget: int): (r: Tally)
    requires |t.kept| == |t.omitted| && Indexed(rows, |t.kept|)
    ensures |r.kept| == |r.omitted| == |t.kept|
    decreases |rows|
  {
    if rows == [] then t else Greedy(Take(t, rows[0], budget), rows[1..], budget)
  }

  function Jsons(rows: seq<Row>): seq<Json> {
    seq(|rows|, i requires 0 <= i < |rows| => rows[i].json)
  }

  /** `entry[name] = value` on a dict: replace the key's value or add the key. */
  function SetField(fields: seq<Field>, name: string, value: Json): seq<Field> {
    if fields == [] then [Field(name, value)]
    else if fields[0].name == name then [Field(name, value)] + fields[1..]
    else [fields[0]] + SetField(fields[1..], name, value)
  }

  function Entry(shell: seq<Field>, kept: seq<Row>): seq<Field> {
    shell + [Field("goals", Arr(Jsons(kept)))]
  }

  function Finished(shell: seq<Field>, kept: seq<Row>, omitted: nat): Json {
    Obj(if omitted == 0 then Entry(shell, kept)
        else SetField(Entry(shell, kept), "goals_omitted", Num(Decimal.ToDigits(omitted))))
  }

  function Shells(merged: seq<Aspiration>): seq<seq<Field>> {
    seq(|merged|, i requires 0 <= i < |merged| => merged[i].shell)
  }

  /** The entries with the rows kept so far and no omission record. */
  function Drafts(shells: seq<seq<Field>>, kept: seq<seq<Row>>): seq<Json>
    requires |shells| == |kept|
  {
    seq(|shells|, i requires 0 <= i < |shells| => Obj(Entry(shells[i], kept[i])))
  }

  function Empties<T>(n: nat): seq<seq<T>> {
    seq(n, _ => [])
  }

  function Start(merged: seq<Aspiration>): Tally {
    var shells := Shells(merged);
    Tally(EncodedLen(Arr(Drafts(shells, Empties(|merged|)))) + OMITTED_KEY_RESERVE * |merged|,
          Empties(|merged|), seq(|merged|, _ => 0))
  }

  lemma {:induction false} RowsIndexed(goals: seq<Goal>, index: nat, n: nat)
    requires index < n
    ensures Indexed(RowsOf(goals, index), n)
  {
    if goals == [] {
    } else {
      RowsIndexed(goals[1..], index, n);
    }
  }

  lemma {:induction false} AllRowsIndexed(merged: seq<Aspiration>, from: nat)
    ensures Indexed(AllRows(merged, from), from + |merged|)
  {
    if merged == [] {
    } else {
      RowsIndexed(merged[0].goals, from, from + |merged|);
      AllRowsIndexed(merged[1..], from + 1);
    }
  }

  lemma {:induction false} InTierIndexed(rows: seq<Row>, tier: nat, n: nat)
    requires Indexed(rows, n)
    ensures Indexed(InTier(rows, tier), n)
  {
    if rows == [] {
    } else {
      InTierIndexed(rows[1..], tier, n);
    }
  }

  lemma {:induction false} LaidIndexed(rows: seq<Row>, k: nat, n: nat)
    requires Indexed(rows, n)
    ensures Indexed(Laid(rows, k), n)
  {
    if k == 0 {
    } else {
      LaidIndexed(rows, k - 1, n);
      InTierIndexed(rows, k - 1, n);
    }
  }

  lemma SortedIndexed(rows: seq<Row>, n: nat)
    requires Indexed(rows, n)
    ensures Indexed(SortRows(rows), n)
  {
    LaidIndexed(rows, 4, n);
  }

  /** The tally `build_summary` ends with. */
  function Budgeted(merged: seq<Aspiration>, budget: int): (r: Tally)
    ensures |r.kept| == |r.omitted| == |merged|
  {
    AllRowsIndexed(merged, 0);
    SortedIndexed(AllRows(merged, 0), |merged|);
    Greedy(Start(merged), SortRows(AllRows(merged, 0)), budget)
  }

  function SummaryOf(merged: seq<Aspiration>, t: Tally): seq<Json>
    requires |t.kept| == |t.omitted| == |merged|
  {
    seq(|merged|, i requires 0 <= i < |merged| => Finished(merged[i].shell, t.kept[i], t.omitted[i]))
  }

  lemma GreedyTakes(t: Tally, row: Row, rest: seq<Row>, budget: int)
    requires |t.kept| == |t.omitted| && Indexed([row] + rest, |t.kept|)
    ensures row.index < |t.kept| && Indexed(rest, |t.kept|)
    ensures Greedy(t, [row] + rest, budget) == Greedy(Take(t, row, budget), rest, budget)
  {
    var rows := [row] + rest;
    assert rows[0] == row && rows[1..] == rest;
    assert forall k :: 0 <= k < |rest| ==> rest[k] == rows[k + 1];
  }

  /** The greedy loop of `build_summary`. */
  method Fill(start: Tally, rows: seq<Row>, budget: int) returns (t: Tally)
    requires |start.kept| == |start.omitted| && Indexed(rows, |start.kept|)
    ensures t == Greedy(start, rows, budget)
  {
    t := start;
    var k := 0;
    assert rows[0..] == rows;
    while k < |rows|
      invariant 0 <= k <= |rows|
      invariant |t.kept| == |t.omitted| == |start.kept|
      invariant Indexed(rows[k..], |t.kept|)
      invariant Greedy(start, rows, budget) == Greedy(t, rows[k..], budget)
    {
      var row := rows[k];
      assert rows[k..] == [row] + rows[k + 1..];
      GreedyTakes(t, row, rows[k + 1..], budget);
      var cost := EncodedLen(row.json) + 1;
      if t.spent + cost > budget {
        t := t.(omitted := t.omitted[row.index := t.omitted[row.index] + 1]);
      } else {
        t := Tally(t.spent + cost, t.kept[row.index := t.kept[row.index] + [row]], t.omitted);
      }
      k := k + 1;
    }
  }

  /** The last loop of `build_summary`. */
  method Finish(merged: seq<Aspiration>, t: Tally) returns (summary: seq<Json>)
    requires |t.kept| == |t.omitted| == |merged|
    ensures summary == SummaryOf(merged, t)
  {
    summary := [];
    for i := 0 to |merged|
      invariant |summary| == i
      invariant forall j :: 0 <= j < i ==> summary[j] == Finished(merged[j].shell, t.kept[j], t.omitted[j])
    {
      summary := summary + [Finished(merged[i].shell, t.kept[i], t.omitted[i])];
    }
  }

  /** `build_summary`: the entries and the tally behind its stats. */
  method BuildSummary(merged: seq<Aspiration>, budget: int) returns (summary: seq<Json>, t: Tally)
    ensures t == Budgeted(merged, budget) && summary == SummaryOf(merged, t)
  {
    AllRowsIndexed(merged, 0);
    SortedIndexed(AllRows(merged, 0), |merged|);
    t := Fill(Start(merged), SortRows(AllRows(merged, 0)), budget);
    summary := Finish(merged, t);
  }

  // ----- the size bound -----

  lemma {:induction false} ItemsAppend(a: seq<Json>, b: seq<Json>)
    ensures ItemsLen(a + b) == ItemsLen(a) + ItemsLen(b)
    decreases |a|
  {
    if a == [] {
      assert a + b == b;
    } else {
      ItemsAppend(a[1..], b);
      assert (a + b)[1..] == a[1..] + b;
    }
  }

  lemma {:induction false} FieldsAppend(a: seq<Field>, b: seq<Field>)
    ensures FieldsLen(a + b) == FieldsLen(a) + FieldsLen(b)
    decreases |a|
  {
    if a == [] {
      assert a + b == b;
    } else {
      FieldsAppend(a[1..], b);
      assert (a + b)[1..] == a[1..] + b;
    }
  }

  /** Keeping one more row costs its length and at most one comma. */
  lemma EntryGrows(shell: seq<Field>, kept: seq<Row>, row: Row)
    ensures EncodedLen(Obj(Entry(shell, kept + [row]))) <=
            EncodedLen(Obj(Entry(shell, kept))) + EncodedLen(row.json) + 1
  {
    assert Jsons(kept + [row]) == Jsons(kept) + [row.json];
    ItemsAppend(Jsons(kept), [row.json]);
    assert ItemsLen([row.json]) == EncodedLen(row.json) by { assert [row.json][1..] == []; }
    var a, b := Field("goals", Arr(Jsons(kept))), Field("goals", Arr(Jsons(kept + [row])));
    FieldsAppend(shell, [a]);
    FieldsAppend(shell, [b]);
    assert [a][1..] == [] && [b][1..] == [];
  }

  lemma {:induction false} ItemsBound(a: seq<Json>, b: seq<Json>, extra: seq<nat>)
    requires |a| == |b| == |extra|
    requires forall i :: 0 <= i < |a| ==> EncodedLen(b[i]) <= EncodedLen(a[i]) + extra[i]
    ensures ItemsLen(b) <= ItemsLen(a) + Total(extra)
    decreases |a|
  {
    if a == [] {
    } else {
      ItemsBound(a[1..], b[1..], extra[1..]);
    }
  }

  function Total(xs: seq<nat>): nat {
    if xs == [] then 0 else xs[0] + Total(xs[1..])
  }

  lemma {:induction false} TotalOne(n: nat, i: nat, x: nat)
    requires i < n
    ensures Total(seq(n, j => if j == i then x else 0)) == x
    decreases n
  {
    var s: seq<nat> := seq(n, j => if j == i then x else 0);
    if i == 0 {
      assert s[1..] == seq(n - 1, j => 0);
      TotalConst(n - 1, 0);
    } else {
      assert s[1..] == seq(n - 1, j => if j == i - 1 then x else 0);
      TotalOne(n - 1, i - 1, x);
    }
  }

  lemma {:induction false} TotalConst(n: nat, c: nat)
    ensures Total(seq(n, _ => c)) == c * n
  {
    if n == 0 {
    } else {
      var s: seq<nat> := seq(n, _ => c);
      assert s[1..] == seq(n - 1, _ => c);
      TotalConst(n - 1, c);
    }
  }

  /** What the entries take without their omission records. */
  function DraftLen(shells: seq<seq<Field>>, kept: seq<seq<Row>>): nat
    requires |shells| == |kept|
  {
    EncodedLen(Arr(Drafts(shells, kept)))
  }

  lemma DraftGrows(shells: seq<seq<Field>>, kept: seq<seq<Row>>, i: nat, row: Row)
    requires i < |shells| == |kept|
    ensures DraftLen(shells, kept[i := kept[i] + [row]]) <= DraftLen(shells, kept) + EncodedLen(row.json) + 1
  {
    var more := kept[i := kept[i] + [row]];
    var cost := EncodedLen(row.json) + 1;
    var extra: seq<nat> := seq(|shells|, j => if j == i then cost else 0);
    EntryGrows(shells[i], kept[i], row);
    ItemsBound(Drafts(shells, kept), Drafts(shells, more), extra);
    TotalOne(|shells|, i, cost);
  }

  /** `spent` covers the drafts and the reserves, and stays within the budget once it is. */
  ghost predicate Covered(shells: seq<seq<Field>>, t: Tally, start: nat, budget: int) {
    && |t.kept| == |t.omitted| == |shells|
    && DraftLen(shells, t.kept) + OMITTED_KEY_RESERVE * |shells| <= t.spent
    && (t.spent <= budget || t.spent == start)
  }

  lemma {:induction false} GreedyCovered(shells: seq<seq<Field>>, t: Tally, rows: seq<Row>, start: nat, budget: int)
    requires Covered(shells, t, start, budget) && Indexed(rows, |t.kept|)
    ensures Covered(shells, Greedy(t, rows, budget), start, budget)
    decreases |rows|
  {
    if rows == [] {
    } else {
      var row := rows[0];
      DraftGrows(shells, t.kept, row.index, row);
      GreedyCovered(shells, Take(t, row, budget), rows[1..], start, budget);
    }
  }

  lemma {:induction false} SetFieldGrows(fields: seq<Field>, name: string, value: Json)
    ensures FieldsLen(SetField(fields, name, value)) + Commas(|SetField(fields, name, value)|)
            <= FieldsLen(fields) + Commas(|fields|) + StrLen(name) + EncodedLen(value) + 2
    ensures |fields| <= |SetField(fields, name, value)| <= |fields| + 1
    decreases |fields|
  {
    if fields == [] {
      assert [Field(name, value)][1..] == [];
    } else if fields[0].name == name {
      assert ([Field(name, value)] + fields[1..])[1..] == fields[1..];
    } else {
      SetFieldGrows(fields[1..], name, value);
      assert ([fields[0]] + SetField(fields[1..], name, value))[1..] == SetField(fields[1..], name, value);
    }
  }

  lemma {:induction false} DigitsBound(n: nat, k: nat)
    requires k >= 1 && n < Pow10(k)
    ensures |Decimal.ToDigits(n)| <= k
    decreases n
  {
    if n >= 10 { DigitsBound(n / 10, k - 1); }
  }

  function Pow10(k: nat): nat {
    if k == 0 then 1 else 10 * Pow10(k - 1)
  }

  lemma OmittedNameLen()
    ensures StrLen("goals_omitted") == 15
  {
    var s := "goals_omitted";
    assert |s| == 13;
    PlainLen(s);
  }

  lemma {:induction false} PlainLen(s: string)
    requires forall k :: 0 <= k < |s| ==> 'a' <= s[k] <= 'z' || s[k] == '_'
    ensures CharsLen(s) == |s|
  {
    if s == "" {
    } else {
      PlainLen(s[1..]);
    }
  }

  /** A reserve covers an omission record whose count has at most seven digits. */
  lemma FinishedBound(shell: seq<Field>, kept: seq<Row>, omitted: nat)
    requires omitted < 10_000_000
    ensures EncodedLen(Finished(shell, kept, omitted)) <= EncodedLen(Obj(Entry(shell, kept))) + OMITTED_KEY_RESERVE
  {
    if omitted > 0 {
      OmittedNameLen();
      assert Pow10(7) == 10_000_000;
      DigitsBound(omitted, 7);
      SetFieldGrows(Entry(shell, kept), "goals_omitted", Num(Decimal.ToDigits(omitted)));
    }
  }

  ghost predicate SevenDigits(omitted: seq<nat>) {
    forall i :: 0 <= i < |omitted| ==> omitted[i] < 10_000_000
  }

  /** The size bound: if the shells and reserves fit and every omission count has at most
      seven digits, the serialized summary, commas and omission records included, fits the
      budget. If they do not fit, the summary is no larger than the shells and reserves. */
  lemma SizeBound(merged: seq<Aspiration>, budget: int)
    requires SevenDigits(Budgeted(merged, budget).omitted)
    ensures var size := |Text(Arr(SummaryOf(merged, Budgeted(merged, budget))))|;
            size <= if Start(merged).spent <= budget then budget else Start(merged).spent
  {
    TextLen(Arr(SummaryOf(merged, Budgeted(merged, budget))));
    EncodedBound(merged, budget);
  }

  lemma EncodedBound(merged: seq<Aspiration>, budget: int)
    requires SevenDigits(Budgeted(merged, budget).omitted)
    ensures var size := EncodedLen(Arr(SummaryOf(merged, Budgeted(merged, budget))));
            size <= if Start(merged).spent <= budget then budget else Start(merged).spent
  {
    var shells := Shells(merged);
    var t := Budgeted(merged, budget);
    AllRowsIndexed(merged, 0);
    SortedIndexed(AllRows(merged, 0), |merged|);
    GreedyCovered(shells, Start(merged), SortRows(AllRows(merged, 0)), Start(merged).spent, budget);
    var extra: seq<nat> := seq(|merged|, _ => OMITTED_KEY_RESERVE);
    forall i | 0 <= i < |merged|
      ensures EncodedLen(SummaryOf(merged, t)[i]) <= EncodedLen(Drafts(shells, t.kept)[i]) + extra[i]
    {
      FinishedBound(merged[i].shell, t.kept[i], t.omitted[i]);
    }
    ItemsBound(Drafts(shells, t.kept), SummaryOf(merged, t), extra);
    TotalConst(|merged|, OMITTED_KEY_RESERVE);
  }

  // ----- every goal is accounted for -----

  function RowCount(kept: seq<seq<Row>>): nat {
    if kept == [] then 0 else |kept[0]| + RowCount(kept[1..])
  }

  function GoalCount(merged: seq<Aspiration>): nat {
    if merged == [] then 0 else |merged[0].goals| + GoalCount(merged[1..])
  }

  function ExcludedIn(goals: seq<Goal>): nat {
    if goals == [] then 0 else (if Tier(goals[0]).None? then 1 else 0) + ExcludedIn(goals[1..])
  }

  function Excluded(merged: seq<Aspiration>): nat {
    if merged == [] then 0 else ExcludedIn(merged[0].goals) + Excluded(merged[1..])
  }

  lemma {:induction false} RowCountAdd(kept: seq<seq<Row>>, i: nat, row: Row)
    requires i < |kept|
    ensures RowCount(kept[i := kept[i] + [row]]) == RowCount(kept) + 1
    decreases |kept|
  {
    if i == 0 {
      assert kept[i := kept[i] + [row]][1..] == kept[1..];
    } else {
      RowCountAdd(kept[1..], i - 1, row);
      assert kept[i := kept[i] + [row]][1..] == kept[1..][i - 1 := kept[i] + [row]];
    }
  }

  lemma {:induction false} TotalAdd(xs: seq<nat>, i: nat)
    requires i < |xs|
    ensures Total(xs[i := xs[i] + 1]) == Total(xs) + 1
    decreases |xs|
  {
    if i == 0 {
      assert xs[i := xs[i] + 1][1..] == xs[1..];
    } else {
      TotalAdd(xs[1..], i - 1);
      assert xs[i := xs[i] + 1][1..] == xs[1..][i - 1 := xs[i] + 1];
    }
  }

  lemma {:induction false} GreedyCounts(t: Tally, rows: seq<Row>, budget: int)
    requires |t.kept| == |t.omitted| && Indexed(rows, |t.kept|)
    ensures var r := Greedy(t, rows, budget);
            RowCount(r.kept) + Total(r.omitted) == RowCount(t.kept) + Total(t.omitted) + |rows|
    decreases |rows|
  {
    if rows == [] {
    } else {
      RowCountAdd(t.kept, rows[0].index, rows[0]);
      TotalAdd(t.omitted, rows[0].index);
      GreedyCounts(Take(t, rows[0], budget), rows[1..], budget);
    }
  }

  lemma {:induction false} RowsCount(goals: seq<Goal>, index: nat)
    ensures |RowsOf(goals, index)| + ExcludedIn(goals) == |goals|
  {
    if goals == [] {
    } else {
      RowsCount(goals[1..], index);
    }
  }

  lemma {:induction false} AllRowsCount(merged: seq<Aspiration>, from: nat)
    ensures |AllRows(merged, from)| + Excluded(merged) == GoalCount(merged)
  {
    if merged == [] {
    } else {
      RowsCount(merged[0].goals, from);
      AllRowsCount(merged[1..], from + 1);
    }
  }

  lemma {:induction false} EmptyCounts(n: nat)
    ensures RowCount(Empties(n)) == 0
  {
    if n == 0 {
    } else {
      var e: seq<seq<Row>> := Empties(n);
      var f: seq<seq<Row>> := Empties(n - 1);
      assert e[1..] == f;
      EmptyCounts(n - 1);
    }
  }

  /** Nothing is dropped silently: kept, omitted and excluded goals add up to all goals. */
  lemma GoalsAccounted(merged: seq<Aspiration>, budget: int)
    ensures var t := Budgeted(merged, budget);
            RowCount(t.kept) + Total(t.omitted) + Excluded(merged) == GoalCount(merged)
  {
    var rows := AllRows(merged, 0);
    AllRowsIndexed(merged, 0);
    SortedIndexed(rows, |merged|);
    GreedyCounts(Start(merged), SortRows(rows), budget);
    EmptyCounts(|merged|);
    TotalConst(|merged|, 0);
    AllTiers(merged, 0);
    SortIsPermutation(rows);
    assert |SortRows(rows)| == |multiset(SortRows(rows))| == |multiset(rows)| == |rows|;
    AllRowsCount(merged, 0);
  }

  // ----- the sort -----

  ghost predicate ThreeTiers(rows: seq<Row>) {
    forall k :: 0 <= k < |rows| ==> rows[k].tier <= 3
  }

  lemma {:induction false} RowTiers(goals: seq<Goal>, index: nat)
    ensures ThreeTiers(RowsOf(goals, index))
    ensures forall k :: 0 <= k < |RowsOf(goals, index)| ==> RowsOf(goals, index)[k].index == index
  {
    if goals == [] {
    } else {
      RowTiers(goals[1..], index);
    }
  }

  /** Rows come with tiers up to 3 and with their indices in order. */
  lemma {:induction false} AllTiers(merged: seq<Aspiration>, from: nat)
    ensures ThreeTiers(AllRows(merged, from)) && IndexOrdered(AllRows(merged, from))
    ensures forall k :: 0 <= k < |AllRows(merged, from)| ==> AllRows(merged, from)[k].index >= from
  {
    if merged == [] {
    } else {
      RowTiers(merged[0].goals, from);
      AllTiers(merged[1..], from + 1);
    }
  }

  ghost predicate IndexOrdered(rows: seq<Row>) {
    forall i, j :: 0 <= i < j < |rows| ==> rows[i].index <= rows[j].index
  }

  lemma {:induction false} InTierMember(rows: seq<Row>, tier: nat, k: nat)
    requires k < |InTier(rows, tier)|
    ensures InTier(rows, tier)[k].tier == tier && InTier(rows, tier)[k] in rows
  {
    var n := if rows[0].tier == tier then 1 else 0;
    if k >= n { InTierMember(rows[1..], tier, k - n); }
  }

  lemma AllInTier(rows: seq<Row>, tier: nat)
    ensures forall i :: 0 <= i < |InTier(rows, tier)| ==>
              InTier(rows, tier)[i].tier == tier && InTier(rows, tier)[i] in rows
  {
    forall i | 0 <= i < |InTier(rows, tier)|
      ensures InTier(rows, tier)[i].tier == tier && InTier(rows, tier)[i] in rows
    {
      InTierMember(rows, tier, i);
    }
  }

  lemma {:induction false} InTierOrdered(rows: seq<Row>, tier: nat)
    requires IndexOrdered(rows)
    ensures IndexOrdered(InTier(rows, tier))
  {
    if rows == [] {
    } else {
      InTierOrdered(rows[1..], tier);
      if rows[0].tier == tier {
        forall k | 0 <= k < |InTier(rows[1..], tier)|
          ensures rows[0].index <= InTier(rows[1..], tier)[k].index
        {
          InTierMember(rows[1..], tier, k);
          var j :| 0 <= j < |rows[1..]| && rows[1..][j] == InTier(rows[1..], tier)[k];
          assert rows[j + 1] == rows[1..][j];
        }
      }
    }
  }

  lemma {:induction false} CountInTier(rows: seq<Row>, tier: nat, row: Row)
    ensures multiset(InTier(rows, tier))[row] == if row.tier == tier then multiset(rows)[row] else 0
  {
    if rows == [] {
    } else {
      var rest := rows[1..];
      CountInTier(rest, tier, row);
      assert rows == [rows[0]] + rest;
      assert multiset(rows) == multiset{rows[0]} + multiset(rest);
    }
  }

  lemma CountAppend(a: seq<Row>, b: seq<Row>, row: Row)
    ensures multiset(a + b)[row] == multiset(a)[row] + multiset(b)[row]
  {
  }

  lemma CountsOf(before: seq<Row>, block: seq<Row>, row: Row, whole: nat, n: nat)
    requires n > 0 && multiset(before)[row] == if row.tier < n - 1 then whole else 0
    requires multiset(block)[row] == if row.tier == n - 1 then whole else 0
    ensures multiset(before + block)[row] == if row.tier < n then whole else 0
  {
    CountAppend(before, block, row);
  }

  lemma {:induction false} CountLaid(rows: seq<Row>, n: nat, row: Row)
    ensures multiset(Laid(rows, n))[row] == if row.tier < n then multiset(rows)[row] else 0
  {
    if n == 0 {
    } else {
      var before, block := Laid(rows, n - 1), InTier(rows, n - 1);
      CountLaid(rows, n - 1, row);
      CountInTier(rows, n - 1, row);
      CountsOf(before, block, row, multiset(rows)[row], n);
      assert Laid(rows, n) == before + block;
    }
  }

  lemma SortIsPermutation(rows: seq<Row>)
    requires ThreeTiers(rows)
    ensures multiset(SortRows(rows)) == multiset(rows)
  {
    forall row: Row
      ensures multiset(SortRows(rows))[row] == multiset(rows)[row]
    {
      CountLaid(rows, 4, row);
      if row.tier > 3 { assert row !in rows; }
    }
  }

  function InKey(rows: seq<Row>, tier: nat, index: nat): seq<Row> {
    if rows == [] then []
    else if rows[0].tier == tier && rows[0].index == index then [rows[0]] + InKey(rows[1..], tier, index)
    else InKey(rows[1..], tier, index)
  }

  lemma {:induction false} InKeyAppend(a: seq<Row>, b: seq<Row>, tier: nat, index: nat)
    ensures InKey(a + b, tier, index) == InKey(a, tier, index) + InKey(b, tier, index)
    decreases |a|
  {
    if a == [] {
      assert a + b == b;
    } else {
      InKeyAppend(a[1..], b, tier, index);
      assert (a + b)[1..] == a[1..] + b;
    }
  }

  lemma {:induction false} InKeyOfTier(rows: seq<Row>, k: nat, tier: nat, index: nat)
    ensures InKey(InTier(rows, k), tier, index) == if k == tier then InKey(rows, tier, index) else []
  {
    if rows == [] {
    } else {
      InKeyOfTier(rows[1..], k, tier, index);
      if rows[0].tier == k { assert InTier(rows, k)[1..] == InTier(rows[1..], k); }
    }
  }

  predicate KeyAtMost(a: Row, b: Row) {
    a.tier < b.tier || (a.tier == b.tier && a.index <= b.index)
  }

  lemma TierBlock(rows: seq<Row>, tier: nat)
    requires IndexOrdered(rows)
    ensures forall i, j :: 0 <= i < j < |InTier(rows, tier)| ==> KeyAtMost(InTier(rows, tier)[i], InTier(rows, tier)[j])
    ensures forall i :: 0 <= i < |InTier(rows, tier)| ==> InTier(rows, tier)[i].tier == tier
  {
    InTierOrdered(rows, tier);
    AllInTier(rows, tier);
  }

  ghost predicate KeyOrdered(rows: seq<Row>) {
    forall i, j :: 0 <= i < j < |rows| ==> KeyAtMost(rows[i], rows[j])
  }

  ghost predicate TiersBelow(rows: seq<Row>, tier: nat) {
    forall i :: 0 <= i < |rows| ==> rows[i].tier < tier
  }

  lemma AppendTier(a: seq<Row>, rows: seq<Row>, tier: nat)
    requires IndexOrdered(rows) && KeyOrdered(a) && TiersBelow(a, tier)
    ensures KeyOrdered(a + InTier(rows, tier)) && TiersBelow(a + InTier(rows, tier), tier + 1)
  {
    TierBlock(rows, tier);
  }

  lemma {:induction false} LaidIsOrdered(rows: seq<Row>, n: nat)
    requires IndexOrdered(rows)
    ensures KeyOrdered(Laid(rows, n)) && TiersBelow(Laid(rows, n), n)
  {
    if n == 0 {
    } else {
      LaidIsOrdered(rows, n - 1);
      AppendTier(Laid(rows, n - 1), rows, n - 1);
    }
  }

  lemma OneHolds(a: seq<Row>, b: seq<Row>, want: seq<Row>, tier: nat, k: nat)
    requires a == if tier < k then want else []
    requires b == if k == tier then want else []
    ensures a + b == if tier < k + 1 then want else []
  {
  }

  lemma {:induction false} LaidIsStable(rows: seq<Row>, n: nat, tier: nat, index: nat)
    ensures InKey(Laid(rows, n), tier, index) == if tier < n then InKey(rows, tier, index) else []
  {
    if n == 0 {
    } else {
      LaidIsStable(rows, n - 1, tier, index);
      InKeyOfTier(rows, n - 1, tier, index);
      InKeyAppend(Laid(rows, n - 1), InTier(rows, n - 1), tier, index);
      OneHolds(InKey(Laid(rows, n - 1), tier, index), InKey(InTier(rows, n - 1), tier, index),
               InKey(rows, tier, index), tier, n - 1);
    }
  }

  /** Laying the tiers end to end is the stable sort by (tier, index) of the rows: same
      rows, in key order, equal keys in their original order. */
  lemma SortRowsIsStableSort(rows: seq<Row>, tier: nat, index: nat)
    requires ThreeTiers(rows) && IndexOrdered(rows) && tier <= 3
    ensures multiset(SortRows(rows)) == multiset(rows) && KeyOrdered(SortRows(rows))
    ensures InKey(SortRows(rows), tier, index) == InKey(rows, tier, index)
  {
    SortIsPermutation(rows);
    LaidIsOrdered(rows, 4);
    LaidIsStable(rows, 4, tier, index);
  }

  // ----- lower tiers never see higher ones -----

  function UpTo(rows: seq<Row>, t: nat): seq<Row> {
    if rows == [] then []
    else if rows[0].tier <= t then [rows[0]] + UpTo(rows[1..], t)
    else UpTo(rows[1..], t)
  }

  function GoalsUpTo(goals: seq<Goal>, t: nat): seq<Goal> {
    if goals == [] then []
    else if Tier(goals[0]).None? || Tier(goals[0]).value <= t then [goals[0]] + GoalsUpTo(goals[1..], t)
    else GoalsUpTo(goals[1..], t)
  }

  /** The same store without the goals of tiers above `t`. */
  function WithoutAbove(merged: seq<Aspiration>, t: nat): (r: seq<Aspiration>)
    ensures |r| == |merged|
  {
    seq(|merged|, i requires 0 <= i < |merged| => merged[i].(goals := GoalsUpTo(merged[i].goals, t)))
  }

  lemma {:induction false} UpToAppend(a: seq<Row>, b: seq<Row>, t: nat)
    ensures UpTo(a + b, t) == UpTo(a, t) + UpTo(b, t)
    decreases |a|
  {
    if a == [] {
      assert a + b == b;
    } else {
      UpToAppend(a[1..], b, t);
      assert (a + b)[1..] == a[1..] + b;
    }
  }

  lemma {:induction false} RowsUpTo(goals: seq<Goal>, index: nat, t: nat)
    ensures RowsOf(GoalsUpTo(goals, t), index) == UpTo(RowsOf(goals, index), t)
  {
    if goals == [] {
    } else {
      var few, rest := GoalsUpTo(goals[1..], t), RowsOf(goals[1..], index);
      RowsUpTo(goals[1..], index, t);
      if Tier(goals[0]).None? {
        assert GoalsUpTo(goals, t) == [goals[0]] + few && ([goals[0]] + few)[1..] == few;
      } else {
        var row := Row(Tier(goals[0]).value, index, goals[0].projected);
        assert RowsOf(goals, index) == [row] + rest && ([row] + rest)[1..] == rest;
        if row.tier <= t {
          assert GoalsUpTo(goals, t) == [goals[0]] + few && ([goals[0]] + few)[1..] == few;
        }
      }
    }
  }

  lemma {:induction false} AllRowsUpTo(merged: seq<Aspiration>, from: nat, t: nat)
    ensures AllRows(WithoutAbove(merged, t), from) == UpTo(AllRows(merged, from), t)
    decreases |merged|
  {
    if merged == [] {
    } else {
      assert WithoutAbove(merged, t)[1..] == WithoutAbove(merged[1..], t);
      RowsUpTo(merged[0].goals, from, t);
      AllRowsUpTo(merged[1..], from + 1, t);
      UpToAppend(RowsOf(merged[0].goals, from), AllRows(merged[1..], from + 1), t);
    }
  }

  lemma {:induction false} InTierUpTo(rows: seq<Row>, k: nat, t: nat)
    ensures InTier(UpTo(rows, t), k) == if k <= t then InTier(rows, k) else []
  {
    if rows == [] {
    } else {
      InTierUpTo(rows[1..], k, t);
      if rows[0].tier <= t {
        assert UpTo(rows, t)[1..] == UpTo(rows[1..], t);
      }
    }
  }

  lemma {:induction false} LaidUpTo(rows: seq<Row>, n: nat, t: nat)
    ensures Laid(UpTo(rows, t), n) == Laid(rows, if n <= t + 1 then n else t + 1)
  {
    if n == 0 {
    } else {
      LaidUpTo(rows, n - 1, t);
      InTierUpTo(rows, n - 1, t);
    }
  }

  lemma {:induction false} LaidSplits(rows: seq<Row>, m: nat, n: nat) returns (rest: seq<Row>)
    requires m <= n
    ensures Laid(rows, n) == Laid(rows, m) + rest
    ensures forall k :: 0 <= k < |rest| ==> rest[k].tier >= m
    decreases n
  {
    if m == n {
      rest := [];
    } else {
      var before := LaidSplits(rows, m, n - 1);
      rest := before + InTier(rows, n - 1);
      AllInTier(rows, n - 1);
    }
  }

  /** The sorted rows begin with the sorted rows of the tiers up to `t`. */
  lemma SortedSplits(rows: seq<Row>, t: nat) returns (rest: seq<Row>)
    ensures SortRows(rows) == SortRows(UpTo(rows, t)) + rest
    ensures forall k :: 0 <= k < |rest| ==> rest[k].tier > t
  {
    LaidUpTo(rows, 4, t);
    if t < 3 {
      rest := LaidSplits(rows, t + 1, 4);
    } else {
      rest := [];
    }
  }

  lemma {:induction false} GreedyAppend(t: Tally, a: seq<Row>, b: seq<Row>, budget: int)
    requires |t.kept| == |t.omitted| && Indexed(a, |t.kept|) && Indexed(b, |t.kept|)
    ensures Indexed(a + b, |t.kept|) && Greedy(t, a + b, budget) == Greedy(Greedy(t, a, budget), b, budget)
    decreases |a|
  {
    if a == [] {
      assert a + b == b;
    } else {
      GreedyAppend(Take(t, a[0], budget), a[1..], b, budget);
      assert (a + b)[1..] == a[1..] + b;
    }
  }

  /** Rows above tier `t` add nothing to what is kept of the tiers up to `t`. */
  lemma {:induction false} HighRowsKeepLow(t: Tally, rows: seq<Row>, budget: int, tier: nat, i: nat)
    requires |t.kept| == |t.omitted| && Indexed(rows, |t.kept|) && i < |t.kept|
    requires forall k :: 0 <= k < |rows| ==> rows[k].tier > tier
    ensures UpTo(Greedy(t, rows, budget).kept[i], tier) == UpTo(t.kept[i], tier)
    decreases |rows|
  {
    if rows == [] {
    } else {
      HighRowsKeepLow(Take(t, rows[0], budget), rows[1..], budget, tier, i);
      UpToAppend(t.kept[rows[0].index], [rows[0]], tier);
      assert [rows[0]][1..] == [];
    }
  }

  lemma {:induction false} LowRowsStayLow(t: Tally, rows: seq<Row>, budget: int, tier: nat, i: nat)
    requires |t.kept| == |t.omitted| && Indexed(rows, |t.kept|) && i < |t.kept|
    requires forall k :: 0 <= k < |rows| ==> rows[k].tier <= tier
    requires UpTo(t.kept[i], tier) == t.kept[i]
    ensures UpTo(Greedy(t, rows, budget).kept[i], tier) == Greedy(t, rows, budget).kept[i]
    decreases |rows|
  {
    if rows == [] {
    } else {
      UpToAppend(t.kept[rows[0].index], [rows[0]], tier);
      assert [rows[0]][1..] == [];
      LowRowsStayLow(Take(t, rows[0], budget), rows[1..], budget, tier, i);
    }
  }

  lemma {:induction false} UpToLow(rows: seq<Row>, t: nat)
    ensures forall k :: 0 <= k < |UpTo(rows, t)| ==> UpTo(rows, t)[k].tier <= t
  {
    if rows == [] {
    } else {
      UpToLow(rows[1..], t);
    }
  }

  lemma {:induction false} LaidLow(rows: seq<Row>, n: nat, t: nat)
    requires forall k :: 0 <= k < |rows| ==> rows[k].tier <= t
    ensures forall k :: 0 <= k < |Laid(rows, n)| ==> Laid(rows, n)[k].tier <= t
  {
    if n == 0 {
    } else {
      LaidLow(rows, n - 1, t);
      AllInTier(rows, n - 1);
    }
  }

  /** A store without the goals above `t` starts from the same tally, with the rows up to
      `t`. */
  lemma WithoutAboveStart(merged: seq<Aspiration>, t: nat, budget: int)
    ensures var low := SortRows(UpTo(AllRows(merged, 0), t));
            Indexed(low, |merged|)
            && Budgeted(WithoutAbove(merged, t), budget) == Greedy(Start(merged), low, budget)
  {
    var few := WithoutAbove(merged, t);
    AllRowsUpTo(merged, 0, t);
    AllRowsIndexed(few, 0);
    SortedIndexed(AllRows(few, 0), |merged|);
    assert Shells(few) == Shells(merged);
    assert Start(few) == Start(merged);
  }

  /** Tier non-interference: what an aspiration keeps of the tiers up to `t` is what it
      would keep if the goals of higher tiers were not there at all. */
  lemma TiersDoNotInterfere(merged: seq<Aspiration>, budget: int, t: nat, i: nat)
    requires i < |merged|
    ensures UpTo(Budgeted(merged, budget).kept[i], t) == Budgeted(WithoutAbove(merged, t), budget).kept[i]
  {
    var low, high := BudgetedInTwo(merged, budget, t);
    WithoutAboveStart(merged, t, budget);
    StartShape(merged);
    FilledInTwo(Start(merged), low, high, budget, t, i);
  }

  lemma StartShape(merged: seq<Aspiration>)
    ensures var s := Start(merged);
            |s.kept| == |s.omitted| == |merged| && forall i :: 0 <= i < |merged| ==> s.kept[i] == []
  {
  }

  /** The rows up to `t` are offered first, then the rows above. */
  lemma BudgetedInTwo(merged: seq<Aspiration>, budget: int, t: nat) returns (low: seq<Row>, high: seq<Row>)
    ensures low == SortRows(UpTo(AllRows(merged, 0), t))
    ensures Indexed(low, |merged|) && Indexed(high, |merged|) && Indexed(low + high, |merged|)
    ensures forall k :: 0 <= k < |low| ==> low[k].tier <= t
    ensures forall k :: 0 <= k < |high| ==> high[k].tier > t
    ensures Budgeted(merged, budget) == Greedy(Start(merged), low + high, budget)
  {
    var rows := AllRows(merged, 0);
    low := SortRows(UpTo(rows, t));
    high := SortedSplits(rows, t);
    AllRowsIndexed(merged, 0);
    SortedIndexed(rows, |merged|);
    IndexedSplits(low, high, |merged|);
    UpToLow(rows, t);
    LaidLow(UpTo(rows, t), 4, t);
  }

  lemma IndexedSplits(a: seq<Row>, b: seq<Row>, n: nat)
    requires Indexed(a + b, n)
    ensures Indexed(a, n) && Indexed(b, n)
  {
    assert forall k :: 0 <= k < |a| ==> a[k] == (a + b)[k];
    assert forall k :: 0 <= k < |b| ==> b[k] == (a + b)[|a| + k];
  }

  lemma FilledInTwo(s: Tally, low: seq<Row>, high: seq<Row>, budget: int, t: nat, i: nat)
    requires |s.kept| == |s.omitted| && Indexed(low, |s.kept|) && Indexed(high, |s.kept|) && i < |s.kept|
    requires s.kept[i] == []
    requires forall k :: 0 <= k < |low| ==> low[k].tier <= t
    requires forall k :: 0 <= k < |high| ==> high[k].tier > t
    ensures Indexed(low + high, |s.kept|)
    ensures UpTo(Greedy(s, low + high, budget).kept[i], t) == Greedy(s, low, budget).kept[i]
  {
    GreedyAppend(s, low, high, budget);
    LowRowsStayLow(s, low, budget, t, i);
    HighRowsKeepLow(Greedy(s, low, budget), high, budget, t, i);
  }
}
