/** Sequential ids: `next_id_for_prefix` inside `locked_append_jsonl_with_allocator`. */
module Allocator {
  import opened Wrappers
  import opened Decimal

  /** An id scheme; `stem` is the prefix with its separator. */
  datatype Scheme = Scheme(stem: string, padWidth: nat)

  /** The number of a conforming id: the regex `^stem(\d+)$`, whose `$` also matches before
      a final newline. */
  function NumberOf(sch: Scheme, id: string): Option<nat> {
    if !(sch.stem <= id) then None
    else
      var rest := id[|sch.stem|..];
      var digits := if rest != "" && rest[|rest| - 1] == '\n' then rest[..|rest| - 1] else rest;
      if digits != "" && AllDigits(digits) then Some(Value(digits)) else None
  }

  function IdFor(sch: Scheme, n: nat): string {
    sch.stem + Padded(n, sch.padWidth)
  }

  /** An id conforms when it is the stem and digits, of any count, and at most a newline
      after them; its number is what the digits say. */
  lemma NumberOfIff(sch: Scheme, id: string, n: nat)
    ensures NumberOf(sch, id) == Some(n) <==>
      exists digits :: digits != "" && AllDigits(digits) && Value(digits) == n
                       && (id == sch.stem + digits || id == sch.stem + digits + "\n")
  {
    if sch.stem <= id {
      var rest := id[|sch.stem|..];
      assert id == sch.stem + rest;
      var cut := if rest != "" && rest[|rest| - 1] == '\n' then rest[..|rest| - 1] else rest;
      assert rest == cut || rest == cut + "\n";
      forall digits | digits != "" && AllDigits(digits) && (id == sch.stem + digits || id == sch.stem + digits + "\n")
        ensures sch.stem <= id && digits == cut
      {
        RestIs(sch.stem, digits, id);
      }
      if cut != "" && AllDigits(cut) {
        assert id == sch.stem + cut || id == sch.stem + cut + "\n";
      }
    } else {
      forall digits
        ensures id != sch.stem + digits && id != sch.stem + digits + "\n"
      {
        assert sch.stem <= sch.stem + digits;
        assert sch.stem <= sch.stem + digits + "\n";
      }
    }
  }

  lemma RestIs(stem: string, digits: string, id: string)
    requires digits != "" && AllDigits(digits) && (id == stem + digits || id == stem + digits + "\n")
    ensures stem <= id
    ensures var rest := id[|stem|..];
            rest != "" && digits == if rest[|rest| - 1] == '\n' then rest[..|rest| - 1] else rest
  {
    var rest := id[|stem|..];
    assert rest == digits || rest == digits + "\n";
    assert digits[|digits| - 1] != '\n' by { assert IsDigit(digits[|digits| - 1]); }
  }

  /** The id handed out for a number: the stem and its digits, as wide as the scheme asks and
      no wider than they have to be. */
  lemma IdForIs(sch: Scheme, n: nat)
    ensures var digits := IdFor(sch, n)[|sch.stem|..];
            && IdFor(sch, n) == sch.stem + digits && AllDigits(digits) && Value(digits) == n
            && |digits| >= sch.padWidth
            && (|digits| > sch.padWidth && |digits| > 1 ==> digits[0] != '0')
  {
    assert IdFor(sch, n)[|sch.stem|..] == Padded(n, sch.padWidth);
    PaddedValue(n, sch.padWidth);
    PaddedWidth(n, sch.padWidth);
  }

  /** Printing a number and matching it back. */
  lemma NumberOfId(sch: Scheme, n: nat)
    ensures NumberOf(sch, IdFor(sch, n)) == Some(n)
  {
    var rest := Padded(n, sch.padWidth);
    assert IdFor(sch, n)[|sch.stem|..] == rest;
    PaddedValue(n, sch.padWidth);
    assert IsDigit(rest[|rest| - 1]);
  }

  /** A record's id field; None where it is absent. */
  type Records = seq<Option<string>>

  ghost predicate Taken(sch: Scheme, items: Records, n: nat) {
    exists k :: 0 <= k < |items| && items[k].Some? && NumberOf(sch, items[k].value) == Some(n)
  }

  /** The number `next_id_for_prefix` hands out for this file. */
  ghost predicate IsNext(sch: Scheme, items: Records, n: nat) {
    && n >= 1
    && (forall m: nat :: Taken(sch, items, m) ==> m < n)
    && (n == 1 || Taken(sch, items, n - 1))
  }

  /** `next_id_for_prefix`: one above every conforming number in the file. */
  method NextId(sch: Scheme, items: Records) returns (id: string)
    ensures exists n: nat :: IsNext(sch, items, n) && id == IdFor(sch, n)
  {
    var maxN: nat := 0;
    for k := 0 to |items|
      invariant forall m: nat :: Taken(sch, items[..k], m) ==> m <= maxN
      invariant maxN == 0 || Taken(sch, items[..k], maxN)
    {
      var found := if items[k].Some? then NumberOf(sch, items[k].value) else None;
      if found.Some? && found.value > maxN {
        maxN := found.value;
      }
      TakenStep(sch, items, k, found);
    }
    assert items[..|items|] == items;
    id := IdFor(sch, maxN + 1);
    assert IsNext(sch, items, maxN + 1);
  }

  lemma TakenStep(sch: Scheme, items: Records, k: nat, found: Option<nat>)
    requires k < |items|
    requires found == if items[k].Some? then NumberOf(sch, items[k].value) else None
    ensures forall m: nat :: Taken(sch, items[..k + 1], m) <==> Taken(sch, items[..k], m) || found == Some(m)
  {
    var more := items[..k + 1];
    forall m: nat
      ensures Taken(sch, more, m) <==> Taken(sch, items[..k], m) || found == Some(m)
    {
      if Taken(sch, more, m) {
        var j :| 0 <= j < |more| && more[j].Some? && NumberOf(sch, more[j].value) == Some(m);
        assert j < k ==> items[..k][j] == more[j];
      }
      if Taken(sch, items[..k], m) {
        var j :| 0 <= j < k && items[..k][j].Some? && NumberOf(sch, items[..k][j].value) == Some(m);
        assert more[j] == items[..k][j];
      }
      if found == Some(m) { assert more[k] == items[k]; }
    }
  }

  // ----- runs under the lock -----

  ghost predicate AppendStep(sch: Scheme, before: Records, handed: Option<nat>, after: Records) {
    match handed
    case Some(n) => IsNext(sch, before, n) && after == before + [Some(IdFor(sch, n))]
    case None => exists other :: after == before + [other]
  }

  /** The file through a run: each step appends the next id for one of several schemes, or
      a record some other builder made. */
  ghost predicate IsAppendRun(sch: Scheme, files: seq<Records>, handed: seq<Option<nat>>) {
    && |files| == |handed| + 1
    && forall k :: 0 <= k < |handed| ==> AppendStep(sch, files[k], handed[k], files[k + 1])
  }

  lemma {:induction false} TakenStays(sch: Scheme, files: seq<Records>, handed: seq<Option<nat>>, i: nat, j: nat,
                                      n: nat)
    requires IsAppendRun(sch, files, handed) && i <= j <= |handed| && Taken(sch, files[i], n)
    ensures Taken(sch, files[j], n)
    decreases j
  {
    if i < j {
      TakenStays(sch, files, handed, i, j - 1, n);
      assert AppendStep(sch, files[j - 1], handed[j - 1], files[j - 1 + 1]);
      TakenGrows(sch, files[j - 1], files[j], n);
    }
  }

  lemma TakenGrows(sch: Scheme, items: Records, more: Records, n: nat)
    requires items <= more && Taken(sch, items, n)
    ensures Taken(sch, more, n)
  {
    var k :| 0 <= k < |items| && items[k].Some? && NumberOf(sch, items[k].value) == Some(n);
    assert more[k] == items[k];
  }

  /** Allocated ids never repeat: in any run under the lock, whatever other records are in
      the file or are appended, a new id's number is above every conforming number already
      there, and above every earlier allocation. */
  lemma AllocatedIncrease(sch: Scheme, files: seq<Records>, handed: seq<Option<nat>>, i: nat, j: nat)
    requires IsAppendRun(sch, files, handed)
    requires i < j < |handed| && handed[i].Some? && handed[j].Some?
    ensures handed[i].value < handed[j].value
    ensures IdFor(sch, handed[i].value) != IdFor(sch, handed[j].value)
  {
    var n := handed[i].value;
    NumberOfId(sch, n);
    NumberOfId(sch, handed[j].value);
    assert AppendStep(sch, files[i], handed[i], files[i + 1]);
    assert files[i + 1][|files[i]|] == Some(IdFor(sch, n));
    assert Taken(sch, files[i + 1], n);
    TakenStays(sch, files, handed, i + 1, j, n);
    assert AppendStep(sch, files[j], handed[j], files[j + 1]);
  }

  /** Every conforming id in the file names a different number. */
  ghost predicate DistinctNumbers(sch: Scheme, items: Records) {
    forall a, b :: 0 <= a < b < |items| && items[a].Some? && items[b].Some? ==>
      NumberOf(sch, items[a].value).None? || NumberOf(sch, items[a].value) != NumberOf(sch, items[b].value)
  }

  /** An allocation keeps the conforming ids pairwise distinct, as numbers and so as ids. */
  lemma AllocationKeepsDistinct(sch: Scheme, items: Records, n: nat)
    requires DistinctNumbers(sch, items) && IsNext(sch, items, n)
    ensures DistinctNumbers(sch, items + [Some(IdFor(sch, n))])
    ensures Some(IdFor(sch, n)) !in items
  {
    NumberOfId(sch, n);
    forall a | 0 <= a < |items| && items[a].Some? && NumberOf(sch, items[a].value).Some?
      ensures NumberOf(sch, items[a].value) != Some(n)
    {
      assert Taken(sch, items, NumberOf(sch, items[a].value).value);
    }
  }

  /** The appended record is no conforming id, or one whose number is new to the file. */
  ghost predicate NewNumber(sch: Scheme, items: Records, id: Option<string>) {
    id.Some? && NumberOf(sch, id.value).Some? ==> !Taken(sch, items, NumberOf(sch, id.value).value)
  }

  lemma TakenAt(sch: Scheme, items: Records, k: nat)
    requires k < |items| && items[k].Some? && NumberOf(sch, items[k].value).Some?
    ensures Taken(sch, items, NumberOf(sch, items[k].value).value)
  {
  }

  lemma AppendDistinctIff(sch: Scheme, items: Records, id: Option<string>)
    ensures DistinctNumbers(sch, items + [id]) <==> DistinctNumbers(sch, items) && NewNumber(sch, items, id)
  {
    var more := items + [id];
    assert more[|items|] == id && forall a :: 0 <= a < |items| ==> more[a] == items[a];
    if DistinctNumbers(sch, more) && id.Some? && NumberOf(sch, id.value).Some? {
      forall a | 0 <= a < |items| && items[a].Some?
        ensures NumberOf(sch, items[a].value) != NumberOf(sch, id.value)
      {
        assert more[a].Some? && more[|items|].Some?;
      }
    }
    if DistinctNumbers(sch, items) && NewNumber(sch, items, id) {
      forall a | 0 <= a < |items| && items[a].Some? && id.Some? && NumberOf(sch, id.value).Some?
        ensures NumberOf(sch, items[a].value) != NumberOf(sch, id.value)
      {
        if NumberOf(sch, items[a].value).Some? { TakenAt(sch, items, a); }
      }
    }
  }

  /** Every record that some other builder appended was new when it came. */
  ghost predicate OthersNew(sch: Scheme, files: seq<Records>, handed: seq<Option<nat>>)
    requires |files| == |handed| + 1
  {
    forall k :: 0 <= k < |handed| && handed[k].None? && files[k + 1] != [] ==>
      NewNumber(sch, files[k], files[k + 1][|files[k + 1]| - 1])
  }

  /** In every run under the lock the conforming numbers stay pairwise distinct exactly when
      they were at the start and no other builder appended a number already taken: the
      allocations themselves never add a duplicate. */
  lemma {:induction false} RunDistinctIff(sch: Scheme, files: seq<Records>, handed: seq<Option<nat>>)
    requires IsAppendRun(sch, files, handed)
    ensures DistinctNumbers(sch, files[|handed|])
       <==> DistinctNumbers(sch, files[0]) && OthersNew(sch, files, handed)
    decreases |handed|
  {
    var n := |handed|;
    if n == 0 {
    } else {
      var before, after := files[n - 1], files[n];
      RunDistinctIff(sch, files[..n], handed[..n - 1]);
      assert AppendStep(sch, files[n - 1], handed[n - 1], files[n - 1 + 1]);
      var last := after[|after| - 1];
      assert after == before + [last];
      AppendDistinctIff(sch, before, last);
      if handed[n - 1].Some? { AllocatedIsNew(sch, before, handed[n - 1].value); }
      OthersNewSnoc(sch, files, handed);
    }
  }

  lemma AllocatedIsNew(sch: Scheme, items: Records, n: nat)
    requires IsNext(sch, items, n)
    ensures NewNumber(sch, items, Some(IdFor(sch, n)))
  {
    NumberOfId(sch, n);
  }

  lemma OthersNewSnoc(sch: Scheme, files: seq<Records>, handed: seq<Option<nat>>)
    requires |files| == |handed| + 1 && handed != []
    requires files[|handed|] != []
    ensures var n := |handed|;
            OthersNew(sch, files, handed) <==>
              OthersNew(sch, files[..n], handed[..n - 1])
              && (handed[n - 1].None? ==> NewNumber(sch, files[n - 1], files[n][|files[n]| - 1]))
  {
    var n := |handed|;
    assert forall k {:trigger handed[..n - 1][k]} {:trigger handed[k]} :: 0 <= k < n - 1 ==>
      handed[..n - 1][k] == handed[k] && files[..n][k] == files[k] && files[..n][k + 1] == files[k + 1];
  }

  /** The file, and its append primitive with the allocating builder. */
  class Jsonl {
    var items: Records

    constructor (initial: Records)
      ensures items == initial
    {
      items := initial;
    }

    /** `locked_append_jsonl_with_allocator`, the lock held throughout. */
    method AppendAllocated(sch: Scheme) returns (id: string, ghost n: nat)
      modifies this
      ensures id == IdFor(sch, n) && IsNext(sch, old(items), n)
      ensures items == old(items) + [Some(id)]
      ensures Some(id) !in old(items)
      ensures old(DistinctNumbers(sch, items)) ==> DistinctNumbers(sch, items)
    {
      id := NextId(sch, items);
      n :| IsNext(sch, items, n) && id == IdFor(sch, n);
      NumberOfId(sch, n);
      forall a | 0 <= a < |items| && items[a] == Some(id)
        ensures false
      {
        assert Taken(sch, items, n);
      }
      if DistinctNumbers(sch, items) { AllocationKeepsDistinct(sch, items, n); }
      items := items + [Some(id)];
    }
  }
}
