/** The snapshot store's delta codec (`_encode_suffix`, `_encode_delta`, `_apply_delta`).

  A stored delta is gzip'd JSON; both are lossless, so a delta is modelled as the JSON
  value itself. difflib's opcodes are an input, held to what `get_opcodes` promises. */
module DeltaCodec {
  import opened Wrappers
  import opened Utf8
  import opened TextLines

  const BINARY_SAMPLE_BYTES: nat := 8192

  datatype Opcode = Opcode(tag: string, i1: nat, i2: nat, j1: nat, j2: nat)

  datatype Delta =
    | SuffixV1(suffix: string)
    | LinesV1(ops: seq<Opcode>, inserts: seq<seq<string>>)
    | OtherFormat(format: string)

  datatype Error = UnicodeError | ValueError(what: string) | IndexError | FileNotFound | OSError

  predicate LooksLikeText(b: Bytes) {
    0 !in (if |b| <= BINARY_SAMPLE_BYTES then b else b[..BINARY_SAMPLE_BYTES])
  }

  /** Python slicing: bounds past the end are clamped. */
  function Slice<T>(s: seq<T>, i: nat, j: nat): seq<T> {
    var hi := if j <= |s| then j else |s|;
    if i <= hi then s[i..hi] else []
  }

  // ----- decoding -----

  function Replay(base: seq<string>, ops: seq<Opcode>, inserts: seq<seq<string>>): Result<seq<string>, Error> {
    if ops == [] then Ok([])
    else if ops[0].tag == "equal" then
      match Replay(base, ops[1..], inserts)
      case Ok(rest) => Ok(Slice(base, ops[0].i1, ops[0].i2) + rest)
      case Err(e) => Err(e)
    else if ops[0].tag == "delete" then Replay(base, ops[1..], inserts)
    else if ops[0].tag == "insert" || ops[0].tag == "replace" then
      if inserts == [] then Err(IndexError)
      else
        match Replay(base, ops[1..], inserts[1..])
        case Ok(rest) => Ok(inserts[0] + rest)
        case Err(e) => Err(e)
    else Err(ValueError("Unknown opcode"))
  }

  function ApplyDelta(base: Bytes, d: Delta): Result<Bytes, Error> {
    match d
    case SuffixV1(suffix) => Ok(base + Encode(suffix))
    case OtherFormat(_) => Err(ValueError("Unknown delta format"))
    case LinesV1(ops, inserts) =>
      match Decode(base)
      case None => Err(UnicodeError)
      case Some(text) =>
        match Replay(SplitLines(text), ops, inserts)
        case Err(e) => Err(e)
        case Ok(lines) => Ok(Encode(Join(lines)))
  }

  /** One turn of `_apply_delta`'s loop. */
  lemma ReplayStep(base: seq<string>, ops: seq<Opcode>, inserts: seq<seq<string>>, k: nat, n: nat, done: seq<string>)
    requires k < |ops| && n <= |inserts|
    ensures var op := ops[k];
            Prefixed(done, Replay(base, ops[k..], inserts[n..])) ==
            if op.tag == "equal" then
              Prefixed(done + Slice(base, op.i1, op.i2), Replay(base, ops[k + 1..], inserts[n..]))
            else if op.tag == "delete" then Prefixed(done, Replay(base, ops[k + 1..], inserts[n..]))
            else if op.tag == "insert" || op.tag == "replace" then
              if n == |inserts| then Err(IndexError)
              else Prefixed(done + inserts[n], Replay(base, ops[k + 1..], inserts[n + 1..]))
            else Err(ValueError("Unknown opcode"))
  {
    assert ops[k..][1..] == ops[k + 1..];
    if n < |inserts| {
      assert inserts[n..][1..] == inserts[n + 1..];
      var rest := Replay(base, ops[k + 1..], inserts[n + 1..]);
      assert rest.Ok? ==> done + (inserts[n] + rest.value) == done + inserts[n] + rest.value;
    }
    var rest := Replay(base, ops[k + 1..], inserts[n..]);
    var copied := Slice(base, ops[k].i1, ops[k].i2);
    assert rest.Ok? ==> done + (copied + rest.value) == done + copied + rest.value;
  }

  function Prefixed(done: seq<string>, r: Result<seq<string>, Error>): Result<seq<string>, Error> {
    if r.Ok? then Ok(done + r.value) else r
  }

  /** `_apply_delta` as the source runs it: one pass with an index into the insert blocks. */
  method RunDelta(base: Bytes, d: Delta) returns (r: Result<Bytes, Error>)
    ensures r == ApplyDelta(base, d)
  {
    if d.SuffixV1? {
      return Ok(base + Encode(d.suffix));
    }
    if !d.LinesV1? {
      return Err(ValueError("Unknown delta format"));
    }
    var text := Decode(base);
    if text.None? {
      return Err(UnicodeError);
    }
    var baseLines := SplitLines(text.value);
    var resultLines := [];
    var insertIdx := 0;
    var k := 0;
    ghost var want := Replay(baseLines, d.ops, d.inserts);
    assert d.ops[0..] == d.ops && d.inserts[0..] == d.inserts;
    assert want.Ok? ==> [] + want.value == want.value;
    while k < |d.ops|
      invariant 0 <= k <= |d.ops| && 0 <= insertIdx <= |d.inserts|
      invariant want == Prefixed(resultLines, Replay(baseLines, d.ops[k..], d.inserts[insertIdx..]))
    {
      var op := d.ops[k];
      ReplayStep(baseLines, d.ops, d.inserts, k, insertIdx, resultLines);
      if op.tag == "equal" {
        resultLines := resultLines + Slice(baseLines, op.i1, op.i2);
      } else if op.tag == "delete" {
      } else if op.tag == "insert" || op.tag == "replace" {
        if insertIdx >= |d.inserts| {
          return Err(IndexError);
        }
        resultLines := resultLines + d.inserts[insertIdx];
        insertIdx := insertIdx + 1;
      } else {
        return Err(ValueError("Unknown opcode"));
      }
      k := k + 1;
    }
    assert want == Ok(resultLines) by {
      assert resultLines + [] == resultLines;
    }
    return Ok(Encode(Join(resultLines)));
  }

  // ----- encoding -----

  function EncodeSuffix(base: Bytes, current: Bytes): Option<Delta> {
    if |current| < |base| || !(base <= current) then None
    else
      match (Decode(base), Decode(current[|base|..]))
      case (Some(_), Some(tail)) => Some(SuffixV1(tail))
      case _ => None
  }

  function InsertBlocks(ops: seq<Opcode>, current: seq<string>): seq<seq<string>> {
    if ops == [] then []
    else
      (if ops[0].tag == "insert" || ops[0].tag == "replace" then [Slice(current, ops[0].j1, ops[0].j2)] else [])
      + InsertBlocks(ops[1..], current)
  }

  /** One turn of `_encode_delta`'s loop. */
  lemma BlocksStep(ops: seq<Opcode>, current: seq<string>, k: nat, done: seq<seq<string>>)
    requires k < |ops|
    ensures done + InsertBlocks(ops[k..], current) ==
            (if ops[k].tag == "insert" || ops[k].tag == "replace"
             then done + [Slice(current, ops[k].j1, ops[k].j2)] else done) + InsertBlocks(ops[k + 1..], current)
  {
    assert ops[k..][1..] == ops[k + 1..];
  }

  /** What `difflib.SequenceMatcher` computes: opcodes for two line sequences. */
  type Matcher = (seq<string>, seq<string>) -> seq<Opcode>

  function EncodeDelta(base: Bytes, current: Bytes, matcher: Matcher): Option<Delta> {
    if !LooksLikeText(base) || !LooksLikeText(current) then None
    else
      match (Decode(base), Decode(current))
      case (Some(b), Some(c)) =>
        var ops := matcher(SplitLines(b), SplitLines(c));
        Some(LinesV1(ops, InsertBlocks(ops, SplitLines(c))))
      case _ => None
  }

  /** `_encode_delta` as the source runs it. */
  method BuildDelta(base: Bytes, current: Bytes, matcher: Matcher) returns (r: Option<Delta>)
    ensures r == EncodeDelta(base, current, matcher)
  {
    if !LooksLikeText(base) || !LooksLikeText(current) {
      return None;
    }
    var baseText, currentText := Decode(base), Decode(current);
    if baseText.None? || currentText.None? {
      return None;
    }
    var currentLines := SplitLines(currentText.value);
    var ops := matcher(SplitLines(baseText.value), currentLines);
    var opList, inserts := [], [];
    ghost var want := InsertBlocks(ops, currentLines);
    assert ops[0..] == ops && [] + want == want;
    for k := 0 to |ops|
      invariant opList == ops[..k]
      invariant want == inserts + InsertBlocks(ops[k..], currentLines)
    {
      BlocksStep(ops, currentLines, k, inserts);
      var op := ops[k];
      opList := opList + [op];
      if op.tag == "insert" || op.tag == "replace" {
        inserts := inserts + [Slice(currentLines, op.j1, op.j2)];
      }
    }
    assert ops[..|ops|] == ops && inserts + [] == inserts;
    return Some(LinesV1(opList, inserts));
  }

  // ----- what the codec is for -----

  /** From positions i and j on, the opcodes cover both sequences in order, without gaps,
      and every `equal` block is truthful. */
  ghost predicate Tiles(ops: seq<Opcode>, a: seq<string>, b: seq<string>, i: nat, j: nat)
    decreases |ops|
  {
    if ops == [] then i == |a| && j == |b|
    else
      var op := ops[0];
      && op.i1 == i <= op.i2 <= |a| && op.j1 == j <= op.j2 <= |b|
      && op.tag in {"equal", "delete", "insert", "replace"}
      && (op.tag == "equal" ==> a[i..op.i2] == b[j..op.j2])
      && (op.tag == "delete" ==> op.j2 == j)
      && (op.tag == "insert" ==> op.i2 == i)
      && Tiles(ops[1..], a, b, op.i2, op.j2)
  }

  /** difflib's contract, for every pair of line sequences. */
  ghost predicate Faithful(matcher: Matcher) {
    forall a, b :: Tiles(matcher(a, b), a, b, 0, 0)
  }

  lemma {:induction false} ReplayTiles(ops: seq<Opcode>, a: seq<string>, b: seq<string>, i: nat, j: nat)
    requires Tiles(ops, a, b, i, j)
    ensures j <= |b| && Replay(a, ops, InsertBlocks(ops, b)) == Ok(b[j..])
    decreases |ops|
  {
    if ops == [] {
      assert b[j..] == [];
    } else {
      var op := ops[0];
      ReplayTiles(ops[1..], a, b, op.i2, op.j2);
      assert b[j..] == b[j..op.j2] + b[op.j2..];
      if op.tag == "insert" || op.tag == "replace" {
        assert InsertBlocks(ops, b)[0] == b[j..op.j2];
        assert InsertBlocks(ops, b)[1..] == InsertBlocks(ops[1..], b);
      } else {
        assert InsertBlocks(ops, b) == InsertBlocks(ops[1..], b);
        assert op.tag == "equal" ==> Slice(a, op.i1, op.i2) == b[j..op.j2];
        assert op.tag == "delete" ==> b[j..op.j2] == [];
      }
    }
  }

  /** A line delta applied to its base gives back exactly the bytes it was made from. */
  lemma DeltaRoundTrip(base: Bytes, current: Bytes, matcher: Matcher)
    requires Faithful(matcher) && EncodeDelta(base, current, matcher).Some?
    ensures ApplyDelta(base, EncodeDelta(base, current, matcher).value) == Ok(current)
  {
    var b, c := Decode(base).value, Decode(current).value;
    ReplayTiles(matcher(SplitLines(b), SplitLines(c)), SplitLines(b), SplitLines(c), 0, 0);
    JoinSplit(c);
    DecodeIffEncode(current, c);
  }

  /** Over a decodable base, the suffix form is chosen exactly when it decodes to the
      current bytes, and then with the only suffix that does. */
  lemma SuffixIff(base: Bytes, current: Bytes, tail: string)
    requires Decode(base).Some?
    ensures EncodeSuffix(base, current) == Some(SuffixV1(tail))
       <==> ApplyDelta(base, SuffixV1(tail)) == Ok(current)
  {
    if base <= current {
      DecodeIffEncode(current[|base|..], tail);
      assert base + current[|base|..] == current;
    }
    if base + Encode(tail) == current {
      assert current[|base|..] == Encode(tail);
    }
  }

  lemma SuffixRoundTrip(base: Bytes, current: Bytes)
    requires EncodeSuffix(base, current).Some?
    ensures ApplyDelta(base, EncodeSuffix(base, current).value) == Ok(current)
  {
    SuffixIff(base, current, EncodeSuffix(base, current).value.suffix);
  }
}
