/** The manifest wire format: `_serialize_manifest` and `_read_manifest`. */
module ManifestText {
  import opened Wrappers
  import opened TextLines
  import opened Decimal

  datatype PyValue = PyNone | PyBool(b: bool) | PyInt(i: int) | PyStr(s: string)

  type Dict = map<string, PyValue>

  const MANIFEST_KEYS: seq<string> :=
    ["hash", "encoding", "base", "size_bytes", "agent", "summary", "timestamp", "chain_length"]

  function Get(d: Dict, key: string): PyValue {
    if key in d then d[key] else PyNone
  }

  // ----- printing -----

  function Escape(s: string, c: char): string {
    if s == "" then "" else (if s[0] == c then ['\\', c] else [s[0]]) + Escape(s[1..], c)
  }

  predicate NeedsQuotes(s: string) {
    ':' in s || '#' in s || '\n' in s || '"' in s
  }

  function IntText(i: int): string {
    if i < 0 then "-" + ToDigits(-i) else ToDigits(i)
  }

  function PrintValue(v: PyValue): string {
    match v
    case PyNone => "null"
    case PyBool(b) => if b then "true" else "false"
    case PyInt(i) => IntText(i)
    case PyStr(s) => if NeedsQuotes(s) then "\"" + Escape(Escape(s, '\\'), '"') + "\"" else s
  }

  function PrintLine(d: Dict, key: string): string {
    key + ": " + PrintValue(Get(d, key))
  }

  function Serialize(d: Dict, keys: seq<string>): string {
    if keys == [] then "" else PrintLine(d, keys[0]) + "\n" + Serialize(d, keys[1..])
  }

  function Serialized(d: Dict, key: string): string {
    PrintLine(d, key) + "\n"
  }

  lemma SerializeCons(d: Dict, keys: seq<string>)
    requires keys != []
    ensures Serialize(d, keys) == Serialized(d, keys[0]) + Serialize(d, keys[1..])
  {
  }

  lemma Associates(a: string, b: string, c: string)
    ensures a + (b + c) == a + b + c && a + "" == "" + a == a
  {
  }

  lemma {:induction false} SerializeSnoc(d: Dict, keys: seq<string>, key: string)
    ensures Serialize(d, keys + [key]) == Serialize(d, keys) + Serialized(d, key)
    decreases |keys|
  {
    SerializeCons(d, keys + [key]);
    if keys == [] {
      assert (keys + [key])[1..] == [];
      Associates(Serialized(d, key), "", "");
    } else {
      SerializeSnoc(d, keys[1..], key);
      SerializeCons(d, keys);
      assert (keys + [key])[1..] == keys[1..] + [key];
      Associates(Serialized(d, keys[0]), Serialize(d, keys[1..]), Serialized(d, key));
    }
  }

  /** `_serialize_manifest`, for the given key order. */
  method SerializeManifest(d: Dict, keys: seq<string>) returns (text: string)
    ensures text == Serialize(d, keys)
  {
    text := "";
    var k := 0;
    assert keys[..0] == [];
    while k < |keys|
      invariant 0 <= k <= |keys|
      invariant text == Serialize(d, keys[..k])
    {
      SerializeSnoc(d, keys[..k], keys[k]);
      assert keys[..k] + [keys[k]] == keys[..k + 1];
      var line := PrintLine(d, keys[k]) + "\n";
      text := text + line;
      k := k + 1;
    }
    assert keys[..k] == keys;
  }

  // ----- parsing -----

  /** What `str.strip` removes. */
  predicate IsSpace(c: char) {
    || '\t' <= c <= '\r' || '\U{1C}' <= c <= ' '
    || c in {'\U{85}', '\U{A0}', '\U{1680}', '\U{2028}', '\U{2029}', '\U{202F}', '\U{205F}', '\U{3000}'}
    || '\U{2000}' <= c <= '\U{200A}'
  }

  function StripLeft(s: string): string {
    if s != "" && IsSpace(s[0]) then StripLeft(s[1..]) else s
  }

  function StripRight(s: string): string {
    if s != "" && IsSpace(s[|s| - 1]) then StripRight(s[..|s| - 1]) else s
  }

  function Strip(s: string): string {
    StripRight(StripLeft(s))
  }

  /** Every `\c`, left to right, becomes `c`. */
  function Unescape(s: string, c: char): string {
    if |s| >= 2 && s[0] == '\\' && s[1] == c then [c] + Unescape(s[2..], c)
    else if s == "" then "" else [s[0]] + Unescape(s[1..], c)
  }

  function StripDashes(s: string): string {
    if s != "" && s[0] == '-' then StripDashes(s[1..]) else s
  }

  /** `value.lstrip("-").isdigit()` */
  predicate DigitLike(s: string) {
    StripDashes(s) != "" && AllDigits(StripDashes(s))
  }

  /** The parsed value, or None where `int(value)` raises. */
  function ParseValue(value: string): Option<PyValue> {
    if value == "null" || value == "" then Some(PyNone)
    else if DigitLike(value) then
      if AllDigits(value) then Some(PyInt(Value(value)))
      else if AllDigits(value[1..]) then Some(PyInt(0 - Value(value[1..])))
      else None
    else if value[0] == '"' && value[|value| - 1] == '"' then
      Some(PyStr(if |value| == 1 then "" else Unescape(Unescape(value[1..|value| - 1], '"'), '\\')))
    else Some(PyStr(value))
  }

  function ColonAt(line: string): (n: nat)
    ensures n <= |line| && (n < |line| ==> line[n] == ':')
  {
    if line == "" || line[0] == ':' then 0 else 1 + ColonAt(line[1..])
  }

  /** One turn of the parse loop: None where it raises. */
  function ParseLine(line: string, acc: Dict): Option<Dict> {
    var n := ColonAt(line);
    if n == |line| then Some(acc)
    else
      match ParseValue(Strip(line[n + 1..]))
      case None => None
      case Some(v) => Some(acc[Strip(line[..n]) := v])
  }

  function ParseLines(lines: seq<string>, acc: Dict): Option<Dict> {
    if lines == [] then Some(acc)
    else
      match ParseLine(Chomp(lines[0]), acc)
      case None => None
      case Some(more) => ParseLines(lines[1..], more)
  }

  function Parse(text: string): Option<Dict> {
    ParseLines(SplitLines(text), map[])
  }

  /** `_read_manifest` */
  method ReadManifest(text: string) returns (r: Option<Dict>)
    ensures r == Parse(text)
  {
    var lines := SplitLines(text);
    var result: Dict := map[];
    var k := 0;
    assert lines[0..] == lines;
    while k < |lines|
      invariant 0 <= k <= |lines|
      invariant Parse(text) == ParseLines(lines[k..], result)
    {
      assert lines[k..][1..] == lines[k + 1..];
      var more := ParseLine(Chomp(lines[k]), result);
      if more.None? {
        return None;
      }
      result := more.value;
      k := k + 1;
    }
    return Some(result);
  }

  // ----- when they are inverse -----

  predicate Trimmed(s: string) {
    s == "" || (!IsSpace(s[0]) && !IsSpace(s[|s| - 1]))
  }

  /** The values the format can carry. */
  predicate Representable(v: PyValue) {
    match v
    case PyNone => true
    case PyInt(_) => true
    case PyBool(_) => false
    case PyStr(s) =>
      NoBreak(s) && (NeedsQuotes(s) || (s != "" && Trimmed(s) && s != "null" && !DigitLike(s)))
  }

  /** The first replacement undoes the quote escaping and leaves the doubled backslashes. */
  lemma {:induction false} UnescapeQuotes(s: string)
    ensures Unescape(Escape(Escape(s, '\\'), '"'), '"') == Escape(s, '\\')
  {
    if s == "" {
    } else {
      UnescapeQuotes(s[1..]);
      var rest := Escape(Escape(s[1..], '\\'), '"');
      var one := Escape(s, '\\');
      if s[0] == '\\' {
        assert one == "\\\\" + Escape(s[1..], '\\');
        assert one[1..] == "\\" + Escape(s[1..], '\\');
        assert one[1..][1..] == Escape(s[1..], '\\');
        assert Escape(one[1..], '"') == "\\" + rest;
        assert Escape(one, '"') == "\\" + ("\\" + rest);
        BackslashThenEscaped(Escape(s[1..], '\\'));
        assert ("\\" + ("\\" + rest))[1..] == "\\" + rest;
      } else {
        assert one == [s[0]] + Escape(s[1..], '\\');
        assert one[1..] == Escape(s[1..], '\\');
        if s[0] == '"' {
          assert Escape(one, '"') == ['\\', '"'] + rest;
          assert (['\\', '"'] + rest)[2..] == rest;
        } else {
          assert Escape(one, '"') == [s[0]] + rest;
          assert ([s[0]] + rest)[1..] == rest;
        }
      }
    }
  }

  /** A backslash in front of quote-escaped text is not taken for an escape. */
  lemma BackslashThenEscaped(t: string)
    ensures Unescape("\\" + Escape(t, '"'), '"') == "\\" + Unescape(Escape(t, '"'), '"')
  {
    var e := Escape(t, '"');
    assert ("\\" + e)[1..] == e;
    assert e == "" || e[0] != '"';
  }

  lemma {:induction false} UnescapeBackslashes(s: string)
    ensures Unescape(Escape(s, '\\'), '\\') == s
  {
    if s == "" {
    } else {
      UnescapeBackslashes(s[1..]);
      var e := Escape(s, '\\');
      if s[0] == '\\' {
        assert e[2..] == Escape(s[1..], '\\');
      } else {
        assert e[1..] == Escape(s[1..], '\\');
      }
    }
  }

  lemma StripTrimmed(s: string)
    requires Trimmed(s)
    ensures Strip(" " + s) == s && Strip(s) == s
  {
    assert (" " + s)[0] == ' ' && IsSpace(' ');
    assert (" " + s)[1..] == s;
    assert StripLeft(s) == s && StripRight(s) == s;
    assert StripLeft(" " + s) == StripLeft(s);
  }

  /** A stripped text is trimmed, so stripping never gives back an untrimmed one. */
  lemma {:induction false} StripIsTrimmed(s: string)
    ensures Trimmed(Strip(s))
    decreases |s|
  {
    if s != "" && IsSpace(s[0]) {
      StripIsTrimmed(s[1..]);
    } else if s != "" {
      RightKeepsFirst(s);
    }
  }

  lemma {:induction false} RightKeepsFirst(s: string)
    requires s != "" && !IsSpace(s[0])
    ensures Trimmed(StripRight(s)) && StripRight(s) != "" && StripRight(s)[0] == s[0]
    decreases |s|
  {
    if IsSpace(s[|s| - 1]) {
      RightKeepsFirst(s[..|s| - 1]);
    }
  }

  /** What stripping leaves: all but the white space before and after. */
  lemma {:induction false} StripIs(s: string) returns (from: nat, to: nat)
    ensures from <= to <= |s| && Strip(s) == s[from..to]
    ensures forall k :: 0 <= k < from || to <= k < |s| ==> IsSpace(s[k])
    ensures from < to ==> !IsSpace(s[from]) && !IsSpace(s[to - 1])
    decreases |s|
  {
    if s != "" && IsSpace(s[0]) {
      from, to := StripIs(s[1..]);
      assert s[1..][from..to] == s[from + 1..to + 1];
      assert forall k :: 0 <= k < |s| - 1 ==> s[1..][k] == s[k + 1];
      from, to := from + 1, to + 1;
    } else {
      to := StripRightIs(s);
      from := 0;
    }
  }

  lemma {:induction false} StripRightIs(s: string) returns (to: nat)
    ensures to <= |s| && StripRight(s) == s[..to]
    ensures forall k :: to <= k < |s| ==> IsSpace(s[k])
    ensures to > 0 ==> !IsSpace(s[to - 1])
    decreases |s|
  {
    to := |s|;
    if s != "" && IsSpace(s[|s| - 1]) {
      to := StripRightIs(s[..|s| - 1]);
      assert s[..|s| - 1][..to] == s[..to];
    }
  }

  lemma IntReparses(i: int)
    ensures ParseValue(IntText(i)) == Some(PyInt(i)) && Trimmed(IntText(i))
  {
    var t := IntText(i);
    if i < 0 {
      ValueOfDigits(-i);
      assert t[1..] == ToDigits(-i);
      assert ToDigits(-i)[0] != '-';
      assert t[0] == '-' && !AllDigits(t);
      assert StripDashes(t) == StripDashes(t[1..]) == t[1..];
    } else {
      ValueOfDigits(i);
      assert IsDigit(t[0]);
    }
  }

  /** What a value is read back as, when its printed form is one line. */
  function Reparse(v: PyValue): Option<PyValue> {
    ParseValue(Strip(" " + PrintValue(v)))
  }

  lemma QuotedReparses(s: string)
    requires NeedsQuotes(s)
    ensures Reparse(PyStr(s)) == Some(PyStr(s))
  {
    var body := Escape(Escape(s, '\\'), '"');
    var t := "\"" + body + "\"";
    StripTrimmed(t);
    assert t[0] == '"' && StripDashes(t) == t && !IsDigit(t[0]);
    assert t[1..|t| - 1] == body;
    UnescapeQuotes(s);
    UnescapeBackslashes(s);
  }

  lemma ReparseIff(v: PyValue)
    requires v.PyStr? ==> NoBreak(v.s)
    ensures Reparse(v) == Some(v) <==> Representable(v)
  {
    match v
    case PyNone => StripTrimmed("null");
    case PyBool(b) => StripTrimmed(PrintValue(v));
    case PyInt(i) =>
      IntReparses(i);
      StripTrimmed(IntText(i));
    case PyStr(s) =>
      if NeedsQuotes(s) {
        QuotedReparses(s);
      } else {
        StripIsTrimmed(" " + s);
        if Trimmed(s) { StripTrimmed(s); }
        var t := Strip(" " + s);
        if t != "" && t[0] == '"' { StripKeepsChars(" " + s, '"'); }
      }
  }

  lemma {:induction false} StripKeepsChars(s: string, c: char)
    requires c in Strip(s)
    ensures c in s
    decreases |s|
  {
    if s != "" && IsSpace(s[0]) {
      StripKeepsChars(s[1..], c);
    } else {
      RightKeepsChars(s, c);
    }
  }

  lemma {:induction false} RightKeepsChars(s: string, c: char)
    requires c in StripRight(s)
    ensures c in s
    decreases |s|
  {
    if s != "" && IsSpace(s[|s| - 1]) {
      RightKeepsChars(s[..|s| - 1], c);
    }
  }

  // ----- the whole manifest -----

  /** The dict a parse of single-line values builds. */
  function Rebuild(d: Dict, keys: seq<string>, acc: Dict): Option<Dict> {
    if keys == [] then Some(acc)
    else
      match Reparse(Get(d, keys[0]))
      case None => None
      case Some(v) => Rebuild(d, keys[1..], acc[keys[0] := v])
  }

  predicate OneLine(v: PyValue) {
    v.PyStr? ==> NoBreak(v.s)
  }

  predicate PlainKey(key: string) {
    ':' !in key && Trimmed(key) && NoBreak(key)
  }

  lemma {:induction false} EscapeNoBreak(s: string, c: char)
    requires NoBreak(s) && !IsBreak(c)
    ensures NoBreak(Escape(s, c))
  {
    if s == "" {
    } else {
      EscapeNoBreak(s[1..], c);
    }
  }

  lemma PrintNoBreak(v: PyValue)
    requires OneLine(v)
    ensures NoBreak(PrintValue(v))
  {
    match v
    case PyNone =>
    case PyBool(_) =>
    case PyInt(i) =>
    case PyStr(s) =>
      EscapeNoBreak(s, '\\');
      EscapeNoBreak(Escape(s, '\\'), '"');
  }

  lemma {:induction false} ColonAfter(key: string, rest: string)
    requires ':' !in key
    ensures ColonAt(key + ":" + rest) == |key|
  {
    var line := key + ":" + rest;
    if key == "" {
    } else {
      ColonAfter(key[1..], rest);
      assert line[1..] == key[1..] + ":" + rest;
      assert line[0] == key[0];
    }
  }

  lemma PrintedLineParses(d: Dict, key: string, acc: Dict)
    requires PlainKey(key) && OneLine(Get(d, key))
    ensures NoBreak(PrintLine(d, key))
    ensures ParseLine(PrintLine(d, key), acc) ==
            match Reparse(Get(d, key)) case None => None case Some(v) => Some(acc[key := v])
  {
    var text := PrintValue(Get(d, key));
    var line := PrintLine(d, key);
    PrintNoBreak(Get(d, key));
    assert line == key + ":" + (" " + text);
    ColonAfter(key, " " + text);
    assert line[..|key|] == key && line[|key| + 1..] == " " + text;
    StripTrimmed(key);
  }

  lemma {:induction false} PrintedParses(d: Dict, keys: seq<string>, acc: Dict)
    requires forall k :: 0 <= k < |keys| ==> PlainKey(keys[k]) && OneLine(Get(d, keys[k]))
    ensures ParseLines(SplitLines(Serialize(d, keys)), acc) == Rebuild(d, keys, acc)
    decreases |keys|
  {
    if keys == [] {
    } else {
      var line, rest := PrintLine(d, keys[0]), Serialize(d, keys[1..]);
      var text := Serialize(d, keys);
      PrintedLineParses(d, keys[0], acc);
      FirstLineOf(line, rest);
      assert text == line + "\n" + rest;
      assert text[..|line| + 1] == line + "\n" && text[|line| + 1..] == rest;
      assert SplitLines(text) == [line + "\n"] + SplitLines(rest);
      ChompLine(line);
      if Reparse(Get(d, keys[0])).Some? {
        PrintedParses(d, keys[1..], acc[keys[0] := Reparse(Get(d, keys[0])).value]);
      }
    }
  }

  lemma ChompLine(line: string)
    requires NoBreak(line)
    ensures Chomp(line + "\n") == line
  {
    assert line == "" || line[|line| - 1] != '\r';
    assert (line + "\n")[..|line|] == line;
  }

  /** The record as `data.get(key)` sees it. */
  function Fields(d: Dict, keys: seq<string>): Dict {
    map k | k in keys :: Get(d, k)
  }

  predicate Distinct(keys: seq<string>) {
    forall i, j :: 0 <= i < j < |keys| ==> keys[i] != keys[j]
  }

  predicate Exact(v: PyValue) {
    Reparse(v) == Some(v)
  }

  lemma RebuildTurn(d: Dict, keys: seq<string>, acc: Dict)
    requires keys != [] && Exact(Get(d, keys[0]))
    ensures Rebuild(d, keys, acc) == Rebuild(d, keys[1..], acc[keys[0] := Get(d, keys[0])])
  {
  }

  lemma FieldsTurn(d: Dict, keys: seq<string>, acc: Dict)
    requires keys != []
    ensures acc[keys[0] := Get(d, keys[0])] + Fields(d, keys[1..]) == acc + Fields(d, keys)
  {
    assert keys == [keys[0]] + keys[1..];
  }

  lemma {:induction false} RebuildAll(d: Dict, keys: seq<string>, acc: Dict)
    requires forall i :: 0 <= i < |keys| ==> Exact(Get(d, keys[i]))
    ensures Rebuild(d, keys, acc) == Some(acc + Fields(d, keys))
    decreases |keys|
  {
    if keys == [] {
      assert acc + Fields(d, keys) == acc;
    } else {
      RebuildTurn(d, keys, acc);
      FieldsTurn(d, keys, acc);
      RebuildAll(d, keys[1..], acc[keys[0] := Get(d, keys[0])]);
    }
  }

  /** A later line never overrides an earlier key. */
  lemma {:induction false} RebuildEach(d: Dict, keys: seq<string>, acc: Dict, key: string)
    requires Distinct(keys) && Rebuild(d, keys, acc).Some?
    ensures key in keys ==>
              key in Rebuild(d, keys, acc).value && Reparse(Get(d, key)) == Some(Rebuild(d, keys, acc).value[key])
    ensures key in acc && key !in keys ==>
              key in Rebuild(d, keys, acc).value && Rebuild(d, keys, acc).value[key] == acc[key]
    decreases |keys|
  {
    if keys == [] {
    } else {
      var back := Reparse(Get(d, keys[0])).value;
      RebuildEach(d, keys[1..], acc[keys[0] := back], key);
    }
  }

  lemma {:induction false} UnescapeNoBreak(s: string, c: char)
    requires NoBreak(s) && !IsBreak(c)
    ensures NoBreak(Unescape(s, c))
    decreases |s|
  {
    if |s| >= 2 && s[0] == '\\' && s[1] == c {
      UnescapeNoBreak(s[2..], c);
    } else if s != "" {
      UnescapeNoBreak(s[1..], c);
    }
  }

  lemma {:induction false} StripNoBreak(s: string)
    requires NoBreak(s)
    ensures NoBreak(StripRight(s)) && NoBreak(StripLeft(s)) && NoBreak(Strip(s))
    decreases |s|
  {
    if s == "" {
    } else {
      StripNoBreak(s[..|s| - 1]);
      StripNoBreak(s[1..]);
    }
  }

  ghost predicate AllOneLine(d: Dict) {
    forall k :: k in d ==> OneLine(d[k])
  }

  lemma ParseLineOneLine(line: string, acc: Dict)
    requires NoBreak(line) && AllOneLine(acc)
    ensures ParseLine(line, acc).Some? ==> AllOneLine(ParseLine(line, acc).value)
  {
    var n := ColonAt(line);
    if n < |line| {
      var value := Strip(line[n + 1..]);
      StripNoBreak(line[n + 1..]);
      if |value| >= 2 {
        UnescapeNoBreak(value[1..|value| - 1], '"');
        UnescapeNoBreak(Unescape(value[1..|value| - 1], '"'), '\\');
      }
    }
  }

  /** Whatever the text, a parsed value never spans two lines. */
  lemma {:induction false} ParsedOneLine(text: string, acc: Dict)
    requires AllOneLine(acc)
    ensures var r := ParseLines(SplitLines(text), acc);
            r.Some? ==> AllOneLine(r.value)
    decreases |text|
  {
    if text == "" {
    } else {
      var n := FirstLine(text);
      FirstLineChomped(text);
      ParseLineOneLine(Chomp(text[..n]), acc);
      var more := ParseLine(Chomp(text[..n]), acc);
      assert SplitLines(text)[0] == text[..n] && SplitLines(text)[1..] == SplitLines(text[n..]);
      if more.Some? { ParsedOneLine(text[n..], more.value); }
    }
  }

  lemma RoundTripOneLine(d: Dict, keys: seq<string>)
    requires Distinct(keys)
    requires forall k :: 0 <= k < |keys| ==> PlainKey(keys[k]) && OneLine(Get(d, keys[k]))
    ensures Parse(Serialize(d, keys)) == Some(Fields(d, keys))
       <==> forall k :: k in keys ==> Representable(Get(d, k))
  {
    PrintedParses(d, keys, map[]);
    forall k | k in keys
      ensures Reparse(Get(d, k)) == Some(Get(d, k)) <==> Representable(Get(d, k))
    {
      ReparseIff(Get(d, k));
    }
    assert map[] + Fields(d, keys) == Fields(d, keys);
    if forall k :: k in keys ==> Representable(Get(d, k)) {
      RebuildAll(d, keys, map[]);
    } else {
      var key :| key in keys && !Representable(Get(d, key));
      if Rebuild(d, keys, map[]).Some? {
        RebuildEach(d, keys, map[], key);
      }
    }
  }

  /** Printing and parsing are inverse exactly on the records all of whose values the
      format can carry. */
  lemma RoundTripIff(d: Dict, keys: seq<string>)
    requires Distinct(keys) && forall k :: 0 <= k < |keys| ==> PlainKey(keys[k])
    ensures Parse(Serialize(d, keys)) == Some(Fields(d, keys))
       <==> forall k :: k in keys ==> Representable(Get(d, k))
  {
    if forall k :: k in keys ==> OneLine(Get(d, k)) {
      RoundTripOneLine(d, keys);
    } else {
      var key :| key in keys && !OneLine(Get(d, key));
      ParsedOneLine(Serialize(d, keys), map[]);
      assert Fields(d, keys)[key] == Get(d, key);
      assert !Representable(Get(d, key));
    }
  }

  predicate Lower(s: string) {
    s != "" && forall k :: 0 <= k < |s| ==> 'a' <= s[k] <= 'z' || s[k] == '_'
  }

  lemma LowerIsPlain(s: string)
    requires Lower(s)
    ensures PlainKey(s)
  {
  }

  lemma SchemaLower(k: nat)
    requires k < |MANIFEST_KEYS|
    ensures Lower(MANIFEST_KEYS[k])
  {
    if k == 0 { assert Lower("hash"); }
    else if k == 1 { assert Lower("encoding"); }
    else if k == 2 { assert Lower("base"); }
    else if k == 3 { assert Lower("size_bytes"); }
    else if k == 4 { assert Lower("agent"); }
    else if k == 5 { assert Lower("summary"); }
    else if k == 6 { assert Lower("timestamp"); }
    else { assert Lower("chain_length"); }
  }

  lemma SchemaDistinct()
    ensures Distinct(MANIFEST_KEYS)
  {
    assert |MANIFEST_KEYS[0]| == 4 && MANIFEST_KEYS[0][0] == 'h';
    assert |MANIFEST_KEYS[2]| == 4 && MANIFEST_KEYS[2][0] == 'b';
    assert |MANIFEST_KEYS[1]| == 8 && |MANIFEST_KEYS[3]| == 10 && |MANIFEST_KEYS[4]| == 5;
    assert |MANIFEST_KEYS[5]| == 7 && |MANIFEST_KEYS[6]| == 9 && |MANIFEST_KEYS[7]| == 12;
  }

  /** The same for the fixed schema. */
  lemma ManifestRoundTripIff(d: Dict, keys: seq<string>)
    requires keys == MANIFEST_KEYS
    ensures Parse(Serialize(d, keys)) == Some(Fields(d, keys))
       <==> forall k :: k in keys ==> Representable(Get(d, k))
  {
    SchemaDistinct();
    forall k | 0 <= k < |keys|
      ensures PlainKey(keys[k])
    {
      SchemaLower(k);
      LowerIsPlain(keys[k]);
    }
    RoundTripIff(d, keys);
  }
}
