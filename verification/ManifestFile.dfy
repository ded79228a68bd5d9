/** The manifests a save builds, as the text files they become. */
module ManifestFile {
  import opened Wrappers
  import opened TextLines
  import opened SnapshotStore
  import opened SnapshotSave
  import opened Decimal
  import M = ManifestText

  /** A digest's 64 hexadecimal characters. */
  type HexOf = Hash -> string

  predicate IsHexDigit(c: char) {
    '0' <= c <= '9' || 'a' <= c <= 'f'
  }

  ghost predicate HexDigest(hex: HexOf) {
    forall h :: |hex(h)| == 64 && forall k :: 0 <= k < |hex(h)| ==> IsHexDigit(hex(h)[k])
  }

  function EncodingText(e: Encoding): string {
    match e
    case Full => "full"
    case Patched => "delta"
    case Dropped => "dropped"
    case Unknown(text) => text
  }

  function HashValue(h: Option<Hash>, hex: HexOf): M.PyValue {
    if h.Some? then M.PyStr(hex(h.value)) else M.PyNone
  }

  /** `_write_new_manifest`'s record. */
  function Record(m: Manifest, hex: HexOf, timestamp: string): M.Dict {
    map["hash" := HashValue(m.hash, hex), "encoding" := M.PyStr(EncodingText(m.encoding)),
        "base" := HashValue(m.base, hex), "size_bytes" := M.PyInt(m.sizeBytes),
        "agent" := M.PyStr(m.agent), "summary" := M.PyStr(m.summary),
        "timestamp" := M.PyStr(timestamp), "chain_length" := M.PyInt(m.chainLength)]
  }

  function Printed(m: Manifest, hex: HexOf, timestamp: string): string {
    M.Serialize(Record(m, hex, timestamp), M.MANIFEST_KEYS)
  }

  /** A digest written in decimal digits alone reads back as a number. */
  ghost predicate HashReads(h: Option<Hash>, hex: HexOf) {
    h.Some? ==> !AllDigits(hex(h.value))
  }

  lemma HexIsPlain(s: string)
    requires s != "" && forall k :: 0 <= k < |s| ==> IsHexDigit(s[k])
    ensures !M.NeedsQuotes(s) && NoBreak(s) && M.Trimmed(s) && s != "null"
    ensures M.StripDashes(s) == s
  {
    assert "null"[0] == 'n' && !IsHexDigit('n');
  }

  lemma HashValueIff(h: Option<Hash>, hex: HexOf)
    requires HexDigest(hex)
    ensures M.OneLine(HashValue(h, hex))
    ensures M.Representable(HashValue(h, hex)) <==> HashReads(h, hex)
  {
    if h.Some? { HexIsPlain(hex(h.value)); }
  }

  lemma EncodingReads(e: Encoding)
    requires !e.Unknown?
    ensures M.Representable(M.PyStr(EncodingText(e)))
  {
    match e
    case Full => LowerWordReads("full");
    case Patched => LowerWordReads("delta");
    case Dropped => LowerWordReads("dropped");
  }

  lemma LowerWordReads(s: string)
    requires s in {"full", "delta", "dropped"}
    ensures M.Representable(M.PyStr(s))
  {
    assert "full"[0] == 'f' && "delta"[0] == 'd' && "dropped"[0] == 'd';
    assert s[0] != '-' && !IsDigit(s[0]);
    assert forall k :: 0 <= k < |s| ==> 'a' <= s[k] <= 'z';
    assert s != "null" by { assert "null"[0] == 'n'; }
  }

  lemma SchemaIs()
    ensures |M.MANIFEST_KEYS| == 8
    ensures forall k :: k in M.MANIFEST_KEYS <==>
      k in {"hash", "encoding", "base", "size_bytes", "agent", "summary", "timestamp", "chain_length"}
  {
  }

  lemma EachKeyIff(p: string -> bool)
    ensures (forall k :: k in M.MANIFEST_KEYS ==> p(k)) <==>
      && p("hash") && p("encoding") && p("base") && p("size_bytes")
      && p("agent") && p("summary") && p("timestamp") && p("chain_length")
  {
    SchemaIs();
  }

  /** The file of a manifest reads back as the record it was written from exactly when its
      digests hold a letter and its agent and summary are texts the format carries: one
      line each, and either quoted for a `:`, `#` or `"`, or trimmed, not empty, not `null`
      and not digit-like. */
  lemma FileReadsBackIff(m: Manifest, hex: HexOf, timestamp: string)
    requires HexDigest(hex) && !m.encoding.Unknown? && M.Representable(M.PyStr(timestamp))
    ensures M.Parse(Printed(m, hex, timestamp)) == Some(M.Fields(Record(m, hex, timestamp), M.MANIFEST_KEYS))
       <==> HashReads(m.hash, hex) && HashReads(m.base, hex)
            && M.Representable(M.PyStr(m.agent)) && M.Representable(M.PyStr(m.summary))
  {
    M.ManifestRoundTripIff(Record(m, hex, timestamp), M.MANIFEST_KEYS);
    KeysRepresentable(Record(m, hex, timestamp));
    RecordGets(m, hex, timestamp);
    HashValueIff(m.hash, hex);
    HashValueIff(m.base, hex);
    EncodingReads(m.encoding);
  }

  lemma RecordGets(m: Manifest, hex: HexOf, timestamp: string)
    ensures var d := Record(m, hex, timestamp);
            && M.Get(d, "hash") == HashValue(m.hash, hex) && M.Get(d, "base") == HashValue(m.base, hex)
            && M.Get(d, "encoding") == M.PyStr(EncodingText(m.encoding))
            && M.Get(d, "size_bytes") == M.PyInt(m.sizeBytes) && M.Get(d, "chain_length") == M.PyInt(m.chainLength)
            && M.Get(d, "agent") == M.PyStr(m.agent) && M.Get(d, "summary") == M.PyStr(m.summary)
            && M.Get(d, "timestamp") == M.PyStr(timestamp)
  {
  }

  lemma KeysRepresentable(d: M.Dict)
    ensures (forall k :: k in M.MANIFEST_KEYS ==> M.Representable(M.Get(d, k))) <==>
      && M.Representable(M.Get(d, "hash")) && M.Representable(M.Get(d, "encoding"))
      && M.Representable(M.Get(d, "base")) && M.Representable(M.Get(d, "size_bytes"))
      && M.Representable(M.Get(d, "agent")) && M.Representable(M.Get(d, "summary"))
      && M.Representable(M.Get(d, "timestamp")) && M.Representable(M.Get(d, "chain_length"))
  {
    EachKeyIff(k => M.Representable(M.Get(d, k)));
  }

  // ----- what restore and vacuum read -----

  ghost predicate KeyReads(r: M.Dict, d: M.Dict, key: string) {
    key in r && r[key] == M.Get(d, key)
  }

  /** The fields the store's own calls read come back as written. */
  ghost predicate CoreReads(text: string, d: M.Dict) {
    var r := M.Parse(text);
    && r.Some? && KeyReads(r.value, d, "hash") && KeyReads(r.value, d, "encoding")
    && KeyReads(r.value, d, "base") && KeyReads(r.value, d, "chain_length")
  }

  /** The parser accepts the text; it raises on dashes before digits, as in `--5`. */
  predicate Accepted(s: string) {
    M.Reparse(M.PyStr(s)).Some?
  }

  // ----- a file is the sum of its blocks -----

  /** What the parser takes from two texts read one after the other. */
  function Then(a: Option<M.Dict>, b: Option<M.Dict>): Option<M.Dict> {
    if a.Some? && b.Some? then Some(a.value + b.value) else None
  }

  lemma {:induction false} ParseFrom(lines: seq<string>, acc: M.Dict)
    ensures M.ParseLines(lines, acc) == Then(Some(acc), M.ParseLines(lines, map[]))
    decreases |lines|
  {
    if lines == [] {
      assert acc + map[] == acc;
    } else {
      var one, more := M.ParseLine(Chomp(lines[0]), map[]), M.ParseLine(Chomp(lines[0]), acc);
      if one.Some? {
        assert more.value == acc + one.value;
        ParseFrom(lines[1..], one.value);
        ParseFrom(lines[1..], more.value);
        if M.ParseLines(lines[1..], map[]).Some? {
          var rest := M.ParseLines(lines[1..], map[]).value;
          assert (acc + one.value) + rest == acc + (one.value + rest);
        }
      }
    }
  }

  lemma {:induction false} ParseAppend(left: seq<string>, right: seq<string>, acc: M.Dict)
    ensures M.ParseLines(left + right, acc) ==
            match M.ParseLines(left, acc) case None => None case Some(d) => M.ParseLines(right, d)
    decreases |left|
  {
    if left == [] {
      assert left + right == right;
    } else {
      assert (left + right)[1..] == left[1..] + right;
      var more := M.ParseLine(Chomp(left[0]), acc);
      if more.Some? { ParseAppend(left[1..], right, more.value); }
    }
  }

  lemma ParseTwo(a: string, b: string)
    ensures M.Parse(a + "\n" + b) == Then(M.Parse(a + "\n"), M.Parse(b))
  {
    SplitAfterNewline(a, b);
    ParseAppend(SplitLines(a + "\n"), SplitLines(b), map[]);
    if M.Parse(a + "\n").Some? { ParseFrom(SplitLines(b), M.Parse(a + "\n").value); }
  }

  lemma {:induction false} SerializeAppend(d: M.Dict, left: seq<string>, right: seq<string>)
    ensures M.Serialize(d, left + right) == M.Serialize(d, left) + M.Serialize(d, right)
    decreases |left|
  {
    if left == [] {
      assert left + right == right;
    } else {
      assert (left + right)[1..] == left[1..] + right;
      SerializeAppend(d, left[1..], right);
      M.SerializeCons(d, left);
      M.SerializeCons(d, left + right);
      M.Associates(M.Serialized(d, left[0]), M.Serialize(d, left[1..]), M.Serialize(d, right));
    }
  }

  function Read(d: M.Dict, keys: seq<string>): Option<M.Dict> {
    M.Parse(M.Serialize(d, keys))
  }

  lemma {:induction false} EndsLine(d: M.Dict, keys: seq<string>) returns (body: string)
    requires keys != []
    ensures M.Serialize(d, keys) == body + "\n"
    decreases |keys|
  {
    M.SerializeCons(d, keys);
    if |keys| == 1 {
      body := M.PrintLine(d, keys[0]);
    } else {
      var rest := EndsLine(d, keys[1..]);
      body := M.Serialized(d, keys[0]) + rest;
    }
  }

  lemma ReadTwo(d: M.Dict, left: seq<string>, right: seq<string>)
    requires left != []
    ensures Read(d, left + right) == Then(Read(d, left), Read(d, right))
  {
    SerializeAppend(d, left, right);
    var body := EndsLine(d, left);
    ParseTwo(body, M.Serialize(d, right));
  }

  const HEAD: seq<string> := ["hash", "encoding", "base", "size_bytes"]
  const TAIL: seq<string> := ["timestamp", "chain_length"]

  /** The manifest's file, in the order the parser reads it. */
  lemma ReadManifestBlocks(d: M.Dict)
    ensures Read(d, M.MANIFEST_KEYS) ==
            Then(Then(Read(d, HEAD), Then(Read(d, ["agent"]), Read(d, ["summary"]))), Read(d, TAIL))
  {
    ReadFour(d, HEAD, ["agent"], ["summary"], TAIL);
    SchemaBlocks();
  }

  lemma SchemaBlocks()
    ensures HEAD + (["agent"] + ["summary"]) + TAIL == M.MANIFEST_KEYS
  {
  }

  lemma ReadFour(d: M.Dict, a: seq<string>, b: seq<string>, c: seq<string>, e: seq<string>)
    requires a != [] && b != []
    ensures Read(d, a + (b + c) + e) == Then(Then(Read(d, a), Then(Read(d, b), Read(d, c))), Read(d, e))
  {
    ReadTwo(d, b, c);
    ReadTwo(d, a, b + c);
    ReadTwo(d, a + (b + c), e);
  }

  // ----- the blocks of one line per key -----

  predicate Lines(d: M.Dict, keys: seq<string>) {
    forall k :: k in keys ==> M.OneLine(M.Get(d, k))
  }

  lemma SchemaPlain(key: string)
    requires key in M.MANIFEST_KEYS
    ensures M.PlainKey(key)
  {
    var k :| 0 <= k < |M.MANIFEST_KEYS| && M.MANIFEST_KEYS[k] == key;
    M.SchemaLower(k);
    M.LowerIsPlain(key);
  }

  lemma {:induction false} RebuildIff(d: M.Dict, keys: seq<string>, acc: M.Dict)
    ensures M.Rebuild(d, keys, acc).Some? <==> forall k :: k in keys ==> M.Reparse(M.Get(d, k)).Some?
    ensures M.Rebuild(d, keys, acc).Some? ==>
              M.Rebuild(d, keys, acc).value.Keys == acc.Keys + (set k | k in keys)
    decreases |keys|
  {
    if keys == [] {
    } else {
      assert keys == [keys[0]] + keys[1..];
      var v := M.Reparse(M.Get(d, keys[0]));
      if v.Some? { RebuildIff(d, keys[1..], acc[keys[0] := v.value]); }
    }
  }

  /** One line per key: the parser takes these keys and no other, each as it reparses. */
  lemma LinesRead(d: M.Dict, keys: seq<string>)
    requires Lines(d, keys) && M.Distinct(keys) && forall k :: k in keys ==> k in M.MANIFEST_KEYS
    ensures Read(d, keys).Some? <==> forall k :: k in keys ==> M.Reparse(M.Get(d, k)).Some?
    ensures Read(d, keys).Some? ==>
              && Read(d, keys).value.Keys == (set k | k in keys)
              && forall k :: k in keys ==> M.Reparse(M.Get(d, k)) == Some(Read(d, keys).value[k])
  {
    forall k | 0 <= k < |keys| ensures M.PlainKey(keys[k]) {
      SchemaPlain(keys[k]);
    }
    M.PrintedParses(d, keys, map[]);
    RebuildIff(d, keys, map[]);
    if Read(d, keys).Some? {
      forall k | k in keys ensures M.Reparse(M.Get(d, k)) == Some(Read(d, keys).value[k]) {
        M.RebuildEach(d, keys, map[], k);
      }
    }
  }

  // ----- which files give the store its fields back -----

  /** What the parser takes from the printed text of one key: that key alone when the text
      is one line, anything its later lines spell when it has several, nothing when it
      raises. */
  function Taken(key: string, text: string): Option<M.Dict> {
    M.Parse(M.Serialized(map[key := M.PyStr(text)], key))
  }

  /** A field comes back as written: through the last later text that spells it too, or, when
      none does, through its own line. */
  ghost predicate FieldReads(v: M.PyValue, key: string, later: M.Dict) {
    if key in later then later[key] == v else M.Representable(v)
  }

  ghost predicate CoreSurvives(d: M.Dict, agent: Option<M.Dict>, summary: Option<M.Dict>) {
    && agent.Some? && summary.Some?
    && FieldReads(M.Get(d, "hash"), "hash", agent.value + summary.value)
    && FieldReads(M.Get(d, "encoding"), "encoding", agent.value + summary.value)
    && FieldReads(M.Get(d, "base"), "base", agent.value + summary.value)
  }

  lemma TakenIsRead(d: M.Dict, key: string, text: string)
    requires M.Get(d, key) == M.PyStr(text)
    ensures Read(d, [key]) == Taken(key, text)
  {
    M.SerializeCons(d, [key]);
    assert M.Serialize(d, [key][1..]) == "";
    M.Associates(M.Serialized(d, key), "", "");
  }

  lemma HexAccepted(h: Option<Hash>, hex: HexOf)
    requires HexDigest(hex)
    ensures M.OneLine(HashValue(h, hex)) && M.Reparse(HashValue(h, hex)).Some?
  {
    match h
    case None => M.StripTrimmed("null");
    case Some(hash) =>
      HexIsPlain(hex(hash));
      M.StripTrimmed(hex(hash));
  }

  lemma RepresentableIsAccepted(v: M.PyValue)
    requires M.Representable(v)
    ensures M.Reparse(v).Some?
  {
    M.ReparseIff(v);
  }

  ghost predicate PrintedReads(d: M.Dict, r: M.Dict, key: string) {
    key in r && (r[key] == M.Get(d, key) <==> M.Representable(M.Get(d, key)))
  }

  ghost predicate HeadRead(d: M.Dict, head: M.Dict) {
    PrintedReads(d, head, "hash") && PrintedReads(d, head, "encoding") && PrintedReads(d, head, "base")
  }

  ghost predicate TailRead(d: M.Dict, tail: M.Dict) {
    && "hash" !in tail && "encoding" !in tail && "base" !in tail
    && KeyReads(tail, d, "chain_length")
  }

  lemma HeadReads(m: Manifest, hex: HexOf, timestamp: string)
    requires HexDigest(hex) && !m.encoding.Unknown?
    ensures var d := Record(m, hex, timestamp);
            Read(d, HEAD).Some? && HeadRead(d, Read(d, HEAD).value)
  {
    var d := Record(m, hex, timestamp);
    RecordGets(m, hex, timestamp);
    HexAccepted(m.hash, hex);
    HexAccepted(m.base, hex);
    EncodingReads(m.encoding);
    RepresentableIsAccepted(M.Get(d, "encoding"));
    RepresentableIsAccepted(M.Get(d, "size_bytes"));
    HeadOfLines(d);
  }

  ghost predicate LineAccepted(v: M.PyValue) {
    M.OneLine(v) && M.Reparse(v).Some?
  }

  lemma HeadOfLines(d: M.Dict)
    requires LineAccepted(M.Get(d, "hash")) && LineAccepted(M.Get(d, "encoding"))
    requires LineAccepted(M.Get(d, "base")) && LineAccepted(M.Get(d, "size_bytes"))
    ensures Read(d, HEAD).Some? && HeadRead(d, Read(d, HEAD).value)
  {
    BlockKeys();
    LinesRead(d, HEAD);
    M.ReparseIff(M.Get(d, "hash"));
    M.ReparseIff(M.Get(d, "encoding"));
    M.ReparseIff(M.Get(d, "base"));
  }

  lemma TailReads(m: Manifest, hex: HexOf, timestamp: string)
    requires M.Representable(M.PyStr(timestamp))
    ensures var d := Record(m, hex, timestamp);
            Read(d, TAIL).Some? && TailRead(d, Read(d, TAIL).value)
  {
    var d := Record(m, hex, timestamp);
    RecordGets(m, hex, timestamp);
    RepresentableIsAccepted(M.Get(d, "timestamp"));
    BlockKeys();
    M.ReparseIff(M.Get(d, "chain_length"));
    LinesRead(d, TAIL);
  }

  lemma BlockKeys()
    ensures M.Distinct(HEAD) && M.Distinct(TAIL)
    ensures forall k :: k in HEAD <==> k in {"hash", "encoding", "base", "size_bytes"}
    ensures forall k :: k in TAIL <==> k in {"timestamp", "chain_length"}
    ensures forall k :: k in HEAD || k in TAIL ==> k in M.MANIFEST_KEYS
  {
    M.SchemaDistinct();
    assert forall k :: 0 <= k < 4 ==> HEAD[k] == M.MANIFEST_KEYS[k];
    assert forall k :: 0 <= k < 2 ==> TAIL[k] == M.MANIFEST_KEYS[k + 6];
  }

  /** The file gives the store its hash, encoding, base and chain length back, whatever the
      agent and the summary say, exactly when the parser raises on neither text and each
      field is either spelt again, as it was, by a later line of one of them, or spelt by none and
      its own line is read back. */
  lemma FileKeepsCoreIff(m: Manifest, hex: HexOf, timestamp: string)
    requires HexDigest(hex) && !m.encoding.Unknown? && M.Representable(M.PyStr(timestamp))
    ensures CoreReads(Printed(m, hex, timestamp), Record(m, hex, timestamp)) <==>
      CoreSurvives(Record(m, hex, timestamp), Taken("agent", m.agent), Taken("summary", m.summary))
  {
    var d := Record(m, hex, timestamp);
    RecordGets(m, hex, timestamp);
    TakenIsRead(d, "agent", m.agent);
    TakenIsRead(d, "summary", m.summary);
    HeadReads(m, hex, timestamp);
    TailReads(m, hex, timestamp);
    BlocksKeepCoreIff(d);
  }

  lemma BlocksKeepCoreIff(d: M.Dict)
    requires Read(d, HEAD).Some? && HeadRead(d, Read(d, HEAD).value)
    requires Read(d, TAIL).Some? && TailRead(d, Read(d, TAIL).value)
    ensures CoreReads(M.Serialize(d, M.MANIFEST_KEYS), d) <==>
      CoreSurvives(d, Read(d, ["agent"]), Read(d, ["summary"]))
  {
    ReadManifestBlocks(d);
    var agent, summary := Read(d, ["agent"]), Read(d, ["summary"]);
    if agent.Some? && summary.Some? {
      var head, later, tail := Read(d, HEAD).value, agent.value + summary.value, Read(d, TAIL).value;
      LayersRead(head, later, tail, d, "hash");
      LayersRead(head, later, tail, d, "encoding");
      LayersRead(head, later, tail, d, "base");
    }
  }

  lemma LayersRead(head: M.Dict, later: M.Dict, tail: M.Dict, d: M.Dict, key: string)
    requires PrintedReads(d, head, key) && key !in tail
    ensures KeyReads(head + later + tail, d, key) <==> FieldReads(M.Get(d, key), key, later)
  {
  }

  /** Of a text of one line the parser takes its own key alone. */
  lemma OneLineTaken(key: string, text: string)
    requires key in M.MANIFEST_KEYS && NoBreak(text)
    ensures Taken(key, text).Some? <==> Accepted(text)
    ensures Taken(key, text).Some? ==> Taken(key, text).value.Keys == {key}
  {
    var d: M.Dict := map[key := M.PyStr(text)];
    TakenIsRead(d, key, text);
    LinesRead(d, [key]);
  }

  lemma OneLinesSurviveIff(d: M.Dict, agent: Option<M.Dict>, summary: Option<M.Dict>)
    requires agent.Some? ==> agent.value.Keys == {"agent"}
    requires summary.Some? ==> summary.value.Keys == {"summary"}
    ensures CoreSurvives(d, agent, summary) <==>
      && agent.Some? && summary.Some? && M.Representable(M.Get(d, "hash"))
      && M.Representable(M.Get(d, "encoding")) && M.Representable(M.Get(d, "base"))
  {
    if agent.Some? && summary.Some? {
      assert (agent.value + summary.value).Keys == {"agent", "summary"};
    }
  }

  /** With one-line agent and summary: exactly when the digests hold a letter and neither text
      makes the parser raise. */
  lemma OneLineKeepsCoreIff(m: Manifest, hex: HexOf, timestamp: string)
    requires HexDigest(hex) && !m.encoding.Unknown? && M.Representable(M.PyStr(timestamp))
    requires NoBreak(m.agent) && NoBreak(m.summary)
    ensures CoreReads(Printed(m, hex, timestamp), Record(m, hex, timestamp)) <==>
      HashReads(m.hash, hex) && HashReads(m.base, hex) && Accepted(m.agent) && Accepted(m.summary)
  {
    FileKeepsCoreIff(m, hex, timestamp);
    RecordGets(m, hex, timestamp);
    OneLineTaken("agent", m.agent);
    OneLineTaken("summary", m.summary);
    HashValueIff(m.hash, hex);
    HashValueIff(m.base, hex);
    EncodingReads(m.encoding);
    OneLinesSurviveIff(Record(m, hex, timestamp), Taken("agent", m.agent), Taken("summary", m.summary));
  }

  // ----- a later line that overrides -----

  lemma ParseOne(line: string)
    requires NoBreak(line)
    ensures M.Parse(line + "\n") == M.ParseLine(line, map[])
  {
    FirstLineOf(line, "");
    var t := line + "\n";
    assert line + "\n" + "" == t;
    assert t[..|line| + 1] == t && t[|line| + 1..] == "";
    var lines := SplitLines(t);
    assert lines[0] == t && lines[1..] == SplitLines("") == [];
    M.ChompLine(line);
    var r := M.ParseLine(line, map[]);
    assert r.Some? ==> M.ParseLines(lines[1..], r.value) == r;
  }

  lemma {:induction false} EscapeAppend(a: string, b: string, c: char)
    ensures M.Escape(a + b, c) == M.Escape(a, c) + M.Escape(b, c)
    decreases |a|
  {
    if a == "" {
      assert a + b == b;
    } else {
      assert (a + b)[1..] == a[1..] + b;
      EscapeAppend(a[1..], b, c);
    }
  }

  lemma {:induction false} EscapeNothing(s: string, c: char)
    requires c !in s
    ensures M.Escape(s, c) == s
  {
    if s == "" {
    } else {
      EscapeNothing(s[1..], c);
    }
  }

  /** Quoting changes nothing in a text without backslashes and quotes. */
  lemma TailPrinted(first: string, rest: string)
    requires '\\' !in rest && '"' !in rest && '\n' in rest
    ensures M.PrintValue(M.PyStr(first + rest)) == "\"" + Quoted(first) + rest + "\""
  {
    EscapeAppend(first, rest, '\\');
    EscapeNothing(rest, '\\');
    EscapeAppend(M.Escape(first, '\\'), rest, '"');
    EscapeNothing(rest, '"');
  }

  function Quoted(s: string): string {
    M.Escape(M.Escape(s, '\\'), '"')
  }

  lemma OpenQuoteValue(t: string)
    requires NoBreak(t)
    ensures M.ParseValue(M.Strip(" " + ("\"" + t))).Some?
  {
    var open := "\"" + t;
    assert (" " + open)[1..] == open;
    assert M.StripLeft(" " + open) == M.StripLeft(open) == open;
    M.RightKeepsFirst(open);
  }

  /** A first line that opens a quote: the parser never raises on it. */
  lemma OpenQuoteReads(key: string, t: string)
    requires M.PlainKey(key) && NoBreak(t)
    ensures M.Parse(key + ": \"" + t + "\n").Some?
  {
    var value := " " + ("\"" + t);
    var line := key + ":" + value;
    assert key + ": \"" + t == line;
    ParseOne(line);
    M.ColonAfter(key, value);
    assert line[|key| + 1..] == value;
    OpenQuoteValue(t);
  }

  lemma QuoteAloneReads(quote: string)
    requires quote == "\""
    ensures M.Parse(quote + "\n") == Some(map[])
  {
    ParseOne(quote);
  }

  lemma PlainLineReads(key: string, text: string)
    requires M.PlainKey(key) && M.Representable(M.PyStr(text)) && !M.NeedsQuotes(text)
    ensures M.Parse(key + ": " + text + "\n") == Some(map[key := M.PyStr(text)])
  {
    var d: M.Dict := map[key := M.PyStr(text)];
    M.ReparseIff(M.PyStr(text));
    M.PrintedLineParses(d, key, map[]);
    ParseOne(M.PrintLine(d, key));
  }

  /** A second line `other: word` of the text of one key is taken for that other key. */
  lemma SecondLineTaken(key: string, first: string, other: string, word: string)
    requires M.PlainKey(key) && M.PlainKey(other) && NoBreak(first)
    requires M.Representable(M.PyStr(word)) && !M.NeedsQuotes(word)
    requires '\\' !in other + word && '"' !in other + word
    ensures var r := Taken(key, first + ("\n" + (other + ": " + word + "\n")));
            r.Some? && other in r.value && r.value[other] == M.PyStr(word)
  {
    var line := other + ": " + word;
    var rest := "\n" + (line + "\n");
    forall c | c in rest ensures c in other || c in word || c in {'\n', ':', ' '} {
    }
    TailPrinted(first, rest);
    M.EscapeNoBreak(first, '\\');
    M.EscapeNoBreak(M.Escape(first, '\\'), '"');
    var open, quote := key + ": \"" + Quoted(first), "\"";
    TextInThree(key, first, line, quote);
    OpenQuoteReads(key, Quoted(first));
    PlainLineReads(other, word);
    QuoteAloneReads(quote);
    ParseTwo(line, quote + "\n");
    ParseTwo(open, line + "\n" + (quote + "\n"));
  }

  lemma TextInThree(key: string, first: string, line: string, quote: string)
    requires quote == "\""
    ensures key + ": " + ("\"" + Quoted(first) + ("\n" + (line + "\n")) + "\"") + "\n" ==
            key + ": \"" + Quoted(first) + "\n" + (line + "\n" + (quote + "\n"))
  {
  }

  /** A field that the summary spells is read as the summary spells it. */
  lemma LaterEncodingWins(m: Manifest, hex: HexOf, timestamp: string)
    requires HexDigest(hex) && !m.encoding.Unknown? && M.Representable(M.PyStr(timestamp))
    requires Taken("agent", m.agent).Some? && Taken("summary", m.summary).Some?
    requires "encoding" in Taken("summary", m.summary).value
    ensures var r := M.Parse(Printed(m, hex, timestamp));
            r.Some? && "encoding" in r.value && r.value["encoding"] == Taken("summary", m.summary).value["encoding"]
  {
    var d := Record(m, hex, timestamp);
    RecordGets(m, hex, timestamp);
    TakenIsRead(d, "agent", m.agent);
    TakenIsRead(d, "summary", m.summary);
    HeadReads(m, hex, timestamp);
    TailReads(m, hex, timestamp);
    ReadManifestBlocks(d);
  }

  /** A summary whose second line is `encoding: dropped`: whatever manifest it describes, the
      file says that the snapshot is dropped. */
  lemma SummaryCanDrop(m: Manifest, hex: HexOf, timestamp: string, first: string)
    requires HexDigest(hex) && !m.encoding.Unknown? && M.Representable(M.PyStr(timestamp))
    requires NoBreak(first) && m.summary == first + ("\n" + ("encoding" + ": " + "dropped" + "\n"))
    requires Taken("agent", m.agent).Some?
    ensures var r := M.Parse(Printed(m, hex, timestamp));
            r.Some? && "encoding" in r.value && r.value["encoding"] == M.PyStr("dropped")
  {
    DroppedWord("encoding", "dropped");
    SecondLineTaken("summary", first, "encoding", "dropped");
    LaterEncodingWins(m, hex, timestamp);
  }

  lemma DroppedWord(key: string, word: string)
    requires key == "encoding" && word == "dropped"
    ensures M.PlainKey("summary") && M.PlainKey(key)
    ensures M.Representable(M.PyStr(word)) && !M.NeedsQuotes(word)
    ensures '\\' !in key + word && '"' !in key + word
  {
    SchemaIs();
    SchemaPlain("summary");
    SchemaPlain("encoding");
    LowerWordReads(word);
  }

  lemma SavedFields(st: Store, listing: Listing, req: SaveRequest, env: SaveEnv)
    requires Saved(st, listing, req, env).1.Ok?
    ensures var st' := Saved(st, listing, req, env).0;
            && req.key in st'.manifests
            && var m := st'.manifests[req.key].m;
               m.Live() && m.agent == req.agent && m.summary == req.summary
  {
    NewestIsPresent(st.manifests, req.key.file);
  }

  /** The manifest any successful save wrote, read back from its file. */
  lemma SavedFileKeepsCoreIff(st: Store, listing: Listing, req: SaveRequest, env: SaveEnv, hex: HexOf,
                              timestamp: string)
    requires Saved(st, listing, req, env).1.Ok?
    requires HexDigest(hex) && M.Representable(M.PyStr(timestamp))
    ensures var st' := Saved(st, listing, req, env).0;
            && req.key in st'.manifests
            && var m := st'.manifests[req.key].m;
               (CoreReads(Printed(m, hex, timestamp), Record(m, hex, timestamp)) <==>
                CoreSurvives(Record(m, hex, timestamp), Taken("agent", req.agent), Taken("summary", req.summary)))
  {
    SavedFields(st, listing, req, env);
    FileKeepsCoreIff(Saved(st, listing, req, env).0.manifests[req.key].m, hex, timestamp);
  }
}
