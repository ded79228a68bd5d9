/** Python's `str.splitlines`, with the line ends kept or dropped. */
module TextLines {

  predicate IsBreak(c: char) {
    c in {'\n', '\r', '\U{0B}', '\U{0C}', '\U{1C}', '\U{1D}', '\U{1E}', '\U{85}', '\U{2028}', '\U{2029}'}
  }

  predicate NoBreak(t: string) {
    forall k :: 0 <= k < |t| ==> !IsBreak(t[k])
  }

  /** Length of the first line of a non-empty text, its line end included. */
  function FirstLine(t: string): (n: nat)
    requires t != ""
    ensures 1 <= n <= |t|
  {
    if IsBreak(t[0]) then (if t[0] == '\r' && |t| > 1 && t[1] == '\n' then 2 else 1)
    else if |t| == 1 then 1
    else 1 + FirstLine(t[1..])
  }

  /** `t.splitlines(keepends=True)` */
  function SplitLines(t: string): seq<string> {
    if t == "" then [] else [t[..FirstLine(t)]] + SplitLines(t[FirstLine(t)..])
  }

  function Join(lines: seq<string>): string {
    if lines == [] then "" else lines[0] + Join(lines[1..])
  }

  lemma {:induction false} JoinSplit(t: string)
    ensures Join(SplitLines(t)) == t
    decreases |t|
  {
    if t == "" {
    } else {
      JoinSplit(t[FirstLine(t)..]);
    }
  }

  /** A line without its line end. */
  function Chomp(line: string): string {
    if |line| >= 2 && line[|line| - 2] == '\r' && line[|line| - 1] == '\n' then line[..|line| - 2]
    else if |line| >= 1 && IsBreak(line[|line| - 1]) then line[..|line| - 1]
    else line
  }

  lemma {:induction false} FirstLineOf(line: string, rest: string)
    requires NoBreak(line)
    ensures FirstLine(line + "\n" + rest) == |line| + 1
  {
    var t := line + "\n" + rest;
    if line == "" {
    } else {
      FirstLineOf(line[1..], rest);
      assert t[1..] == line[1..] + "\n" + rest;
    }
  }

  /** What follows a newline splits by itself. */
  lemma {:induction false} SplitAfterNewline(a: string, rest: string)
    ensures SplitLines(a + "\n" + rest) == SplitLines(a + "\n") + SplitLines(rest)
    decreases |a|
  {
    var line, t := a + "\n", a + "\n" + rest;
    FirstBeforeNewline(a, rest);
    FirstBeforeNewline(a, "");
    assert line + "" == line && t == line + rest;
    var n := FirstLine(line);
    assert t[..n] == line[..n];
    if n == |line| {
      assert line[n..] == "" && t[n..] == rest;
    } else {
      assert line[n..] == a[n..] + "\n" && t[n..] == a[n..] + "\n" + rest;
      SplitAfterNewline(a[n..], rest);
    }
  }

  lemma {:induction false} FirstBeforeNewline(a: string, rest: string)
    ensures FirstLine(a + "\n" + rest) == FirstLine(a + "\n") <= |a| + 1
    decreases |a|
  {
    var line, t := a + "\n", a + "\n" + rest;
    if a != "" {
      assert t[1..] == a[1..] + "\n" + rest && line[1..] == a[1..] + "\n";
      FirstBeforeNewline(a[1..], rest);
    }
  }

  /** The first line carries at most one line end, at its very end. */
  lemma {:induction false} FirstLineChomped(t: string)
    requires t != ""
    ensures NoBreak(Chomp(t[..FirstLine(t)]))
  {
    var n := FirstLine(t);
    if !IsBreak(t[0]) && |t| > 1 {
      FirstLineChomped(t[1..]);
      assert t[..n] == [t[0]] + t[1..][..n - 1];
      assert n >= 2;
    }
  }
}
