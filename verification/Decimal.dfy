/** Decimal numerals: `str(n)`, `f"{n:0{w}d}"` and `int(s)`. Digits are ASCII. */
module Decimal {

  predicate IsDigit(c: char) {
    '0' <= c <= '9'
  }

  predicate AllDigits(s: string) {
    forall k :: 0 <= k < |s| ==> IsDigit(s[k])
  }

  function ToDigits(n: nat): (s: string)
    ensures |s| >= 1 && AllDigits(s)
  {
    var d := [(('0' as int) + n % 10) as char];
    if n < 10 then d else ToDigits(n / 10) + d
  }

  function Value(s: string): nat
    requires AllDigits(s)
  {
    if s == "" then 0 else Value(s[..|s| - 1]) * 10 + (s[|s| - 1] as int - '0' as int)
  }

  lemma {:induction false} ValueOfDigits(n: nat)
    ensures Value(ToDigits(n)) == n
  {
    var s := ToDigits(n);
    if n < 10 {
      assert s[..|s| - 1] == "";
    } else {
      ValueOfDigits(n / 10);
      assert s[..|s| - 1] == ToDigits(n / 10);
    }
  }

  function Zeros(n: nat): (s: string)
    ensures |s| == n && AllDigits(s)
  {
    seq(n, _ => '0')
  }

  /** Zero padding to width `w`; a longer numeral is left alone. */
  function Padded(n: nat, w: nat): (s: string)
    ensures |s| >= 1 && AllDigits(s)
  {
    var d := ToDigits(n);
    if |d| < w then Zeros(w - |d|) + d else d
  }

  lemma {:induction false} LeadingZeros(n: nat, s: string)
    requires AllDigits(s)
    ensures Value(Zeros(n) + s) == Value(s)
    decreases |s|, n
  {
    var t := Zeros(n) + s;
    if s != "" {
      assert t[..|t| - 1] == Zeros(n) + s[..|s| - 1];
      LeadingZeros(n, s[..|s| - 1]);
    } else if n == 0 {
    } else {
      assert t[..|t| - 1] == Zeros(n - 1) + "";
      LeadingZeros(n - 1, "");
    }
  }

  /** A numeral is as wide as asked, or wider only by digits it cannot do without. */
  lemma PaddedWidth(n: nat, w: nat)
    ensures |Padded(n, w)| >= w
    ensures |Padded(n, w)| > w && |Padded(n, w)| > 1 ==> Padded(n, w)[0] != '0'
  {
    NoLeadingZero(n);
  }

  lemma {:induction false} NoLeadingZero(n: nat)
    ensures n > 0 ==> ToDigits(n)[0] != '0'
    ensures n == 0 ==> |ToDigits(n)| == 1
  {
    if n >= 10 {
      NoLeadingZero(n / 10);
      assert ToDigits(n)[0] == ToDigits(n / 10)[0];
    }
  }

  lemma PaddedValue(n: nat, w: nat)
    ensures Value(Padded(n, w)) == n
  {
    ValueOfDigits(n);
    var d := ToDigits(n);
    if |d| < w { LeadingZeros(w - |d|, d); }
  }
}
