/** Base-10 rendering of non-negative integers, as produced by `big.Int.String()`
    for the `Number` field of a value frame and for the keys of the seen-set,
    together with the reading back of such a string. */
module Decimal {

  predicate IsDigit(c: char) {
    '0' <= c <= '9'
  }

  function DigitChar(d: nat): (c: char)
    requires d < 10
    ensures IsDigit(c)
  {
    ('0' as int + d) as char
  }

  function DigitValue(c: char): (d: nat)
    requires IsDigit(c)
    ensures d < 10
  {
    c as int - '0' as int
  }

  predicate AllDigits(s: string) {
    forall i :: 0 <= i < |s| ==> IsDigit(s[i])
  }

  /** The shape `big.Int.String()` produces for a non-negative value: at least
      one digit, and no leading zero unless the whole string is "0". */
  predicate Canonical(s: string) {
    && |s| >= 1
    && AllDigits(s)
    && (s[0] == '0' ==> |s| == 1)
  }

  /** Decimal rendering of `n`; the string starts with '0' exactly for zero. */
  function Render(n: nat): (s: string)
    ensures Canonical(s)
    ensures s[0] == '0' <==> n == 0
    decreases n
  {
    if n < 10 then [DigitChar(n)] else Render(n / 10) + [DigitChar(n % 10)]
  }

  /** The value a string of digits denotes, read most significant digit first. */
  function Parse(s: string): (n: nat)
    requires AllDigits(s)
  {
    if |s| == 0 then 0 else 10 * Parse(s[..|s| - 1]) + DigitValue(s[|s| - 1])
  }

  /** Every rendered number reads back as itself. */
  lemma {:induction false} ParseRender(n: nat)
    ensures Parse(Render(n)) == n
    decreases n
  {
    var s := Render(n);
    if n >= 10 {
      ParseRender(n / 10);
      assert s[..|s| - 1] == Render(n / 10);
    }
  }

  /** Distinct numbers have distinct renderings, so a seen-set keyed by the
      rendering identifies numbers exactly. */
  lemma RenderInjective(a: nat, b: nat)
    ensures Render(a) == Render(b) <==> a == b
  {
    if Render(a) == Render(b) {
      ParseRender(a);
      ParseRender(b);
    }
  }

  /** A string of digits whose first digit is not '0' denotes a positive value. */
  lemma {:induction false} ParsePositive(s: string)
    requires |s| >= 1 && AllDigits(s) && s[0] != '0'
    ensures Parse(s) >= 1
    decreases |s|
  {
    if |s| > 1 {
      ParsePositive(s[..|s| - 1]);
    }
  }

  /** Every canonical digit string is the rendering of the value it denotes. */
  lemma {:induction false} RenderParse(s: string)
    requires Canonical(s)
    ensures Render(Parse(s)) == s
    decreases |s|
  {
    if |s| > 1 {
      var p := s[..|s| - 1];
      assert Canonical(p);
      ParsePositive(p);
      RenderParse(p);
      var n := Parse(s);
      assert n / 10 == Parse(p) && n % 10 == DigitValue(s[|s| - 1]);
      assert s == p + [s[|s| - 1]];
    }
  }
}
