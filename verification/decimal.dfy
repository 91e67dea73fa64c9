/**
 * ASCII decimal numerals: rendering a natural number the way `"%d"` and
 * `Int.toString()` do, the zero-padded `"%02d"` form, and reading a run of
 * ASCII digits back (what `toIntOrNull` does with the runs the app feeds it).
 */
module Decimal {
  import opened Wrappers
  import Numeric

  predicate IsDigit(c: char) {
    '0' <= c <= '9'
  }

  predicate AllDigits(s: string) {
    forall i :: 0 <= i < |s| ==> IsDigit(s[i])
  }

  /** A non-empty run of ASCII digits '0'..'9'. On a JVM `\d` means exactly
      these; Android's regular expressions also accept the other Unicode
      decimal digits, which this model does not. */
  predicate IsDigitRun(s: string) {
    |s| > 0 && AllDigits(s)
  }

  function DigitChar(d: int): (c: char)
    requires 0 <= d < 10
    ensures IsDigit(c)
  {
    ('0' as int + d) as char
  }

  function DigitValue(c: char): (d: int)
    requires IsDigit(c)
    ensures 0 <= d < 10
    ensures DigitChar(d) == c
  {
    c as int - '0' as int
  }

  /** The numeral of `n` as `"%d"` prints a non-negative number. */
  function Render(n: nat): (s: string)
    ensures IsDigitRun(s)
    ensures |s| > 1 ==> s[0] != '0'
    ensures n < 10 <==> |s| == 1
  {
    if n < 10 then [DigitChar(n)] else Render(n / 10) + [DigitChar(n % 10)]
  }

  /** The value of a string of ASCII digits, most significant first. */
  function Value(s: string): nat
    requires AllDigits(s)
  {
    if |s| == 0 then 0 else 10 * Value(s[..|s| - 1]) + DigitValue(s[|s| - 1])
  }

  /** `"%02d"`: two digits, with a leading zero below ten. */
  function Pad2(n: nat): (s: string)
    requires n < 100
    ensures |s| == 2 && AllDigits(s)
    ensures Value(s) == n
  {
    var s := [DigitChar(n / 10), DigitChar(n % 10)];
    assert s[..1] == [DigitChar(n / 10)] && s[..1][..0] == [];
    assert Value(s[..1]) == n / 10;
    s
  }

  /** `toIntOrNull` applied to a run of digits: the value when it fits an `Int`, null otherwise. */
  function ToIntOrNull(s: string): (r: Option<Numeric.Int32>)
    requires IsDigitRun(s)
    ensures r.Some? <==> Value(s) <= Numeric.IntMax
    ensures r.Some? ==> r.value == Value(s) && r.value >= 0
  {
    if Value(s) <= Numeric.IntMax then Some(Value(s)) else None
  }

  /** Reading a rendered numeral gives the number back. */
  lemma {:induction false} ValueOfRender(n: nat)
    ensures Value(Render(n)) == n
  {
    if n >= 10 {
      var s := Render(n);
      assert s[..|s| - 1] == Render(n / 10);
      ValueOfRender(n / 10);
    }
  }

  /** A digit run with no leading zero denotes a positive number. */
  lemma {:induction false} ValuePositive(s: string)
    requires IsDigitRun(s) && s[0] != '0'
    ensures Value(s) > 0
  {
    if |s| > 1 {
      var p := s[..|s| - 1];
      assert p[0] == s[0];
      ValuePositive(p);
    }
  }

  /** Conversely, a digit run without a superfluous leading zero is the
      rendering of its value: the numeral of a number is unique. */
  lemma {:induction false} RenderOfValue(s: string)
    requires IsDigitRun(s)
    requires |s| > 1 ==> s[0] != '0'
    ensures Render(Value(s)) == s
  {
    if |s| > 1 {
      var p := s[..|s| - 1];
      assert p[0] == s[0];
      ValuePositive(p);
      RenderOfValue(p);
      var d := DigitValue(s[|s| - 1]);
      assert Value(s) / 10 == Value(p) && Value(s) % 10 == d;
      assert s == p + [s[|s| - 1]];
    }
  }

  /** Rendering is injective. */
  lemma {:induction false} RenderInjective(a: nat, b: nat)
    requires Render(a) == Render(b)
    ensures a == b
  {
    ValueOfRender(a);
    ValueOfRender(b);
  }
}
