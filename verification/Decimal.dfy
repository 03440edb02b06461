/** Decimal numerals, as Python's f-strings render integers that are not negative. */
module Decimal {
  function Digit(d: nat): char
    requires d < 10
  {
    "0123456789"[d]
  }

  function Render(n: nat): string {
    if n < 10 then [Digit(n)] else Render(n / 10) + [Digit(n % 10)]
  }

  /** Different numbers render differently. */
  lemma {:induction false} RenderInjective(m: nat, n: nat)
    requires Render(m) == Render(n)
    ensures m == n
  {
    var s, t := Render(m), Render(n);
    assert s[|s| - 1] == Digit(m % 10) && t[|t| - 1] == Digit(n % 10);
    RenderNonEmpty(m / 10);
    RenderNonEmpty(n / 10);
    if m >= 10 && n >= 10 {
      assert s[..|s| - 1] == Render(m / 10) && t[..|t| - 1] == Render(n / 10);
      RenderInjective(m / 10, n / 10);
    }
  }

  lemma RenderNonEmpty(n: nat)
    ensures |Render(n)| > 0
  {}
}
