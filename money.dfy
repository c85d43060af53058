/** Money is carried as integer cents. The forms show reais and convert with
    `cents / 100` on load and `Math.round(reais * 100)` on save; both are
    modelled here with exact rationals. */
module Money {

  /** `Math.round(x)`: the nearest integer, halves rounded up. */
  function JsRound(x: real): (r: int)
    ensures x - 0.5 < r as real <= x + 0.5
  {
    (x + 0.5).Floor
  }

  /** Reais shown in a form for an amount in cents (`cents / 100`). */
  function ToReais(cents: int): real
  {
    cents as real / 100.0
  }

  /** `Math.round(reais * 100)`: the cents sent back to the server. */
  function ToCents(reais: real): int
  {
    JsRound(reais * 100.0)
  }

  /** A price loaded from the server and saved without editing comes back as
      the same number of cents. */
  lemma CentsRoundTrip(cents: int)
    ensures ToCents(ToReais(cents)) == cents
  {
    assert ToReais(cents) * 100.0 == cents as real;
  }

  /** `Math.round(num / den)` for a positive integer divisor, in integers. */
  function RoundDiv(num: int, den: int): (r: int)
    requires den > 0
    ensures 2 * r * den - den <= 2 * num < 2 * r * den + den
  {
    (2 * num + den) / (2 * den)
  }

  lemma LowerBoundDivides(a: real, n: real, d: real)
    requires d > 0.0 && a * d <= n
    ensures a <= n / d
  {
  }

  lemma UpperBoundDivides(a: real, n: real, d: real)
    requires d > 0.0 && n < a * d
    ensures n / d < a
  {
  }

  /** The integer formula agrees with `Math.round` on the exact quotient. */
  lemma RoundDivIsJsRound(num: int, den: int)
    requires den > 0
    ensures RoundDiv(num, den) == JsRound(num as real / den as real)
  {
    var r := RoundDiv(num, den);
    var d := den as real;
    var n := 2 * num;
    assert (2 * r - 1) * den <= n < (2 * r + 1) * den;
    LowerBoundDivides((2 * r - 1) as real, n as real, d);
    UpperBoundDivides((2 * r + 1) as real, n as real, d);
    assert n as real / d == 2.0 * (num as real / d);
  }
}
