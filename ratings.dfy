/**
 * Severity labels and CVSS score text as the CSV stages read them. A score is kept as
 * whole tenths (CVSS scores carry one decimal); `float(s)` on a numeric-looking score
 * becomes `Tenths(s)` and `f"{x:.1f}"` becomes `FormatTenths`.
 */
module Ratings {
  import opened Wrappers
  import opened Text

  /** The shared `severity_order.get(sev, 4)`: Critical 0, High 1, Medium 2, Low 3, anything else 4. */
  function SeverityRank(sev: string): (r: nat)
    ensures r <= 4
    ensures r == 0 <==> sev == "Critical"
    ensures r == 1 <==> sev == "High"
    ensures r == 2 <==> sev == "Medium"
    ensures r == 3 <==> sev == "Low"
  {
    if sev == "Critical" then 0
    else if sev == "High" then 1
    else if sev == "Medium" then 2
    else if sev == "Low" then 3
    else 4
  }

  /** `s.replace('.', '')`. */
  function WithoutDots(s: string): (r: string)
    ensures '.' !in r
  {
    ReplaceChar(s, '.', "")
  }

  /** `s.replace('.', '').isdigit()`: at least one character once the dots are gone, all digits. */
  predicate IsNumericText(s: string) {
    var d := WithoutDots(s);
    |d| > 0 && AllDigits(d)
  }

  /** The part of `s` before its first dot. */
  function IntegerPart(s: string): (r: string)
    ensures '.' !in r && StartsWith(s, r)
  {
    if s == [] || s[0] == '.' then [] else [s[0]] + IntegerPart(s[1..])
  }

  /** What follows the first dot of `s` (empty when there is none). */
  function FractionPart(s: string): string {
    if s == [] then [] else if s[0] == '.' then s[1..] else FractionPart(s[1..])
  }

  lemma {:induction false} PartsOfDecimal(w: string, rest: string)
    requires '.' !in w
    ensures IntegerPart(w + "." + rest) == w && FractionPart(w + "." + rest) == rest
    decreases |w|
  {
    var s := w + "." + rest;
    if w != [] {
      assert s[0] == w[0] && s[1..] == w[1..] + "." + rest;
      PartsOfDecimal(w[1..], rest);
      assert w == [w[0]] + w[1..];
    } else {
      assert s == "." + rest;
    }
  }

  /**
   * `float(s)` in tenths for a numeric-looking score: the digits before the first dot,
   * then the first digit after it (0 when there is none).
   */
  function Tenths(s: string): nat {
    var f := FractionPart(s);
    ParseNat(IntegerPart(s)) * 10 + (if |f| > 0 then DigitValue(f[0]) else 0)
  }

  /** `f"{x:.1f}"` for a score of `t` tenths. */
  function FormatTenths(t: nat): (r: string)
    ensures |r| >= 3 && r[|r| - 2] == '.'
  {
    NatToString(t / 10) + "." + [DigitChar(t % 10)]
  }

  /** Reading a formatted score back gives the same number of tenths. */
  lemma FormatTenthsRoundTrip(t: nat)
    ensures IsNumericText(FormatTenths(t))
    ensures Tenths(FormatTenths(t)) == t
  {
    var w, d := NatToString(t / 10), DigitChar(t % 10);
    assert FormatTenths(t) == w + "." + [d];
    assert '.' !in w by { assert AllDigits(w); }
    TenthsOfParts(t, w, d);
    DigitsOfParts(w, d);
  }

  lemma TenthsOfParts(t: nat, w: string, d: char)
    requires w == NatToString(t / 10) && d == DigitChar(t % 10) && '.' !in w
    ensures Tenths(w + "." + [d]) == t
  {
    PartsOfDecimal(w, [d]);
    ParseNatToString(t / 10);
  }

  lemma DigitsOfParts(w: string, d: char)
    requires AllDigits(w) && '.' !in w && IsDigit(d)
    ensures IsNumericText(w + "." + [d])
  {
    assert WithoutDots(w + "." + [d]) == w + [d] by {
      ReplaceCharAppend(w + ".", [d], '.', "");
      ReplaceCharAppend(w, ".", '.', "");
      ReplaceCharAbsent(w, '.', "");
    }
    assert AllDigits(w + [d]);
  }

  /** The remediation sort key's score part: minus the score for numeric-looking text, else 0. */
  function ScoreKey(s: string): (k: int)
    ensures k <= 0
    ensures !IsNumericText(s) ==> k == 0
  {
    if IsNumericText(s) then -(Tenths(s) as int) else 0
  }
}
