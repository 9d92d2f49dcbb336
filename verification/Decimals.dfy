/** Number texts: the two regular expressions of the content and schema modules,
    and the rational a matching text denotes. */
module Decimals {

  predicate IsDigit(ch: char) { '0' <= ch <= '9' }

  predicate AllDigits(s: string) { forall i :: 0 <= i < |s| ==> IsDigit(s[i]) }

  /** The text without one leading minus sign. */
  function Unsigned(s: string): string {
    if |s| > 0 && s[0] == '-' then s[1..] else s
  }

  /** A digit sequence without superfluous leading zeros: `0|[1-9][0-9]*`. */
  predicate IsNatural(s: string) {
    s == "0" || (|s| > 0 && AllDigits(s) && s[0] != '0')
  }

  /** `^-?(0|[1-9][0-9]*)$` */
  predicate IsInteger(s: string) { IsNatural(Unsigned(s)) }

  /** Position of the first dot, or the length when there is none. */
  function DotAt(s: string): (i: nat)
    ensures i <= |s|
    ensures forall j :: 0 <= j < i ==> s[j] != '.'
    ensures i < |s| ==> s[i] == '.'
  {
    if s == "" || s[0] == '.' then 0 else 1 + DotAt(s[1..])
  }

  function WholePart(s: string): string { var u := Unsigned(s); u[..DotAt(u)] }

  function FractionPart(s: string): string {
    var u := Unsigned(s);
    if DotAt(u) < |u| then u[DotAt(u) + 1..] else ""
  }

  predicate HasDot(s: string) { DotAt(Unsigned(s)) < |Unsigned(s)| }

  /** `^-?(0|[1-9][0-9]*)(\.[0-9]+)?$` */
  predicate IsDecimal(s: string) {
    && IsNatural(WholePart(s))
    && (HasDot(s) ==> FractionPart(s) != "" && AllDigits(FractionPart(s)))
  }

  function DigitsValue(s: string): nat
    requires AllDigits(s)
  {
    if s == "" then 0 else 10 * DigitsValue(s[..|s| - 1]) + (s[|s| - 1] as int - '0' as int)
  }

  function PowerOfTen(n: nat): (p: nat)
    ensures p > 0
  {
    if n == 0 then 1 else 10 * PowerOfTen(n - 1)
  }

  /** The rational number a decimal text denotes. */
  function Value(s: string): real
    requires IsDecimal(s)
  {
    var whole := DigitsValue(WholePart(s)) as real;
    var fraction := if HasDot(s) then DigitsValue(FractionPart(s)) as real / PowerOfTen(|FractionPart(s)|) as real else 0.0;
    if |s| > 0 && s[0] == '-' then -(whole + fraction) else whole + fraction
  }

  /** An integer text is a decimal text without a dot. */
  lemma IntegerIsDecimal(s: string)
    requires IsInteger(s)
    ensures IsDecimal(s) && !HasDot(s)
  {
    var u := Unsigned(s);
    assert AllDigits(u);
    assert DotAt(u) == |u|;
    assert u[..|u|] == u;
  }

  /** The text every zero is normalised to is itself a decimal zero. */
  lemma ZeroText()
    ensures IsInteger("0") && IsDecimal("0") && !HasDot("0") && Value("0") == 0.0
  {
    IntegerIsDecimal("0");
    assert WholePart("0") == "0";
    assert "0"[..0] == "";
    assert DigitsValue("0") == 0;
  }
}
