/** A concrete scanner, used only to show the readers on literal inputs: it
    reads what `operator>>` reads for an optionally signed run of decimal
    digits (leading whitespace skipped, extraction stops at the first
    character that cannot continue the number). Fractions and exponents are
    not read; the abstract `Scanner` covers every syntax. */
module Decimal {
  import opened Outcomes
  import opened Text
  import opened Scanner

  predicate IsDigit(c: char) {
    '0' <= c <= '9'
  }

  /** The first position at or after `i` that is not whitespace. */
  function SkipSpaces(s: string, i: nat): (j: nat)
    requires i <= |s|
    ensures i <= j <= |s|
    ensures forall k :: i <= k < j ==> IsSpace(s[k])
    ensures j < |s| ==> !IsSpace(s[j])
    decreases |s| - i
  {
    if i < |s| && IsSpace(s[i]) then SkipSpaces(s, i + 1) else i
  }

  /** The end of the run of digits that starts at `i`. */
  function DigitsEnd(s: string, i: nat): (j: nat)
    requires i <= |s|
    ensures i <= j <= |s|
    ensures forall k :: i <= k < j ==> IsDigit(s[k])
    ensures j < |s| ==> !IsDigit(s[j])
    decreases |s| - i
  {
    if i < |s| && IsDigit(s[i]) then DigitsEnd(s, i + 1) else i
  }

  /** The value of the digits `s[i..j]`. */
  function DigitsValue(s: string, i: nat, j: nat): nat
    requires i <= j <= |s|
    requires forall k :: i <= k < j ==> IsDigit(s[k])
    decreases j - i
  {
    if j == i then 0
    else
      assert IsDigit(s[j - 1]);
      10 * DigitsValue(s, i, j - 1) + (s[j - 1] as int - '0' as int)
  }

  /** One extraction: skip whitespace, take an optional sign, then at least
      one digit. */
  function Dec(s: string): (r: Option<Scanned>)
    ensures r.Some? ==> 0 < r.value.used <= |s|
  {
    var i := SkipSpaces(s, 0);
    var signed := i < |s| && (s[i] == '-' || s[i] == '+');
    var start := if signed then i + 1 else i;
    var end := DigitsEnd(s, start);
    if end == start then None
    else
      var v := DigitsValue(s, start, end) as real;
      Some(Scanned(if signed && s[i] == '-' then -v else v, end))
  }

  /** Whitespace-only text yields nothing. */
  lemma DecBlank(s: string)
    requires Blank(s)
    ensures Dec(s).None?
  {
  }

  lemma DecLawful()
    ensures Lawful(Dec)
  {
    forall s: string | Blank(s) ensures Dec(s).None? {
      DecBlank(s);
    }
  }

  /** The scanner for optionally signed decimal integers. */
  function DecimalScanner(): Scanner {
    DecLawful();
    Dec
  }
}
