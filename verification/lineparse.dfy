/** Turning one text line into a vector, as every reader in the four
    programs does: comma mode when the line holds a comma (every field must
    start with a number), whitespace mode otherwise (take numbers until the
    first failure). Corpus readers store the negation of each value, query
    readers store it as read. */
module LineParse {
  import opened Outcomes
  import opened Text
  import opened Scanner

  /** Whether parsed values are stored negated (corpus) or as read (query). */
  datatype Sign = AsRead | Negated

  function Apply(sign: Sign, v: real): real {
    match sign
    case AsRead => v
    case Negated => -v
  }

  /** The vector of one line, or the sign that a comma field was rejected. */
  datatype Parsed = Malformed | Values(vs: seq<real>)

  /** Comma mode: every field must yield a number, else the line fails.
      A field is read by one extraction, `std::istringstream(token) >> value`,
      so whatever follows the number inside the field is ignored. */
  function StrictFields(scan: Scanner, fields: seq<string>, sign: Sign): (r: Option<seq<real>>)
    ensures r.Some? <==> forall i :: 0 <= i < |fields| ==> scan(fields[i]).Some?
    ensures r.Some? ==> |r.value| == |fields|
    ensures r.Some? ==> forall i :: 0 <= i < |fields| ==>
              r.value[i] == Apply(sign, scan(fields[i]).value.value)
  {
    if fields == [] then Some([])
    else match scan(fields[0])
      case None => None
      case Some(t) =>
        match StrictFields(scan, fields[1..], sign)
        case None => None
        case Some(rest) => Some([Apply(sign, t.value)] + rest)
  }

  function ApplyAll(sign: Sign, vs: seq<real>): (ws: seq<real>)
    ensures |ws| == |vs|
    ensures forall i :: 0 <= i < |vs| ==> ws[i] == Apply(sign, vs[i])
  {
    seq(|vs|, i requires 0 <= i < |vs| => Apply(sign, vs[i]))
  }

  /** Reading as is changes nothing. */
  lemma ApplyAsRead(vs: seq<real>)
    ensures ApplyAll(AsRead, vs) == vs
  {
  }

  /** One line of a corpus or query file. */
  function ParseLine(scan: Scanner, line: string, sign: Sign): (r: Parsed)
    ensures r.Malformed? ==> HasComma(line)
    ensures r.Values? && HasComma(line) ==> |r.vs| == |SplitFields(line)|
  {
    if HasComma(line) then
      match StrictFields(scan, SplitFields(line), sign)
      case None => Malformed
      case Some(vs) => Values(vs)
    else Values(ApplyAll(sign, ScanAll(scan, line)))
  }

  /** A line without a comma is read in whitespace mode, which never fails:
      its values are the successive extractions up to the first failure. */
  lemma WhitespaceMode(scan: Scanner, line: string, sign: Sign)
    requires !HasComma(line)
    ensures ParseLine(scan, line, sign).Values?
    ensures ParseLine(scan, line, sign).vs == ApplyAll(sign, ScanAll(scan, line))
  {
  }

  /** A line with a comma is read in comma mode: it fails exactly when some
      field does not start with a number, and otherwise holds one value per
      field, in field order. */
  lemma CommaMode(scan: Scanner, line: string, sign: Sign)
    requires HasComma(line)
    ensures var fields := SplitFields(line);
      && (ParseLine(scan, line, sign).Malformed? <==>
            exists i :: 0 <= i < |fields| && scan(fields[i]).None?)
      && (ParseLine(scan, line, sign).Values? ==>
            && |ParseLine(scan, line, sign).vs| == |fields|
            && forall i :: 0 <= i < |fields| ==>
                 ParseLine(scan, line, sign).vs[i] == Apply(sign, scan(fields[i]).value.value))
  {
  }

  /** A comma line that parses is never empty: a line holding a comma has at
      least one field. */
  lemma CommaLineNotEmpty(scan: Scanner, line: string, sign: Sign)
    requires HasComma(line)
    requires ParseLine(scan, line, sign).Values?
    ensures |ParseLine(scan, line, sign).vs| >= 1
  {
    assert line != [];
  }

  /** Empty and whitespace-only lines parse to the empty vector. */
  lemma BlankLine(scan: Scanner, line: string, sign: Sign)
    requires Blank(line)
    ensures ParseLine(scan, line, sign) == Values([])
  {
  }

  /** The two signs see the same fields: the negated parse fails exactly
      when the plain parse does, and otherwise holds the pointwise
      negation of the plain values. */
  lemma NegationPointwise(scan: Scanner, line: string)
    ensures ParseLine(scan, line, Negated).Malformed? <==> ParseLine(scan, line, AsRead).Malformed?
    ensures ParseLine(scan, line, AsRead).Values? ==>
              ParseLine(scan, line, Negated).vs == ApplyAll(Negated, ParseLine(scan, line, AsRead).vs)
  {
    if HasComma(line) {
      CommaMode(scan, line, Negated);
      CommaMode(scan, line, AsRead);
    }
  }
}
