/** The three query readers. Each reads only the first line of the query
    file and never negates; they differ in how they treat a bad field and
    in which dimension check follows:
      - `read_embedding` of my_exp/search_index.cpp: strict comma mode,
        then the length must equal the corpus dimension;
      - `read_embedding` of my_exp/search.cpp, plus the check in its
        `main`: strict comma mode, then the query must not be empty and its
        length becomes the dimension;
      - the inline block of my_exp/test2.cpp: every line is first split on
        commas and each field that starts with a number contributes that
        number (others are skipped silently); only when that yields nothing
        is the line re-read in whitespace mode; an empty result is an error. */
module Query {
  import opened Outcomes
  import opened Text
  import opened Scanner
  import opened LineParse

  /** `read_embedding(filepath, expectedDim)` of search_index.cpp. */
  function ReadQueryExpecting(scan: Scanner, lines: seq<string>, expected: nat): (r: Result<seq<real>>)
    ensures r == Failure(QueryFileEmpty) <==> |lines| == 0
    ensures r.Success? <==> |lines| > 0 && ParseLine(scan, lines[0], AsRead).Values? &&
                              |ParseLine(scan, lines[0], AsRead).vs| == expected
    ensures r.Success? ==> r.value == ParseLine(scan, lines[0], AsRead).vs
  {
    if |lines| == 0 then Failure(QueryFileEmpty)
    else match ParseLine(scan, lines[0], AsRead)
      case Malformed => Failure(QueryUnparseable)
      case Values(q) =>
        if |q| != expected then Failure(QueryDimension(expected, |q|))
        else Success(q)
  }

  /** `read_embedding(filepath)` of search.cpp: no dimension check. */
  function ReadQuery(scan: Scanner, lines: seq<string>): (r: Result<seq<real>>)
    ensures r == Failure(QueryFileEmpty) <==> |lines| == 0
    ensures r.Success? <==> |lines| > 0 && ParseLine(scan, lines[0], AsRead).Values?
    ensures r.Success? ==> r.value == ParseLine(scan, lines[0], AsRead).vs
  {
    if |lines| == 0 then Failure(QueryFileEmpty)
    else match ParseLine(scan, lines[0], AsRead)
      case Malformed => Failure(QueryUnparseable)
      case Values(q) => Success(q)
  }

  /** search.cpp `main`: the query read must not be empty; its length is
      then the dimension of the space the index is loaded with. */
  function SearchQuery(scan: Scanner, lines: seq<string>): (r: Result<seq<real>>)
    ensures r.Success? ==> |r.value| >= 1
    ensures r.Success? <==> ReadQuery(scan, lines).Success? && ReadQuery(scan, lines).value != []
    ensures r == Failure(QueryEmpty) <==> ReadQuery(scan, lines) == Success([])
    ensures r.Success? ==> r.value == ReadQuery(scan, lines).value
    ensures ReadQuery(scan, lines).Failure? ==> r == ReadQuery(scan, lines)
  {
    match ReadQuery(scan, lines)
    case Failure(e) => Failure(e)
    case Success(q) => if q == [] then Failure(QueryEmpty) else Success(q)
  }

  /** The comma pass of test2.cpp: each field yields at most one value, and
      a field that does not start with a number is skipped. */
  function LenientFields(scan: Scanner, fields: seq<string>): (vs: seq<real>)
    ensures |vs| <= |fields|
    ensures vs == [] <==> forall i :: 0 <= i < |fields| ==> scan(fields[i]).None?
  {
    if fields == [] then []
    else match scan(fields[0])
      case None => LenientFields(scan, fields[1..])
      case Some(t) => [t.value] + LenientFields(scan, fields[1..])
  }

  /** The whole inline query parser of test2.cpp. */
  function Test2Query(scan: Scanner, lines: seq<string>): (r: Result<seq<real>>)
    ensures r.Success? ==> |r.value| >= 1
    ensures |lines| == 0 <==> r == Failure(QueryFileEmpty)
  {
    if |lines| == 0 then Failure(QueryFileEmpty)
    else
      var line := lines[0];
      var pass := LenientFields(scan, SplitFields(line));
      var query := if pass == [] then ScanAll(scan, line) else pass;
      if query == [] then Failure(QueryEmpty) else Success(query)
  }

  // ---------------------------------------------------------------------
  // How the readers relate.

  /** Nothing after the first line matters to any query reader. */
  lemma FirstLineOnly(scan: Scanner, lines: seq<string>, expected: nat)
    requires |lines| > 0
    ensures ReadQueryExpecting(scan, lines, expected) == ReadQueryExpecting(scan, lines[..1], expected)
    ensures ReadQuery(scan, lines) == ReadQuery(scan, lines[..1])
    ensures SearchQuery(scan, lines) == SearchQuery(scan, lines[..1])
    ensures Test2Query(scan, lines) == Test2Query(scan, lines[..1])
  {
  }

  /** A query is stored as read: the same line read as a corpus record
      stores exactly the negation of the query's values. */
  lemma QueryNotNegated(scan: Scanner, lines: seq<string>)
    requires ReadQuery(scan, lines).Success?
    ensures ParseLine(scan, lines[0], Negated) ==
              Values(ApplyAll(Negated, ReadQuery(scan, lines).value))
  {
    NegationPointwise(scan, lines[0]);
  }

  /** search_index.cpp's reader is search.cpp's reader followed by the
      dimension check; an unparseable or missing line fails both alike. */
  lemma ExpectingIsReadThenCheck(scan: Scanner, lines: seq<string>, expected: nat)
    ensures var r := ReadQuery(scan, lines);
      ReadQueryExpecting(scan, lines, expected) ==
        if r.Failure? then r
        else if |r.value| != expected then Failure(QueryDimension(expected, |r.value|))
        else r
  {
  }

  /** Where every comma field starts with a number, the lenient pass reads
      what strict comma mode reads. */
  lemma {:induction false} LenientAgreesWhenAllParse(scan: Scanner, fields: seq<string>)
    requires forall i :: 0 <= i < |fields| ==> scan(fields[i]).Some?
    ensures StrictFields(scan, fields, AsRead) == Some(LenientFields(scan, fields))
  {
    if fields != [] {
      forall i | 0 <= i < |fields| - 1 ensures scan(fields[1..][i]).Some? {
        assert fields[1..][i] == fields[i + 1];
      }
      LenientAgreesWhenAllParse(scan, fields[1..]);
    }
  }

  /** A field that does not start with a number is dropped without trace:
      the lenient pass reads the same as if it were not there. */
  lemma {:induction false} LenientSkipsField(scan: Scanner, fields: seq<string>, i: nat)
    requires i < |fields| && scan(fields[i]).None?
    ensures LenientFields(scan, fields) == LenientFields(scan, fields[..i] + fields[i + 1..])
  {
    if i == 0 {
      assert fields[..0] + fields[1..] == fields[1..];
    } else {
      var rest := fields[..i] + fields[i + 1..];
      LenientSkipsField(scan, fields[1..], i - 1);
      assert fields[1..][..i - 1] + fields[1..][i..] == rest[1..];
      assert rest[0] == fields[0];
      LenientCons(scan, fields);
      LenientCons(scan, rest);
    }
  }

  /** The comma pass on a first field followed by the rest. */
  lemma LenientCons(scan: Scanner, fields: seq<string>)
    requires fields != []
    ensures LenientFields(scan, fields) ==
      (if scan(fields[0]).Some? then [scan(fields[0]).value.value] else []) + LenientFields(scan, fields[1..])
  {
  }

  /** The whitespace fallback of test2.cpp runs only when the comma pass
      read nothing. */
  lemma FallbackOnlyWhenPassEmpty(scan: Scanner, lines: seq<string>)
    requires |lines| > 0
    requires LenientFields(scan, SplitFields(lines[0])) != []
    ensures Test2Query(scan, lines) == Success(LenientFields(scan, SplitFields(lines[0])))
  {
  }

  /** When the comma pass reads nothing, the line is read again in
      whitespace mode: what that yields is the query, and a line from which
      it yields nothing too is the empty-query error. */
  lemma FallbackWhenPassEmpty(scan: Scanner, lines: seq<string>)
    requires |lines| > 0
    requires LenientFields(scan, SplitFields(lines[0])) == []
    ensures ScanAll(scan, lines[0]) == [] ==> Test2Query(scan, lines) == Failure(QueryEmpty)
    ensures ScanAll(scan, lines[0]) != [] ==> Test2Query(scan, lines) == Success(ScanAll(scan, lines[0]))
  {
  }

  /** On a comma line whose every field starts with a number, test2.cpp and
      search.cpp read the same query. */
  lemma Test2AgreesOnCleanCommaLines(scan: Scanner, lines: seq<string>)
    requires |lines| > 0 && HasComma(lines[0])
    requires forall f :: f in SplitFields(lines[0]) ==> scan(f).Some?
    ensures Test2Query(scan, lines) == SearchQuery(scan, lines)
    ensures Test2Query(scan, lines).Success?
  {
    var fields := SplitFields(lines[0]);
    assert forall i :: 0 <= i < |fields| ==> scan(fields[i]).Some? by {
      forall i | 0 <= i < |fields| ensures scan(fields[i]).Some? {
        assert fields[i] in fields;
      }
    }
    LenientAgreesWhenAllParse(scan, fields);
    assert |fields| >= 1;
  }

  /** A comma field that does not start with a number aborts search.cpp's
      reader, while test2.cpp skips that field. */
  lemma BadFieldDisagreement(scan: Scanner, lines: seq<string>, i: nat)
    requires |lines| > 0 && HasComma(lines[0])
    requires i < |SplitFields(lines[0])| && scan(SplitFields(lines[0])[i]).None?
    ensures ReadQuery(scan, lines) == Failure(QueryUnparseable)
    ensures var fields := SplitFields(lines[0]);
      LenientFields(scan, fields) == LenientFields(scan, fields[..i] + fields[i + 1..])
  {
    LenientSkipsField(scan, SplitFields(lines[0]), i);
  }

  /** The defect of test2.cpp as written: a line without a comma is one
      comma field, which yields only its first number; the comma pass is
      then non-empty, so the whitespace fallback never runs and every
      further number of a whitespace-separated query is lost. */
  lemma Test2TruncatesWhitespaceQuery(scan: Scanner, lines: seq<string>)
    requires |lines| > 0 && !HasComma(lines[0])
    requires |ScanAll(scan, lines[0])| >= 2
    ensures Test2Query(scan, lines) == Success([ScanAll(scan, lines[0])[0]])
    ensures ReadQuery(scan, lines) == Success(ScanAll(scan, lines[0]))
    ensures Test2Query(scan, lines) != ReadQuery(scan, lines)
  {
    var line := lines[0];
    SplitNoComma(line);
    assert SplitFields(line) == [line];
    assert LenientFields(scan, [line]) == [ScanAll(scan, line)[0]];
    ApplyAsRead(ScanAll(scan, line));
  }

  /** test2.cpp as evidently intended: comma mode only for a line with a
      comma, whitespace mode otherwise; a comma line that reads nothing
      still falls back to whitespace mode. */
  function Test2QueryIntended(scan: Scanner, lines: seq<string>): (r: Result<seq<real>>)
    ensures r.Success? ==> |r.value| >= 1
    ensures |lines| == 0 <==> r == Failure(QueryFileEmpty)
  {
    if |lines| == 0 then Failure(QueryFileEmpty)
    else
      var line := lines[0];
      var pass := if HasComma(line) then LenientFields(scan, SplitFields(line)) else [];
      var query := if pass == [] then ScanAll(scan, line) else pass;
      if query == [] then Failure(QueryEmpty) else Success(query)
  }

  /** The intended reader agrees with search.cpp on every line without a
      comma and on every comma line whose fields all start with a number. */
  lemma IntendedAgreesWithSearch(scan: Scanner, lines: seq<string>)
    requires |lines| > 0
    requires HasComma(lines[0]) ==> forall f :: f in SplitFields(lines[0]) ==> scan(f).Some?
    ensures Test2QueryIntended(scan, lines) == SearchQuery(scan, lines)
  {
    if HasComma(lines[0]) {
      Test2AgreesOnCleanCommaLines(scan, lines);
    } else {
      ApplyAsRead(ScanAll(scan, lines[0]));
    }
  }
}
