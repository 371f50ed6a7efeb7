/** The readers on literal inputs, with decimal integers as the number
    syntax. */
module Samples {
  import opened Outcomes
  import opened Text
  import opened Scanner
  import opened Decimal
  import opened LineParse
  import opened Corpus
  import opened Query

  /** `std::getline` splitting keeps an interior empty field. */
  lemma SplitInteriorEmpty()
    ensures SplitFields("1,,2") == ["1", "", "2"]
  {
    var fields := ["1", "", "2"];
    assert JoinFields(fields) == "1,,2" by {
      assert JoinFields(fields[2..]) == "2";
      assert JoinFields(fields[1..]) == "" + "," + "2";
    }
    assert forall f :: f in fields ==> ',' !in f;
    SplitJoin(fields);
  }

  /** `std::getline` splitting produces nothing after a trailing comma. */
  lemma SplitTrailingComma()
    ensures SplitFields("1,2,") == ["1", "2"]
  {
    assert "1" + "," + "2," == "1,2,";
    CommaOfPrefix("1", "2,");
    assert "2" + "," + "" == "2,";
    CommaOfPrefix("2", "");
    SplitAtComma("1,2,");
    SplitAtComma("2,");
    assert "1,2,"[..1] == "1" && "1,2,"[2..] == "2,";
    assert "2,"[..1] == "2" && "2,"[2..] == "";
    assert SplitFields("2,") == ["2"] + SplitFields("");
  }

  lemma DecFirst()
    ensures Dec("1 2 3") == Some(Scanned(1.0, 1))
  {
    assert SkipSpaces("1 2 3", 0) == 0;
    assert DigitsEnd("1 2 3", 1) == 1;
    assert DigitsEnd("1 2 3", 0) == 1;
    assert DigitsValue("1 2 3", 0, 1) == 1;
  }

  lemma DecSpaced(s: string, d: char, v: nat)
    requires |s| == 2 && s[0] == ' ' && s[1] == d && '0' <= d <= '9'
    requires v == d as int - '0' as int
    ensures Dec(s) == Some(Scanned(v as real, 2))
  {
    assert SkipSpaces(s, 1) == 1;
    assert SkipSpaces(s, 0) == 1;
    assert DigitsEnd(s, 2) == 2;
    assert DigitsEnd(s, 1) == 2;
    assert DigitsValue(s, 1, 1) == 0;
  }

  lemma DecSecond()
    ensures Dec(" 2 3") == Some(Scanned(2.0, 2))
  {
    var s := " 2 3";
    assert SkipSpaces(s, 1) == 1;
    assert SkipSpaces(s, 0) == 1;
    assert DigitsEnd(s, 2) == 2;
    assert DigitsEnd(s, 1) == 2;
    assert DigitsValue(s, 1, 1) == 0;
  }

  /** Whitespace mode on "1 2 3" reads all three numbers. */
  lemma ScanSample()
    ensures ScanAll(DecimalScanner(), "1 2 3") == [1.0, 2.0, 3.0]
  {
    var d := DecimalScanner();
    var a, b := "1 2 3", " 2 3";
    DecFirst();
    assert d(a) == Dec(a);
    assert a[1..] == b;
    ScanStep(d, a, 1.0, 1);
    ScanTwo();
  }

  lemma ScanTwo()
    ensures ScanAll(DecimalScanner(), " 2 3") == [2.0, 3.0]
  {
    var d := DecimalScanner();
    var b, c := " 2 3", " 3";
    DecSecond();
    assert d(b) == Dec(b);
    assert b[2..] == c;
    ScanStep(d, b, 2.0, 2);
    ScanOne();
  }

  lemma ScanOne()
    ensures ScanAll(DecimalScanner(), " 3") == [3.0]
  {
    var d := DecimalScanner();
    var c := " 3";
    DecSpaced(c, '3', 3);
    assert d(c) == Dec(c) && d("") == None;
    assert c[2..] == "";
    ScanStep(d, c, 3.0, 2);
  }

  lemma ScanStep(scan: Scanner, s: string, v: real, u: nat)
    requires scan(s) == Some(Scanned(v, u))
    ensures u <= |s| && ScanAll(scan, s) == [v] + ScanAll(scan, s[u..])
  {
  }

  /** The truncation in test2.cpp on the query line "1 2 3": it searches for
      the one-dimensional query [1], while search.cpp and the corrected
      reader search for [1, 2, 3]. */
  lemma Test2Sample()
    ensures Test2Query(DecimalScanner(), ["1 2 3"]) == Success([1.0])
    ensures SearchQuery(DecimalScanner(), ["1 2 3"]) == Success([1.0, 2.0, 3.0])
    ensures Test2QueryIntended(DecimalScanner(), ["1 2 3"]) == Success([1.0, 2.0, 3.0])
  {
    var lines := ["1 2 3"];
    assert !HasComma(lines[0]);
    ScanSample();
    Test2TruncatesWhitespaceQuery(DecimalScanner(), lines);
    IntendedAgreesWithSearch(DecimalScanner(), lines);
  }

  /** A corpus whose first line holds one space: `read_embeddings` stores
      it as an empty record, fixing the dimension at 0, and rejects line 2;
      index.cpp skips it and reads one record of dimension 3. */
  lemma BlankFirstLineSample()
    ensures Ingest(SearchIndexReader, DecimalScanner(), [" ", "1 2 3"]) == Failure(Inconsistent(2, 0, 3))
    ensures Ingest(IndexBuilder, DecimalScanner(), [" ", "1 2 3"]) == Success(Corpus([[-1.0, -2.0, -3.0]], 3))
  {
    ParseSample();
    assert Blank(" ");
    BlankLineFirst(DecimalScanner(), " ", "1 2 3");
  }

  /** "1 2 3" as a corpus line. */
  lemma ParseSample()
    ensures ParseLine(DecimalScanner(), "1 2 3", Negated) == Values([-1.0, -2.0, -3.0])
  {
    var line := "1 2 3";
    assert ',' !in line by {
      assert line[0] != ',' && line[1] != ',' && line[2] != ',' && line[3] != ',' && line[4] != ',';
    }
    ScanSample();
    NegatedLine(DecimalScanner(), line, [1.0, 2.0, 3.0]);
    NegateSample();
  }

  lemma NegateSample()
    ensures ApplyAll(Negated, [1.0, 2.0, 3.0]) == [-1.0, -2.0, -3.0]
  {
    var w := ApplyAll(Negated, [1.0, 2.0, 3.0]);
    assert |w| == 3 && w[0] == -1.0 && w[1] == -2.0 && w[2] == -3.0;
  }

  lemma NegatedLine(scan: Scanner, line: string, vs: seq<real>)
    requires ',' !in line
    requires ScanAll(scan, line) == vs
    ensures ParseLine(scan, line, Negated) == Values(ApplyAll(Negated, vs))
  {
  }
}
