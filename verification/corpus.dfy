/** The corpus readers: the loop in `main` of my_exp/index.cpp and
    `read_embeddings` in my_exp/search_index.cpp. Both walk the lines of the
    corpus file counting physical lines, skip literally empty lines, parse
    each other line with negation, let the first kept record fix the
    dimension and abort at the first record of another length. They differ
    in one rule: index.cpp also skips a line that yields no values, while
    `read_embeddings` keeps it as an empty record. */
module Corpus {
  import opened Outcomes
  import opened Text
  import opened Scanner
  import opened LineParse

  datatype Reader = IndexBuilder | SearchIndexReader

  /** The records read, in line order, and the dimension detected. */
  datatype Corpus = Corpus(records: seq<seq<real>>, dim: nat)

  /** Whether a reader stores a successfully parsed record. */
  predicate Keeps(reader: Reader, vec: seq<real>) {
    reader == SearchIndexReader || vec != []
  }

  /** Reads a whole corpus file, given as its lines. */
  function Ingest(reader: Reader, scan: Scanner, lines: seq<string>): Result<Corpus> {
    IngestFrom(reader, Parser(scan, Negated), lines, 0, [], 0)
  }

  /** A line parser with a fixed number syntax and sign: both corpus
      readers use `Parser(scan, Negated)`. */
  function Parser(scan: Scanner, sign: Sign): string -> Parsed {
    line => ParseLine(scan, line, sign)
  }

  /** The reading loop from line index `i` on, with the records kept so far
      and the dimension fixed so far (0 until a record is kept). */
  function IngestFrom(reader: Reader, parse: string -> Parsed, lines: seq<string>, i: nat,
                      acc: seq<seq<real>>, dim: nat): Result<Corpus>
    requires i <= |lines|
    decreases |lines| - i
  {
    if i == |lines| then Success(Corpus(acc, dim))
    else match LineStep(reader, lines[i], parse(lines[i]), i + 1, acc, dim)
      case Stop(e) => Failure(e)
      case Continue(acc', dim') => IngestFrom(reader, parse, lines, i + 1, acc', dim')
  }

  /** What one pass of the loop body does. */
  datatype Step = Stop(error: Error) | Continue(acc: seq<seq<real>>, dim: nat)

  /** One pass of the loop body on the line numbered `lineNum`, given what
      the line parses to (which is not looked at when the line is empty). */
  function LineStep(reader: Reader, line: string, parsed: Parsed, lineNum: nat,
                    acc: seq<seq<real>>, dim: nat): Step
  {
    if line == "" then Continue(acc, dim)
    else match parsed
      case Malformed => Stop(Unparseable(lineNum))
      case Values(vec) =>
        if !Keeps(reader, vec) then Continue(acc, dim)
        else if acc == [] then Continue([vec], |vec|)
        else if |vec| != dim then Stop(Inconsistent(lineNum, dim, |vec|))
        else Continue(acc + [vec], dim)
  }

  // ---------------------------------------------------------------------
  // A declarative account of the same reading, line by line, for any way
  // `parse` of turning a line into values.

  /** A line the reader stores as a record. */
  predicate IsKept(reader: Reader, parse: string -> Parsed, line: string) {
    && line != ""
    && parse(line).Values?
    && Keeps(reader, parse(line).vs)
  }

  /** The records stored from `lines`, in order. */
  function KeptRecords(reader: Reader, parse: string -> Parsed, lines: seq<string>): seq<seq<real>>
    decreases |lines|
  {
    if lines == [] then []
    else
      var init := KeptRecords(reader, parse, lines[..|lines| - 1]);
      var last := lines[|lines| - 1];
      if IsKept(reader, parse, last) then init + [parse(last).vs] else init
  }

  /** The dimension a sequence of records establishes: that of the first. */
  function DimOf(records: seq<seq<real>>): nat {
    if records == [] then 0 else |records[0]|
  }

  /** Line `k` (0-based) is one the reader rejects, given the lines before
      it: a non-empty line with a comma field that is not a number, or a
      kept line whose length differs from the first record kept before it. */
  predicate Offends(reader: Reader, parse: string -> Parsed, lines: seq<string>, k: nat)
    requires k < |lines|
  {
    || (lines[k] != "" && parse(lines[k]).Malformed?)
    || (&& IsKept(reader, parse, lines[k])
        && var before := KeptRecords(reader, parse, lines[..k]);
        && before != []
        && |parse(lines[k]).vs| != |before[0]|)
  }

  /** `e` names the first offending line, and its kind matches the offence;
      a length mismatch reports the dimension in force and the length found. */
  predicate FailsAtFirstOffence(reader: Reader, parse: string -> Parsed, lines: seq<string>, e: Error) {
    && (e.Unparseable? || e.Inconsistent?)
    && 1 <= e.line <= |lines|
    && Offends(reader, parse, lines, e.line - 1)
    && (forall j :: 0 <= j < e.line - 1 ==> !Offends(reader, parse, lines, j))
    && (e.Unparseable? <==> parse(lines[e.line - 1]).Malformed?)
    && (e.Inconsistent? ==>
          && e.expected == DimOf(KeptRecords(reader, parse, lines[..e.line - 1]))
          && e.found == |parse(lines[e.line - 1]).vs|)
  }

  /** What the reading loop promises about its result `r`. */
  predicate Meets(reader: Reader, parse: string -> Parsed, lines: seq<string>, r: Result<Corpus>) {
    && (r.Success? <==> forall k :: 0 <= k < |lines| ==> !Offends(reader, parse, lines, k))
    && (r.Success? ==>
          && r.value.records == KeptRecords(reader, parse, lines)
          && r.value.dim == DimOf(r.value.records)
          && forall j :: 0 <= j < |r.value.records| ==> |r.value.records[j]| == r.value.dim)
    && (r.Failure? ==> FailsAtFirstOffence(reader, parse, lines, r.error))
  }

  /** The reading loop meets the declarative account, whatever the line
      parser: it succeeds exactly when no line offends, returning every kept
      record (all of one length, the dimension) in order; otherwise it fails
      at the first offending line, reported by its 1-based physical number,
      so that skipped lines are still counted. A comma-field failure is
      reported as such. */
  lemma LoopSpec(reader: Reader, parse: string -> Parsed, lines: seq<string>)
    ensures Meets(reader, parse, lines, IngestFrom(reader, parse, lines, 0, [], 0))
  {
    assert lines[..0] == [];
    assert LoopInvariant(reader, parse, lines, 0, [], 0);
    IngestFromSpec(reader, parse, lines, 0, [], 0);
  }

  /** Both corpus readers meet the declarative account with the negating
      line parser. */
  lemma IngestSpec(reader: Reader, scan: Scanner, lines: seq<string>)
    ensures Meets(reader, Parser(scan, Negated), lines, Ingest(reader, scan, lines))
  {
    LoopSpec(reader, Parser(scan, Negated), lines);
  }

  lemma KeptRecordsStep(reader: Reader, parse: string -> Parsed, lines: seq<string>, i: nat)
    requires i < |lines|
    ensures KeptRecords(reader, parse, lines[..i + 1]) ==
      KeptRecords(reader, parse, lines[..i]) +
        (if IsKept(reader, parse, lines[i]) then [parse(lines[i]).vs] else [])
  {
    assert lines[..i + 1][..i] == lines[..i];
  }

  /** What holds at the head of the reading loop before line `i`. */
  predicate LoopInvariant(reader: Reader, parse: string -> Parsed, lines: seq<string>, i: nat,
                          acc: seq<seq<real>>, dim: nat) {
    && i <= |lines|
    && acc == KeptRecords(reader, parse, lines[..i])
    && dim == DimOf(acc)
    && (forall j :: 0 <= j < |acc| ==> |acc[j]| == dim)
    && (forall j :: 0 <= j < i ==> !Offends(reader, parse, lines, j))
  }

  lemma {:induction false} IngestFromSpec(reader: Reader, parse: string -> Parsed, lines: seq<string>,
                                          i: nat, acc: seq<seq<real>>, dim: nat)
    requires LoopInvariant(reader, parse, lines, i, acc, dim)
    ensures Meets(reader, parse, lines, IngestFrom(reader, parse, lines, i, acc, dim))
    decreases |lines| - i
  {
    if i == |lines| {
      assert lines[..i] == lines;
    } else {
      var line := lines[i];
      var parsed := parse(line);
      if line == "" || (parsed.Values? && !Keeps(reader, parsed.vs)) {
        SkipStep(reader, parse, lines, i, acc, dim);
        IngestFromSpec(reader, parse, lines, i + 1, acc, dim);
      } else if parsed.Malformed? {
        assert Offends(reader, parse, lines, i);
        assert FailsAtFirstOffence(reader, parse, lines, Unparseable(i + 1));
      } else if acc == [] {
        FirstStep(reader, parse, lines, i, acc, dim);
        IngestFromSpec(reader, parse, lines, i + 1, [parsed.vs], |parsed.vs|);
      } else if |parsed.vs| != dim {
        assert Offends(reader, parse, lines, i);
        assert FailsAtFirstOffence(reader, parse, lines, Inconsistent(i + 1, dim, |parsed.vs|));
      } else {
        KeepStep(reader, parse, lines, i, acc, dim);
        IngestFromSpec(reader, parse, lines, i + 1, acc + [parsed.vs], dim);
      }
    }
  }

  /** A line that is empty or yields a record the reader does not store. */
  lemma SkipStep(reader: Reader, parse: string -> Parsed, lines: seq<string>, i: nat,
                 acc: seq<seq<real>>, dim: nat)
    requires LoopInvariant(reader, parse, lines, i, acc, dim) && i < |lines|
    requires lines[i] == "" || (parse(lines[i]).Values? && !Keeps(reader, parse(lines[i]).vs))
    ensures LoopInvariant(reader, parse, lines, i + 1, acc, dim)
  {
    KeptRecordsStep(reader, parse, lines, i);
    assert !Offends(reader, parse, lines, i);
  }

  /** The first stored record fixes the dimension. */
  lemma FirstStep(reader: Reader, parse: string -> Parsed, lines: seq<string>, i: nat,
                  acc: seq<seq<real>>, dim: nat)
    requires LoopInvariant(reader, parse, lines, i, acc, dim) && i < |lines|
    requires acc == [] && IsKept(reader, parse, lines[i])
    ensures var vec := parse(lines[i]).vs;
      LoopInvariant(reader, parse, lines, i + 1, [vec], |vec|)
  {
    KeptRecordsStep(reader, parse, lines, i);
    assert !Offends(reader, parse, lines, i);
  }

  /** A later stored record of the established dimension. */
  lemma KeepStep(reader: Reader, parse: string -> Parsed, lines: seq<string>, i: nat,
                 acc: seq<seq<real>>, dim: nat)
    requires LoopInvariant(reader, parse, lines, i, acc, dim) && i < |lines|
    requires acc != [] && IsKept(reader, parse, lines[i])
    requires |parse(lines[i]).vs| == dim
    ensures var vec := parse(lines[i]).vs;
      LoopInvariant(reader, parse, lines, i + 1, acc + [vec], dim)
  {
    KeptRecordsStep(reader, parse, lines, i);
    assert !Offends(reader, parse, lines, i);
  }

  // ---------------------------------------------------------------------
  // Corollaries.

  /** Negation invariant: the stored records are, one for one, the pointwise
      negations of the values the same lines read as, so negating changes
      no record's length and no decision to keep a line. */
  lemma {:induction false} KeptNegated(reader: Reader, scan: Scanner, lines: seq<string>)
    ensures |KeptRecords(reader, Parser(scan, Negated), lines)| ==
              |KeptRecords(reader, Parser(scan, AsRead), lines)|
    ensures forall j :: 0 <= j < |KeptRecords(reader, Parser(scan, Negated), lines)| ==>
              KeptRecords(reader, Parser(scan, Negated), lines)[j] ==
                ApplyAll(Negated, KeptRecords(reader, Parser(scan, AsRead), lines)[j])
    decreases |lines|
  {
    if lines != [] {
      var init := lines[..|lines| - 1];
      var last := lines[|lines| - 1];
      KeptNegated(reader, scan, init);
      NegationPointwise(scan, last);
      assert IsKept(reader, Parser(scan, Negated), last) <==> IsKept(reader, Parser(scan, AsRead), last);
    }
  }

  /** index.cpp never stores an empty record, whatever the line parser, so
      a corpus it reads with at least one record has a dimension of at
      least 1. */
  lemma {:induction false} BuilderRecordsNonEmpty(parse: string -> Parsed, lines: seq<string>)
    ensures forall j :: 0 <= j < |KeptRecords(IndexBuilder, parse, lines)| ==>
              KeptRecords(IndexBuilder, parse, lines)[j] != []
    decreases |lines|
  {
    if lines != [] {
      BuilderRecordsNonEmpty(parse, lines[..|lines| - 1]);
    }
  }

  /** The two readers part ways on a whitespace-only line: index.cpp skips
      it, `read_embeddings` stores it as an empty record. */
  lemma BlankLineReaders(scan: Scanner, line: string)
    requires Blank(line) && line != ""
    ensures ParseLine(scan, line, Negated) == Values([])
    ensures IsKept(SearchIndexReader, Parser(scan, Negated), line)
    ensures !IsKept(IndexBuilder, Parser(scan, Negated), line)
  {
    BlankLine(scan, line, Negated);
  }

  /** A whitespace-only first line fixes the dimension of `read_embeddings`
      at 0, so the first real record after it is rejected; index.cpp reads
      the same two lines as one record. */
  lemma BlankLineFirst(scan: Scanner, blank: string, line: string)
    requires Blank(blank) && blank != ""
    requires line != "" && ParseLine(scan, line, Negated).Values?
    requires ParseLine(scan, line, Negated).vs != []
    ensures var vec := ParseLine(scan, line, Negated).vs;
      && Ingest(SearchIndexReader, scan, [blank, line]) == Failure(Inconsistent(2, 0, |vec|))
      && Ingest(IndexBuilder, scan, [blank, line]) == Success(Corpus([vec], |vec|))
  {
    BlankLineReaders(scan, blank);
    var vec := ParseLine(scan, line, Negated).vs;
    var lines := [blank, line];
    var parse := Parser(scan, Negated);
    assert lines[0] == blank && lines[1] == line;
    assert IngestFrom(SearchIndexReader, parse, lines, 1, [[]], 0) == Failure(Inconsistent(2, 0, |vec|));
    assert Ingest(SearchIndexReader, scan, lines) == IngestFrom(SearchIndexReader, parse, lines, 1, [[]], 0);
    assert IngestFrom(IndexBuilder, parse, lines, 2, [vec], |vec|) == Success(Corpus([vec], |vec|));
    assert IngestFrom(IndexBuilder, parse, lines, 1, [], 0) == IngestFrom(IndexBuilder, parse, lines, 2, [vec], |vec|);
  }

  /** A line the reader passes over without storing or rejecting it. */
  predicate Skipped(reader: Reader, scan: Scanner, line: string) {
    var parse := Parser(scan, Negated);
    line == "" || (parse(line).Values? && !IsKept(reader, parse, line))
  }

  /** The outcome of a reading with every reported line number one higher. */
  function Shifted(r: Result<Corpus>): Result<Corpus> {
    match r
    case Failure(e) => Failure(ShiftedError(e))
    case _ => r
  }

  function ShiftedError(e: Error): Error {
    match e
    case Unparseable(n) => Unparseable(n + 1)
    case Inconsistent(n, x, f) => Inconsistent(n + 1, x, f)
    case _ => e
  }

  /** Skipped lines are still counted: putting a skipped line in front of a
      corpus stores the same records and reports every error one line
      further down. */
  lemma LeadingSkippedLine(reader: Reader, scan: Scanner, line: string, lines: seq<string>)
    requires Skipped(reader, scan, line)
    ensures Ingest(reader, scan, [line] + lines) == Shifted(Ingest(reader, scan, lines))
  {
    IngestFromShifted(reader, Parser(scan, Negated), line, lines, 0, [], 0);
  }

  lemma {:induction false} IngestFromShifted(reader: Reader, parse: string -> Parsed, line: string,
                                             lines: seq<string>, i: nat, acc: seq<seq<real>>, dim: nat)
    requires i <= |lines|
    ensures IngestFrom(reader, parse, [line] + lines, i + 1, acc, dim) ==
              Shifted(IngestFrom(reader, parse, lines, i, acc, dim))
    decreases |lines| - i
  {
    var ext := [line] + lines;
    assert |ext| == |lines| + 1;
    if i < |lines| {
      assert ext[i + 1] == lines[i];
      var step := LineStep(reader, lines[i], parse(lines[i]), i + 1, acc, dim);
      LineStepShifted(reader, lines[i], parse(lines[i]), i + 1, acc, dim);
      if step.Continue? {
        IngestFromShifted(reader, parse, line, lines, i + 1, step.acc, step.dim);
      }
    }
  }

  /** The loop body reports the line number it is given and nothing else
      depends on it. */
  lemma LineStepShifted(reader: Reader, line: string, parsed: Parsed, lineNum: nat,
                        acc: seq<seq<real>>, dim: nat)
    ensures var step := LineStep(reader, line, parsed, lineNum, acc, dim);
      LineStep(reader, line, parsed, lineNum + 1, acc, dim) ==
        if step.Stop? then Stop(ShiftedError(step.error)) else step
  {
  }
}
