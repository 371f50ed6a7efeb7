/** The four programs end to end, from their input lines to what they
    print or hand to the index:
      - my_exp/index.cpp reads a corpus and adds record i under label i to
        an index of capacity equal to the record count;
      - my_exp/search_index.cpp reads a corpus and a query, builds the same
        index in memory, searches it and prints the labels in pop order;
      - my_exp/search.cpp reads a query, loads a saved index for the query's
        dimension, searches it and prints the labels in pop order;
      - my_exp/test2.cpp reads a query leniently, loads a saved index,
        searches it and prints (label, distance) pairs in reversed pop order.
    The index itself (graph construction, `searchKnn`, saving and loading)
    is not part of this model: a search is a parameter that returns the
    contents of the result queue, and loading is a parameter that may fail. */
module Programs {
  import opened Outcomes
  import opened Text
  import opened Scanner
  import opened LineParse
  import opened Corpus
  import opened Query
  import opened Ranking

  /** One `addPoint(data, label)` call. */
  datatype Point = Point(vec: seq<real>, id: nat)

  /** What index.cpp and search_index.cpp give the index: the dimension of
      its space, its capacity `max_elements`, and the points in the order
      they are added. */
  datatype Index = Index(dim: nat, capacity: nat, points: seq<Point>)

  /** The insertion loop `for (i = 0; i < max_elements; i++)
      addPoint(embeddings[i].data(), i)`, from `i` on: record `i` goes in
      under label `i`. */
  function AddPoints(records: seq<seq<real>>, i: nat): (points: seq<Point>)
    requires i <= |records|
    ensures |points| == |records| - i
    ensures forall k :: 0 <= k < |points| ==> points[k].id == i + k && points[k].vec == records[i + k]
    decreases |records| - i
  {
    if i == |records| then []
    else [Point(records[i], i)] + AddPoints(records, i + 1)
  }

  /** The index built from a corpus. */
  function Build(corpus: Corpus): (index: Index)
    ensures index.dim == corpus.dim
    ensures LabelledInOrder(index, corpus.records)
  {
    Index(corpus.dim, |corpus.records|, AddPoints(corpus.records, 0))
  }

  /** Each record `k` of `records`, and nothing else, is in `index` under
      label `k`, in record order. */
  predicate LabelledInOrder(index: Index, records: seq<seq<real>>) {
    && index.capacity == |records| == |index.points|
    && forall k :: 0 <= k < |index.points| ==> index.points[k] == Point(records[k], k)
  }

  /** In an index labelled in order, a label names exactly one point: the
      record with that index. */
  lemma LabelsIdentifyRecords(index: Index, records: seq<seq<real>>, j: nat, k: nat)
    requires LabelledInOrder(index, records)
    requires j < |index.points| && k < |index.points|
    ensures index.points[j].id == index.points[k].id <==> j == k
    ensures index.points[k].id < index.capacity
    ensures records[index.points[k].id] == index.points[k].vec
  {
  }

  /** `main` of index.cpp up to the insertions: read the corpus (records
      negated, empty and number-less lines skipped), then build the index.
      It fails exactly when some line offends, at the first offending line;
      otherwise every kept record is added under its position as label,
      and every point has the detected dimension, which is at least 1. */
  function IndexBuild(scan: Scanner, lines: seq<string>): (r: Result<Index>)
    ensures r.Success? <==> forall k :: 0 <= k < |lines| ==> !Offends(IndexBuilder, Parser(scan, Negated), lines, k)
    ensures r.Failure? ==> FailsAtFirstOffence(IndexBuilder, Parser(scan, Negated), lines, r.error)
    ensures r.Success? ==> LabelledInOrder(r.value, KeptRecords(IndexBuilder, Parser(scan, Negated), lines))
    ensures r.Success? ==> r.value.dim == DimOf(KeptRecords(IndexBuilder, Parser(scan, Negated), lines))
    ensures r.Success? ==> forall k :: 0 <= k < |r.value.points| ==>
              1 <= |r.value.points[k].vec| == r.value.dim
  {
    IngestSpec(IndexBuilder, scan, lines);
    BuilderRecordsNonEmpty(Parser(scan, Negated), lines);
    match Ingest(IndexBuilder, scan, lines)
    case Failure(e) => Failure(e)
    case Success(c) => Success(Build(c))
  }

  /** A search of an in-memory index: the contents of the result queue,
      in some order, for an index, a query and `topK`. */
  type InMemorySearch = (Index, seq<real>, int) -> seq<Hit>

  /** `main` of search_index.cpp: read the corpus, then the query with the
      corpus dimension as the expected one, build the index, search it and
      print the labels of the results as popped. */
  function SearchIndexRun(scan: Scanner, corpusLines: seq<string>, queryLines: seq<string>,
                          topK: int, search: InMemorySearch): (r: Result<seq<nat>>)
    ensures Ingest(SearchIndexReader, scan, corpusLines).Failure? ==>
              r == Failure(Ingest(SearchIndexReader, scan, corpusLines).error)
    ensures Ingest(SearchIndexReader, scan, corpusLines).Success? ==>
              var dim := Ingest(SearchIndexReader, scan, corpusLines).value.dim;
              && (r.Success? <==> ReadQueryExpecting(scan, queryLines, dim).Success?)
              && (r.Failure? ==> r == Failure(ReadQueryExpecting(scan, queryLines, dim).error))
  {
    match Ingest(SearchIndexReader, scan, corpusLines)
    case Failure(e) => Failure(e)
    case Success(c) =>
      match ReadQueryExpecting(scan, queryLines, c.dim)
      case Failure(e) => Failure(e)
      case Success(q) => Success(Labels(Emitted(AsPopped, search(Build(c), q, topK))))
  }

  /** search_index.cpp prints one label per result, from the largest
      (distance, label) pair to the smallest: whatever order the queue's
      contents come in, the labels printed are those of their unique
      non-increasing arrangement. The query searched for is the first line
      as read, not negated, and the index holds the corpus records under
      their positions as labels. */
  lemma SearchIndexPrintsPopOrder(scan: Scanner, corpusLines: seq<string>, queryLines: seq<string>,
                                  topK: int, search: InMemorySearch, s: seq<Hit>)
    requires Ingest(SearchIndexReader, scan, corpusLines).Success?
    requires var c := Ingest(SearchIndexReader, scan, corpusLines).value;
      && ReadQueryExpecting(scan, queryLines, c.dim).Success?
      && multiset(s) == multiset(search(Build(c), ParseLine(scan, queryLines[0], AsRead).vs, topK))
    requires NonIncreasing(s)
    ensures SearchIndexRun(scan, corpusLines, queryLines, topK, search) == Success(Labels(s))
    ensures LabelledInOrder(Build(Ingest(SearchIndexReader, scan, corpusLines).value),
                            KeptRecords(SearchIndexReader, Parser(scan, Negated), corpusLines))
  {
    var c := Ingest(SearchIndexReader, scan, corpusLines).value;
    var q := ParseLine(scan, queryLines[0], AsRead).vs;
    PopOrderUnique(search(Build(c), q, topK), s);
    IngestSpec(SearchIndexReader, scan, corpusLines);
  }

  /** A search of a loaded index, for a query and `topK`. */
  type LoadedSearch = (seq<real>, int) -> seq<Hit>

  /** Loading the saved index into a space of the given dimension: the
      searcher, or `None` when the load constructor throws. */
  type Loader = nat -> Option<LoadedSearch>

  /** What search.cpp and test2.cpp do once the query is read: stop on a
      query error, else load the index for the query's dimension, search it
      and drain the result queue in the program's order. */
  function Serve(query: Result<seq<real>>, topK: int, load: Loader, how: Emission): (r: Result<seq<Hit>>)
    ensures query.Failure? ==> r == Failure(query.error)
    ensures query.Success? ==>
              && (r.Success? <==> load(|query.value|).Some?)
              && (r.Failure? ==> r == Failure(IndexLoadFailed))
  {
    match query
    case Failure(e) => Failure(e)
    case Success(q) =>
      match load(|q|)
      case None => Failure(IndexLoadFailed)
      case Some(search) => Success(Emitted(how, search(q, topK)))
  }

  /** Whatever order the result queue's contents come in, what is drained
      is their unique arrangement in the program's order: non-increasing as
      popped, non-decreasing when reversed. */
  lemma ServeOrder(query: Result<seq<real>>, topK: int, load: Loader, how: Emission, s: seq<Hit>)
    requires query.Success? && load(|query.value|).Some?
    requires multiset(s) == multiset(load(|query.value|).value(query.value, topK))
    requires how == AsPopped ==> NonIncreasing(s)
    requires how == Reversed ==> NonDecreasing(s)
    ensures Serve(query, topK, load, how) == Success(s)
  {
    var hits := load(|query.value|).value(query.value, topK);
    if how == AsPopped {
      PopOrderUnique(hits, s);
    } else {
      AscendingUnique(hits, s);
    }
  }

  /** `main` of search.cpp: read the query, reject an empty one, load the
      index for the query's dimension, search it and print the labels as
      popped. */
  function SearchRun(scan: Scanner, queryLines: seq<string>, topK: int, load: Loader): (r: Result<seq<nat>>)
    ensures SearchQuery(scan, queryLines).Failure? ==> r == Failure(SearchQuery(scan, queryLines).error)
    ensures SearchQuery(scan, queryLines).Success? ==>
              var q := SearchQuery(scan, queryLines).value;
              && (r.Success? <==> load(|q|).Some?)
              && (r.Failure? ==> r == Failure(IndexLoadFailed))
  {
    LabelsOf(Serve(SearchQuery(scan, queryLines), topK, load, AsPopped))
  }

  /** Printing only the labels of the drained results. */
  function LabelsOf(r: Result<seq<Hit>>): Result<seq<nat>> {
    match r
    case Failure(e) => Failure(e)
    case Success(hits) => Success(Labels(hits))
  }

  /** search.cpp prints one label per result, from the largest (distance,
      label) pair to the smallest, and the index it searched was loaded for
      the query's own dimension, which is at least 1. */
  lemma SearchPrintsPopOrder(scan: Scanner, queryLines: seq<string>, topK: int, load: Loader, s: seq<Hit>)
    requires SearchQuery(scan, queryLines).Success?
    requires var q := SearchQuery(scan, queryLines).value;
      load(|q|).Some? && multiset(s) == multiset(load(|q|).value(q, topK))
    requires NonIncreasing(s)
    ensures SearchRun(scan, queryLines, topK, load) == Success(Labels(s))
    ensures |SearchQuery(scan, queryLines).value| >= 1
  {
    ServeOrder(SearchQuery(scan, queryLines), topK, load, AsPopped, s);
  }

  /** `main` of test2.cpp: read the query leniently, load the index for the
      query's dimension, search it and print each result's label and
      distance in reversed pop order. */
  function Test2Run(scan: Scanner, queryLines: seq<string>, topK: int, load: Loader): (r: Result<seq<Hit>>)
    ensures Test2Query(scan, queryLines).Failure? ==> r == Failure(Test2Query(scan, queryLines).error)
    ensures Test2Query(scan, queryLines).Success? ==>
              var q := Test2Query(scan, queryLines).value;
              && (r.Success? <==> load(|q|).Some?)
              && (r.Failure? ==> r == Failure(IndexLoadFailed))
  {
    Serve(Test2Query(scan, queryLines), topK, load, Reversed)
  }

  /** test2.cpp prints every result once, from the smallest (distance,
      label) pair to the largest: whatever order the queue's contents come
      in, it prints their unique non-decreasing arrangement. */
  lemma Test2PrintsAscending(scan: Scanner, queryLines: seq<string>, topK: int, load: Loader, s: seq<Hit>)
    requires Test2Query(scan, queryLines).Success?
    requires var q := Test2Query(scan, queryLines).value;
      load(|q|).Some? && multiset(s) == multiset(load(|q|).value(q, topK))
    requires NonDecreasing(s)
    ensures Test2Run(scan, queryLines, topK, load) == Success(s)
  {
    ServeOrder(Test2Query(scan, queryLines), topK, load, Reversed, s);
  }

  /** On a query both read alike, against the same saved index, test2.cpp
      prints the labels search.cpp prints, in exactly the opposite order. */
  lemma Test2MirrorsSearch(scan: Scanner, queryLines: seq<string>, topK: int, load: Loader)
    requires Test2Query(scan, queryLines) == SearchQuery(scan, queryLines)
    requires SearchRun(scan, queryLines, topK, load).Success?
    ensures Test2Run(scan, queryLines, topK, load).Success?
    ensures Labels(Test2Run(scan, queryLines, topK, load).value) ==
              Reverse(SearchRun(scan, queryLines, topK, load).value)
  {
    assert Test2Run(scan, queryLines, topK, load) == Serve(SearchQuery(scan, queryLines), topK, load, Reversed);
    ServeMirror(SearchQuery(scan, queryLines), topK, load);
  }

  /** Serving one query both ways gives mirror images: the reversed results
      carry the printed labels in the opposite order. */
  lemma ServeMirror(query: Result<seq<real>>, topK: int, load: Loader)
    requires LabelsOf(Serve(query, topK, load, AsPopped)).Success?
    ensures Serve(query, topK, load, Reversed).Success?
    ensures Labels(Serve(query, topK, load, Reversed).value) ==
              Reverse(LabelsOf(Serve(query, topK, load, AsPopped)).value)
  {
    var hits := load(|query.value|).value(query.value, topK);
    EmissionOrders(hits);
    LabelsReverse(PopOrder(hits));
  }

  /** test2.cpp with its query reader corrected: a line without a comma is
      read in whitespace mode. */
  function Test2RunIntended(scan: Scanner, queryLines: seq<string>, topK: int, load: Loader): (r: Result<seq<Hit>>)
    ensures Test2QueryIntended(scan, queryLines).Failure? ==>
              r == Failure(Test2QueryIntended(scan, queryLines).error)
    ensures Test2QueryIntended(scan, queryLines).Success? ==>
              var q := Test2QueryIntended(scan, queryLines).value;
              && (r.Success? <==> load(|q|).Some?)
              && (r.Failure? ==> r == Failure(IndexLoadFailed))
  {
    Serve(Test2QueryIntended(scan, queryLines), topK, load, Reversed)
  }

  /** Corrected, test2.cpp mirrors search.cpp on every whitespace-separated
      query and on every comma query whose fields all start with a number:
      same query, same index, the results in exactly the opposite order. */
  lemma IntendedMirrorsSearch(scan: Scanner, queryLines: seq<string>, topK: int, load: Loader)
    requires |queryLines| > 0
    requires HasComma(queryLines[0]) ==> forall f :: f in SplitFields(queryLines[0]) ==> scan(f).Some?
    requires SearchRun(scan, queryLines, topK, load).Success?
    ensures Test2RunIntended(scan, queryLines, topK, load).Success?
    ensures Labels(Test2RunIntended(scan, queryLines, topK, load).value) ==
              Reverse(SearchRun(scan, queryLines, topK, load).value)
  {
    IntendedServesSearchQuery(scan, queryLines, topK, load);
    ServeMirror(SearchQuery(scan, queryLines), topK, load);
  }

  lemma IntendedServesSearchQuery(scan: Scanner, queryLines: seq<string>, topK: int, load: Loader)
    requires |queryLines| > 0
    requires HasComma(queryLines[0]) ==> forall f :: f in SplitFields(queryLines[0]) ==> scan(f).Some?
    ensures Test2RunIntended(scan, queryLines, topK, load) == Serve(SearchQuery(scan, queryLines), topK, load, Reversed)
  {
    IntendedAgreesWithSearch(scan, queryLines);
  }
}
