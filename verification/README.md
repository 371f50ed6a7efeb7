# Text front ends of the hnswlib experiment programs

The four programs in `my_exp/` each read vectors from text files and hand them
to an HNSW index.

- `index.cpp` reads a corpus file and builds an index from it.
- `search_index.cpp` reads a corpus and a query, builds the index in memory and
  prints the labels of the nearest neighbours.
- `search.cpp` and `test2.cpp` read a query, load a saved index and print what
  the search returns.

The index itself (`hnswlib/hnswlib.h`) is not part of this model. What is
modelled is the text handling around it:

- **Line parsing.** A line holding a comma is split the way
  `std::getline(iss, token, ',')` splits it, and every field must start with a
  number. Any other line is read in whitespace mode: numbers are taken until
  the first failure.
- **The two corpus readers.** Both skip empty lines but still count them.
  Both negate every value. The first stored record fixes the dimension. A
  malformed field or a record of another length aborts the run, naming the
  1-based physical line. `index.cpp` also skips a line that yields no numbers;
  `read_embeddings` stores such a line as an empty record.
- **The three query readers.**
  - All three read only the first line and never negate.
  - `search_index.cpp` demands the corpus dimension.
  - `search.cpp` rejects an empty query.
  - `test2.cpp` reads leniently: comma fields that are not numbers are skipped,
    and whitespace mode is a fallback used only when the comma pass read
    nothing.
- **Label assignment.** Record `i` is added under label `i`, to an index of
  capacity equal to the record count.
- **Draining the result queue.** The `std::priority_queue<std::pair<float,
  labeltype>>` that `searchKnn` returns is drained by repeated `top()`/`pop()`.
  `search_index.cpp` and `search.cpp` print in that order. `test2.cpp`
  reverses it first.

Number extraction (`stream >> value`) is a parameter of the model. A `Scanner`
is any function from the unread text to "no number" or "a value and how many
characters were used". It must obey two laws: a success uses at least one and
at most all characters, and text that is only whitespace yields no number. The
module `Decimal` gives one such scanner, for optionally signed integers. It is
used only to state what the readers yield on literal lines, in `Samples`.

Modules, in dependency order:
- `Outcomes`: `Option`, `Result` and the error kinds.
- `Text`: character classes and comma splitting.
- `Scanner`: the scanner laws and whitespace mode.
- `LineParse`: one line to a vector.
- `Corpus`: the corpus readers.
- `Query`: the query readers.
- `Ranking`: draining and ordering the results.
- `Programs`: the four `main` functions end to end.
- `Decimal` and `Samples`: a concrete scanner and literal inputs.

## Model

| member | source | states |
|---|---|---|
| Text.CommaIndex | my_exp/index.cpp:37 | the position of the first comma; it is inside the line exactly when the line holds a comma, and no comma comes before it |
| Text.FieldsLackCommas | my_exp/index.cpp:38 | no field produced by comma splitting contains a comma |
| Text.SplitNoComma | my_exp/test2.cpp:44 | a non-empty line without a comma is split into exactly one field, the whole line |
| Text.SplitFields | my_exp/index.cpp:38 | `std::getline` with `','` yields at least one field exactly when the line is non-empty; Text.SplitJoin and Text.JoinSplit pin down the fields themselves |
| Text.SplitJoin | my_exp/index.cpp:38 | splitting undoes joining whenever no field holds a comma and the last field is non-empty; so leading and interior empty fields survive the split |
| Text.JoinSplit | my_exp/index.cpp:38 | joining the fields of any line with commas gives the line back, except that a trailing comma is lost, so nothing follows a trailing comma |
| Scanner.ScanAll | my_exp/index.cpp:48-51 | whitespace mode reads nothing exactly when the first extraction fails |
| Scanner.ScanAllBlank | my_exp/index.cpp:48-51 | a whitespace-only line reads as no values |
| Scanner.ScanAllIsChain | my_exp/search.cpp:35-40 | whitespace mode reads `vs` if and only if there are positions where each extraction starts where the previous one ended, yields the next value, and the extraction after the last value fails |
| LineParse.StrictFields | my_exp/index.cpp:38-46 | comma mode succeeds if and only if every field yields a number; it then holds one value per field, in field order, each with the reader's sign applied |
| LineParse.ParseLine | my_exp/index.cpp:37-52 | one line's vector: only a line holding a comma can fail, and a comma line that parses has one value per field. LineParse.WhitespaceMode and LineParse.CommaMode characterise each mode in full |
| LineParse.WhitespaceMode | my_exp/index.cpp:47-52 | a line without a comma never fails; its vector is the successive extractions up to the first failure |
| LineParse.CommaMode | my_exp/index.cpp:37-46 | a line with a comma fails exactly when some field does not start with a number; otherwise it holds one value per field, in order |
| LineParse.CommaLineNotEmpty | my_exp/search.cpp:26-34 | a comma line that parses yields at least one value |
| LineParse.BlankLine | my_exp/search_index.cpp:36-41 | empty and whitespace-only lines parse to the empty vector in either sign |
| LineParse.NegationPointwise | my_exp/index.cpp:45-50 | the negated parse fails exactly when the plain parse fails, and otherwise is the pointwise negation of the plain values, in both modes |
| Corpus.LoopSpec | my_exp/index.cpp:29-69 | about the reading loop Corpus.IngestFrom and its one-line body Corpus.LineStep: whatever the line parser, the loop succeeds if and only if no line offends. On success it returns every kept record in line order, all of the detected dimension, which is the first record's length. On failure it names the 1-based physical line of the first offending line, and the error kind (unparseable or inconsistent) matches the offence; a length mismatch reports the dimension in force and the length found |
| Corpus.IngestSpec | my_exp/search_index.cpp:20-49 | both corpus readers, `read_embeddings` included, meet that account with the negating line parser |
| Corpus.KeptNegated | my_exp/index.cpp:45-50 | the stored records are, one for one, the pointwise negations of the vectors the same lines read as without negation |
| Corpus.BuilderRecordsNonEmpty | my_exp/index.cpp:54-57 | index.cpp never stores an empty record |
| Corpus.LeadingSkippedLine | my_exp/index.cpp:29-31 | a skipped line in front of a corpus changes no stored record and moves every reported error line down by one, so skipped lines are counted |
| Corpus.BlankLineReaders | my_exp/search_index.cpp:20-47 | a whitespace-only line parses to the empty vector; `read_embeddings` stores it and index.cpp does not |
| Corpus.BlankLineFirst | my_exp/search_index.cpp:42-47 | a whitespace-only first line fixes the dimension of `read_embeddings` at 0, so it rejects the next real record at line 2; index.cpp reads the same two lines as one record |
| Query.ReadQueryExpecting | my_exp/search_index.cpp:53-85 | a file with no line is an empty-file error. The reader succeeds exactly when the first line parses without negation to a vector of the expected length, and then returns that vector |
| Query.ReadQuery | my_exp/search.cpp:12-42 | a file with no line is an empty-file error; the reader succeeds exactly when the first line parses, and returns its values as read |
| Query.SearchQuery | my_exp/search.cpp:57-69 | an error of the reader is passed on unchanged; otherwise the query is accepted exactly when it is non-empty, and is then the vector the reader returned, so the dimension taken from it is its parsed length, at least 1; an empty read is the empty-query error |
| Query.LenientFields | my_exp/test2.cpp:44-50 | each comma field contributes at most one value, and the pass reads nothing exactly when no field starts with a number |
| Query.Test2Query | my_exp/test2.cpp:33-63 | a file with no line is the only empty-file error, and an accepted query is non-empty |
| Query.FirstLineOnly | my_exp/search_index.cpp:58-61 | all four query readers give the same outcome on the whole file as on its first line |
| Query.QueryNotNegated | my_exp/search.cpp:26-40 | the query holds the values as read; the same line read as a corpus record holds exactly their negations |
| Query.ExpectingIsReadThenCheck | my_exp/search_index.cpp:80-83 | search_index.cpp's reader is search.cpp's reader followed by the dimension check, failing with the expected and found lengths |
| Query.LenientAgreesWhenAllParse | my_exp/test2.cpp:44-50 | when every field starts with a number, the lenient pass reads what strict comma mode reads |
| Query.LenientSkipsField | my_exp/test2.cpp:47-49 | a field that does not start with a number is dropped without trace: the pass reads the same as if it were absent |
| Query.FallbackOnlyWhenPassEmpty | my_exp/test2.cpp:51-57 | when the comma pass read something, that is the query and whitespace mode never runs |
| Query.FallbackWhenPassEmpty | my_exp/test2.cpp:51-63 | when the comma pass read nothing, the query is what whitespace mode reads from the line, and if that is nothing too the reader fails with the empty-query error |
| Query.Test2AgreesOnCleanCommaLines | my_exp/test2.cpp:39-58 | on a comma line whose fields all start with a number, test2.cpp reads the query search.cpp reads, and accepts it |
| Query.BadFieldDisagreement | my_exp/search.cpp:26-34 | a comma field that is not a number makes search.cpp's reader fail, while test2.cpp's pass ignores that field |
| Query.Test2TruncatesWhitespaceQuery | my_exp/test2.cpp:41-58 | on a comma-free line with two or more numbers, test2.cpp reads only the first number, while search.cpp reads them all |
| Query.Test2QueryIntended | my_exp/test2.cpp:39-63 | corrected reader: a file with no line is the only empty-file error, and an accepted query is non-empty |
| Query.IntendedAgreesWithSearch | my_exp/test2.cpp:39-63 | the corrected reader gives search.cpp's outcome on every comma-free line and on every comma line whose fields all parse |
| Ranking.TopIndex | my_exp/search_index.cpp:138 | `top()` is an element nothing else in the queue is above under the pair order |
| Ranking.Without | my_exp/search_index.cpp:139 | `pop()` removes exactly one copy of the top element |
| Ranking.PopOrder | my_exp/search_index.cpp:136-140 | draining yields every queued element exactly once (same multiset), in non-increasing (distance, label) order |
| Ranking.SortedUnique | my_exp/search_index.cpp:136-146 | two non-increasing arrangements of the same results are identical, because the (distance, label) order leaves no ties between distinct results |
| Ranking.PopOrderUnique | my_exp/search_index.cpp:136-146 | any non-increasing arrangement of the queue's contents is the pop order, so the printed order does not depend on the heap's layout |
| Ranking.Reverse | my_exp/test2.cpp:98 | `std::reverse` puts element `i` at position `n-1-i` |
| Ranking.EmissionOrders | my_exp/test2.cpp:93-98 | about Ranking.Emitted, the order the queue is printed in with and without `std::reverse`: as popped, results are non-increasing; reversed, non-decreasing. Both hold every result once, and each is the exact reverse of the other |
| Ranking.AscendingUnique | my_exp/test2.cpp:93-98 | the reversed pop order is the only non-decreasing arrangement of the queue's contents |
| Programs.Build | my_exp/index.cpp:72-84 | the index built from a corpus has the corpus dimension, capacity equal to the record count, and record `k`, and nothing else, under label `k` |
| Programs.AddPoints | my_exp/index.cpp:82-84 | the insertion loop adds one point per record, and point `k` is record `k` under label `k` |
| Programs.LabelsIdentifyRecords | my_exp/index.cpp:72-84 | in an index labelled in order, labels are distinct, below the capacity, and label `l` names record `l` |
| Programs.IndexBuild | my_exp/index.cpp:29-84 | index.cpp fails exactly when some corpus line offends, naming the first. Otherwise the capacity equals the record count, record `k` is added under label `k`, and the index dimension and every point's length are the detected dimension, which is at least 1. With no kept record the dimension is 0, the initial `embDim` |
| Programs.SearchIndexRun | my_exp/search_index.cpp:100-117 | a corpus error is reported before the query is read. Given a readable corpus, the run succeeds exactly when the query has the corpus dimension, else it reports the query error |
| Programs.SearchIndexPrintsPopOrder | my_exp/search_index.cpp:119-147 | search_index.cpp prints the labels of the search results from the largest (distance, label) pair to the smallest, each once, and its index holds the corpus records under their positions as labels |
| Programs.Serve | my_exp/search.cpp:72-96 | after the query: a query error stops the run; otherwise the run succeeds exactly when the index loads for the query's dimension, and a failed load is the load error |
| Programs.ServeOrder | my_exp/search.cpp:88-96 | what is drained is the unique arrangement of the search results in the program's order: non-increasing as popped, non-decreasing when reversed |
| Programs.SearchRun | my_exp/search.cpp:57-96 | search.cpp stops on a query error; otherwise it succeeds exactly when the index loads for the query's dimension |
| Programs.SearchPrintsPopOrder | my_exp/search.cpp:85-96 | search.cpp prints the labels of the results from the largest (distance, label) pair to the smallest, each once, for an index loaded with the query's dimension, which is at least 1 |
| Programs.Test2Run | my_exp/test2.cpp:80-104 | test2.cpp stops on a query error; otherwise it succeeds exactly when the index loads for the query's dimension |
| Programs.Test2PrintsAscending | my_exp/test2.cpp:92-104 | test2.cpp prints every result once, from the smallest (distance, label) pair to the largest |
| Programs.ServeMirror | my_exp/test2.cpp:93-98 | serving one query with and without reversal prints the same labels in opposite orders |
| Programs.Test2MirrorsSearch | my_exp/test2.cpp:92-104 | when both read the same query from the same index, test2.cpp prints search.cpp's labels in exactly the reverse order |
| Programs.Test2RunIntended | my_exp/test2.cpp:39-104 | test2.cpp with the corrected reader stops on its query error, and otherwise succeeds exactly when the index loads for the query's dimension |
| Programs.IntendedMirrorsSearch | my_exp/test2.cpp:39-104 | corrected test2.cpp prints search.cpp's labels in reverse order on every comma-free query and on every comma query whose fields all parse |
| Samples.SplitInteriorEmpty | my_exp/index.cpp:38 | `1,,2` splits into `1`, an empty field and `2` |
| Samples.SplitTrailingComma | my_exp/index.cpp:38 | `1,2,` splits into `1` and `2` only |
| Samples.ScanSample | my_exp/index.cpp:48-51 | whitespace mode reads `1 2 3` as 1, 2, 3 |
| Samples.Test2Sample | my_exp/test2.cpp:39-58 | on the query line `1 2 3`, test2.cpp reads [1]; search.cpp and the corrected reader read [1, 2, 3] |
| Samples.BlankFirstLineSample | my_exp/search_index.cpp:20-47 | with a one-space first line, `read_embeddings` fails at line 2 with dimension 0 against 3, while index.cpp reads one record [-1, -2, -3] |

## Left out

- The index (`hnswlib/hnswlib.h`) is not part of this model.
  - The in-memory search of search_index.cpp is a parameter. It maps the built index, the query and `topK` to the contents of the result queue.
  - Loading a saved index in search.cpp and test2.cpp is also a parameter. For a dimension, it gives a search or a failure.
  - Nothing is claimed about distances, about how the stored negation interacts with the inner-product space, or about the graph built by `addPoint`.
- `saveIndex`, the HNSW parameters `M` and `ef_construction`, and the load's use of the index file path are not modelled. `Programs.Index` records only what the programs pass: dimension, capacity and points.
- File opening, `std::ifstream` failures and reading the file into lines are not modelled. A file is given as the sequence of lines `std::getline` would yield; a file that cannot be opened is not distinguished from I/O in general.
- Command-line handling is not modelled: argument counts, the default output path, usage messages and `std::stoi` for `topK`. `topK` is passed through to the search as an integer.
- The text of messages on stdout and stderr is not modelled, including the "Detected embedding dimension", "Skipping empty line" and "Top K" lines. Errors are `Outcomes.Error` values. The line number is carried wherever a message names it. Only index.cpp (my_exp/index.cpp:64-65) and the query check of search_index.cpp (my_exp/search_index.cpp:81-82) report lengths; the `Inconsistent` error carries the expected and found lengths for both corpus readers, although search_index.cpp reports only the line number (my_exp/search_index.cpp:45).
- Ranking.Hit: distances are totally ordered reals, so NaN is not modelled. Finite inputs can still give a NaN inner product, when products overflow to opposite infinities. `<` on `std::pair<float, labeltype>` is then not a strict weak order, and the pop order of `std::priority_queue` is unspecified. Ranking.SortedUnique, Ranking.PopOrderUnique and Ranking.AscendingUnique describe the printed order only for results with no NaN distance.
- Scanner: the exact syntax and rounding of `operator>>` for `float` are abstract (exponents, `inf`/`nan`, hexadecimal, overflow to infinity). Values are reals, so negation is exact and `-0.0` equals `0.0`.
- Decimal.Dec: reads integers only; it serves the literal samples and does not stand for the full float syntax.
- Corpus.IngestFrom: the `int lineNum` counter is unbounded. A file with more than 2^31-1 lines, where the C++ counter would overflow, is not modelled.
- Corpus.IngestFrom: `embDim` in index.cpp is an `int` compared after a cast to `size_t`; lengths are unbounded naturals here.
- Programs.Test2Run: the load constructor in test2.cpp is not guarded by `try`, so a failed load ends the process through an uncaught exception rather than an error message. Both are modelled as the `IndexLoadFailed` outcome.
- The commented-out normalisation block (test2.cpp lines 66-78) and the commented-out similarity printing are inert and not modelled.
- `new`/`delete` of the loaded index object is memory management with no observable logic.

## Findings

| source | as written | input that shows it | evidently intended | confidence | as-written member | corrected member |
|---|---|---|---|---|---|---|
| my_exp/test2.cpp:41-58 | Every query line is split on commas first. A comma-free line is one field, which yields only its leading number, so the comma pass is non-empty and the whitespace fallback never runs. | query line `1 2 3` is read as the one-dimensional query [1] (Samples.Test2Sample) | a whitespace-separated line is read as all its numbers, [1, 2, 3], as the usage text at line 14 and the comment at line 39 describe | high; not executed | Query.Test2TruncatesWhitespaceQuery | Query.Test2QueryIntended |
