# Sheet statistics and request selection

This project models the core of a tool that reads a Google Sheets table of customer
requests. The model covers `src/data_analyzer.py`:

- `DataAnalyzer.analyze` counts the requests per category. It returns an `AnalysisResult` with:
  - the totals;
  - an insertion-ordered `Counter` of the categories;
  - the most common category.
- The two views on an `AnalysisResult`:
  - `has_data`;
  - `categories_sorted`, which sorts by count, descending and stably.
- `DataAnalyzer.get_requests_for_llm` prepares one cleaned record per data row. It keeps the
  records whose description (`choice`) is truthy.

The table is a `seq<Row>` of `Cell`s. A cell is text, an integer or `None`. The first row is
the header; data rows are numbered from 2, as in the sheet.

The modules:

- `Cells` covers the Python values the code touches:
  - truthiness;
  - `str.strip()` over the full `str.isspace()` set;
  - `str(int)`, with its parse round trip;
  - the two cleaning rules: the category rule at lines 66-70 and the record rule at lines 138-143.
- `Counter` models `collections.Counter` as an association list in first-seen order. It has:
  - the fold that builds it;
  - `most_common(1)`, which keeps the first maximal entry;
  - a stable descending sort by count.
- `Statistics` defines `AnalysisResult` and states what `analyze` returns as functions of the
  table. The lemmas about them are proved here.
- `Requests` does the same for `get_requests_for_llm`.
- `Analyzer` holds the class `DataAnalyzer`. Its two methods are the source's loops, and each is
  proved to compute the function that specifies it. `CleanRequestData` is the in-place cleaning
  loop over the `request_data` dictionary.
- `Scenarios` applies the general lemmas to two concrete tables. One of them has a tie between
  two categories.

The category column is the subtype `Column`, from 1 to 26. That is the range `config.py`
validates.

## Model

| member | source | states |
|---|---|---|
| Analyzer.DataAnalyzer.constructor | src/data_analyzer.py:38-39 | the analyzer keeps the category column it was given, 3 when none is given; the column is a 1-based index bounded to 1..26 as `config.py:31-36` validates |
| Analyzer.DataAnalyzer.Analyze | src/data_analyzer.py:41-107 | the scan loop returns exactly `Analysis(data, categoryColumn)`; the skipped row numbers it collects are exactly those of the rows with an empty cleaned category; the table is a value, so the method cannot change it |
| Analyzer.DataAnalyzer.GetRequestsForLlm | src/data_analyzer.py:109-157 | the loop returns exactly `SelectRequests(data)`, the cleaned records of the rows with a truthy `choice`, in row order |
| Analyzer.CleanRequestData | src/data_analyzer.py:137-143 | cleaning the dictionary in place keeps its keys; every text value becomes its stripped form, `None` becomes `""`, and any other value is unchanged |
| Statistics.AnalysisResult.CategoriesSorted | src/data_analyzer.py:27-32 | the sorted view is non-increasing by count and a permutation of `category_counts`; the entries with any given count keep their relative order, i.e. the sort is stable |
| Statistics.HasDataIff | src/data_analyzer.py:22-25 | `has_data` (`total_requests > 0`) holds exactly when some data row yields a non-empty cleaned category |
| Statistics.Analysis | src/data_analyzer.py:41-107 | a table of at most one row, or one in which no row yields a category, gives the zero result; `total_rows == len(data)` and `raw_data == data` always; `has_data` holds exactly when categories were collected |
| Statistics.AnalysisResult.HasData | src/data_analyzer.py:22-25 | definition of `has_data` (`total_requests > 0`); what it means for a table is stated by `HasDataIff` |
| Statistics.EmptyResult | src/data_analyzer.py:52-59 | the zero result (also lines 82-89) has no data, `total_rows == len(data)` and `raw_data == data`; its other fields are the literal zeros of the source |
| Statistics.Report | src/data_analyzer.py:100-107 | the result built from a non-empty category list has `total_requests` equal to the list's length, `total_rows == len(data)` and `raw_data == data` |
| Statistics.CategoryOf | src/data_analyzer.py:65-70 | the category read from a row is stripped; it is non-empty only when the row has at least `category_column` cells and that cell is truthy |
| Statistics.RowCategories | src/data_analyzer.py:64-70 | one cleaned category per data row, in row order, entry `j` being that of row `j + 2` |
| Statistics.Categories | src/data_analyzer.py:72-73 | the collected categories are non-empty, come from the scanned rows, and are no more numerous than the rows |
| Statistics.SkippedRows | src/data_analyzer.py:74-77 | the skipped row numbers lie in `2..len(data)`, each names a row whose category is empty, and they strictly increase |
| Statistics.ScanStep | src/data_analyzer.py:64-77 | scanning one more row appends its category to `categories` when non-empty, and its row number to `skipped_rows` otherwise |
| Statistics.AllNamed | src/data_analyzer.py:64-77 | when every data row yields a category, all of them are collected in row order and no row is skipped |
| Statistics.RowsPartition | src/data_analyzer.py:64-77 | every data row lands in exactly one of `categories` or `skipped_rows`: the lengths add up to the number of rows, and a row is skipped exactly when its category is empty |
| Statistics.NoCategoriesIff | src/data_analyzer.py:81-89 | no category is collected exactly when every data row's cleaned category is empty |
| Statistics.AnalysisAccounting | src/data_analyzer.py:91-103 | `total_requests` plus the number of skipped rows is `len(data) - 1`; the counts sum to `total_requests`; `total_requests < total_rows` |
| Statistics.CategoriesStripped | src/data_analyzer.py:65-75 | every collected category is non-empty and has no leading or trailing whitespace |
| Statistics.ReportCounts | src/data_analyzer.py:91 | the counter has distinct keys; each key's count is its number of occurrences in the category list; every category is a key; keys appear in first-seen order |
| Statistics.AnalysisCounts | src/data_analyzer.py:91-103 | the same facts about `category_counts` of `analyze`'s result, with every key non-empty and stripped; with no data the counts are empty |
| Statistics.ReportMostCommon | src/data_analyzer.py:93-96 | `most_common(1)` gives a key of the counter with the maximum count; every other key with the same count was first seen later |
| Statistics.AnalysisMostCommon | src/data_analyzer.py:91-98 | with data, `most_common_count` is the maximum count, `most_common_category` is a key with that count and the first such key in scan order; without data they are `""` and 0 |
| Statistics.SortedViewHead | src/data_analyzer.py:27-32 | with data, `categories_sorted` starts with the most common entry `(most_common_category, most_common_count)` |
| Counter.Bump | src/data_analyzer.py:91 | definition of one counting step (increment an existing key in place, append a new key with count 1); its effect on the whole fold is stated by `TallyKeys`, `TallyCounts`, `TallyTotal` and `TallyFirstSeen` |
| Counter.Tally | src/data_analyzer.py:91 | definition of `Counter(items)` as a left-to-right fold of `Bump`; see `TallyKeys`, `TallyCounts`, `TallyTotal` and `TallyFirstSeen` |
| Counter.TallyKeys | src/data_analyzer.py:91 | the keys of `Counter(items)` are the distinct items in first-seen order, without repetition |
| Counter.TallyCounts | src/data_analyzer.py:91 | each key's count in `Counter(items)` is its multiplicity in `items` |
| Counter.TallyTotal | src/data_analyzer.py:91 | the counts of `Counter(items)` sum to `len(items)` |
| Counter.TallyFirstSeen | src/data_analyzer.py:91 | the keys of `Counter(items)` appear in the order of their first occurrence in `items` |
| Counter.MostCommonIndex | src/data_analyzer.py:94-96 | the entry `most_common(1)` picks from a non-empty counter has the maximum count, and every earlier entry has a strictly smaller count |
| Counter.SortByCount | src/data_analyzer.py:30-32 | the sort is non-increasing by count and a permutation of its input |
| Counter.InsertByCountSorted | src/data_analyzer.py:30-32 | inserting an entry into a list sorted by descending count keeps it sorted |
| Counter.InsertByCountPerm | src/data_analyzer.py:30-32 | insertion adds exactly the new entry: the result is a permutation of the list plus that entry |
| Counter.InsertByCountStable | src/data_analyzer.py:30-32 | among the entries of any one count, the inserted entry lands in front, as if it had been prepended |
| Counter.SortByCountStable | src/data_analyzer.py:30-32 | for every count, the entries with that count appear in the same order before and after the sort |
| Counter.SortByCountHead | src/data_analyzer.py:30-32 | the first entry of the sorted list is the one `most_common(1)` picks |
| Requests.RawFields | src/data_analyzer.py:129-135 | the dictionary built from a row has all five keys |
| Requests.CellAt | src/data_analyzer.py:132-134 | an absent column reads as `""` |
| Requests.RequestOf | src/data_analyzer.py:129-143 | the cleaned record of one row carries its row number; its fields are stated by `RequestOfFields` and `ChoiceTruthyIff` |
| Requests.SelectRequests | src/data_analyzer.py:121-147 | what `get_requests_for_llm` returns: `[]` for at most one row, and only records with a truthy `choice`; the rest of its shape is stated by `SelectRequestsShape`, `SelectRequestsRecords` and `SelectRequestsComplete` |
| Requests.Candidates | src/data_analyzer.py:128-143 | there is one cleaned record per data row, in row order, and the record of row `j + 2` is numbered `j + 2` |
| Requests.Selected | src/data_analyzer.py:146-147 | the kept records are candidates with a truthy `choice`, taken in strictly increasing row order |
| Requests.SelectStep | src/data_analyzer.py:146-147 | one more row appends its record exactly when its `choice` is truthy |
| Requests.SelectRow | src/data_analyzer.py:128-147 | scanning row number `i` appends that row's cleaned record to the selection exactly when its `choice` is truthy |
| Requests.SelectedComplete | src/data_analyzer.py:146-147 | no record with a truthy `choice` is dropped |
| Requests.SelectRequestsShape | src/data_analyzer.py:123-147 | `[]` for at most one row; otherwise at most `len(data) - 1` records, each with a truthy `choice` and a row number in `2..len(data)`, in strictly increasing row order |
| Requests.SelectRequestsRecords | src/data_analyzer.py:128-147 | every returned record is the cleaned record of the row its `row_number` names |
| Requests.SelectRequestsComplete | src/data_analyzer.py:128-147 | every data row whose cleaned `choice` is truthy has its record returned |
| Requests.RequestOfFields | src/data_analyzer.py:129-143 | no field is `None`; text fields are stripped; absent columns give `""`; present ones are cleaned; `id` is `str(row_number)` (which parses back to the row number) when the first cell is absent or falsy, and the cleaned first cell otherwise, so a whitespace-only id becomes `""` |
| Requests.ChoiceTruthyIff | src/data_analyzer.py:134-146 | a record is kept exactly when its row has a fourth cell that is a non-zero integer or text with a non-whitespace character |
| Cells.TrimStart | src/data_analyzer.py:68 | removes exactly the leading whitespace |
| Cells.TrimEnd | src/data_analyzer.py:68 | removes exactly the trailing whitespace |
| Cells.Strip | src/data_analyzer.py:68 | the result has no leading or trailing whitespace and is the slice of the input that remains once the whitespace at both ends is removed |
| Cells.StripStripped | src/data_analyzer.py:141 | stripping a string without outer whitespace leaves it unchanged |
| Cells.StripIdempotent | src/data_analyzer.py:141 | stripping twice is stripping once |
| Cells.NatToDecimal | src/data_analyzer.py:70 | `str(n)` for `n >= 0` is a non-empty run of digits without a leading zero (except for "0") |
| Cells.IntToString | src/data_analyzer.py:131 | `str(n)` is well-formed integer text without whitespace, and begins with `-` exactly when `n < 0` |
| Cells.DecimalRoundTrip | src/data_analyzer.py:131 | reading back the digits of `str(n)` gives `n` |
| Cells.IntToStringRoundTrip | src/data_analyzer.py:131 | the text `str(i)` gives for a row number parses back to that number; the lemma holds for every integer, the conversion's digit limit aside (see below) |
| Cells.CategoryText | src/data_analyzer.py:66-70 | the cleaned category is stripped; it is empty exactly for falsy cells and whitespace-only text; an integer gives its decimal text, which parses back to the integer |
| Cells.Clean | src/data_analyzer.py:138-143 | text is stripped, `None` becomes `""`, integers pass through unchanged; the result is never `None`, and a truthy result comes from a truthy cell |
| Cells.CleanIdempotent | src/data_analyzer.py:138-143 | cleaning a cleaned value changes nothing |
| Scenarios.ScenarioA | src/data_analyzer.py:41-107 | two `Billing` rows and one row with an empty category give two requests, `category_counts` of `{"Billing": 2}`, `Billing` most common with count 2, and row 4 skipped |
| Scenarios.ScenarioC | src/data_analyzer.py:91-96 | `Billing`, `Support`, `Support`, `Billing` tie at 2; `Billing` was seen first and is the most common category |

## Left out

- Console output. The `print` calls at lines 79 and 149-155 are not modelled. `Analyze`
  returns the skipped row numbers instead of printing their count.
- The per-record LLM enrichment. The `llm_processor` module is not part of this model. Its
  substance is remote calls, timeouts and concurrency.
- `google_sheets_llm_analyzer_package/console_printer.py`. It is presentation only; its one
  computation is a float percentage.
- `config.py`. It loads environment settings and credentials. Only the 1..26 bound of
  `category_column` is kept, as the subtype `Column`.
- Cell values other than text, integers and `None`. This excludes floats, booleans and
  arbitrary objects, and the exact text `str()` gives for them.
- A `category_column` of 0 or less is excluded by `Column`. With 0, Python would
  silently read the last cell through `row[-1]`.
- Text is modelled by code point. The whitespace set is the one `str.isspace()` uses. Strings are modelled as `seq<char>`, with no encoding.
- The Python `dict` returned as `category_counts` is modelled as a list of `(key, count)`
  entries in insertion order. That is the order `dict(Counter(...))` preserves.
- Cells.CategoryText: does not model Python's limit on integer-to-text conversion. In current
  Python versions, `str()` of an integer with more than 4300 digits raises `ValueError`, so an
  integer category cell of 10^4300 or more makes `analyze` raise at line 70. The model
  returns that cell's digits as the category instead. `Cells.IntToString` likewise has no
  such limit.
- Tables and results are values. `raw_data=data` at lines 58, 88 and 106 stores the caller's
  list object itself, so the result aliases the input and sees later changes to it. The model
  keeps an equal value and does not capture that identity or aliasing.
- The records `get_requests_for_llm` returns are modelled as a `Request` datatype with the five
  keys as fields, rather than as dictionaries.
