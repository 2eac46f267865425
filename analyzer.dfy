/** `DataAnalyzer`: the two scans over the table, written as the loops they are and proved to
    compute `Statistics.Analysis` and `Requests.SelectRequests`. */
module Analyzer {
  import opened Cells
  import opened Statistics
  import opened Requests

  /** The cleaning loop of `get_requests_for_llm`: visits the keys in insertion order and
      replaces each text value by its stripped form and each `None` by `""`, leaving every
      other value as it is. */
  method CleanRequestData(raw: map<Key, Cell>) returns (requestData: map<Key, Cell>)
    requires forall k :: k in FieldKeys ==> k in raw
    ensures requestData.Keys == raw.Keys
    ensures forall k :: k in raw ==> requestData[k] == Clean(raw[k])
  {
    requestData := raw;
    FieldKeysDistinct();
    for j := 0 to |FieldKeys|
      invariant requestData.Keys == raw.Keys
      invariant forall i :: 0 <= i < j ==> requestData[FieldKeys[i]] == Clean(raw[FieldKeys[i]])
      invariant forall i :: j <= i < |FieldKeys| ==> requestData[FieldKeys[i]] == raw[FieldKeys[i]]
    {
      var key := FieldKeys[j];
      var value := requestData[key];
      if value.Str? {
        requestData := requestData[key := Str(Strip(value.text))];
      } else if value.Null? {
        requestData := requestData[key := Str("")];
      }
      assert requestData[key] == Clean(raw[key]);
    }
    forall k | k in raw
      ensures requestData[k] == Clean(raw[k])
    {
      assert requestData[FieldKeys[KeyIndex(k)]] == Clean(raw[FieldKeys[KeyIndex(k)]]);
    }
  }

  class DataAnalyzer {
    /** The 1-based column that holds the category. */
    const categoryColumn: Column

    /** `DataAnalyzer(category_column=3)`: the category sits in the third column unless the
        caller says otherwise. */
    constructor (categoryColumn: Column := 3)
      ensures this.categoryColumn == categoryColumn
    {
      this.categoryColumn := categoryColumn;
    }

    /** `analyze(data)`: scans the data rows, collecting the non-empty categories and the
        numbers of the skipped rows, then counts the categories. The skipped rows, which the
        source only reports on the console, are returned. */
    method Analyze(data: Table) returns (result: AnalysisResult, skipped: seq<nat>)
      ensures result == Analysis(data, categoryColumn)
      ensures skipped == SkippedRows(RowCategories(data, categoryColumn))
    {
      if |data| <= 1 {
        return EmptyResult(data), [];
      }
      ghost var cs := RowCategories(data, categoryColumn);
      var categories: seq<string> := [];
      skipped := [];
      var i := 2;
      while i <= |data|
        invariant 2 <= i <= |data| + 1
        invariant categories == Categories(cs[..i - 2])
        invariant skipped == SkippedRows(cs[..i - 2])
      {
        var row := data[i - 1];
        if |row| >= categoryColumn {
          var category := CategoryText(row[categoryColumn - 1]);
          if category != "" {
            categories := categories + [category];
          } else {
            skipped := skipped + [i];
          }
        } else {
          skipped := skipped + [i];
        }
        assert cs[i - 2] == CategoryOf(data[i - 1], categoryColumn);
        ScanStep(cs, i - 2);
        i := i + 1;
      }
      assert cs[..|data| - 1] == cs;
      if categories == [] {
        return EmptyResult(data), skipped;
      }
      result := Report(data, categories);
    }

    /** `get_requests_for_llm(data)`: builds the `request_data` dictionary of every data row,
        cleans its values in place key by key, and keeps the record when its `choice` is
        truthy. */
    method GetRequestsForLlm(data: Table) returns (requests: seq<Request>)
      ensures requests == SelectRequests(data)
    {
      requests := [];
      if |data| <= 1 {
        return;
      }
      ghost var cands := Candidates(data);
      var i := 2;
      while i <= |data|
        invariant 2 <= i <= |data| + 1
        invariant requests == Selected(cands[..i - 2])
      {
        var row := data[i - 1];
        var requestData := CleanRequestData(RawFields(row, i));
        var record := Request(i, requestData[Id], requestData[Date], requestData[Category], requestData[Choice]);
        CleanedRecord(row, i, requestData);
        SelectRow(data, i);
        if Truthy(record.choice) {
          requests := requests + [record];
        }
        i := i + 1;
      }
      assert cands[..|data| - 1] == cands;
    }
  }
}
