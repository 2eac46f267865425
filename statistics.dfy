/** `AnalysisResult` and what `DataAnalyzer.analyze` computes, stated as functions of the
    table and the category column, with the properties of the result proved about them. */
module Statistics {
  import opened Cells
  import opened Counter

  /** `category_column`: 1-based; the configuration accepts only 1..26. */
  type Column = c: int | 1 <= c <= 26 witness 3

  /** The statistics `analyze` returns. `categoryCounts` is a dictionary that keeps
      insertion order, so it is an association list with distinct keys. */
  datatype AnalysisResult = AnalysisResult(
    totalRequests: nat,
    totalRows: nat,
    categoryCounts: seq<Entry>,
    mostCommonCategory: string,
    mostCommonCount: nat,
    rawData: Table)
  {
    /** `has_data`: some data row contributed a category. */
    predicate HasData() {
      totalRequests > 0
    }

    /** `categories_sorted`: the items ordered by descending count, a permutation of
        `categoryCounts` in which items with equal counts keep their first-seen order. */
    function CategoriesSorted(): (r: seq<Entry>)
      ensures ByCountDesc(r)
      ensures multiset(r) == multiset(categoryCounts)
      ensures forall c: nat :: WithCount(r, c) == WithCount(categoryCounts, c)
    {
      var r := SortByCount(categoryCounts);
      assert forall c: nat :: WithCount(r, c) == WithCount(categoryCounts, c) by {
        forall c: nat
          ensures WithCount(r, c) == WithCount(categoryCounts, c)
        {
          SortByCountStable(categoryCounts, c);
        }
      }
      r
    }
  }

  /** The category `analyze` reads from a row: the cleaned cell of column `col`, or `""`
      when the row has fewer than `col` cells. */
  function CategoryOf(row: Row, col: Column): (c: string)
    ensures Stripped(c)
    ensures c != "" ==> |row| >= col && Truthy(row[col - 1])
  {
    if |row| >= col then CategoryText(row[col - 1]) else ""
  }

  /** The cleaned category of every data row, in row order: entry `j` belongs to row `j + 2`.
      The ensures spell out the comprehension pointwise so that callers need not unfold it. */
  function RowCategories(data: Table, col: Column): (cs: seq<string>)
    ensures |cs| == if |data| <= 1 then 0 else |data| - 1
    ensures forall j :: 0 <= j < |cs| ==> cs[j] == CategoryOf(data[j + 1], col)
  {
    if |data| <= 1 then [] else seq(|data| - 1, j requires 0 <= j < |data| - 1 => CategoryOf(data[j + 1], col))
  }

  /** The list `categories` after scanning rows with cleaned categories `cs`: the non-empty
      ones, in row order. */
  function Categories(cs: seq<string>): (cats: seq<string>)
    ensures |cats| <= |cs|
    ensures forall k :: 0 <= k < |cats| ==> cats[k] != "" && cats[k] in cs
  {
    if cs == [] then []
    else
      var c := cs[|cs| - 1];
      Categories(cs[..|cs| - 1]) + (if c != "" then [c] else [])
  }

  /** The list `skipped_rows` after scanning rows with cleaned categories `cs`: the numbers
      of the rows whose category is empty, in increasing order. */
  function SkippedRows(cs: seq<string>): (rows: seq<nat>)
    ensures forall k :: 0 <= k < |rows| ==> 2 <= rows[k] <= |cs| + 1 && cs[rows[k] - 2] == ""
    ensures forall i, j :: 0 <= i < j < |rows| ==> rows[i] < rows[j]
  {
    if cs == [] then []
    else SkippedRows(cs[..|cs| - 1]) + (if cs[|cs| - 1] == "" then [|cs| + 1] else [])
  }

  /** The result `analyze` gives when there is nothing to count. */
  function EmptyResult(data: Table): (r: AnalysisResult)
    ensures !r.HasData() && r.totalRows == |data| && r.rawData == data
  {
    AnalysisResult(0, |data|, [], "", 0, data)
  }

  /** The result `analyze` builds from the non-empty list of collected categories `cats`:
      `Counter(cats)`, its `most_common(1)` entry and the totals. */
  function Report(data: Table, cats: seq<string>): (r: AnalysisResult)
    requires cats != []
    ensures r.totalRows == |data| && r.rawData == data && r.totalRequests == |cats|
  {
    var counts := Tally(cats);
    assert counts != [] by {
      TallyKeys(cats);
      DistinctFacts(cats);
      assert cats[0] in Distinct(cats);
    }
    var k := MostCommonIndex(counts);
    AnalysisResult(|cats|, |data|, counts, counts[k].key, counts[k].count, data)
  }

  /** What `analyze(data)` returns with category column `col`. */
  function Analysis(data: Table, col: Column): (r: AnalysisResult)
    ensures r.totalRows == |data| && r.rawData == data
    ensures |data| <= 1 ==> r == EmptyResult(data)
    ensures Categories(RowCategories(data, col)) == [] ==> r == EmptyResult(data)
    ensures r.HasData() <==> Categories(RowCategories(data, col)) != []
  {
    var cats := Categories(RowCategories(data, col));
    if |data| <= 1 || cats == [] then EmptyResult(data) else Report(data, cats)
  }

  /** One more scanned row extends `categories` or `skipped_rows` by that row alone. */
  lemma ScanStep(cs: seq<string>, j: nat)
    requires j < |cs|
    ensures Categories(cs[..j + 1]) == Categories(cs[..j]) + (if cs[j] != "" then [cs[j]] else [])
    ensures SkippedRows(cs[..j + 1]) == SkippedRows(cs[..j]) + (if cs[j] == "" then [j + 2] else [])
  {
    assert cs[..j + 1][..j] == cs[..j];
  }

  /** When every row yields a category, all of them are collected and no row is skipped. */
  lemma {:induction false} AllNamed(cs: seq<string>)
    requires forall j :: 0 <= j < |cs| ==> cs[j] != ""
    ensures Categories(cs) == cs
    ensures SkippedRows(cs) == []
  {
    if cs != [] {
      var p := cs[..|cs| - 1];
      AllNamed(p);
      assert cs == p + [cs[|cs| - 1]];
    }
  }

  /** Every scanned row lands either among the categories or among the skipped rows. */
  lemma {:induction false} RowsPartition(cs: seq<string>)
    ensures |Categories(cs)| + |SkippedRows(cs)| == |cs|
    ensures forall j :: 0 <= j < |cs| ==> (j + 2 in SkippedRows(cs) <==> cs[j] == "")
  {
    if cs != [] {
      var p := cs[..|cs| - 1];
      RowsPartition(p);
      var s := SkippedRows(cs);
      assert |cs| + 1 !in SkippedRows(p);
      forall j | 0 <= j < |cs|
        ensures j + 2 in s <==> cs[j] == ""
      {
        if j < |p| {
          assert j + 2 in s <==> j + 2 in SkippedRows(p);
          assert cs[j] == p[j];
        }
      }
    }
  }

  /** No category is collected exactly when every scanned row has an empty category. */
  lemma {:induction false} NoCategoriesIff(cs: seq<string>)
    ensures Categories(cs) == [] <==> forall j :: 0 <= j < |cs| ==> cs[j] == ""
  {
    if cs != [] {
      var p := cs[..|cs| - 1];
      NoCategoriesIff(p);
      if Categories(cs) == [] {
        assert Categories(p) == [];
        assert forall j :: 0 <= j < |p| ==> cs[j] == p[j];
      }
    }
  }

  /** Accounting of `analyze`: every data row is counted or skipped, and the counts add up
      to `total_requests`. */
  lemma AnalysisAccounting(data: Table, col: Column)
    requires |data| >= 1
    ensures var r := Analysis(data, col);
      && r.totalRequests + |SkippedRows(RowCategories(data, col))| == |data| - 1
      && Total(r.categoryCounts) == r.totalRequests
      && r.totalRequests < r.totalRows
  {
    var cats := Categories(RowCategories(data, col));
    RowsPartition(RowCategories(data, col));
    if cats != [] {
      TallyTotal(cats);
    }
  }

  /** Every category `analyze` collects is stripped and non-empty. */
  lemma CategoriesStripped(data: Table, col: Column)
    ensures forall c :: c in Categories(RowCategories(data, col)) ==> c != "" && Stripped(c)
  {
    var cs := RowCategories(data, col);
    forall c | c in Categories(cs)
      ensures c != "" && Stripped(c)
    {
      var j :| 0 <= j < |cs| && cs[j] == c;
      assert c == CategoryOf(data[j + 1], col);
    }
  }

  /** The counts `Report` holds: distinct keys taken from `cats` in first-seen order, each
      with its number of occurrences. */
  lemma ReportCounts(data: Table, cats: seq<string>)
    requires cats != []
    ensures var t := Report(data, cats).categoryCounts;
      && DistinctKeys(t)
      && (forall i :: 0 <= i < |t| ==> t[i].key in cats && t[i].count == multiset(cats)[t[i].key] >= 1)
      && (forall c :: c in cats ==> c in Keys(t))
      && (forall i, j :: 0 <= i < j < |t| ==> FirstIndex(cats, t[i].key) < FirstIndex(cats, t[j].key))
  {
    var t := Report(data, cats).categoryCounts;
    assert t == Tally(cats);
    TallyKeys(cats);
    TallyCounts(cats);
    TallyFirstSeen(cats);
    DistinctFacts(cats);
    forall i | 0 <= i < |t|
      ensures multiset(cats)[t[i].key] >= 1
    {
      assert t[i].key in cats;
    }
  }

  /** The keys of `category_counts`: distinct, stripped, non-empty, in the order of their first
      row, each with the number of data rows that carry it. */
  lemma AnalysisCounts(data: Table, col: Column)
    ensures var r := Analysis(data, col);
      var cats := Categories(RowCategories(data, col));
      && DistinctKeys(r.categoryCounts)
      && (forall i :: 0 <= i < |r.categoryCounts| ==>
            && r.categoryCounts[i].key in cats
            && r.categoryCounts[i].key != ""
            && Stripped(r.categoryCounts[i].key)
            && r.categoryCounts[i].count == multiset(cats)[r.categoryCounts[i].key] >= 1)
      && (forall c :: c in cats ==> c in Keys(r.categoryCounts))
      && (forall i, j :: 0 <= i < j < |r.categoryCounts| ==>
            FirstIndex(cats, r.categoryCounts[i].key) < FirstIndex(cats, r.categoryCounts[j].key))
  {
    var cats := Categories(RowCategories(data, col));
    if |data| > 1 && cats != [] {
      assert Analysis(data, col) == Report(data, cats);
      CategoriesStripped(data, col);
      ReportCounts(data, cats);
    }
  }

  /** The `most_common(1)` entry of `Report`: the largest count, carried by a key of the map;
      among keys with that count it is the one that occurs first in `cats`. */
  lemma ReportMostCommon(data: Table, cats: seq<string>)
    requires cats != []
    ensures var r := Report(data, cats);
      && (forall e :: e in r.categoryCounts ==> e.count <= r.mostCommonCount)
      && Entry(r.mostCommonCategory, r.mostCommonCount) in r.categoryCounts
      && r.mostCommonCategory in cats
      && (forall i :: 0 <= i < |r.categoryCounts| ==> r.categoryCounts[i].key in cats)
      && (forall i ::
            (0 <= i < |r.categoryCounts| &&
             r.categoryCounts[i].count == r.mostCommonCount &&
             r.categoryCounts[i].key != r.mostCommonCategory) ==>
              FirstIndex(cats, r.mostCommonCategory) < FirstIndex(cats, r.categoryCounts[i].key))
  {
    var r := Report(data, cats);
    var t := r.categoryCounts;
    assert t == Tally(cats);
    var k := MostCommonIndex(t);
    assert r.mostCommonCategory == t[k].key && r.mostCommonCount == t[k].count;
    TallyFirstSeen(cats);
    assert t[k].key in cats;
    TallyKeys(cats);
    forall i | 0 <= i < |t| && t[i].count == r.mostCommonCount && t[i].key != r.mostCommonCategory
      ensures FirstIndex(cats, r.mostCommonCategory) < FirstIndex(cats, t[i].key)
    {
      assert i != k;
      assert k < i;
    }
  }

  /** `most_common_category` and `most_common_count`: the largest count, carried by a key of
      the map; among keys with that count it is the one whose first row comes first; and
      `""` with `0` when there is no data. */
  lemma AnalysisMostCommon(data: Table, col: Column)
    ensures var r := Analysis(data, col);
      var cats := Categories(RowCategories(data, col));
      && (forall e :: e in r.categoryCounts ==> e.count <= r.mostCommonCount)
      && (r.HasData() ==> Entry(r.mostCommonCategory, r.mostCommonCount) in r.categoryCounts)
      && (r.HasData() ==> r.mostCommonCategory in cats)
      && (forall i :: 0 <= i < |r.categoryCounts| ==> r.categoryCounts[i].key in cats)
      && (r.HasData() ==> forall i ::
            (0 <= i < |r.categoryCounts| &&
             r.categoryCounts[i].count == r.mostCommonCount &&
             r.categoryCounts[i].key != r.mostCommonCategory) ==>
              FirstIndex(cats, r.mostCommonCategory) < FirstIndex(cats, r.categoryCounts[i].key))
      && (!r.HasData() ==> r.mostCommonCategory == "" && r.mostCommonCount == 0)
  {
    var cats := Categories(RowCategories(data, col));
    if |data| > 1 && cats != [] {
      ReportMostCommon(data, cats);
    }
  }

  /** `has_data` holds exactly when some data row carries a non-empty category. */
  lemma HasDataIff(data: Table, col: Column)
    ensures Analysis(data, col).HasData() <==>
      exists i :: 1 <= i < |data| && CategoryOf(data[i], col) != ""
  {
    var cs := RowCategories(data, col);
    NoCategoriesIff(cs);
    if Analysis(data, col).HasData() {
      var j :| 0 <= j < |cs| && cs[j] != "";
      assert CategoryOf(data[j + 1], col) != "";
    } else {
      forall i | 1 <= i < |data|
        ensures CategoryOf(data[i], col) == ""
      {
        assert cs[i - 1] == "";
      }
    }
  }

  /** The first item of `categories_sorted` is the most common category with its count. */
  lemma SortedViewHead(data: Table, col: Column)
    ensures var r := Analysis(data, col);
      r.HasData() ==>
        (r.CategoriesSorted() != [] &&
         r.CategoriesSorted()[0] == Entry(r.mostCommonCategory, r.mostCommonCount))
  {
    var r := Analysis(data, col);
    if r.HasData() {
      SortByCountHead(r.categoryCounts);
    }
  }
}
