/** Concrete tables and what `analyze` makes of them, derived from the general lemmas. */
module Scenarios {
  import opened Cells
  import opened Counter
  import opened Statistics

  /** Two rows in category `Billing` and one row with an empty category cell. */
  const TableA: Table := [
    [Str("id"), Str("date"), Str("cat"), Str("choice")],
    [Int(1), Str("2024-01-01"), Str("Billing"), Str("slow refund")],
    [Int(2), Str("2024-01-02"), Str("Billing"), Str("double charge")],
    [Int(3), Str("2024-01-03"), Str(""), Str("no category")]]

  /** `Billing` and `Support` both occur twice; `Billing` occurs first. */
  const TableC: Table := [
    [Str("id"), Str("date"), Str("cat"), Str("choice")],
    [Int(1), Str("d1"), Str("Billing"), Str("a")],
    [Int(2), Str("d2"), Str("Support"), Str("b")],
    [Int(3), Str("d3"), Str("Support"), Str("c")],
    [Int(4), Str("d4"), Str("Billing"), Str("d")]]

  /** A table whose category cells hold text with no surrounding whitespace yields exactly
      those texts. */
  lemma RowCategoriesOfTexts(data: Table, texts: seq<string>)
    requires |data| == |texts| + 1
    requires forall j :: 0 <= j < |texts| ==>
      |data[j + 1]| >= 3 && data[j + 1][2] == Str(texts[j]) && Stripped(texts[j])
    ensures RowCategories(data, 3) == texts
  {
    forall j | 0 <= j < |texts|
      ensures CategoryOf(data[j + 1], 3) == texts[j]
    {
      StripStripped(texts[j]);
    }
  }

  lemma RowCategoriesA()
    ensures RowCategories(TableA, 3) == ["Billing", "Billing", ""]
  {
    RowCategoriesOfTexts(TableA, ["Billing", "Billing", ""]);
  }

  lemma RowCategoriesC()
    ensures RowCategories(TableC, 3) == ["Billing", "Support", "Support", "Billing"]
  {
    RowCategoriesOfTexts(TableC, ["Billing", "Support", "Support", "Billing"]);
  }

  /** Two named rows followed by an unnamed one: both names are collected and row 4 is
      skipped. */
  lemma ScanNamedNamedEmpty(cs: seq<string>, a: string, b: string)
    requires cs == [a, b, ""] && a != "" && b != ""
    ensures Categories(cs) == [a, b]
    ensures SkippedRows(cs) == [4]
  {
    var p := cs[..2];
    assert p == [a, b];
    AllNamed(p);
    assert cs[..|cs| - 1] == p;
  }

  /** The scan of table A collects `Billing` twice and skips row 4. */
  lemma ScanA()
    ensures Categories(RowCategories(TableA, 3)) == ["Billing", "Billing"]
    ensures SkippedRows(RowCategories(TableA, 3)) == [4]
  {
    RowCategoriesA();
    ScanNamedNamedEmpty(RowCategories(TableA, 3), "Billing", "Billing");
  }

  /** The scan of table C collects every row's category. */
  lemma ScanC()
    ensures Categories(RowCategories(TableC, 3)) == ["Billing", "Support", "Support", "Billing"]
    ensures SkippedRows(RowCategories(TableC, 3)) == []
  {
    RowCategoriesC();
    AllNamed(RowCategories(TableC, 3));
  }

  /** The report on a single category seen twice. */
  lemma ReportOfOneKind(data: Table, cats: seq<string>, only: string)
    requires cats == [only, only]
    ensures Report(data, cats).categoryCounts == [Entry(only, 2)]
    ensures Report(data, cats).mostCommonCategory == only
    ensures Report(data, cats).mostCommonCount == 2
  {
    assert cats[..1] == [only];
    assert Tally([only]) == [Entry(only, 1)] by {
      assert [only][..0] == [];
    }
    assert Keys([Entry(only, 1)]) == [only];
    assert Tally(cats) == [Entry(only, 2)];
  }

  /** The report on two categories seen twice each, `first` before `second`: the tie goes
      to `first`. */
  lemma ReportOfTwoKinds(data: Table, cats: seq<string>, first: string, second: string)
    requires cats == [first, second, second, first] && first != second
    ensures Report(data, cats).mostCommonCategory == first
    ensures Report(data, cats).mostCommonCount == 2
  {
    assert cats[..1] == [first] && cats[..2] == [first, second] && cats[..3] == [first, second, second];
    assert Tally([first]) == [Entry(first, 1)] by {
      assert [first][..0] == [];
    }
    assert Keys([Entry(first, 1)]) == [first];
    assert Tally([first, second]) == [Entry(first, 1), Entry(second, 1)] by {
      assert [first, second][..1] == [first];
    }
    assert Keys([Entry(first, 1), Entry(second, 1)]) == [first, second];
    assert Tally([first, second, second]) == [Entry(first, 1), Entry(second, 2)] by {
      assert [first, second, second][..2] == [first, second];
    }
    assert Keys([Entry(first, 1), Entry(second, 2)]) == [first, second];
    var t := [Entry(first, 2), Entry(second, 2)];
    assert Tally(cats) == t;
    assert MostCommonIndex(t) == 0 by {
      assert t[..1] == [Entry(first, 2)];
    }
  }

  /** Table A: two requests, both `Billing`, counted as `{"Billing": 2}`, which makes it the most
      common category, and row 4 skipped. */
  lemma ScenarioA()
    ensures Analysis(TableA, 3).totalRequests == 2
    ensures Analysis(TableA, 3).mostCommonCategory == "Billing"
    ensures Analysis(TableA, 3).mostCommonCount == 2
    ensures Analysis(TableA, 3).categoryCounts == [Entry("Billing", 2)]
    ensures SkippedRows(RowCategories(TableA, 3)) == [4]
  {
    ScanA();
    ReportOfOneKind(TableA, ["Billing", "Billing"], "Billing");
  }

  /** Table C: `Billing` and `Support` tie at two rows each; `Billing` comes first and wins. */
  lemma ScenarioC()
    ensures Analysis(TableC, 3).mostCommonCategory == "Billing"
    ensures Analysis(TableC, 3).mostCommonCount == 2
  {
    ScanC();
    ReportOfTwoKinds(TableC, ["Billing", "Support", "Support", "Billing"], "Billing", "Support");
  }
}
