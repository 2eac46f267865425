/** The records `DataAnalyzer.get_requests_for_llm` prepares for the language model, stated
    as functions of the table, with the properties of the selection proved about them. */
module Requests {
  import opened Cells

  /** The keys of the `request_data` dictionary. */
  datatype Key = RowNumber | Id | Date | Category | Choice

  /** The keys in the order the dictionary is built, which is the order they are cleaned in. */
  const FieldKeys: seq<Key> := [RowNumber, Id, Date, Category, Choice]

  /** The position of a key in `FieldKeys`. */
  function KeyIndex(k: Key): (i: nat)
    ensures i < |FieldKeys| && FieldKeys[i] == k
  {
    match k
    case RowNumber => 0
    case Id => 1
    case Date => 2
    case Category => 3
    case Choice => 4
  }

  /** Every key occurs once in `FieldKeys`, so the cleaning loop visits each key once. */
  lemma FieldKeysDistinct()
    ensures forall i, j :: 0 <= i < |FieldKeys| && 0 <= j < |FieldKeys| && i != j ==> FieldKeys[i] != FieldKeys[j]
  {
    forall i, j | 0 <= i < |FieldKeys| && 0 <= j < |FieldKeys| && i != j
      ensures FieldKeys[i] != FieldKeys[j]
    {
      assert KeyIndex(FieldKeys[i]) == i && KeyIndex(FieldKeys[j]) == j;
    }
  }

  /** One prepared request: its row number and its four cleaned fields. A field that held a
      number keeps it; every other field is text. */
  datatype Request = Request(rowNumber: nat, id: Cell, date: Cell, category: Cell, choice: Cell)

  /** `row[k] if len(row) > k else ""`. */
  function CellAt(row: Row, k: nat): (c: Cell)
    ensures |row| <= k ==> c == Str("")
  {
    if |row| > k then row[k] else Str("")
  }

  /** The `request_data` dictionary as first built from row number `rowNumber`, before its
      values are cleaned: the id falls back to `str(rowNumber)` when the first cell is absent
      or falsy. */
  function RawFields(row: Row, rowNumber: nat): (m: map<Key, Cell>)
    ensures forall k :: k in FieldKeys ==> k in m
  {
    map[
      RowNumber := Int(rowNumber),
      Id := if |row| > 0 && Truthy(row[0]) then row[0] else Str(IntToString(rowNumber)),
      Date := CellAt(row, 1),
      Category := CellAt(row, 2),
      Choice := CellAt(row, 3)]
  }

  /** The record prepared from row number `rowNumber`: every field of `RawFields` cleaned. */
  function RequestOf(row: Row, rowNumber: nat): (r: Request)
    ensures r.rowNumber == rowNumber
  {
    var raw := RawFields(row, rowNumber);
    Request(rowNumber, Clean(raw[Id]), Clean(raw[Date]), Clean(raw[Category]), Clean(raw[Choice]))
  }

  /** The record assembled from a cleaned copy of `RawFields(row, rowNumber)` is `RequestOf`. */
  lemma CleanedRecord(row: Row, rowNumber: nat, cleaned: map<Key, Cell>)
    requires forall k :: k in RawFields(row, rowNumber) ==>
      k in cleaned && cleaned[k] == Clean(RawFields(row, rowNumber)[k])
    ensures Request(rowNumber, cleaned[Id], cleaned[Date], cleaned[Category], cleaned[Choice]) == RequestOf(row, rowNumber)
  {
  }

  /** Entry `j` of the list is the record of row number `j + 2`. */
  predicate Numbered(cands: seq<Request>) {
    forall j :: 0 <= j < |cands| ==> cands[j].rowNumber == j + 2
  }

  /** The record of every data row, in row order, before the filter on `choice`. The first two
      ensures spell out the comprehension pointwise so that callers need not unfold it. */
  function Candidates(data: Table): (cands: seq<Request>)
    ensures |cands| == if |data| <= 1 then 0 else |data| - 1
    ensures forall j :: 0 <= j < |cands| ==> cands[j] == RequestOf(data[j + 1], j + 2)
    ensures Numbered(cands)
  {
    if |data| <= 1 then [] else seq(|data| - 1, j requires 0 <= j < |data| - 1 => RequestOf(data[j + 1], j + 2))
  }

  /** The candidates whose cleaned `choice` is truthy, in row order. */
  function Selected(cands: seq<Request>): (rs: seq<Request>)
    requires Numbered(cands)
    ensures |rs| <= |cands|
    ensures forall k :: 0 <= k < |rs| ==>
      && 2 <= rs[k].rowNumber <= |cands| + 1
      && rs[k] == cands[rs[k].rowNumber - 2]
      && Truthy(rs[k].choice)
    ensures forall i, j :: 0 <= i < j < |rs| ==> rs[i].rowNumber < rs[j].rowNumber
  {
    if cands == [] then []
    else
      var last := cands[|cands| - 1];
      Selected(cands[..|cands| - 1]) + (if Truthy(last.choice) then [last] else [])
  }

  /** What `get_requests_for_llm(data)` returns. */
  function SelectRequests(data: Table): (rs: seq<Request>)
    ensures |data| <= 1 ==> rs == []
    ensures forall k :: 0 <= k < |rs| ==> Truthy(rs[k].choice)
  {
    Selected(Candidates(data))
  }

  /** Selecting from one more candidate appends it exactly when its `choice` is truthy. */
  lemma SelectStep(cands: seq<Request>, j: nat)
    requires Numbered(cands) && j < |cands|
    ensures Selected(cands[..j + 1]) == Selected(cands[..j]) + (if Truthy(cands[j].choice) then [cands[j]] else [])
  {
    assert cands[..j + 1][..j] == cands[..j];
  }

  /** Scanning row number `i` appends its record to the selection exactly when its `choice` is
      truthy. */
  lemma SelectRow(data: Table, i: nat)
    requires 2 <= i <= |data|
    ensures var cands := Candidates(data);
      Selected(cands[..i - 1]) ==
        Selected(cands[..i - 2]) + (if Truthy(RequestOf(data[i - 1], i).choice) then [RequestOf(data[i - 1], i)] else [])
  {
    var cands := Candidates(data);
    assert cands[i - 2] == RequestOf(data[i - 1], i);
    SelectStep(cands, i - 2);
  }

  /** No candidate with a truthy `choice` is dropped. */
  lemma {:induction false} SelectedComplete(cands: seq<Request>)
    requires Numbered(cands)
    ensures forall j :: 0 <= j < |cands| && Truthy(cands[j].choice) ==> cands[j] in Selected(cands)
  {
    if cands != [] {
      var p := cands[..|cands| - 1];
      SelectedComplete(p);
      forall j | 0 <= j < |p| && Truthy(cands[j].choice)
        ensures cands[j] in Selected(cands)
      {
        assert cands[j] == p[j];
      }
    }
  }

  /** The shape of `get_requests_for_llm(data)`: empty for a table of at most one row;
      otherwise at most one record per data row, with a truthy `choice`, in strictly increasing
      row order. */
  lemma SelectRequestsShape(data: Table)
    ensures var rs := SelectRequests(data);
      && (|data| <= 1 ==> rs == [])
      && (|data| >= 1 ==> |rs| <= |data| - 1)
      && (forall k :: 0 <= k < |rs| ==> 2 <= rs[k].rowNumber <= |data| && Truthy(rs[k].choice))
      && (forall i, j :: 0 <= i < j < |rs| ==> rs[i].rowNumber < rs[j].rowNumber)
  {
  }

  /** Every returned record is the cleaned record of the row it is numbered by. */
  lemma SelectRequestsRecords(data: Table)
    ensures var rs := SelectRequests(data);
      forall k :: 0 <= k < |rs| ==>
        && 2 <= rs[k].rowNumber <= |data|
        && rs[k] == RequestOf(data[rs[k].rowNumber - 1], rs[k].rowNumber)
  {
    var cands := Candidates(data);
    var rs := Selected(cands);
    forall k | 0 <= k < |rs|
      ensures 2 <= rs[k].rowNumber <= |data|
      ensures rs[k] == RequestOf(data[rs[k].rowNumber - 1], rs[k].rowNumber)
    {
      var j := rs[k].rowNumber - 2;
      assert rs[k] == cands[j];
    }
  }

  /** Every data row whose cleaned `choice` is truthy has its record returned. */
  lemma SelectRequestsComplete(data: Table)
    ensures forall i :: 1 <= i < |data| && Truthy(RequestOf(data[i], i + 1).choice) ==>
      RequestOf(data[i], i + 1) in SelectRequests(data)
  {
    var cands := Candidates(data);
    SelectedComplete(cands);
    forall i | 1 <= i < |data| && Truthy(RequestOf(data[i], i + 1).choice)
      ensures RequestOf(data[i], i + 1) in SelectRequests(data)
    {
      assert cands[i - 1] == RequestOf(data[i], i + 1);
    }
  }

  /** The fields of a prepared record: never `None`; text stripped; an absent column or a `None`
      cell gives `""`; numbers kept; the id is `str(rowNumber)` when the first cell is absent or
      falsy and the cleaned first cell otherwise, so a whitespace-only id becomes `""`. */
  lemma RequestOfFields(row: Row, rowNumber: nat)
    ensures var r := RequestOf(row, rowNumber);
      && r.rowNumber == rowNumber
      && r.id != Null && r.date != Null && r.category != Null && r.choice != Null
      && (r.id.Str? ==> Stripped(r.id.text))
      && (r.date.Str? ==> Stripped(r.date.text))
      && (r.category.Str? ==> Stripped(r.category.text))
      && (r.choice.Str? ==> Stripped(r.choice.text))
      && (|row| <= 1 ==> r.date == Str(""))
      && (|row| <= 2 ==> r.category == Str(""))
      && (|row| <= 3 ==> r.choice == Str(""))
      && (|row| > 1 ==> r.date == Clean(row[1]))
      && (|row| > 2 ==> r.category == Clean(row[2]))
      && (|row| > 3 ==> r.choice == Clean(row[3]))
      && ((|row| == 0 || !Truthy(row[0])) ==>
            r.id == Str(IntToString(rowNumber)) && ParseInt(r.id.text) == rowNumber)
      && (|row| > 0 && Truthy(row[0]) ==> r.id == Clean(row[0]))
      && ((|row| > 0 && row[0].Str? && row[0].text != "" &&
           forall k :: 0 <= k < |row[0].text| ==> IsSpace(row[0].text[k])) ==> r.id == Str(""))
  {
    var r := RequestOf(row, rowNumber);
    IntToStringRoundTrip(rowNumber);
    StripStripped(IntToString(rowNumber));
    if |row| > 0 && row[0].Str? {
      StripEmptyIff(row[0].text);
    }
  }

  /** A record is kept exactly when its description cell exists and is a non-zero number or
      text with a non-whitespace character. */
  lemma ChoiceTruthyIff(row: Row, rowNumber: nat)
    ensures Truthy(RequestOf(row, rowNumber).choice) <==>
      && |row| > 3
      && ((row[3].Int? && row[3].value != 0) ||
          (row[3].Str? && exists k :: 0 <= k < |row[3].text| && !IsSpace(row[3].text[k])))
  {
    if |row| > 3 && row[3].Str? {
      StripEmptyIff(row[3].text);
    }
  }
}
