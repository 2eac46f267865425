/** Cell values of a fetched sheet and the cleaning rules the analyzer applies to them:
    Python truthiness, `str.strip()`, `str(int)` and the two cleaning policies
    (category cells and request fields). */
module Cells {

  /** A cell of the fetched table: text, an integer, or Python's `None`. */
  datatype Cell = Str(text: string) | Int(value: int) | Null

  /** A row of the fetched sheet; row 1 is the header, data rows are numbered from 2. */
  type Row = seq<Cell>
  type Table = seq<Row>

  /** Python truthiness of a cell value: non-empty text, non-zero integer, never `None`. */
  predicate Truthy(c: Cell) {
    match c
    case Str(s) => s != ""
    case Int(n) => n != 0
    case Null => false
  }

  /** The characters for which Python's `str.isspace()` holds; `str.strip()` removes them. */
  predicate IsSpace(ch: char) {
    || ch == ' '
    || '\t' <= ch <= '\r'
    || '\U{1c}' <= ch <= '\U{1f}'
    || ch == '\U{85}' || ch == '\U{a0}' || ch == '\U{1680}'
    || '\U{2000}' <= ch <= '\U{200a}'
    || ch == '\U{2028}' || ch == '\U{2029}' || ch == '\U{202f}' || ch == '\U{205f}'
    || ch == '\U{3000}'
  }

  /** Text that neither starts nor ends with whitespace. */
  predicate Stripped(s: string) {
    s == [] || (!IsSpace(s[0]) && !IsSpace(s[|s| - 1]))
  }

  /** `s` with its leading whitespace removed. */
  function TrimStart(s: string): (r: string)
    ensures |r| <= |s| && r == s[|s| - |r|..]
    ensures forall k :: 0 <= k < |s| - |r| ==> IsSpace(s[k])
    ensures r == [] || !IsSpace(r[0])
  {
    if s != [] && IsSpace(s[0]) then TrimStart(s[1..]) else s
  }

  /** `s` with its trailing whitespace removed. */
  function TrimEnd(s: string): (r: string)
    ensures |r| <= |s| && r == s[..|r|]
    ensures forall k :: |r| <= k < |s| ==> IsSpace(s[k])
    ensures r == [] || !IsSpace(r[|r| - 1])
  {
    if s != [] && IsSpace(s[|s| - 1]) then TrimEnd(s[..|s| - 1]) else s
  }

  /** The number of whitespace characters `str.strip()` removes at the front of `s`. */
  function LeadingSpaces(s: string): nat {
    |s| - |TrimStart(s)|
  }

  /** Python's `str.strip()`: the slice of `s` between its leading and its trailing whitespace. */
  function Strip(s: string): (r: string)
    ensures Stripped(r)
    ensures LeadingSpaces(s) + |r| <= |s| && r == s[LeadingSpaces(s)..LeadingSpaces(s) + |r|]
    ensures forall k :: 0 <= k < LeadingSpaces(s) ==> IsSpace(s[k])
    ensures forall k :: LeadingSpaces(s) + |r| <= k < |s| ==> IsSpace(s[k])
  {
    var t := TrimStart(s);
    var r := TrimEnd(t);
    assert t == [] ==> r == [];
    assert r != [] ==> r[0] == t[0];
    r
  }

  /** Stripping removes nothing from text that is already stripped. */
  lemma StripStripped(s: string)
    requires Stripped(s)
    ensures Strip(s) == s
  {
    if s != [] {
      assert TrimStart(s) == s;
      assert TrimEnd(s) == s;
    }
  }

  /** `str.strip()` is idempotent. */
  lemma StripIdempotent(s: string)
    ensures Strip(Strip(s)) == Strip(s)
  {
    StripStripped(Strip(s));
  }

  /** Stripping yields the empty text exactly when every character is whitespace. */
  lemma StripEmptyIff(s: string)
    ensures Strip(s) == "" <==> forall k :: 0 <= k < |s| ==> IsSpace(s[k])
  {
  }

  /** The decimal digit characters. */
  const Digits: string := "0123456789"

  predicate IsDigit(ch: char) {
    '0' <= ch <= '9'
  }

  function DigitValue(ch: char): nat
    requires IsDigit(ch)
  {
    ch as int - '0' as int
  }

  /** Text of the shape `str(int)` produces: an optional minus sign followed by digits. */
  predicate IsIntText(s: string) {
    && s != []
    && (s[0] == '-' ==> |s| > 1)
    && forall k :: (if s[0] == '-' then 1 else 0) <= k < |s| ==> IsDigit(s[k])
  }

  /** Decimal digits of `n`, most significant first, without leading zeros. */
  function NatToDecimal(n: nat): (r: string)
    ensures r != [] && forall k :: 0 <= k < |r| ==> IsDigit(r[k])
    ensures |r| > 1 ==> r[0] != '0'
  {
    if n < 10 then [Digits[n]] else NatToDecimal(n / 10) + [Digits[n % 10]]
  }

  /** Python's `str(n)` for an integer: an optional minus sign, then the decimal digits. */
  function IntToString(n: int): (r: string)
    ensures IsIntText(r) && Stripped(r)
    ensures n < 0 <==> r[0] == '-'
  {
    if n < 0 then "-" + NatToDecimal(-n) else NatToDecimal(n)
  }

  /** The value of a string of decimal digits. */
  function DecimalValue(s: string): nat
    requires forall k :: 0 <= k < |s| ==> IsDigit(s[k])
  {
    if s == [] then 0 else DecimalValue(s[..|s| - 1]) * 10 + DigitValue(s[|s| - 1])
  }

  /** Reads back what `IntToString` writes (Python's `int(text)` on such text). */
  function ParseInt(s: string): int
    requires IsIntText(s)
  {
    if s[0] == '-' then 0 - DecimalValue(s[1..]) else DecimalValue(s)
  }

  lemma {:induction false} DecimalRoundTrip(n: nat)
    ensures DecimalValue(NatToDecimal(n)) == n
  {
    if n >= 10 {
      DecimalRoundTrip(n / 10);
      var s := NatToDecimal(n);
      assert s[..|s| - 1] == NatToDecimal(n / 10);
    }
  }

  /** Reading digits, with or without a minus sign in front. */
  lemma ParseDigits(d: string)
    requires d != [] && forall k :: 0 <= k < |d| ==> IsDigit(d[k])
    ensures IsIntText(d) && ParseInt(d) == DecimalValue(d)
    ensures IsIntText("-" + d) && ParseInt("-" + d) == 0 - DecimalValue(d)
  {
    assert ("-" + d)[1..] == d;
  }

  /** `str(n)` loses nothing: reading it back gives `n`, so distinct integers render differently. */
  lemma IntToStringRoundTrip(n: int)
    ensures ParseInt(IntToString(n)) == n
  {
    var m: nat := if n < 0 then -n else n;
    ParseDigits(NatToDecimal(m));
    DecimalRoundTrip(m);
  }

  /** The category policy of `analyze`: a text cell is stripped; any other cell becomes
      `str(cell).strip()` when it is truthy and `""` otherwise. */
  function CategoryText(c: Cell): (r: string)
    ensures Stripped(r)
    ensures r == "" <==> !Truthy(c) || (c.Str? && forall k :: 0 <= k < |c.text| ==> IsSpace(c.text[k]))
    ensures c.Int? && r != "" ==> r == IntToString(c.value) && ParseInt(r) == c.value
  {
    match c
    case Str(s) => StripEmptyIff(s); Strip(s)
    case Int(n) =>
      if n != 0 then
        StripStripped(IntToString(n)); IntToStringRoundTrip(n); Strip(IntToString(n))
      else ""
    case Null => ""
  }

  /** The field policy of `get_requests_for_llm`: text is stripped, `None` becomes `""`,
      and every other value is kept as it is. */
  function Clean(c: Cell): (r: Cell)
    ensures r != Null
    ensures r.Str? ==> Stripped(r.text)
    ensures c.Int? ==> r == c
    ensures c.Str? ==> r.Str? && r.text == Strip(c.text)
    ensures c.Null? ==> r == Str("")
    ensures Truthy(r) ==> Truthy(c)
  {
    match c
    case Str(s) => Str(Strip(s))
    case Int(_) => c
    case Null => Str("")
  }

  /** Cleaning a field twice changes nothing more than cleaning it once. */
  lemma CleanIdempotent(c: Cell)
    ensures Clean(Clean(c)) == Clean(c)
  {
    if c.Str? {
      StripIdempotent(c.text);
    }
  }
}
