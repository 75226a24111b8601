/**
 * `parse_number` of scripts/extract_census_data.py and the regular expression
 * the extractor uses to tell numeric cells from text cells, with what the two
 * together make of a cell.
 */
module NumberParsing {
  import opened Strings

  predicate UnderscorePairAt(u: string, i: int) {
    0 <= i < |u| - 1 && u[i] == '_' && u[i + 1] == '_'
  }

  /** Digits with single underscores between them, as Python's `int()` accepts. */
  predicate IsDigitGroups(u: string) {
    |u| > 0 && IsDigit(u[0]) && IsDigit(u[|u| - 1]) &&
    (forall i :: 0 <= i < |u| ==> IsDigit(u[i]) || u[i] == '_') &&
    forall i | 0 <= i < |u| :: !UnderscorePairAt(u, i)
  }

  /** What `int()` accepts once surrounding whitespace is gone: an optional sign, then digit groups. */
  predicate IsIntLiteral(t: string) {
    |t| > 0 && if t[0] == '+' || t[0] == '-' then IsDigitGroups(t[1..]) else IsDigitGroups(t)
  }

  /** The decimal value of the digits of `u`, underscores skipped. */
  function DigitsValue(u: string): nat
  {
    if |u| == 0 then 0
    else
      var last := u[|u| - 1];
      if IsDigit(last) then 10 * DigitsValue(u[..|u| - 1]) + (last as int - '0' as int)
      else DigitsValue(u[..|u| - 1])
  }

  function IntLiteralValue(t: string): int
    requires IsIntLiteral(t)
  {
    if t[0] == '-' then -(DigitsValue(t[1..]) as int)
    else if t[0] == '+' then DigitsValue(t[1..])
    else DigitsValue(t)
  }

  /** `parse_number`: commas removed, whitespace stripped, `int()`, and 0 whenever `int()` would raise. */
  function ParseNumber(s: string): (n: int)
    ensures n != 0 ==> IsIntLiteral(Strip(RemoveChar(s, ',')))
  {
    if s == "" then 0
    else
      var t := Strip(RemoveChar(s, ','));
      if IsIntLiteral(t) then IntLiteralValue(t) else 0
  }

  /** `re.match(r"^\d+[\.,]?\d*$", cell.replace(',', '').strip())` */
  predicate IsNumericCell(cell: string) {
    var v := Strip(RemoveChar(cell, ','));
    var d := LeadingCount(v, IsDigit);
    d > 0 && (d == |v| || ((v[d] == '.' || v[d] == ',') && forall i :: d < i < |v| ==> IsDigit(v[i])))
  }

  // ---------------------------------------------------------------------
  // What a numeric cell parses to
  // ---------------------------------------------------------------------


  /** A numeric cell, once commas and surrounding whitespace are gone, has only digits and one separator. */
  lemma NumericCellChars(cell: string, x: char)
    requires IsNumericCell(cell)
    requires x in Strip(RemoveChar(cell, ','))
    ensures IsDigit(x) || x == '.'
  {
    StripChars(RemoveChar(cell, ','), x);
    RemoveCharChars(cell, ',', x);
  }

  /** Digits only: `int()` accepts them and yields their decimal value. */
  lemma AllDigitsValue(u: string)
    requires |u| > 0 && forall i :: 0 <= i < |u| ==> IsDigit(u[i])
    ensures IsIntLiteral(u) && IntLiteralValue(u) == DigitsValue(u)
  {
  }

  /** A digit run followed by a decimal point is not something `int()` accepts. */
  lemma DecimalNotLiteral(v: string, d: nat)
    requires 0 < d < |v| && IsDigit(v[0]) && v[d] == '.'
    ensures !IsIntLiteral(v)
  {
    assert !IsDigitGroups(v) by {
      assert !IsDigit(v[d]) && v[d] != '_';
    }
  }

  /**
   * Lines 6-12 with 122-124: a numeric cell without a decimal separator parses
   * to the value of its digits, one with a separator ("12.5", "7.") to 0,
   * because `int()` rejects it. Either way the value is not negative.
   */
  lemma NumericCellValue(cell: string)
    requires IsNumericCell(cell)
    ensures var v := Strip(RemoveChar(cell, ','));
      ParseNumber(cell) == if LeadingCount(v, IsDigit) == |v| then DigitsValue(v) else 0
    ensures ParseNumber(cell) >= 0
  {
    var v := Strip(RemoveChar(cell, ','));
    var d := LeadingCount(v, IsDigit);
    assert cell != "" by {
      assert |v| <= |RemoveChar(cell, ',')| <= |cell|;
    }
    if d < |v| {
      assert v[d] in v;
      NumericCellChars(cell, v[d]);
      DecimalNotLiteral(v, d);
    } else {
      AllDigitsValue(v);
    }
  }

  lemma DigitsOnlyCount(v: string)
    requires forall i :: 0 <= i < |v| ==> IsDigit(v[i])
    ensures LeadingCount(v, IsDigit) == |v|
  {
  }

  predicate AllDigits(u: string) {
    forall i :: 0 <= i < |u| ==> IsDigit(u[i])
  }

  /** A cell whose cleaned text is all digits is numeric and parses to their value. */
  lemma IntegerCell(cell: string, v: string)
    requires Strip(RemoveChar(cell, ',')) == v
    requires |v| > 0 && AllDigits(v)
    ensures IsNumericCell(cell) && ParseNumber(cell) == DigitsValue(v)
  {
    DigitsOnlyCount(v);
    NumericCellValue(cell);
  }

  /** A cell of digits only, such as a row index, is numeric and parses to its value. */
  lemma DigitCell(u: string)
    requires |u| > 0 && AllDigits(u)
    ensures IsNumericCell(u) && ParseNumber(u) == DigitsValue(u)
  {
    assert ',' !in u;
    RemoveAbsentChar(u, ',');
    StripOfStripped(u);
    IntegerCell(u, u);
  }

  /** A numeric cell holds no character other than digits, separators and whitespace. */
  lemma NumericCellLacks(cell: string, x: char)
    requires IsNumericCell(cell)
    requires !IsDigit(x) && x != '.' && x != ',' && !IsSpace(x)
    ensures x !in cell
  {
    if x in cell {
      var i :| 0 <= i < |cell| && cell[i] == x;
      RemoveCharKeeps(cell, ',', i);
      var r := RemoveChar(cell, ',');
      var j :| 0 <= j < |r| && r[j] == x;
      StripKeepsNonSpace(r, j);
      NumericCellChars(cell, x);
    }
  }

  lemma StripDigits(v: string)
    requires |v| > 0 && AllDigits(v)
    ensures Strip(v) == v
  {
    StripOfStripped(v);
  }

  lemma CommaDropped(a: string, b: string)
    requires AllDigits(a) && AllDigits(b)
    ensures RemoveChar(a + "," + b, ',') == a + b
  {
    var tail := "," + b;
    assert a + "," + b == a + tail;
    RemoveCharConcat(a, tail, ',');
    assert ',' !in a;
    RemoveAbsentChar(a, ',');
    assert tail[0] == ',' && tail[1..] == b;
    assert ',' !in b;
    RemoveAbsentChar(b, ',');
    assert RemoveChar(tail, ',') == RemoveChar(b, ',');
  }

  /** Commas are thousands separators: digits, a comma and digits read as the digits alone. */
  lemma ThousandsSeparatorIgnored(a: string, b: string)
    requires |a| > 0 && |b| > 0 && AllDigits(a) && AllDigits(b)
    ensures IsNumericCell(a + "," + b) && ParseNumber(a + "," + b) == DigitsValue(a + b)
  {
    CommaDropped(a, b);
    StripDigits(a + b);
    IntegerCell(a + "," + b, a + b);
  }

  /** A cell whose cleaned text is digits, a decimal point and digits is numeric and parses to 0. */
  lemma DecimalCell(cell: string, v: string)
    requires Strip(RemoveChar(cell, ',')) == v
    requires var d := LeadingCount(v, IsDigit);
      0 < d < |v| && v[d] == '.' && forall i :: d < i < |v| ==> IsDigit(v[i])
    ensures IsNumericCell(cell) && ParseNumber(cell) == 0
  {
    NumericCellValue(cell);
  }

  /** The characters of digits, a decimal point and digits. */
  lemma DecimalShape(a: string, b: string)
    requires |a| > 0 && |b| > 0 && AllDigits(a) && AllDigits(b)
    ensures var cell := a + "." + b;
      cell[|a|] == '.' && (forall i :: |a| < i < |cell| ==> IsDigit(cell[i])) &&
      (forall i :: 0 <= i < |cell| ==> cell[i] == '.' || IsDigit(cell[i]))
  {
    var cell := a + "." + b;
    forall i | |a| < i < |cell|
      ensures cell[i] == b[i - |a| - 1]
    {
    }
  }

  lemma DecimalText(a: string, b: string)
    requires |a| > 0 && |b| > 0 && AllDigits(a) && AllDigits(b)
    ensures var cell := a + "." + b;
      Strip(RemoveChar(cell, ',')) == cell && LeadingCount(cell, IsDigit) == |a| && cell[|a|] == '.' &&
      forall i :: |a| < i < |cell| ==> IsDigit(cell[i])
  {
    var tail := "." + b;
    var cell := a + tail;
    assert a + "." + b == cell;
    DecimalShape(a, b);
    assert ',' !in cell;
    RemoveAbsentChar(cell, ',');
    StripOfStripped(cell);
    LeadingCountConcat(a, tail, IsDigit);
  }

  /** A decimal figure such as "12.5" passes the numeric-cell test but parses to 0. */
  lemma DecimalCellParsesToZero(a: string, b: string)
    requires |a| > 0 && |b| > 0 && AllDigits(a) && AllDigits(b)
    ensures IsNumericCell(a + "." + b) && ParseNumber(a + "." + b) == 0
  {
    DecimalText(a, b);
    DecimalCell(a + "." + b, a + "." + b);
  }
}
