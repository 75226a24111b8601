/**
 * What the census-table extractor guarantees: how numeric cells parse, which
 * rows can never become records, how the context moves, and that every
 * record of the final table is plausible and appears once.
 */
module ExtractionProperties {
  import opened Optional
  import opened Strings
  import opened DataFrames
  import opened NumberParsing
  import opened CensusExtraction

  /** The region is always the initial Unknown or one of the listed regions. */
  predicate KnownRegion(region: string) {
    region == Unknown || region in Regions
  }

  /** What every emitted record satisfies (lines 137-148). */
  predicate WellFormedRecord(r: PopulationRecord) {
    r.total >= MinTotal && r.male >= 0 && r.female >= 0 &&
    !HasSummaryKeyword(Upper(r.ward)) &&
    Upper(r.ward) != Upper(r.council) && Upper(r.ward) != Upper(r.region) &&
    KnownRegion(r.region)
  }

  // ---------------------------------------------------------------------
  // Numbers
  // ---------------------------------------------------------------------

  lemma {:induction false} NumericCellsNonNegative(cells: seq<string>)
    ensures forall k :: 0 <= k < |NumericCells(cells)| ==> NumericCells(cells)[k] >= 0
  {
    if |cells| > 0 {
      NumericCellsNonNegative(cells[..|cells| - 1]);
      var last := cells[|cells| - 1];
      if IsNumericCell(last) {
        NumericCellValue(last);
      }
    }
  }

  // ---------------------------------------------------------------------
  // Rows
  // ---------------------------------------------------------------------

  lemma {:induction false} TextCellsPrefix(cells: seq<string>, k: nat)
    requires k <= |cells|
    ensures TextCells(cells[..k]) <= TextCells(cells)
  {
    if k < |cells| {
      TextCellsPrefix(cells[..|cells| - 1], k);
      assert cells[..|cells| - 1][..k] == cells[..k];
    } else {
      assert cells[..k] == cells;
    }
  }

  /** A non-numeric, non-blank first cell is the first text cell. */
  lemma TextCellsStartWith(cells: seq<string>)
    requires |cells| > 0 && !IsNumericCell(cells[0]) && Strip(cells[0]) != ""
    ensures |TextCells(cells)| > 0 && TextCells(cells)[0] == Strip(cells[0])
  {
    TextCellsPrefix(cells, 1);
    assert cells[..1][..0] == [];
  }

  lemma CleanCellStripped(c: Cell)
    ensures Strip(CleanCell(c)) == CleanCell(c)
  {
    match c
    case None =>
    case Some(s) =>
      if s != "" {
        StripIdempotent(ReplaceChar(s, '\n', ' '));
      }
  }

  /** A first cell naming a council is never a numeric cell: it holds a letter. */
  lemma CouncilNameNotNumeric(name: string)
    requires IsCouncilName(name)
    ensures !IsNumericCell(name)
  {
    var kw :| kw in CouncilKeywords && Contains(Upper(name), kw);
    ContainsUpperLetter(name, kw, 0);
    var i :| 0 <= i < |name| && (IsUpperLetter(name[i]) || IsLowerLetter(name[i]));
    if IsNumericCell(name) {
      RemoveCharKeeps(name, ',', i);
      var r := RemoveChar(name, ',');
      var j :| 0 <= j < |r| && r[j] == name[i];
      StripKeepsNonSpace(r, j);
      NumericCellChars(name, name[i]);
    }
  }

  /**
   * Lines 112-116 with 134-140: a row whose first cell names a council sets
   * the council to that cell and never yields a record, in a ward table too,
   * because the cell then leads the ward name and carries a summary keyword.
   */
  lemma CouncilRow(ctx: Context, row: Row, isWardTable: bool)
    requires var clean := CleanRow(row);
      !IsNoiseRow(clean) && !IsRegionName(clean[0]) && IsCouncilName(clean[0])
    ensures RowStep(ctx, row, isWardTable) == (ctx.(council := CleanRow(row)[0]), None)
  {
    var clean := CleanRow(row);
    var name := clean[0];
    var ctx' := ctx.(council := name);
    if isWardTable && |NumericCells(clean)| >= 3 {
      CouncilNameNotNumeric(name);
      CleanCellStripped(row[0]);
      TextCellsStartWith(clean);
      CouncilNameLeadsWard(name, TextCells(clean));
    }
  }

  /** A ward name that starts with a council name carries a summary keyword. */
  lemma CouncilNameLeadsWard(name: string, texts: seq<string>)
    requires |texts| > 0 && texts[0] == name && IsCouncilName(name)
    ensures HasSummaryKeyword(Upper(Join(" ", texts)))
  {
    JoinStartsWithFirst(" ", texts);
    var rest :| Join(" ", texts) == name + rest;
    var kw :| kw in CouncilKeywords && Contains(Upper(name), kw);
    UpperPrefixContains(name, rest, kw);
    CouncilKeywordIsSummaryKeyword(kw);
  }

  /** What the upper-cased start of a string contains, the whole upper-cased string contains. */
  lemma UpperPrefixContains(name: string, rest: string, kw: string)
    requires Contains(Upper(name), kw)
    ensures Contains(Upper(name + rest), kw)
  {
    UpperConcat(name, rest);
    ContainsInConcat("", kw, Upper(name), Upper(rest));
    assert "" + Upper(name) + Upper(rest) == Upper(name + rest);
  }

  /** The council keywords are among the summary keywords. */
  lemma CouncilKeywordIsSummaryKeyword(kw: string)
    requires kw in CouncilKeywords
    ensures kw in SummaryKeywords
  {
  }

  /** Lines 104-109: a region row never yields a record and never touches the council. */
  lemma RegionRow(ctx: Context, row: Row, isWardTable: bool)
    requires var clean := CleanRow(row); !IsNoiseRow(clean) && IsRegionName(clean[0])
    ensures var (ctx', record) := RowStep(ctx, row, isWardTable);
      record.None? && ctx'.council == ctx.council
    ensures var (ctx', record) := RowStep(ctx, row, isWardTable);
      var rowText := Upper(Join(" ", CleanRow(row)));
      ctx'.region == ctx.region ||
      (ctx'.region in Regions && Contains(rowText, ctx'.region) && |Split(rowText)| < MaxRegionRowWords)
  {
  }

  /** Lines 98 and 101: blank rows, rows without a first cell and header rows leave everything as it was. */
  lemma NoiseRow(ctx: Context, row: Row, isWardTable: bool)
    requires IsNoiseRow(CleanRow(row))
    ensures RowStep(ctx, row, isWardTable) == (ctx, None)
  {
  }

  /**
   * The only rows that yield a record: not noise, a first cell that names
   * neither a region nor a council, at least three numeric cells. Such a row
   * leaves the context as it was, and the record it yields is plausible,
   * carries that context, takes its three counts from the numeric cells after
   * any row index, and is named by the text cells (or the first cell).
   */
  lemma EmittingRow(ctx: Context, row: Row, isWardTable: bool)
    requires RowStep(ctx, row, isWardTable).1.Some?
    ensures var clean := CleanRow(row);
      !IsNoiseRow(clean) && !IsRegionName(clean[0]) && !IsCouncilName(clean[0]) &&
      |NumericCells(clean)| >= 3
    ensures RowStep(ctx, row, isWardTable).0 == ctx
    ensures var r := RowStep(ctx, row, isWardTable).1.value;
      r.region == ctx.region && r.council == ctx.council &&
      r.total >= MinTotal && r.male >= 0 && r.female >= 0 &&
      !HasSummaryKeyword(Upper(r.ward)) &&
      Upper(r.ward) != Upper(r.council) && Upper(r.ward) != Upper(r.region)
    ensures var clean := CleanRow(row);
      var values := DropLeadingIndex(NumericCells(clean));
      var texts := Join(" ", TextCells(clean));
      var r := RowStep(ctx, row, isWardTable).1.value;
      |values| >= 3 && r.total == values[0] && r.male == values[1] && r.female == values[2] &&
      r.ward == if texts == "" then clean[0] else texts
  {
    EmittingRowIsData(ctx, row, isWardTable);
    RowRecordFacts(ctx, CleanRow(row));
  }

  /** A row that yields a record is a data row, and its step is its record. */
  lemma EmittingRowIsData(ctx: Context, row: Row, isWardTable: bool)
    requires RowStep(ctx, row, isWardTable).1.Some?
    ensures var clean := CleanRow(row);
      !IsNoiseRow(clean) && !IsRegionName(clean[0]) && !IsCouncilName(clean[0])
    ensures RowStep(ctx, row, isWardTable) == (ctx, RowRecord(ctx, CleanRow(row)))
  {
    var clean := CleanRow(row);
    if IsCouncilName(clean[0]) {
      CouncilRow(ctx, row, isWardTable);
    }
  }

  /** Lines 128-157: what a record built from a cleaned row carries. */
  lemma RowRecordFacts(ctx: Context, clean: seq<string>)
    requires |clean| > 0 && RowRecord(ctx, clean).Some?
    ensures |NumericCells(clean)| >= 3
    ensures var r := RowRecord(ctx, clean).value;
      r.region == ctx.region && r.council == ctx.council &&
      r.total >= MinTotal && r.male >= 0 && r.female >= 0 &&
      !HasSummaryKeyword(Upper(r.ward)) &&
      Upper(r.ward) != Upper(r.council) && Upper(r.ward) != Upper(r.region)
    ensures var values := DropLeadingIndex(NumericCells(clean));
      var texts := Join(" ", TextCells(clean));
      var r := RowRecord(ctx, clean).value;
      |values| >= 3 && r.total == values[0] && r.male == values[1] && r.female == values[2] &&
      r.ward == if texts == "" then clean[0] else texts
  {
    NumericCellsNonNegative(clean);
    var numeric := NumericCells(clean);
    var values := DropLeadingIndex(numeric);
    assert values[1] in numeric && values[2] in numeric;
  }

  /** Lines 119-128: a row with fewer than three numeric cells never yields a record. */
  lemma FewNumericCellsNoRecord(ctx: Context, row: Row, isWardTable: bool)
    requires |NumericCells(CleanRow(row))| < 3
    ensures RowStep(ctx, row, isWardTable).1.None?
  {
    if RowStep(ctx, row, isWardTable).1.Some? {
      EmittingRow(ctx, row, isWardTable);
    }
  }

  lemma RowKeepsRegionKnown(ctx: Context, row: Row, isWardTable: bool)
    requires KnownRegion(ctx.region)
    ensures KnownRegion(RowStep(ctx, row, isWardTable).0.region)
  {
    var clean := CleanRow(row);
    if !IsNoiseRow(clean) && IsRegionName(clean[0]) {
      RegionRow(ctx, row, isWardTable);
    }
  }

  /** A ward name of upper-case letters only. */
  predicate UpperWord(w: string) {
    |w| > 0 && forall i :: 0 <= i < |w| ==> IsUpperLetter(w[i])
  }

  lemma UpperWordText(w: string)
    requires UpperWord(w)
    ensures !IsNumericCell(w) && Strip(w) == w && Upper(w) == w
  {
    assert ',' !in w;
    RemoveAbsentChar(w, ',');
    StripOfStripped(w);
    UpperOfUpperCase(w);
    assert LeadingCount(w, IsDigit) == 0;
  }

  lemma CellsSnoc(cells: seq<string>, x: string)
    ensures NumericCells(cells + [x]) == NumericCells(cells) + (if IsNumericCell(x) then [ParseNumber(x)] else [])
    ensures TextCells(cells + [x]) == TextCells(cells) + (if !IsNumericCell(x) && Strip(x) != "" then [Strip(x)] else [])
  {
    assert (cells + [x])[..|cells|] == cells;
  }

  lemma SnocSplit<T>(xs: seq<T>, ys: seq<T>)
    requires |ys| > 0
    ensures xs + ys == (xs + ys[..|ys| - 1]) + [ys[|ys| - 1]]
    ensures ys == ys[..|ys| - 1] + [ys[|ys| - 1]]
  {
  }

  lemma FourOfFive<T>(a: T, c: T, d: T, e: T)
    ensures [a] + [] + [c] + [d] + [e] == [a, c, d, e]
  {
  }

  lemma OneOfFive<T>(b: T)
    ensures [] + [b] + [] + [] + [] == [b]
  {
  }

  lemma SeqAssoc<T>(a: seq<T>, b: seq<T>, c: seq<T>)
    ensures (a + b) + c == a + (b + c)
  {
  }

  /** Numeric cells are collected cell by cell: a row split in two collects the two halves' values. */
  lemma {:induction false} NumericCellsConcat(xs: seq<string>, ys: seq<string>)
    ensures NumericCells(xs + ys) == NumericCells(xs) + NumericCells(ys)
  {
    if |ys| == 0 {
      assert xs + ys == xs;
    } else {
      var init, last := ys[..|ys| - 1], ys[|ys| - 1];
      NumericCellsConcat(xs, init);
      SnocSplit(xs, ys);
      CellsSnoc(xs + init, last);
      CellsSnoc(init, last);
      var a, b := NumericCells(xs), NumericCells(init);
      var p := if IsNumericCell(last) then [ParseNumber(last)] else [];
      assert NumericCells(xs + ys) == (a + b) + p;
      assert NumericCells(ys) == b + p;
      SeqAssoc(a, b, p);
    }
  }

  /** Text cells are collected cell by cell. */
  lemma {:induction false} TextCellsConcat(xs: seq<string>, ys: seq<string>)
    ensures TextCells(xs + ys) == TextCells(xs) + TextCells(ys)
  {
    if |ys| == 0 {
      assert xs + ys == xs;
    } else {
      var init, last := ys[..|ys| - 1], ys[|ys| - 1];
      TextCellsConcat(xs, init);
      SnocSplit(xs, ys);
      CellsSnoc(xs + init, last);
      CellsSnoc(init, last);
      var a, b := TextCells(xs), TextCells(init);
      var p := if !IsNumericCell(last) && Strip(last) != "" then [Strip(last)] else [];
      assert TextCells(xs + ys) == (a + b) + p;
      assert TextCells(ys) == b + p;
      SeqAssoc(a, b, p);
    }
  }

  /** A five-element display, built one element at a time. */
  lemma FiveBuilt<T>(a: T, b: T, c: T, d: T, e: T)
    ensures [a] + [b] == [a, b] && [a, b] + [c] == [a, b, c]
    ensures [a, b, c] + [d] == [a, b, c, d] && [a, b, c, d] + [e] == [a, b, c, d, e]
  {
  }

  lemma FiveNumericCells(a: string, b: string, c: string, d: string, e: string)
    ensures NumericCells([a, b, c, d, e]) == NumericCells([a]) + NumericCells([b]) + NumericCells([c]) + NumericCells([d]) + NumericCells([e])
  {
    FiveBuilt(a, b, c, d, e);
    NumericCellsConcat([a], [b]);
    NumericCellsConcat([a, b], [c]);
    NumericCellsConcat([a, b, c], [d]);
    NumericCellsConcat([a, b, c, d], [e]);
  }

  lemma FiveTextCells(a: string, b: string, c: string, d: string, e: string)
    ensures TextCells([a, b, c, d, e]) == TextCells([a]) + TextCells([b]) + TextCells([c]) + TextCells([d]) + TextCells([e])
  {
    FiveBuilt(a, b, c, d, e);
    TextCellsConcat([a], [b]);
    TextCellsConcat([a, b], [c]);
    TextCellsConcat([a, b, c], [d]);
    TextCellsConcat([a, b, c, d], [e]);
  }

  /** The cells of a five-cell row, cell by cell. */
  lemma FiveCells(a: string, b: string, c: string, d: string, e: string)
    ensures NumericCells([a, b, c, d, e]) == NumericCells([a]) + NumericCells([b]) + NumericCells([c]) + NumericCells([d]) + NumericCells([e])
    ensures TextCells([a, b, c, d, e]) == TextCells([a]) + TextCells([b]) + TextCells([c]) + TextCells([d]) + TextCells([e])
  {
    FiveNumericCells(a, b, c, d, e);
    FiveTextCells(a, b, c, d, e);
  }

  lemma SingleCell(x: string)
    ensures NumericCells([x]) == if IsNumericCell(x) then [ParseNumber(x)] else []
    ensures TextCells([x]) == if !IsNumericCell(x) && Strip(x) != "" then [Strip(x)] else []
  {
    CellsSnoc([], x);
    assert [] + [x] == [x];
  }

  /** The cells of a ward row: a row index of digits, an upper-case ward name and three numeric figures. */
  predicate IndexedRowShape(idx: string, ward: string, t: string, m: string, f: string) {
    |idx| > 0 && AllDigits(idx) && UpperWord(ward) && IsNumericCell(t) && IsNumericCell(m) && IsNumericCell(f)
  }

  lemma IndexedRowNumbers(idx: string, ward: string, t: string, m: string, f: string)
    requires IndexedRowShape(idx, ward, t, m, f)
    ensures NumericCells([idx, ward, t, m, f]) == [DigitsValue(idx), ParseNumber(t), ParseNumber(m), ParseNumber(f)]
  {
    FiveCells(idx, ward, t, m, f);
    DigitCell(idx);
    SingleCell(idx);
    UpperWordText(ward);
    SingleCell(ward);
    SingleCell(t);
    SingleCell(m);
    SingleCell(f);
    var ni, nw, nt, nm, nf := NumericCells([idx]), NumericCells([ward]), NumericCells([t]), NumericCells([m]), NumericCells([f]);
    assert ni == [DigitsValue(idx)] && nw == [] && nt == [ParseNumber(t)] && nm == [ParseNumber(m)] && nf == [ParseNumber(f)];
    FourOfFive(DigitsValue(idx), ParseNumber(t), ParseNumber(m), ParseNumber(f));
  }

  lemma IndexedRowTexts(idx: string, ward: string, t: string, m: string, f: string)
    requires IndexedRowShape(idx, ward, t, m, f)
    ensures TextCells([idx, ward, t, m, f]) == [ward]
  {
    FiveCells(idx, ward, t, m, f);
    DigitCell(idx);
    SingleCell(idx);
    UpperWordText(ward);
    SingleCell(ward);
    SingleCell(t);
    SingleCell(m);
    SingleCell(f);
    var ti, tw, tt, tm, tf := TextCells([idx]), TextCells([ward]), TextCells([t]), TextCells([m]), TextCells([f]);
    assert ti == [] && tw == [ward] && tt == [] && tm == [] && tf == [];
    OneOfFive(ward);
  }

  /** Every listed region starts with an upper-case letter. */
  lemma RegionsStartWithLetter(k: int)
    requires 0 <= k < |Regions|
    ensures |Regions[k]| > 0 && IsUpperLetter(Regions[k][0])
  {
  }

  /** Every council keyword starts with an upper-case letter. */
  lemma CouncilKeywordsStartWithLetter(kw: string)
    requires kw in CouncilKeywords
    ensures |kw| > 0 && IsUpperLetter(kw[0])
  {
  }

  /** A string of digits names no region and no council. */
  lemma DigitsNameNothing(idx: string)
    requires |idx| > 0 && AllDigits(idx)
    ensures !IsRegionName(idx) && !IsCouncilName(idx)
  {
    UpperOfUpperCase(idx);
    if idx in Regions {
      var k :| 0 <= k < |Regions| && Regions[k] == idx;
      RegionsStartWithLetter(k);
      assert false;
    }
    assert "REGION"[0] == 'R';
    AbsentCharNotContained(idx, "REGION", 'R');
    forall kw | kw in CouncilKeywords
      ensures !Contains(Upper(idx), kw)
    {
      CouncilKeywordsStartWithLetter(kw);
      assert !IsDigit(kw[0]);
      AbsentCharNotContained(idx, kw, kw[0]);
    }
  }

  /** Five cells none of which contains `fragment`. */
  lemma FiveCellsLack(a: string, b: string, c: string, d: string, e: string, fragment: string)
    requires !Contains(a, fragment) && !Contains(b, fragment) && !Contains(c, fragment)
    requires !Contains(d, fragment) && !Contains(e, fragment)
    ensures !AnyCellContains([a, b, c, d, e], fragment)
  {
    var cells := [a, b, c, d, e];
    forall i | 0 <= i < 5
      ensures !Contains(cells[i], fragment)
    {
    }
  }

  lemma SexRatioHasE()
    ensures 'e' in "Sex Ratio"
  {
    assert "Sex Ratio"[1] == 'e';
  }

  /** No cell of a ward row mentions "Sex Ratio": none of them holds an 'e'. */
  lemma IndexedRowNoSexRatio(idx: string, ward: string, t: string, m: string, f: string)
    requires IndexedRowShape(idx, ward, t, m, f)
    ensures !AnyCellContains([idx, ward, t, m, f], "Sex Ratio")
  {
    assert 'e' !in idx && 'e' !in ward;
    NumericCellLacks(t, 'e');
    NumericCellLacks(m, 'e');
    NumericCellLacks(f, 'e');
    SexRatioHasE();
    AbsentCharNotContained(idx, "Sex Ratio", 'e');
    AbsentCharNotContained(ward, "Sex Ratio", 'e');
    AbsentCharNotContained(t, "Sex Ratio", 'e');
    AbsentCharNotContained(m, "Sex Ratio", 'e');
    AbsentCharNotContained(f, "Sex Ratio", 'e');
    FiveCellsLack(idx, ward, t, m, f, "Sex Ratio");
  }

  /** An index, a ward name and three figures form a data row: no noise, no region, no council. */
  lemma IndexedRowIsData(idx: string, ward: string, t: string, m: string, f: string)
    requires IndexedRowShape(idx, ward, t, m, f)
    ensures !IsNoiseRow([idx, ward, t, m, f]) && !IsRegionName(idx) && !IsCouncilName(idx)
  {
    var c := [idx, ward, t, m, f];
    assert c[0] == idx && c[0] != "";
    IndexedRowNoSexRatio(idx, ward, t, m, f);
    assert "Population"[0] == 'P';
    AbsentCharNotContained(idx, "Population", 'P');
    DigitsNameNothing(idx);
  }

  /** A data row's step: the context stays and the record is the row's record. */
  lemma DataRowStep(ctx: Context, row: Row, isWardTable: bool)
    requires var clean := CleanRow(row); !IsNoiseRow(clean) && !IsRegionName(clean[0]) && !IsCouncilName(clean[0])
    ensures RowStep(ctx, row, isWardTable) == (ctx, RowRecord(ctx, CleanRow(row)))
  {
  }

  /** Lines 131-132: four values whose first is below IndexLimit and below the second lose the first. */
  lemma IndexDropped(i: int, total: int, male: int, female: int)
    requires i < IndexLimit && i < total
    ensures DropLeadingIndex([i, total, male, female]) == [total, male, female]
  {
    assert [i, total, male, female][1..] == [total, male, female];
  }

  /**
   * A cleaned row with at least three numeric cells whose figures, once a
   * leading index is dropped, are `values`, and whose text cells join to the
   * upper-case name `ward`.
   */
  predicate RecordCells(clean: seq<string>, values: seq<int>, ward: string) {
    |clean| > 0 && |NumericCells(clean)| >= 3 && DropLeadingIndex(NumericCells(clean)) == values && |values| == 3 &&
    Join(" ", TextCells(clean)) == ward && ward != "" && Upper(ward) == ward
  }

  /** The figures and the joined text of an index, a ward name and three figures, the index dropped. */
  lemma IndexedRowCells(idx: string, ward: string, t: string, m: string, f: string)
    requires IndexedRowShape(idx, ward, t, m, f)
    requires DigitsValue(idx) < IndexLimit && DigitsValue(idx) < ParseNumber(t)
    ensures RecordCells([idx, ward, t, m, f], [ParseNumber(t), ParseNumber(m), ParseNumber(f)], ward)
  {
    IndexedRowNumbers(idx, ward, t, m, f);
    IndexedRowTexts(idx, ward, t, m, f);
    UpperWordText(ward);
    JoinSingleton(" ", ward);
    IndexDropped(DigitsValue(idx), ParseNumber(t), ParseNumber(m), ParseNumber(f));
  }

  /** Lines 128-157: the record of such a row whose name passes the filters and whose total is plausible. */
  lemma TextRowRecord(ctx: Context, clean: seq<string>, values: seq<int>, ward: string)
    requires RecordCells(clean, values, ward) && values[0] >= MinTotal
    requires !HasSummaryKeyword(ward) && ward != Upper(ctx.council) && ward != Upper(ctx.region)
    ensures RowRecord(ctx, clean) ==
      Some(PopulationRecord(ctx.region, ctx.council, ward, values[0], values[1], values[2]))
  {
  }

  /** The record of an index, a ward name and three figures, the index dropped. */
  lemma IndexedRowRecord(ctx: Context, idx: string, ward: string, t: string, m: string, f: string)
    requires IndexedRowShape(idx, ward, t, m, f)
    requires DigitsValue(idx) < IndexLimit && DigitsValue(idx) < ParseNumber(t) && ParseNumber(t) >= MinTotal
    requires !HasSummaryKeyword(ward) && ward != Upper(ctx.council) && ward != Upper(ctx.region)
    ensures RowRecord(ctx, [idx, ward, t, m, f]) ==
      Some(PopulationRecord(ctx.region, ctx.council, ward, ParseNumber(t), ParseNumber(m), ParseNumber(f)))
  {
    IndexedRowCells(idx, ward, t, m, f);
    TextRowRecord(ctx, [idx, ward, t, m, f], [ParseNumber(t), ParseNumber(m), ParseNumber(f)], ward);
  }

  /**
   * Lines 119-157 on a row of an index, an upper-case ward name and three
   * figures: a leading index below IndexLimit and smaller than the total
   * is dropped, the ward name is the text cell, and total, male and female
   * are the three figures, in a ward table or not.
   */
  lemma IndexedWardRow(ctx: Context, row: Row, isWardTable: bool,
                       idx: string, ward: string, t: string, m: string, f: string)
    requires CleanRow(row) == [idx, ward, t, m, f]
    requires IndexedRowShape(idx, ward, t, m, f)
    requires DigitsValue(idx) < IndexLimit && DigitsValue(idx) < ParseNumber(t) && ParseNumber(t) >= MinTotal
    requires !HasSummaryKeyword(ward) && ward != Upper(ctx.council) && ward != Upper(ctx.region)
    ensures RowStep(ctx, row, isWardTable) ==
      (ctx, Some(PopulationRecord(ctx.region, ctx.council, ward, ParseNumber(t), ParseNumber(m), ParseNumber(f))))
  {
    IndexedRowIsData(idx, ward, t, m, f);
    DataRowStep(ctx, row, isWardTable);
    IndexedRowRecord(ctx, idx, ward, t, m, f);
  }

  // ---------------------------------------------------------------------
  // Headings and pages
  // ---------------------------------------------------------------------

  /**
   * Lines 58-65: when the i-th listed region is the first one the heading
   * names, it becomes the region and the council is reset to Unknown.
   */
  lemma RegionHeadingSetsFirstListedRegion(ctx: Context, capture: string, i: int)
    requires 0 <= i < |Regions| && Contains(HeadingName(capture), Regions[i])
    requires forall j :: 0 <= j < i ==> !Contains(HeadingName(capture), Regions[j])
    ensures AfterRegionHeading(ctx, Some(capture)) == Context(Regions[i], Unknown)
  {
    var found := FirstContained(Regions, HeadingName(capture));
    var k :| 0 <= k < |Regions| && Regions[k] == found.value && Contains(HeadingName(capture), found.value) &&
      forall j :: 0 <= j < k ==> !Contains(HeadingName(capture), Regions[j]);
    assert k == i;
  }

  /**
   * Lines 67-75: the first listed region the "by Council ... Region" heading
   * names resets the context only when it differs from the current region.
   */
  lemma CouncilByRegionHeadingResetsOnChange(ctx: Context, capture: string, i: int)
    requires 0 <= i < |Regions| && Contains(HeadingName(capture), Regions[i])
    requires forall j :: 0 <= j < i ==> !Contains(HeadingName(capture), Regions[j])
    ensures AfterCouncilByRegionHeading(ctx, Some(capture)) ==
      if Regions[i] == ctx.region then ctx else Context(Regions[i], Unknown)
  {
    var found := FirstContained(Regions, HeadingName(capture));
    var k :| 0 <= k < |Regions| && Regions[k] == found.value && Contains(HeadingName(capture), found.value) &&
      forall j :: 0 <= j < k ==> !Contains(HeadingName(capture), Regions[j]);
    assert k == i;
  }

  /** Lines 77-81: a council heading shorter than the bound decides the council, whatever the region headings did. */
  lemma CouncilHeadingDecidesCouncil(ctx: Context, page: Page)
    requires page.councilHeading.Some? && |Strip(page.councilHeading.value)| < MaxHeadingLength
    ensures AfterHeadings(ctx, page).council == Strip(page.councilHeading.value)
    ensures AfterHeadings(ctx, page).region ==
      AfterCouncilByRegionHeading(AfterRegionHeading(ctx, page.regionHeading), page.councilByRegionHeading).region
  {
  }

  /** A page without any of the three headings leaves the context to its table rows. */
  lemma NoHeadingsKeepContext(ctx: Context, page: Page)
    requires page.regionHeading.None? && page.councilByRegionHeading.None? && page.councilHeading.None?
    ensures AfterHeadings(ctx, page) == ctx
  {
  }

  /**
   * Lines 45-116 on a page with text but none of the three headings: the
   * page step is the walk of its tables from the incoming context, so only
   * the region and council rows of those tables can move the context.
   */
  lemma NoHeadingsPageIsTableWalk(ctx: Context, page: Page)
    requires page.text.Some? && page.text.value != ""
    requires page.regionHeading.None? && page.councilByRegionHeading.None? && page.councilHeading.None?
    ensures PageStep(ctx, page) ==
      if |page.tables| == 0 then Step(ctx, []) else TablesStep(ctx, page.tables, IsSummaryPage(page.text.value))
  {
  }

  lemma HeadingsKeepRegionKnown(ctx: Context, page: Page)
    requires KnownRegion(ctx.region)
    ensures KnownRegion(AfterHeadings(ctx, page).region)
  {
  }

  /** Line 45: a page without text changes neither the context nor the output. */
  lemma TextlessPage(ctx: Context, page: Page)
    requires page.text.None? || page.text == Some("")
    ensures PageStep(ctx, page) == Step(ctx, [])
  {
  }

  /** Lines 93-94: on a summary page, tables without "Ward" in the header contribute nothing and change nothing. */
  lemma {:induction false} SummaryPageSkipsNonWardTables(ctx: Context, tables: seq<Table>)
    requires forall k :: 0 <= k < |tables| ==> !IsWardTable(tables[k])
    ensures TablesStep(ctx, tables, true) == Step(ctx, [])
  {
    if |tables| > 0 {
      SummaryPageSkipsNonWardTables(ctx, tables[..|tables| - 1]);
    }
  }

  // ---------------------------------------------------------------------
  // The whole walk
  // ---------------------------------------------------------------------

  predicate AllWellFormed(records: seq<PopulationRecord>) {
    forall k :: 0 <= k < |records| ==> WellFormedRecord(records[k])
  }

  lemma {:induction false} RowsStepInvariant(ctx: Context, rows: seq<Row>, isWardTable: bool)
    requires KnownRegion(ctx.region)
    ensures KnownRegion(RowsStep(ctx, rows, isWardTable).ctx.region)
    ensures AllWellFormed(RowsStep(ctx, rows, isWardTable).emitted)
  {
    if |rows| > 0 {
      var before := RowsStep(ctx, rows[..|rows| - 1], isWardTable);
      RowsStepInvariant(ctx, rows[..|rows| - 1], isWardTable);
      var last := rows[|rows| - 1];
      RowStepInvariant(before.ctx, last, isWardTable);
      var (_, record) := RowStep(before.ctx, last, isWardTable);
      WellFormedAppend(before.emitted, if record.Some? then [record.value] else []);
    }
  }

  /** One row keeps the region known and emits only a well-formed record. */
  lemma RowStepInvariant(ctx: Context, row: Row, isWardTable: bool)
    requires KnownRegion(ctx.region)
    ensures KnownRegion(RowStep(ctx, row, isWardTable).0.region)
    ensures RowStep(ctx, row, isWardTable).1.Some? ==> WellFormedRecord(RowStep(ctx, row, isWardTable).1.value)
  {
    RowKeepsRegionKnown(ctx, row, isWardTable);
    if RowStep(ctx, row, isWardTable).1.Some? {
      EmittingRow(ctx, row, isWardTable);
    }
  }

  lemma WellFormedAppend(a: seq<PopulationRecord>, b: seq<PopulationRecord>)
    requires AllWellFormed(a) && AllWellFormed(b)
    ensures AllWellFormed(a + b)
  {
  }

  lemma {:induction false} TablesStepInvariant(ctx: Context, tables: seq<Table>, isSummaryPage: bool)
    requires KnownRegion(ctx.region)
    ensures KnownRegion(TablesStep(ctx, tables, isSummaryPage).ctx.region)
    ensures AllWellFormed(TablesStep(ctx, tables, isSummaryPage).emitted)
  {
    if |tables| > 0 {
      var before := TablesStep(ctx, tables[..|tables| - 1], isSummaryPage);
      TablesStepInvariant(ctx, tables[..|tables| - 1], isSummaryPage);
      var t := tables[|tables| - 1];
      if !(isSummaryPage && !IsWardTable(t)) {
        RowsStepInvariant(before.ctx, t.Rows(), IsWardTable(t));
      }
    }
  }

  lemma {:induction false} PagesStepInvariant(ctx: Context, pages: seq<Page>)
    requires KnownRegion(ctx.region)
    ensures KnownRegion(PagesStep(ctx, pages).ctx.region)
    ensures AllWellFormed(PagesStep(ctx, pages).emitted)
  {
    if |pages| > 0 {
      var before := PagesStep(ctx, pages[..|pages| - 1]);
      PagesStepInvariant(ctx, pages[..|pages| - 1]);
      var page := pages[|pages| - 1];
      if page.text.Some? && page.text.value != "" {
        HeadingsKeepRegionKnown(before.ctx, page);
        if |page.tables| > 0 {
          TablesStepInvariant(AfterHeadings(before.ctx, page), page.tables, IsSummaryPage(page.text.value));
        }
      }
    }
  }

  /**
   * The extracted table: every record is plausible (total at least MinTotal,
   * counts not negative, a ward name that is no summary label and not the
   * council's or region's name) and carries Unknown or a listed region; no
   * record occurs twice; and a record is in it exactly when the walk emitted it.
   */
  lemma ExtractedTable(pages: seq<Page>, startPage: nat)
    ensures AllWellFormed(Extract(pages, startPage))
    ensures forall i, j :: 0 <= i < j < |Extract(pages, startPage)| ==>
      Extract(pages, startPage)[i] != Extract(pages, startPage)[j]
    ensures forall r :: r in Extract(pages, startPage) <==> r in Emitted(pages, startPage)
  {
    var emitted := Emitted(pages, startPage);
    var table := Extract(pages, startPage);
    PagesStepInvariant(InitialContext, PagesFrom(pages, startPage));
    assert KeysDistinct(table, Identity);
    forall r | r in emitted ensures r in table {
      var i :| 0 <= i < |emitted| && emitted[i] == r;
      assert HasKey(table, Identity, Identity(emitted[i]));
    }
  }

  /**
   * Line 163: the extracted table lists the first emission of every record,
   * in the order the walk emitted them: it is the emitted sequence read at
   * strictly increasing positions, which are exactly the first occurrences.
   */
  lemma ExtractedInEmissionOrder(pages: seq<Page>, startPage: nat) returns (pos: seq<nat>)
    ensures |pos| == |Extract(pages, startPage)|
    ensures forall j :: 0 <= j < |pos| ==>
      FirstOccurrence(Emitted(pages, startPage), Identity, pos[j]) &&
      Extract(pages, startPage)[j] == Emitted(pages, startPage)[pos[j]]
    ensures forall j, j' :: 0 <= j < j' < |pos| ==> pos[j] < pos[j']
    ensures forall i :: FirstOccurrence(Emitted(pages, startPage), Identity, i) ==> i in pos
  {
    pos := DedupKeepsFirstOccurrences(Emitted(pages, startPage), Identity);
  }

  /** Lines 27 and 41: with the default start page, the pages before it are never read. */
  lemma PagesBeforeDefaultStartIgnored(pages: seq<Page>, other: seq<Page>)
    requires |pages| == |other|
    requires forall i :: DefaultStartPage <= i < |pages| ==> pages[i] == other[i]
    ensures Extract(pages, DefaultStartPage) == Extract(other, DefaultStartPage)
  {
    assert PagesFrom(pages, DefaultStartPage) == PagesFrom(other, DefaultStartPage);
  }
}
