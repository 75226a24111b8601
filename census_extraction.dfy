/**
 * The census-table extractor of scripts/extract_census_data.py.
 *
 * The report is walked page by page in document order. Two strings of
 * context, the current region and the current council, are updated from page
 * headings and from sub-heading rows inside tables; every other table row is
 * either noise or a ward line that becomes a population record tagged with
 * the current context. Exact duplicates are removed at the end.
 *
 * The pure specification (RowStep, TableStep, PageStep, PagesStep, Extract)
 * is a left fold over pages, tables and rows; the methods below run the
 * source's loops and are proved equal to it.
 */
module CensusExtraction {
  import opened Optional
  import opened Strings
  import opened DataFrames
  import opened NumberParsing

  /** A table cell as pdfplumber reports it: None for an empty cell. */
  type Cell = Option<string>

  type Row = seq<Cell>

  /** A detected table. pdfplumber's tables always have a first row, which the extractor reads as the header. */
  datatype Table = Table(header: Row, body: seq<Row>) {
    function Rows(): seq<Row> { [header] + body }
  }

  /**
   * One page of the report as the document collaborator delivers it: the
   * extracted text, the group captured by each of the three heading searches
   * (None when the pattern does not occur on the page) and the tables.
   *   regionHeading:          `Region\s*\d*:\s*([\w\s]+)` on the text
   *   councilByRegionHeading: `by Council\s*([\w\s]+)\s*Region` on the text, ignoring case
   *   councilHeading:         `\d+\.\d+\s+([\w\s]+COUNCIL|[\w\s]+DISTRICT|[\w\s]+TOWN|[\w\s]+CITY)` on the upper-cased text
   */
  datatype Page = Page(
    text: Option<string>,
    regionHeading: Option<string>,
    councilByRegionHeading: Option<string>,
    councilHeading: Option<string>,
    tables: seq<Table>)

  /** The extraction context: `current_region` and `current_council`. */
  datatype Context = Context(region: string, council: string)

  /** One row of the output table: Region, Council, Ward, Total_Pop, Male_Pop, Female_Pop. */
  datatype PopulationRecord = PopulationRecord(
    region: string, council: string, ward: string, total: int, male: int, female: int)

  /** Either a context and the records emitted so far, after a row, table or page. */
  datatype Step = Step(ctx: Context, emitted: seq<PopulationRecord>)

  const Unknown: string := "Unknown"

  const InitialContext: Context := Context(Unknown, Unknown)

  /** `TZA_REGIONS`, in the source's order (the order decides which region a heading names). */
  const Regions: seq<string> := [
    "DODOMA", "ARUSHA", "KILIMANJARO", "TANGA", "MOROGORO", "PWANI",
    "DAR ES SALAAM", "LINDI", "MTWARA", "RUVUMA", "IRINGA", "MBEYA",
    "SINGIDA", "TABORA", "RUKWA", "KIGOMA", "SHINYANGA", "KAGERA",
    "MWANZA", "MARA", "MANYARA", "NJOMBE", "KATAVI", "SIMIYU",
    "GEITA", "SONGWE", "KASKAZINI UNGUJA", "KUSINI UNGUJA",
    "MJINI MAGHARIBI", "KASKAZINI PEMBA", "KUSINI PEMBA"]

  /** `SUMMARY_KEYWORDS`: a ward name containing one of these is a summary label. */
  const SummaryKeywords: seq<string> := ["COUNCIL", "DISTRICT", "TOWN", "CITY", "MUNICIPAL", "REGION", "TOTAL"]

  /** The words that make a first cell a council sub-heading. */
  const CouncilKeywords: seq<string> := ["COUNCIL", "DISTRICT", "TOWN", "CITY"]

  /** Plausibility floor: a smaller total is a formatting artifact, not a ward. */
  const MinTotal: int := 10

  /** A council heading capture this long or longer is not a heading. */
  const MaxHeadingLength: int := 50

  /** A leading number below this, followed by a larger one, is a row index. */
  const IndexLimit: int := 500

  /** A region row with this many words or more does not set the region. */
  const MaxRegionRowWords: int := 10

  /** `extract_census`'s default first page. */
  const DefaultStartPage: nat := 50

  // ---------------------------------------------------------------------
  // Cells and rows (lines 96-146)
  // ---------------------------------------------------------------------

  /** `str(c).replace('\n', ' ').strip() if c else ''` */
  function CleanCell(c: Cell): string
  {
    match c
    case None => ""
    case Some(s) => if s == "" then "" else Strip(ReplaceChar(s, '\n', ' '))
  }

  function CleanRow(row: Row): (clean: seq<string>)
    ensures |clean| == |row|
  {
    seq(|row|, i requires 0 <= i < |row| => CleanCell(row[i]))
  }

  /** The values of the numeric cells, in row order (`numeric_cells`). */
  function NumericCells(cells: seq<string>): seq<int>
  {
    if |cells| == 0 then []
    else
      var last := cells[|cells| - 1];
      NumericCells(cells[..|cells| - 1]) + (if IsNumericCell(last) then [ParseNumber(last)] else [])
  }

  /** The stripped non-empty cells that are not numeric, in row order (`text_cells`). */
  function TextCells(cells: seq<string>): seq<string>
  {
    if |cells| == 0 then []
    else
      var last := cells[|cells| - 1];
      TextCells(cells[..|cells| - 1]) + (if !IsNumericCell(last) && Strip(last) != "" then [Strip(last)] else [])
  }

  /** Drops a leading row index: four or more values, the first below IndexLimit and smaller than the second. */
  function DropLeadingIndex(values: seq<int>): seq<int>
  {
    if |values| >= 4 && values[0] < IndexLimit && values[1] > values[0] then values[1..] else values
  }

  /** `not any(clean_row)` */
  predicate IsBlankRow(clean: seq<string>) {
    forall i :: 0 <= i < |clean| ==> clean[i] == ""
  }

  /** `"Sex Ratio" in str(clean_row)`: the fragment can only occur inside one cell of the list's text form. */
  predicate AnyCellContains(clean: seq<string>, fragment: string) {
    exists i | 0 <= i < |clean| :: Contains(clean[i], fragment)
  }

  /** Rows skipped before anything else (lines 98 and 101): blank, unnamed or header rows. */
  predicate IsNoiseRow(clean: seq<string>) {
    IsBlankRow(clean) || clean[0] == "" || AnyCellContains(clean, "Sex Ratio") || Contains(clean[0], "Population")
  }

  /** A first cell naming a region (line 104). */
  predicate IsRegionName(name: string) {
    Upper(name) in Regions || Contains(Upper(name), "REGION")
  }

  /** A first cell naming a council (line 112). */
  predicate IsCouncilName(name: string) {
    exists kw | kw in CouncilKeywords :: Contains(Upper(name), kw)
  }

  /** Line 139, on the upper-cased ward name. */
  predicate HasSummaryKeyword(w: string) {
    exists kw | kw in SummaryKeywords :: Contains(w, kw)
  }

  /** The first of `names` that occurs in `text` (a loop with `break`). */
  function FirstContained(names: seq<string>, text: string): (r: Option<string>)
    ensures r.None? <==> forall i :: 0 <= i < |names| ==> !Contains(text, names[i])
    ensures r.Some? ==>
      exists i :: 0 <= i < |names| && names[i] == r.value && Contains(text, r.value) &&
        forall j :: 0 <= j < i ==> !Contains(text, names[j])
  {
    if |names| == 0 then None
    else if Contains(text, names[0]) then Some(names[0])
    else
      var r := FirstContained(names[1..], text);
      assert forall j :: 1 <= j < |names| ==> names[j] == names[1..][j - 1];
      r
  }

  /** The last of `names` that occurs in `text` (a loop without `break` whose every hit overwrites). */
  function LastContained(names: seq<string>, text: string): (r: Option<string>)
    ensures r.None? <==> forall i :: 0 <= i < |names| ==> !Contains(text, names[i])
    ensures r.Some? ==>
      exists i :: 0 <= i < |names| && names[i] == r.value && Contains(text, r.value) &&
        forall j :: i < j < |names| ==> !Contains(text, names[j])
  {
    if |names| == 0 then None
    else if Contains(text, names[|names| - 1]) then Some(names[|names| - 1])
    else LastContained(names[..|names| - 1], text)
  }

  /** The region after a region row (lines 105-108). */
  function RegionFromRow(region: string, clean: seq<string>): string
  {
    var rowText := Upper(Join(" ", clean));
    if |Split(rowText)| < MaxRegionRowWords then
      match LastContained(Regions, rowText)
      case None => region
      case Some(r) => r
    else region
  }

  /** The record a data row yields under context `ctx`, if it passes every filter (lines 119-157). */
  function RowRecord(ctx: Context, clean: seq<string>): Option<PopulationRecord>
    requires |clean| > 0
  {
    var numeric := NumericCells(clean);
    if |numeric| < 3 then None
    else
      var values := DropLeadingIndex(numeric);
      var joined := Join(" ", TextCells(clean));
      var ward := if joined == "" then clean[0] else joined;
      var w := Upper(ward);
      if HasSummaryKeyword(w) || w == Upper(ctx.council) || w == Upper(ctx.region) || values[0] < MinTotal then None
      else Some(PopulationRecord(ctx.region, ctx.council, ward, values[0], values[1], values[2]))
  }

  /** One row of a table: the context after it and the record it emits (lines 96-157). */
  function RowStep(ctx: Context, row: Row, isWardTable: bool): (Context, Option<PopulationRecord>)
  {
    var clean := CleanRow(row);
    if IsNoiseRow(clean) then (ctx, None)
    else
      var name := clean[0];
      if IsRegionName(name) then (ctx.(region := RegionFromRow(ctx.region, clean)), None)
      else if IsCouncilName(name) && !isWardTable then (ctx.(council := name), None)
      else
        var ctx' := if IsCouncilName(name) then ctx.(council := name) else ctx;
        (ctx', RowRecord(ctx', clean))
  }

  function RowsStep(ctx: Context, rows: seq<Row>, isWardTable: bool): Step
  {
    if |rows| == 0 then Step(ctx, [])
    else
      var before := RowsStep(ctx, rows[..|rows| - 1], isWardTable);
      var (ctx', record) := RowStep(before.ctx, rows[|rows| - 1], isWardTable);
      Step(ctx', before.emitted + (if record.Some? then [record.value] else []))
  }

  // ---------------------------------------------------------------------
  // Tables and pages (lines 41-94)
  // ---------------------------------------------------------------------

  /** Some non-empty header cell contains "Ward" (lines 88-90). */
  predicate IsWardTable(t: Table) {
    exists i | 0 <= i < |t.header| :: t.header[i].Some? && Contains(t.header[i].value, "Ward")
  }

  /** On a summary page a table without "Ward" in its header is skipped entirely (lines 93-94). */
  function TableStep(ctx: Context, t: Table, isSummaryPage: bool): Step
  {
    if isSummaryPage && !IsWardTable(t) then Step(ctx, [])
    else RowsStep(ctx, t.Rows(), IsWardTable(t))
  }

  function TablesStep(ctx: Context, tables: seq<Table>, isSummaryPage: bool): Step
  {
    if |tables| == 0 then Step(ctx, [])
    else
      var before := TablesStep(ctx, tables[..|tables| - 1], isSummaryPage);
      var after := TableStep(before.ctx, tables[|tables| - 1], isSummaryPage);
      Step(after.ctx, before.emitted + after.emitted)
  }

  /** `Table\s+(\d+)\.0` matches at position `i` of `s`. */
  predicate SummaryTableNumberAt(s: string, i: nat) {
    i <= |s| && StartsWith(s[i..], "Table") &&
    var a := s[i + 5..];
    var spaces := LeadingCount(a, IsSpace);
    spaces > 0 &&
    var b := a[spaces..];
    var digits := LeadingCount(b, IsDigit);
    digits > 0 && StartsWith(b[digits..], ".0")
  }

  /** A summary page: "Table " occurs and `re.search(r"Table\s+(\d+)\.0", text)` succeeds (lines 51-55). */
  predicate IsSummaryPage(text: string) {
    Contains(text, "Table ") && exists i: nat | i < |text| :: SummaryTableNumberAt(text, i)
  }

  /** `.split('\n')[0].strip().upper()` of a heading capture (lines 60 and 69). */
  function HeadingName(capture: string): string
  {
    Upper(Strip(FirstLine(capture)))
  }

  /** Lines 58-65: a listed region in the "Region N:" heading sets the region and resets the council. */
  function AfterRegionHeading(ctx: Context, capture: Option<string>): Context
  {
    match capture
    case None => ctx
    case Some(g) =>
      match FirstContained(Regions, HeadingName(g))
      case None => ctx
      case Some(reg) => Context(reg, Unknown)
  }

  /** Lines 67-75: the "by Council ... Region" heading resets the context only for a different region. */
  function AfterCouncilByRegionHeading(ctx: Context, capture: Option<string>): Context
  {
    match capture
    case None => ctx
    case Some(g) =>
      match FirstContained(Regions, HeadingName(g))
      case None => ctx
      case Some(reg) => if reg != ctx.region then Context(reg, Unknown) else ctx
  }

  /** Lines 77-81: a numbered council heading shorter than MaxHeadingLength sets the council. */
  function AfterCouncilHeading(ctx: Context, capture: Option<string>): Context
  {
    match capture
    case None => ctx
    case Some(g) =>
      var name := Strip(g);
      if |name| < MaxHeadingLength then ctx.(council := name) else ctx
  }

  function AfterHeadings(ctx: Context, page: Page): Context
  {
    AfterCouncilHeading(
      AfterCouncilByRegionHeading(AfterRegionHeading(ctx, page.regionHeading), page.councilByRegionHeading),
      page.councilHeading)
  }

  /** One page: skipped without text (line 45), headings first, then its tables in order. */
  function PageStep(ctx: Context, page: Page): Step
  {
    match page.text
    case None => Step(ctx, [])
    case Some(text) =>
      if text == "" then Step(ctx, [])
      else
        var ctx' := AfterHeadings(ctx, page);
        if |page.tables| == 0 then Step(ctx', [])
        else TablesStep(ctx', page.tables, IsSummaryPage(text))
  }

  function PagesStep(ctx: Context, pages: seq<Page>): Step
  {
    if |pages| == 0 then Step(ctx, [])
    else
      var before := PagesStep(ctx, pages[..|pages| - 1]);
      var after := PageStep(before.ctx, pages[|pages| - 1]);
      Step(after.ctx, before.emitted + after.emitted)
  }

  /** `range(start_page, total_pages)` */
  function PagesFrom(pages: seq<Page>, startPage: nat): seq<Page>
  {
    if startPage < |pages| then pages[startPage..] else []
  }

  /** Every record the page walk emits, in order, before duplicates are dropped. */
  function Emitted(pages: seq<Page>, startPage: nat): seq<PopulationRecord>
  {
    PagesStep(InitialContext, PagesFrom(pages, startPage)).emitted
  }

  function Identity(r: PopulationRecord): PopulationRecord { r }

  /** `pd.DataFrame(data).drop_duplicates()`: the first of every group of identical records. */
  function Extract(pages: seq<Page>, startPage: nat): seq<PopulationRecord>
  {
    DedupBy(Emitted(pages, startPage), Identity)
  }

  // ---------------------------------------------------------------------
  // The source's loops
  // ---------------------------------------------------------------------

  /** Lines 61-65 and 70-75: the first of `names` contained in `text`, leaving the loop at the first hit. */
  method FirstNameIn(names: seq<string>, text: string) returns (found: Option<string>)
    ensures found == FirstContained(names, text)
  {
    found := None;
    var k := 0;
    while k < |names|
      invariant 0 <= k <= |names|
      invariant FirstContained(names, text) == FirstContained(names[k..], text)
    {
      if Contains(text, names[k]) {
        found := Some(names[k]);
        break;
      }
      assert names[k..][1..] == names[k + 1..];
      k := k + 1;
    }
  }

  /**
   * Lines 106-108: every one of `names` contained in `text` overwrites
   * `current` while `enabled` holds, so the last one found wins.
   */
  method LastNameIn(names: seq<string>, text: string, enabled: bool, current: string) returns (r: string)
    ensures r == if enabled then (match LastContained(names, text) case None => current case Some(x) => x) else current
  {
    r := current;
    for k := 0 to |names|
      invariant r == if enabled then (match LastContained(names[..k], text) case None => current case Some(x) => x) else current
    {
      assert names[..k + 1][..k] == names[..k];
      if Contains(text, names[k]) && enabled {
        r := names[k];
      }
    }
    assert names[..|names|] == names;
  }

  /** Lines 105-108: every listed region in the row text overwrites the region while the row has few words. */
  method RegionRowUpdate(region: string, clean: seq<string>) returns (newRegion: string)
    ensures newRegion == RegionFromRow(region, clean)
  {
    var rowText := Upper(Join(" ", clean));
    newRegion := LastNameIn(Regions, rowText, |Split(rowText)| < MaxRegionRowWords, region);
  }

  /** Lines 119-126: numeric cells parsed, the other non-empty cells kept as text, both in row order. */
  method PartitionCells(clean: seq<string>) returns (numeric: seq<int>, text: seq<string>)
    ensures numeric == NumericCells(clean)
    ensures text == TextCells(clean)
  {
    numeric, text := [], [];
    for k := 0 to |clean|
      invariant numeric == NumericCells(clean[..k])
      invariant text == TextCells(clean[..k])
    {
      assert clean[..k + 1][..k] == clean[..k];
      var cell := clean[k];
      if IsNumericCell(cell) {
        numeric := numeric + [ParseNumber(cell)];
      } else if Strip(cell) != "" {
        text := text + [Strip(cell)];
      }
    }
    assert clean[..|clean|] == clean;
  }

  /** Lines 119-157: the record a data row yields, after the numeric/text split and every filter. */
  method DataRowRecord(ctx: Context, clean: seq<string>) returns (record: Option<PopulationRecord>)
    requires |clean| > 0
    ensures record == RowRecord(ctx, clean)
  {
    record := None;
    var numeric, text := PartitionCells(clean);
    if |numeric| < 3 {
      return;
    }
    if |numeric| >= 4 && numeric[0] < IndexLimit && numeric[1] > numeric[0] {
      numeric := numeric[1..];
    }
    assert numeric == DropLeadingIndex(NumericCells(clean));
    var wardName := Join(" ", text);
    if wardName == "" {
      wardName := clean[0];
    }
    var w := Upper(wardName);
    if HasSummaryKeyword(w) {
      return;
    }
    if w == Upper(ctx.council) || w == Upper(ctx.region) {
      return;
    }
    if numeric[0] < MinTotal {
      return;
    }
    record := Some(PopulationRecord(ctx.region, ctx.council, wardName, numeric[0], numeric[1], numeric[2]));
  }

  /** The body of the row loop (lines 97-157), on the context `ctx`. */
  method ProcessRow(ctx: Context, row: Row, isWardTable: bool) returns (ctx': Context, record: Option<PopulationRecord>)
    ensures (ctx', record) == RowStep(ctx, row, isWardTable)
  {
    var clean := CleanRow(row);
    ctx', record := ctx, None;
    if IsNoiseRow(clean) {
      return;
    }
    var name := clean[0];
    if IsRegionName(name) {
      var region := RegionRowUpdate(ctx.region, clean);
      ctx' := ctx.(region := region);
      return;
    }
    if IsCouncilName(name) {
      ctx' := ctx.(council := name);
      if !isWardTable {
        return;
      }
    }
    record := DataRowRecord(ctx', clean);
  }

  /** The table loop body (lines 88-157): the header decides, then every row in order. */
  method ProcessTable(ctx: Context, table: Table, isSummaryPage: bool) returns (ctx': Context, emitted: seq<PopulationRecord>)
    ensures Step(ctx', emitted) == TableStep(ctx, table, isSummaryPage)
  {
    var isWardTable := IsWardTable(table);
    ctx', emitted := ctx, [];
    if isSummaryPage && !isWardTable {
      return;
    }
    var rows := table.Rows();
    for k := 0 to |rows|
      invariant Step(ctx', emitted) == RowsStep(ctx, rows[..k], isWardTable)
    {
      assert rows[..k + 1][..k] == rows[..k];
      var record;
      ctx', record := ProcessRow(ctx', rows[k], isWardTable);
      if record.Some? {
        emitted := emitted + [record.value];
      }
    }
    assert rows[..|rows|] == rows;
  }

  /** Lines 57-81: the three heading searches, in order. */
  method ApplyHeadings(ctx: Context, page: Page) returns (ctx': Context)
    ensures ctx' == AfterHeadings(ctx, page)
  {
    ctx' := ctx;
    if page.regionHeading.Some? {
      var found := FirstNameIn(Regions, HeadingName(page.regionHeading.value));
      if found.Some? {
        ctx' := Context(found.value, Unknown);
      }
    }
    assert ctx' == AfterRegionHeading(ctx, page.regionHeading);
    ghost var afterRegion := ctx';
    if page.councilByRegionHeading.Some? {
      var found := FirstNameIn(Regions, HeadingName(page.councilByRegionHeading.value));
      if found.Some? && found.value != ctx'.region {
        ctx' := Context(found.value, Unknown);
      }
    }
    assert ctx' == AfterCouncilByRegionHeading(afterRegion, page.councilByRegionHeading);
    if page.councilHeading.Some? {
      var name := Strip(page.councilHeading.value);
      if |name| < MaxHeadingLength {
        ctx' := ctx'.(council := name);
      }
    }
  }

  /** The page loop body (lines 42-157). */
  method ProcessPage(ctx: Context, page: Page) returns (ctx': Context, emitted: seq<PopulationRecord>)
    ensures Step(ctx', emitted) == PageStep(ctx, page)
  {
    ctx', emitted := ctx, [];
    if page.text.None? || page.text.value == "" {
      return;
    }
    var isSummaryPage := IsSummaryPage(page.text.value);
    ctx' := ApplyHeadings(ctx, page);
    var tables := page.tables;
    if |tables| == 0 {
      return;
    }
    ghost var start := ctx';
    for k := 0 to |tables|
      invariant Step(ctx', emitted) == TablesStep(start, tables[..k], isSummaryPage)
    {
      assert tables[..k + 1][..k] == tables[..k];
      var more;
      ctx', more := ProcessTable(ctx', tables[k], isSummaryPage);
      emitted := emitted + more;
    }
    assert tables[..|tables|] == tables;
  }

  /**
   * `extract_census`: walks the pages from `startPage` on with the context
   * starting at Unknown/Unknown, then drops exact duplicates.
   */
  method ExtractCensus(pages: seq<Page>, startPage: nat) returns (records: seq<PopulationRecord>)
    ensures records == Extract(pages, startPage)
  {
    var data: seq<PopulationRecord> := [];
    var ctx := InitialContext;
    var walked := PagesFrom(pages, startPage);
    for k := 0 to |walked|
      invariant Step(ctx, data) == PagesStep(InitialContext, walked[..k])
    {
      assert walked[..k + 1][..k] == walked[..k];
      var emitted;
      ctx, emitted := ProcessPage(ctx, walked[k]);
      data := data + emitted;
    }
    assert walked[..|walked|] == walked;
    records := DedupBy(data, Identity);
  }
}
