# Tanzania 2022 census: ward extraction and boundary reconciliation

This project models the core of two scripts that build a ward-level population map of Tanzania's 2022 census:

- **`scripts/extract_census_data.py`** reads the tables of the census report and turns ward rows into population records.
  - The walk goes page by page. It keeps the current region and council, which page headings and sub-heading rows update.
  - Numeric cells are parsed with `parse_number`.
  - Noise, heading and summary rows are dropped.
  - A plausibility floor applies.
  - Exact duplicates are removed at the end.
- **`scripts/finalize_mapping.py`** joins those records to the ward boundary units.
  - Names are first canonicalised with `normalize_text`: upper case, a table of spelling overrides, removal of administrative class words, removal of a leading list number, punctuation to spaces, whitespace collapsed.
  - Units are joined on the normalised (region, district, ward) triple.
  - Units still unmatched are joined again on (region, ward) alone.
  - The matched units are counted.

Files:

| file | module | contents |
|---|---|---|
| `optional.dfy` | `Optional` | `Option` |
| `strings.dfy` | `Strings` | ASCII models of the Python string operations used: `\s`, `\d`, `\w`, `upper`, `in`, `strip`, `split()`, `join`, `replace` |
| `data_frames.dfy` | `DataFrames` | pandas `drop_duplicates` (keep first) and `merge(how='left')` over ordered rows |
| `number_parsing.dfy` | `NumberParsing` | `parse_number`, including Python's `int()` grammar, and the numeric-cell pattern `^\d+[\.,]?\d*$` |
| `census_extraction.dfy` | `CensusExtraction` | the report walk |
| `extraction_properties.dfy` | `ExtractionProperties` | what the walk guarantees |
| `name_normalizer.dfy` | `NameNormalizer` | `NAME_OVERRIDES`, `normalize_text` and its properties |
| `reconciler.dfy` | `Reconciler` | the two-pass join, the count and the rate |

The extractor's loops and the join's in-place fill are modelled as methods:

- `ExtractCensus`, `ProcessPage`, `ProcessTable`, `ProcessRow` and `PartitionCells` for the extractor.
- `FinalizeMapping`, `UnmatchedPositions` and `WriteBack` for the join.

Each method is proved equal to a pure specification:

- The extraction is a left fold: `RowStep`, `TableStep`, `PageStep`, `Extract`.
- The join has a reference definition, `ReferencePopulation`. A unit takes the first census row with its triple, else the first with its (region, ward) pair, else nothing. It uses no deduplication and no merge.

The properties are proved about those specifications.

Some behaviour of the code is worth stating outright, because a reader might expect otherwise:

- **Not idempotent.** `normalize_text` strips one leading list number per call: "1. 2 X" becomes "2 X", and "2 X" becomes "X" (`NameNormalizer.NotIdempotent`).
- **Whitespace can change a key.** The override table is consulted on the exact upper-cased name, before whitespace is collapsed, so "VIWANJA SITINI" gets the key "VIWANJASITINI" but "VIWANJA SITINI " (trailing space) or "VIWANJA  SITINI" (two spaces) gets "VIWANJA SITINI" (`NameNormalizer.WhitespaceDefeatsOverride`). The list-number pattern is anchored at the start before any whitespace is removed, so "3. W" gets "W" but " 3. W" gets "3 W" (`NameNormalizer.LeadingWhitespaceKeepsIndex`). Otherwise spacing does not matter: replacing one non-empty whitespace run by another non-empty one keeps the key when neither spelling is an override key (`NameNormalizer.WhitespaceRunReplaced`).
- **Empty keys.** Empty normalised keys join like any other key, in the code and in the model.
- **Class words vanish from keys.** A census council "W DISTRICT COUNCIL" already meets a unit with district "W" in the primary join, so it never needs the fallback (`Reconciler.DistrictCouncilSuffixJoins`).
- **Rows with an empty first cell.** A row whose first cell is empty is discarded at line 101 before any keyword test, even when a later cell names a council (`ExtractionProperties.NoiseRow`).
- **One row per unit.** The primary merge yields exactly one row per boundary unit, in unit order (`Reconciler.PrimaryJoinOnePerUnit`), and the populations written back cover every unit (`Reconciler.FinalizeMapping`).

## Model

| member | source | states |
|---|---|---|
| NumberParsing.ParseNumber | scripts/extract_census_data.py:6-12 | a non-zero result comes only from a text that, with commas removed and whitespace stripped, is an integer literal `int()` accepts; empty input and anything else give 0 |
| NumberParsing.NumericCellValue | scripts/extract_census_data.py:6-12 | a cell passing the numeric-cell test parses to the value of its digits when it has no decimal separator, and to 0 when it has one; never negative |
| NumberParsing.ThousandsSeparatorIgnored | scripts/extract_census_data.py:8 | digits, a comma and digits form a numeric cell whose value is that of the digits without the comma |
| NumberParsing.DecimalCellParsesToZero | scripts/extract_census_data.py:9-12 | digits, a decimal point and digits ("12.5") pass the numeric-cell test but parse to 0, because `int()` rejects them |
| NumberParsing.DigitCell | scripts/extract_census_data.py:122-124 | a cell of digits only, such as a row index, is numeric and parses to its decimal value |
| NumberParsing.NumericCellLacks | scripts/extract_census_data.py:122-123 | a numeric cell contains nothing but digits, separators and whitespace |
| NumberParsing.DecimalNotLiteral | scripts/extract_census_data.py:10 | a digit run followed by a decimal point is not an integer literal |
| NumberParsing.IntegerCell | scripts/extract_census_data.py:122-124 | a cell whose cleaned text is all digits is numeric and parses to their value |
| CensusExtraction.CleanRow | scripts/extract_census_data.py:97 | cleaning keeps one cell per input cell |
| CensusExtraction.FirstContained | scripts/extract_census_data.py:61-65 | the result is absent exactly when no listed name occurs in the text; otherwise it is the first listed name that occurs |
| CensusExtraction.LastContained | scripts/extract_census_data.py:106-108 | the result is absent exactly when no listed name occurs; otherwise it is the last listed name that occurs |
| CensusExtraction.FirstNameIn | scripts/extract_census_data.py:61-65 | the loop with `break` over the region list returns the first listed region contained in the heading |
| CensusExtraction.LastNameIn | scripts/extract_census_data.py:106-108 | the loop without `break` leaves the last listed name contained in the text when enabled, else the current value |
| CensusExtraction.RegionRowUpdate | scripts/extract_census_data.py:105-108 | the loop without `break` leaves the last listed region found in the row text, and only when the row has fewer than 10 words |
| CensusExtraction.PartitionCells | scripts/extract_census_data.py:119-126 | the per-cell loop yields the parsed numeric cells and the stripped non-empty text cells, both in row order |
| CensusExtraction.DataRowRecord | scripts/extract_census_data.py:128-157 | the record of a data row, after the three-number minimum, the index drop, the ward name, the keyword, name and plausibility filters |
| CensusExtraction.ProcessRow | scripts/extract_census_data.py:97-157 | the row loop body computes the row step: the new context and the record, if any |
| CensusExtraction.ProcessTable | scripts/extract_census_data.py:87-157 | the table loop computes the table step; on a summary page a table without "Ward" in its header is skipped |
| CensusExtraction.ApplyHeadings | scripts/extract_census_data.py:57-81 | the three heading searches update the context in the source's order |
| CensusExtraction.ProcessPage | scripts/extract_census_data.py:42-157 | the page loop body computes the page step: nothing for a page without text, else headings then tables |
| CensusExtraction.ExtractCensus | scripts/extract_census_data.py:27-165 | the whole walk from the start page, with context Unknown/Unknown, then exact-duplicate removal, yields `Extract` |
| ExtractionProperties.ExtractedTable | scripts/extract_census_data.py:137-163 | every extracted record has total at least 10, non-negative counts, a ward name with no summary keyword that differs from its council and region, and a region that is Unknown or listed; no record occurs twice; a record is extracted exactly when the walk emitted it |
| ExtractionProperties.PagesStepInvariant | scripts/extract_census_data.py:41-157 | over any pages, a known region stays known and every emitted record is well formed |
| ExtractionProperties.TablesStepInvariant | scripts/extract_census_data.py:87-157 | the same over the tables of a page |
| ExtractionProperties.RowsStepInvariant | scripts/extract_census_data.py:96-157 | the same over the rows of a table |
| ExtractionProperties.RowStepInvariant | scripts/extract_census_data.py:96-157 | the same for one row |
| ExtractionProperties.ExtractedInEmissionOrder | scripts/extract_census_data.py:162-163 | the extracted table is the emitted records read at strictly increasing positions, which are exactly the first emission of each record: duplicates go, the order stays |
| ExtractionProperties.PagesBeforeDefaultStartIgnored | scripts/extract_census_data.py:27-41 | with the default start page 50, two reports that agree from page 50 on extract the same table |
| ExtractionProperties.EmittingRowIsData | scripts/extract_census_data.py:97-116 | a row that yields a record is not noise, names neither a region nor a council, keeps the context, and its step is the record built from its cleaned cells |
| ExtractionProperties.RowRecordFacts | scripts/extract_census_data.py:128-157 | a record built from cleaned cells has three or more numeric cells, carries the context, passes every filter, and takes its counts and name from those cells |
| ExtractionProperties.EmittingRow | scripts/extract_census_data.py:96-157 | a row yields a record only if it is not noise, names no region or council and has three or more numeric cells; such a row keeps the context; its record carries that context, passes every filter, takes its counts from the numeric cells after any index, and is named by the joined text cells or else the first cell |
| ExtractionProperties.FewNumericCellsNoRecord | scripts/extract_census_data.py:119-128 | a row with fewer than three numeric cells never yields a record |
| ExtractionProperties.NoiseRow | scripts/extract_census_data.py:97-101 | an all-empty row, a row with an empty first cell, one containing "Sex Ratio" or one whose first cell contains "Population" changes nothing and yields nothing |
| ExtractionProperties.RegionRow | scripts/extract_census_data.py:104-109 | a region row never yields a record and never touches the council; the region stays, or becomes a listed region contained in the row text of fewer than 10 words |
| ExtractionProperties.CouncilRow | scripts/extract_census_data.py:112-116 | a row whose first cell names a council sets the council to that cell and yields no record, in a ward table too |
| ExtractionProperties.CouncilNameLeadsWard | scripts/extract_census_data.py:134-140 | a ward name beginning with a council name carries a summary keyword, so it is filtered out |
| ExtractionProperties.CouncilKeywordIsSummaryKeyword | scripts/extract_census_data.py:25 | every council keyword of line 112 is also a summary keyword |
| ExtractionProperties.CouncilNameNotNumeric | scripts/extract_census_data.py:112-124 | a first cell naming a council is never a numeric cell |
| ExtractionProperties.RowKeepsRegionKnown | scripts/extract_census_data.py:103-109 | a row never moves the region away from Unknown or a listed region |
| ExtractionProperties.NumericCellsNonNegative | scripts/extract_census_data.py:119-124 | every parsed numeric cell is non-negative |
| ExtractionProperties.IndexedWardRow | scripts/extract_census_data.py:119-157 | a row of an index, an upper-case ward name and three figures, where the index is below 500 and below the total and the total is at least 10, yields the record (current region, current council, ward, total, male, female) with the index dropped, in any table |
| ExtractionProperties.IndexedRowRecord | scripts/extract_census_data.py:128-157 | the record such a row yields |
| ExtractionProperties.IndexedRowCells | scripts/extract_census_data.py:119-133 | its figures after the index drop are the three counts, and its joined text is the ward name |
| ExtractionProperties.TextRowRecord | scripts/extract_census_data.py:128-157 | cleaned cells with three figures and a ward name that passes the keyword, council, region and plausibility filters yield exactly the record (region, council, ward, figures) |
| ExtractionProperties.IndexedRowNoSexRatio | scripts/extract_census_data.py:101 | no cell of such a row contains "Sex Ratio" |
| ExtractionProperties.IndexedRowNumbers | scripts/extract_census_data.py:119-124 | the numeric cells of such a row are the index value and the three figures |
| ExtractionProperties.IndexedRowTexts | scripts/extract_census_data.py:125-126 | its only text cell is the ward name |
| ExtractionProperties.IndexedRowIsData | scripts/extract_census_data.py:98-112 | such a row is not noise, and its first cell names neither a region nor a council |
| ExtractionProperties.IndexDropped | scripts/extract_census_data.py:131-132 | four values whose first is below 500 and below the second lose the first |
| ExtractionProperties.DataRowStep | scripts/extract_census_data.py:98-116 | a row that is neither noise, region nor council keeps the context and yields its record |
| ExtractionProperties.NumericCellsConcat | scripts/extract_census_data.py:121-124 | numeric cells are collected cell by cell, so a split row collects its two halves' values in order |
| ExtractionProperties.TextCellsConcat | scripts/extract_census_data.py:121-126 | text cells are collected the same way |
| ExtractionProperties.RegionHeadingSetsFirstListedRegion | scripts/extract_census_data.py:58-65 | a "Region N:" heading sets the region to the first listed region contained in the capture and resets the council to Unknown |
| ExtractionProperties.CouncilByRegionHeadingResetsOnChange | scripts/extract_census_data.py:67-75 | a "by Council ... Region" heading changes the context only when the first listed region it names differs from the current one |
| ExtractionProperties.CouncilHeadingDecidesCouncil | scripts/extract_census_data.py:77-81 | a council heading shorter than 50 characters decides the council, whatever the region headings did |
| ExtractionProperties.NoHeadingsKeepContext | scripts/extract_census_data.py:57-81 | the heading searches of a page without any of the three headings leave the context as it was; only the page's table rows can change it |
| ExtractionProperties.NoHeadingsPageIsTableWalk | scripts/extract_census_data.py:43-116 | a page with text but without any of the three headings is exactly the walk of its tables from the incoming context, so its region and council rows still move the context |
| ExtractionProperties.HeadingsKeepRegionKnown | scripts/extract_census_data.py:57-75 | headings only ever set a listed region |
| ExtractionProperties.TextlessPage | scripts/extract_census_data.py:43-46 | a page without text changes neither the context nor the output |
| ExtractionProperties.SummaryPageSkipsNonWardTables | scripts/extract_census_data.py:90-94 | on a "Table N.0" page, tables without "Ward" in the header contribute nothing and change nothing |
| NameNormalizer.NormalizeText | scripts/finalize_mapping.py:18-27 | the empty name gives the empty key |
| NameNormalizer.NormalizedKeyIsCanonical | scripts/finalize_mapping.py:19-27 | every key consists of word characters and single spaces, with no space at either end |
| NameNormalizer.RemoveClassWords | scripts/finalize_mapping.py:24 | removing class words never lengthens the name |
| NameNormalizer.RemoveClassWordsRun | scripts/finalize_mapping.py:24 | a maximal run of word characters is deleted exactly when it is a class word; the rest follows unchanged |
| NameNormalizer.StripLeadingIndex | scripts/finalize_mapping.py:25 | removing the list number never lengthens the name |
| NameNormalizer.PunctuationToSpace | scripts/finalize_mapping.py:26 | length is kept, and only word characters and whitespace remain |
| NameNormalizer.SameUpperSameKey | scripts/finalize_mapping.py:20 | names equal once upper-cased share a key |
| NameNormalizer.CaseInsensitive | scripts/finalize_mapping.py:20 | a name and its lower-case form share a key |
| NameNormalizer.OverrideTableShape | scripts/finalize_mapping.py:8-16 | each override maps a non-empty upper-case name to a non-empty upper-case name that is not overridden again |
| NameNormalizer.OverrideKeyUpperCase | scripts/finalize_mapping.py:8-16 | every override key is non-empty and already upper case, so the upper-cased name at line 20 can meet it |
| NameNormalizer.OverrideValueUpperCase | scripts/finalize_mapping.py:8-16 | every override value is non-empty and upper case |
| NameNormalizer.OverrideValueNotKey | scripts/finalize_mapping.py:8-22 | no override value is itself an override key, so the single lookup at lines 21-22 is final |
| NameNormalizer.OverridePairsShareKey | scripts/finalize_mapping.py:8-22 | each boundary-file spelling in the override table shares its key with the census spelling it maps to |
| NameNormalizer.OverrideSharesKey | scripts/finalize_mapping.py:21-22 | a name overridden to the upper-cased form of another, non-overridden name shares that name's key |
| NameNormalizer.ClassWordsRemoved | scripts/finalize_mapping.py:24 | a plain name followed by " DISTRICT COUNCIL" normalises to the plain name |
| NameNormalizer.TrailingClassWordsRemoved | scripts/finalize_mapping.py:24-27 | a plain word followed by any two class words normalises to the word alone |
| NameNormalizer.LeadingIndexRemoved | scripts/finalize_mapping.py:25 | a list number, ". " and a plain name normalise to the plain name |
| NameNormalizer.NotIdempotent | scripts/finalize_mapping.py:25 | a second call can change a key: two list numbers before a word lose one per call |
| NameNormalizer.TwoPlainWordsKey | scripts/finalize_mapping.py:20-27 | two plain words that no override names get the key "V W", whatever non-empty whitespace separates them and whatever whitespace follows them |
| NameNormalizer.WhitespaceRunReplaced | scripts/finalize_mapping.py:20-27 | replacing one non-empty whitespace run in a name by another keeps the key, provided neither spelling, upper-cased, is an override key |
| NameNormalizer.WhitespaceDefeatsOverride | scripts/finalize_mapping.py:21-27 | the override applies only to the exact spelling: "VIWANJA SITINI" gets the key "VIWANJASITINI", while the same words with any other separating run or with trailing whitespace get "VIWANJA SITINI" |
| NameNormalizer.LeadingWhitespaceKeepsIndex | scripts/finalize_mapping.py:25-27 | the list number is stripped only at the very start: a number, ". " and a plain word give the word, but after leading whitespace they give the number, a space and the word |
| NameNormalizer.KeyOfUpperName | scripts/finalize_mapping.py:20-27 | an upper-case name that is not overridden goes through the rest of the chain unchanged |
| NameNormalizer.PlainWordKey | scripts/finalize_mapping.py:24-27 | the steps after the override (class-word removal, list-number removal, punctuation, whitespace) keep a plain upper-case word that is not a class word and does not start with a digit |
| NameNormalizer.PlainWordIsOwnKey | scripts/finalize_mapping.py:19-27 | such a word is its own key when it is not an override key; an override key is first replaced |
| NameNormalizer.DigitFirstNotOverridden | scripts/finalize_mapping.py:8-16 | no override key starts with a digit |
| NameNormalizer.EndsInLNotOverridden | scripts/finalize_mapping.py:8-16 | no override key ends in L |
| Reconciler.FinalizeMapping | scripts/finalize_mapping.py:47-79 | the populations after both passes equal the reference populations; the unmatched count after the primary pass, the final matched count and the rate are those of the reference |
| Reconciler.PrimaryJoin | scripts/finalize_mapping.py:51-62 | the primary merge gives each unit the first census row with its triple |
| Reconciler.UnmatchedPositions | scripts/finalize_mapping.py:65-66 | the unmatched mask lists, in increasing order, exactly the units without a population; their number is the unit count minus the matched count |
| Reconciler.FallbackJoin | scripts/finalize_mapping.py:68-75 | the fallback merge gives each masked unit the first census row with its (region, ward) pair |
| Reconciler.WriteBack | scripts/finalize_mapping.py:76 | the j-th fallback value lands on the j-th masked unit; every other unit keeps its value |
| Reconciler.WriteBackReconciles | scripts/finalize_mapping.py:76 | filling the masked units with their fallback values yields the reference populations |
| Reconciler.CountPopulated | scripts/finalize_mapping.py:78 | the count is the number of units with a population |
| Reconciler.PrimaryJoinOnePerUnit | scripts/finalize_mapping.py:51-62 | after deduplication the triples are distinct, and the primary merge yields exactly one row per unit, in unit order, with the first census row of that triple |
| Reconciler.FallbackFindsFirst | scripts/finalize_mapping.py:68 | the census deduplicated on the pair has distinct pairs, and a lookup in it finds the first census row with that pair in the extracted order |
| Reconciler.LeftMergeFallback | scripts/finalize_mapping.py:70-75 | the fallback merge has one row per masked unit |
| Reconciler.PrimaryIsFirstCensusRow | scripts/finalize_mapping.py:51 | a unit has a primary population exactly when some census row has its triple, and then it is that of the first such row |
| Reconciler.PrimaryAbsentIffNoTriple | scripts/finalize_mapping.py:58-65 | a unit is unmatched after the primary join exactly when no census row has its triple |
| Reconciler.FallbackIsFirstCensusRow | scripts/finalize_mapping.py:68 | a fallback population is that of the first census row with the unit's (region, ward) pair |
| Reconciler.FallbackKeepsPrimaryMatches | scripts/finalize_mapping.py:65-76 | units matched by the primary join keep their values |
| Reconciler.UnmatchedMeansNoPair | scripts/finalize_mapping.py:65-79 | a unit ends without a population exactly when no census row shares its normalised (region, ward) pair; its population is then absent, not 0 |
| Reconciler.PrimaryImpliesFallback | scripts/finalize_mapping.py:51-68 | a unit that some census row matches on the triple is also matched on the (region, ward) pair |
| Reconciler.FallbackNoneMeansNoPair | scripts/finalize_mapping.py:68-75 | the fallback finds nothing for a unit exactly when no census row has its (region, ward) pair |
| Reconciler.MatchCountMonotone | scripts/finalize_mapping.py:65-78 | the matched count after both passes is at least the count after the primary pass |
| Reconciler.CountMatchedMonotone | scripts/finalize_mapping.py:78 | where one list of populations has a value the other does too, so its count is no larger |
| Reconciler.MatchRateBounds | scripts/finalize_mapping.py:79 | with no units there is no rate; otherwise the rate is between 0 and 100, and 100 when every unit matched |
| Reconciler.DistrictCouncilSuffixJoins | scripts/finalize_mapping.py:47-62 | a census council "W DISTRICT COUNCIL" and a unit district "W", with the same normalised region and ward, are matched by the primary join |
| DataFrames.DedupBy | scripts/finalize_mapping.py:51 | `drop_duplicates` keeps rows of the input, with distinct keys, and a row for every key of the input |
| DataFrames.DedupKeepsFirstOccurrences | scripts/finalize_mapping.py:51 | the result is the input read at strictly increasing positions, and those positions are exactly the first occurrences of each key: the first row of every key, in input order |
| DataFrames.FirstWithKeyAfterDedup | scripts/finalize_mapping.py:51-68 | after deduplication, looking up a key or a coarser key finds the same row as in the original rows: the first occurrence wins |
| DataFrames.LeftMergeOnDistinctKeys | scripts/finalize_mapping.py:58-62 | a left merge against distinct keys has one row per left row, in order, carrying the looked-up right row |
| DataFrames.MatchingOnDistinctKeys | scripts/finalize_mapping.py:58-62 | against distinct keys a key matches at most one row, the one the lookup finds |
| DataFrames.FirstWithKey | scripts/finalize_mapping.py:58-62 | the lookup is absent exactly when no row has the key; otherwise it is a row with the key and no earlier row has it |
| Strings.Strip | scripts/extract_census_data.py:8 | `strip()` gives a slice of its input with only whitespace cut off before and after it, and no whitespace left at either end |
| Strings.Split | scripts/finalize_mapping.py:27 | `split()` yields non-empty words without whitespace |
| Strings.SplitAtSpace | scripts/finalize_mapping.py:27 | a whitespace character separates words: splitting around it splits the two sides independently and concatenates their words |
| Strings.SplitOfWord | scripts/finalize_mapping.py:27 | a non-empty string without whitespace is a single word |
| Strings.SplitKeepsNonSpaceChars | scripts/finalize_mapping.py:27 | the words of `split()`, concatenated, are exactly the non-whitespace characters of the input, in order |
| Strings.StripKeepsNonSpace | scripts/extract_census_data.py:97 | `strip()` keeps every character that is not whitespace |

## Left out

- **Document and file I/O.** Out of scope:
  - opening the PDF with pdfplumber, and the missing-file check at `scripts/extract_census_data.py:30-32`;
  - reading and writing CSV and GeoPackage files;
  - the shapefile search with `os.walk`.

  The model takes the pages, and the census and boundary rows, as values.
- **Progress and status printing.** Not modelled; the method returns the count and the rate instead.
- **Text, tables and headings as input.** The page text, its tables and the three heading-regex captures (lines 58, 67, 77) are given per page. The regex engine is not modelled; what the code does with each capture is.
- **`"Sex Ratio" in str(clean_row)`** is modelled as "some cell contains Sex Ratio". The list's text form wraps each cell in quotes, escapes backslashes, quotes and non-printable characters inside it, and puts brackets around the list and ", " between cells. "Sex Ratio" contains none of these added characters, so it occurs in the text form only inside one cell.
- **Area, projection and density** (`scripts/finalize_mapping.py:81-96`): floating-point geodesy through a foreign library.
- **Other scripts.** `scripts/analysis.py`, `scripts/compare_tza_rwa.py` and `scripts/download_census.py` are not part of this model.
- NumberParsing.ParseNumber: the limit that recent Python versions put on the length of a decimal string given to `int()` (4300 digits by default) is not modelled. The code turns the resulting ValueError into 0 at `scripts/extract_census_data.py:11-12`; the model returns the value of the digits however many there are.
- NumberParsing.NumericCellValue: for the same reason, a numeric cell longer than that limit is stated to parse to its digits' value, where the code gives 0.
- **Unicode.** `\w`, `\s` and `upper` are modelled on ASCII only.
- **Non-string values.**
  - `str()` of non-string cells: pdfplumber cells are modelled as optional strings.
  - Missing values read from the CSV: a missing name reaches `normalize_text` as NaN, which `str(...).upper()` at `scripts/finalize_mapping.py:20` turns into the key "NAN"; missing names are not modelled.
  - Keys are always strings: an empty or missing name gives "" at `scripts/finalize_mapping.py:19`, a NaN name gives "NAN", and every other name a string, so no NaN key reaches the merges.
- **Concrete rows and names** are covered by lemmas over any plain word and any digit strings, not by individual values:
  - ExtractionProperties.IndexedWardRow requires an upper-case ward name;
  - NumberParsing.ThousandsSeparatorIgnored covers one comma;
  - NameNormalizer.ClassWordsRemoved and NameNormalizer.LeadingIndexRemoved require a plain word.
- **Empty tables.** A page table is modelled as a header row and body rows, so it cannot be empty; on an empty table the code would fail at `scripts/extract_census_data.py:88`, where it reads `table[0]`.
- **Extraction properties hold for any page content.** ExtractionProperties.ExtractedTable states the emitted record set for arbitrary pages. It does not evaluate any concrete page of the report.
