# Credit-card statement extractor: a verified model of the extraction core

`streamlit_extractor.py` turns the text of credit-card statements into
transaction records (`Data`, `Data_Operazione`, `Descrizione`, `Importo`,
`Codice_Riferimento`). This project models its core in Dafny and proves what
that core promises:

- **Line recognition and normalisation** (`parse_movements_from_text`). Each
  page's text is matched against a primary layout: a reference code of 20 or
  more digits, an 8-digit code, two dd/mm/yyyy dates, a description and a
  `d+,dd` amount. Only when the primary layout yields no record is a reduced
  layout used instead. It has the two dates, the description and the amount.
  Each matched tuple is normalised:
  - the description is stripped and its whitespace runs collapsed;
  - the amount is read in whole cents;
  - the registration date is parsed strictly and formatted back.

  A tuple whose date does not parse is dropped.
- **The page loop** of `extract_movements_from_pdf`: page records are
  concatenated in page order, and pages without text are skipped.
- **Post-processing** (`process_data`): empty input is returned as is.
  Otherwise duplicates on (`Data`, `Descrizione`, `Importo`) are optionally
  removed, keeping the first of each, and the records are optionally given a
  stable sort by date.
- **Monthly analysis**: records are grouped by (year, month), in ascending
  order, with a count and a sum per month.

Modules, one file each:

- `Wrappers`: the `Option` type.
- `Digits`: ASCII digit runs.
- `Dates`: strict date parse and format, leap years, chronological key.
- `Amounts`: decimal-comma amounts in cents.
- `Descriptions`: whitespace cleaning with Python's whitespace set.
- `Records`: the `Movement` record.
- `Seqs`: the two list-building loops, as generic functions with their lemmas.
- `Extraction`: layouts, normalisation, layout choice, pages.
- `Processing`: de-duplication, stable sort, `process_data`.
- `Monthly`: the grouping.

The regular expressions are not executed. A layout's matcher is a parameter
(`Extraction.Recognisers`): a function from page text to the tuples it
matched, in order. `Extraction.Sound` states the field shapes each pattern
guarantees (`\d{20,}`, `\d{8}`, `\d{2}/\d{2}/\d{4}`, `.+?`, `\d+,\d{2}`).

A `Movement` keeps its registration date as a valid calendar date. Its `Data`
text is `Records.DateText`. That is how the source builds it: `Data` is
always `strftime` of a date that `strptime` accepted. `Records.DateTextParses`
shows that re-parsing `Data` (as the sort key and the monthly grouping do)
gives the date back. Two records therefore have the same `Data` exactly when
they have the same date.

Two details of the code decide what the model does:

- The fallback depends on records, not on matches. Line 86 tests
  `if not movements`, so the reduced layout is also used when the primary
  layout matched but every match was dropped for a bad date.
  `Extraction.PageMovements` and `Extraction.LayoutChoice` state this rule.
- Re-formatting the registration date (lines 70-73) rejects dates that do not
  exist. On the text the date pattern lets through it changes nothing else,
  provided that text is written in ASCII digits and `strftime("%Y")` writes
  four digits (the `Extraction.Normalize` and `Dates.FormatDate` lines under
  "## Left out" cover the other cases). Such text is already two, two and
  four digits, so formatting the parsed date returns it unchanged. This is
  `Dates.FormatParse`.

## Model

| member | source | states |
|---|---|---|
| Dates.DaysInMonth | streamlit_extractor.py:70 | A month has 28 to 31 days: 29 only for February in a Gregorian leap year, 28 for February otherwise, 30 exactly for April, June, September and November |
| Dates.ParseDate | streamlit_extractor.py:70 | `strptime(.., "%d/%m/%Y")` on the matched text: a result only for dd/mm/yyyy text naming a real date with year 1..9999 |
| Dates.FormatDate | streamlit_extractor.py:73 | `strftime("%d/%m/%Y")`: always produces the dd/mm/yyyy shape |
| Dates.ParseFormat | streamlit_extractor.py:70-73 | Formatting a valid date and parsing it again gives the same date |
| Dates.FormatParse | streamlit_extractor.py:70-73 | On every text the parse accepts, parsing then formatting returns that same text, so `Data` equals the matched registration date |
| Dates.FormatDateInjective | streamlit_extractor.py:73 | Different dates never get the same `Data` text |
| Dates.OrdinalIsChronological | streamlit_extractor.py:136 | The numeric sort key orders valid dates as `datetime` compares them, and two dates have equal keys only when they are the same date |
| Dates.ThirtyFirstOfFebruaryRejected | streamlit_extractor.py:70 | "31/02/2023" is rejected |
| Dates.TwentyNinthOfFebruaryRejectedIn2023 | streamlit_extractor.py:70 | "29/02/2023" is rejected (2023 is not a leap year) |
| Dates.TwentyNinthOfFebruaryAcceptedIn2024 | streamlit_extractor.py:70 | "29/02/2024" is accepted as 29 February 2024 |
| Amounts.ParseAmount | streamlit_extractor.py:67 | A result exactly for `\d+,\d{2}` text; the cents divided by 100 are the integer part and the cents modulo 100 are the two decimals (`int*100 + frac`) |
| Amounts.FormatAmount | streamlit_extractor.py:54 | Every amount in cents has a numeral of the matched `\d+,\d{2}` shape |
| Amounts.ParseFormatAmount | streamlit_extractor.py:67 | Reading the numeral of an amount gives that amount back |
| Amounts.AmountExamples | streamlit_extractor.py:67 | "12,50" reads as 1250 cents and "1234,00" as 123400 |
| Amounts.MalformedAmountsRejected | streamlit_extractor.py:54 | A thousands separator, a single decimal digit or a missing comma is not an amount |
| Descriptions.TrimStart | streamlit_extractor.py:63 | Drops exactly the leading whitespace: the result is a suffix with no leading whitespace, everything dropped is whitespace, and the words are unchanged |
| Descriptions.TrimEnd | streamlit_extractor.py:63 | Drops trailing whitespace: the result is a prefix with no trailing whitespace and the same words |
| Descriptions.Strip | streamlit_extractor.py:63 | `strip()`: the result is a contiguous slice of the input with only whitespace before and after it, and does not itself start or end with whitespace; the words are unchanged |
| Descriptions.CollapseRuns | streamlit_extractor.py:64 | `re.sub(r'\s+', ' ', ..)`: empty only for empty input; keeps whether each end is whitespace; leaves single plain spaces only; keeps the words |
| Descriptions.CleanDescription | streamlit_extractor.py:63-64 | The cleaned description has no whitespace at its ends, no run of two whitespace characters, no whitespace but plain spaces, and exactly the words of the matched text |
| Descriptions.CleanTextIsFixed | streamlit_extractor.py:63-64 | Already clean text is left unchanged |
| Descriptions.CleanDescriptionIdempotent | streamlit_extractor.py:63-64 | Cleaning twice is cleaning once |
| Records.DateTextParses | streamlit_extractor.py:73 | Re-parsing `Data` gives the record's date; two records have equal `Data` exactly when their dates are equal |
| Seqs.FilterMap | streamlit_extractor.py:58-83 | At most one record per matched tuple |
| Seqs.FilterMapLoop | streamlit_extractor.py:58-83 | The `for match in matches` loop with `append` builds exactly the records of the tuples that normalise, in tuple order |
| Seqs.FilterMapAppend | streamlit_extractor.py:58-83 | Tuples are handled one at a time: the records of two runs of tuples are concatenated |
| Seqs.FilterMapSkipsFailure | streamlit_extractor.py:82-83 | A tuple that fails contributes nothing, and the tuples after it are still processed |
| Seqs.FilterMapProvenance | streamlit_extractor.py:58-83 | Every record is the normalisation of one of the tuples |
| Seqs.ConcatMapAppend | streamlit_extractor.py:24-28 | The records of two runs of pages are those of the first run followed by those of the second |
| Seqs.ConcatMapOfEmpties | streamlit_extractor.py:24-28 | Pages that yield nothing contribute nothing |
| Seqs.ConcatMapProvenance | streamlit_extractor.py:24-28 | Every record comes from one page |
| Extraction.WellShaped | streamlit_extractor.py:54 | The shapes of the six groups of the primary pattern (line 54) and of the four of the reduced pattern (line 87): reference code of 20 or more digits, 8-digit code, dd/mm/yyyy dates, a non-empty description, digits-comma-two-digits amount |
| Extraction.Sound | streamlit_extractor.py:54-88 | A layout's matcher only returns tuples of the shape its pattern guarantees (primary pattern line 54, reduced pattern line 87) |
| Extraction.Normalize | streamlit_extractor.py:59-80 | A record exactly when the amount and the registration date parse. Its `Data` is the matched registration date and its date that date parsed. The description is clean, `Importo` is the parsed amount and `Data_Operazione` the matched operation date. The code is the matched one for the primary layout and "" for the reduced layout |
| Extraction.NormalizedDescription | streamlit_extractor.py:63-64 | The record's description has exactly the words of the matched description |
| Extraction.DroppedIffDateInvalid | streamlit_extractor.py:59-83 | A well-shaped tuple is dropped exactly when its registration date is not a calendar date |
| Extraction.NormalizeAll | streamlit_extractor.py:58-83 | At most one record per tuple |
| Extraction.NormalizedFromTuples | streamlit_extractor.py:58-83 | Every record of a layout is the normalisation of one of its tuples |
| Extraction.InvalidDateDropped | streamlit_extractor.py:82-83 | A tuple with an invalid registration date (e.g. 31/02) is dropped, never defaulted, and the tuples around it are still processed |
| Extraction.PageMovements | streamlit_extractor.py:86 | A page yields at most as many records as the two layouts matched tuples |
| Extraction.ParseMovementsFromText | streamlit_extractor.py:48-114 | Returns the primary layout's records, or the reduced layout's records exactly when the primary layout produced none |
| Extraction.LayoutChoice | streamlit_extractor.py:86-106 | If the primary layout produced records, they are the page's records and every one has a reference code of 20 or more digits. Otherwise the page's records are exactly the reduced layout's, all with code "" |
| Extraction.PageRecordsWellFormed | streamlit_extractor.py:63-64 | Every record of a page has a clean description |
| Extraction.PageOrSkip | streamlit_extractor.py:26 | A page without text yields no records |
| Extraction.DocumentMovements | streamlit_extractor.py:24-28 | The records of a document: the records of each page with text, concatenated in page order |
| Extraction.DocumentMovementsFromPages | streamlit_extractor.py:24-28 | Every record of a document is a record of one of its pages that has text |
| Extraction.ExtractMovementsFromPages | streamlit_extractor.py:24-28 | The page loop with `extend` returns the records of the pages with text, in page order |
| Extraction.DocumentMovementsAppend | streamlit_extractor.py:24-28 | The records of a document are the records of its first pages followed by those of the rest |
| Extraction.BlankPagesYieldNothing | streamlit_extractor.py:26 | A document with no page text yields no records |
| Extraction.DocumentRecordsWellFormed | streamlit_extractor.py:24-28 | Every record of a document has a clean description |
| Processing.KeyOf | streamlit_extractor.py:127 | The duplicate key of a record: its (`Data`, `Descrizione`, `Importo`) triple |
| Processing.KeyOfIsSourceKey | streamlit_extractor.py:127 | Two records have the same key exactly when their `Data` texts, descriptions and amounts are equal |
| Processing.Dedup | streamlit_extractor.py:122-132 | Never longer than its input |
| Processing.DedupKeys | streamlit_extractor.py:122-132 | Every key (`Data`, `Descrizione`, `Importo`) of the input has a record in the output, and no other key does |
| Processing.DedupNoDuplicates | streamlit_extractor.py:122-132 | No two output records share a key |
| Processing.DedupIsSubsequence | streamlit_extractor.py:122-132 | The output is the input with records left out, in the same relative order |
| Processing.DedupSubMultiset | streamlit_extractor.py:122-132 | Only input records are output, each at most as often as it occurs in the input |
| Processing.DedupKeepsFirst | streamlit_extractor.py:122-132 | Each output record is the first input record with its key |
| Processing.DedupOfUniqueIsIdentity | streamlit_extractor.py:122-132 | Input without duplicate keys passes unchanged |
| Processing.DedupIdempotent | streamlit_extractor.py:122-132 | Removing duplicates twice is removing them once |
| Processing.DateKey | streamlit_extractor.py:136 | The sort key: `strptime` of `Data`, as a number that orders dates chronologically |
| Processing.DateKeyIsParsedData | streamlit_extractor.py:136 | Parsing `Data` gives back the record's date; keys compare as those dates do, and two keys are equal exactly when the `Data` texts are |
| Processing.Insert | streamlit_extractor.py:136 | Inserting adds exactly the new record and moves no other in or out |
| Processing.SortByDate | streamlit_extractor.py:136 | The sort is a permutation of its input |
| Processing.InsertSorted | streamlit_extractor.py:136 | Inserting into date order keeps date order |
| Processing.SortByDateSorted | streamlit_extractor.py:136 | The output is non-decreasing in (year, month, day) |
| Processing.InsertStable | streamlit_extractor.py:136 | The inserted record goes after every record of its date already present |
| Processing.SortByDateStable | streamlit_extractor.py:136 | For every date, its records come out in their input order (stability) |
| Processing.SortOfSortedIsIdentity | streamlit_extractor.py:136 | Input already in date order is left unchanged |
| Processing.SortByDateIdempotent | streamlit_extractor.py:136 | Sorting twice is sorting once |
| Processing.SortedUnique | streamlit_extractor.py:136 | Two date-ordered sequences that hold, date by date, the same records in the same order are equal |
| Processing.StableSortIsUnique | streamlit_extractor.py:136 | Any output in date order that keeps the input order within each date equals `SortByDate` of the input, so any stable sort gives the modelled result |
| Processing.InsertNoDuplicates | streamlit_extractor.py:136 | Inserting a record with a new key keeps keys distinct |
| Processing.SortByDateNoDuplicates | streamlit_extractor.py:135-136 | Sorting de-duplicated records keeps them free of duplicates |
| Processing.Processed | streamlit_extractor.py:116-138 | `process_data` never adds records: its output is a sub-multiset of its input |
| Processing.ProcessData | streamlit_extractor.py:116-138 | The function with its `seen`-set loop returns exactly the specified processing of its input |
| Processing.ProcessedProperties | streamlit_extractor.py:116-138 | Both options off: output is the input. Empty input: output is empty. Duplicate removal on: one record per input key, no duplicates. Duplicate removal off: a permutation of the input. Sorting on: date order |
| Processing.ProcessedKeepsSameDateOrder | streamlit_extractor.py:135-136 | With sorting on, records of each date keep the order they had after duplicate removal |
| Monthly.MonthlyStats | streamlit_extractor.py:278-283 | `to_datetime`, `to_period('M')` and `groupby(...).agg(count, sum)`: at most one row per record, and no rows exactly when there are no records |
| Monthly.AddRecord | streamlit_extractor.py:281-283 | Counting a record yields a non-empty table, with at most one more row, whose rows are rows of the old table or the row of the record's month |
| Monthly.AddRecordAscending | streamlit_extractor.py:281-283 | Counting a record keeps the rows in strictly ascending (year, month) order |
| Monthly.AddRecordLookup | streamlit_extractor.py:281-283 | Counting a record adds one to its month's count and its amount to its month's sum, creating the row if needed, and changes no other month |
| Monthly.AddRecordSums | streamlit_extractor.py:281-283 | Counting a record adds one to the total count and its amount to the total sum |
| Monthly.MonthlyStatsAscending | streamlit_extractor.py:278-283 | The months come out in strictly ascending (year, month) order |
| Monthly.MonthlyStatsLookup | streamlit_extractor.py:278-283 | A month has a row exactly when some record falls in it. That row's count is the number of records in the month and its sum the sum of their amounts in cents |
| Monthly.MonthlyStatsRows | streamlit_extractor.py:278-283 | Every row has at least one record, its count is its month's number of records and its sum their total amount |
| Monthly.MonthlyStatsSums | streamlit_extractor.py:278-283 | The counts add up to the number of records and the sums to the total of all amounts |

## Left out

- Regular-expression matching (lines 54, 56, 87-88) is not modelled. Matchers are parameters and `Extraction.Sound` states only the field shapes each pattern guarantees. The model does not say which tuples `re.findall` finds in a given text. This covers the non-greedy description boundary, `\s+` spanning line breaks under `re.MULTILINE`, and which overlapping candidates win.
- PDF text extraction with `pdfplumber`/`PyPDF2` and the exception-driven switch between them (lines 22-46) is left out; these are foreign libraries doing binary parsing. A document is its sequence of page texts.
- The Streamlit interface (lines 148-309) is left out: uploads, checkboxes, progress, metrics (total, period in days, average; lines 238-253), tables, the "no movements" messages, and the rule that the monthly table is shown only for more than one record (line 273). The accumulation over uploaded files (lines 191-204) is again concatenation in file order, as `Extraction.DocumentMovementsAppend` states for pages.
- The CSV/base64 download link (lines 140-145) and the `datetime.now()` file-name timestamp (line 266) are left out: encoding and the clock.
- Floating point is left out. Amounts are exact cents. So the mean column and `.round(2)` (lines 282-283), the `€ {x:.2f}` display (lines 227, 243, 253) and float rounding of amounts above 2^53 cents are not modelled.
- Monthly.MonthlyStats: groups every year from 1 to 9999. `pd.to_datetime` (line 278) builds nanosecond timestamps in pandas 2.x and raises `OutOfBoundsDatetime` for dates outside 1677-09-21 to 2262-04-11 (for example 01/01/1500), so the source then shows no monthly table at all.
- Processing.KeyOf: keys on the amount in cents where the source compares floats. The two agree for every amount a float holds exactly.
- Extraction.Normalize: reads ASCII digits only. Python's `\d`, `float` and `strptime` also accept other Unicode decimal digits.
- Dates.FormatDate: always writes a four-digit year. `strftime("%Y")` of years below 1000 is platform-dependent; some C libraries omit the leading zeros.
- Processing.ProcessData: returns a new sequence. The source's `data.sort` sorts the list in place, so with duplicate removal off the caller's own list is reordered; that aliasing is not modelled.
- Processing.SortByDate: models `list.sort` as a stable insertion sort, not Timsort. `Processing.StableSortIsUnique` shows every stable sort by date gives the same result.
- The `IndexError` branch of the normalisation (lines 82, 111) cannot occur in the model: a tuple always has its fixed number of fields.
