# RBI ATM/POS/card statistics pipeline — a Dafny model

The Reserve Bank of India publishes its monthly ATM, POS and card
statistics as workbooks. This project models the three tools that turn
those workbooks into the dashboard's JSON data, and it proves properties of
that model:

- `tools/download_all.py` picks the `ATM*.XLSX` links out of the directory
  listing. It fetches them in sorted URL order and stores each under a
  `.xlsx` local name. It writes a manifest entry with the year and month
  read off the file name.
- `tools/batch_emit.py` walks the manifest. For each record it:
  - skips files that are missing or are not ZIP archives;
  - completes the year and month from the file name or, failing that,
    from a `MONTH OF <name> <yyyy>` line in the worksheet;
  - calls `emit_month`;
  - counts each record as emitted or skipped.
- `tools/emit_json.py` works on one workbook in these steps:
  - finds the header row;
  - flattens a three-row header into column names;
  - picks the bank, credit-card and debit-card columns;
  - filters and cleans the bank rows;
  - writes `docs/data/YYYY-MM.json`.

  It also rebuilds the month index and the sorted bank list from the month
  files.

A worksheet is a grid of cells. A cell is `Option<string>`: `None` is a
pandas NaN, and a present cell is its `str()` text. Anything read from disk
or the network is passed in as a parameter:

- the grid;
- the bytes of a file;
- the decoded manifest records;
- the decoded month documents;
- the URL helpers and the outcome of each fetch.

Modules, in dependency order:

- `Wrappers`: the `Option` and `Result` types.
- `Text`: ASCII character classes, `str.strip`, `str.upper`/`lower`,
  substring search and decimal digits.
- `Order`: code-point string order, and a method that sorts a set.
- `Seqs`: a generic "visit in order, record some" sequence.
- `Cells`: `to_number` and `clean_bank_name`.
- `Errors`: the exceptions `emit_month` can raise, as values.
- `Header`: `find_header_start` (a scanning method), the forward fill,
  `build_column_names`, and the `Frame` class with the in-place
  `normalize_columns`.
- `Pickers`: the three column pickers.
- `MonthFiles`: the `{year:04d}-{month:02d}.json` name and the month glob.
- `Rows`: `extract_month_table`, `select_core` and `emit_month`, each a
  method proved against a specification function.
- `Aggregate`: `rebuild_index_and_banks`.
- `YearMonth`: `parse_year_month_from_filename` and the in-sheet
  `MONTH OF` match.
- `Download`: the link filter, the local name and the two loops of
  `download_all.main`.
- `Batch`: `sniff_zip_signature` and the manifest loop of `batch_emit.main`.

`parse_year_month_from_filename` is written out identically in
`tools/download_all.py:20-38` and `tools/batch_emit.py:21-37`. It is
modelled once, as `YearMonth.ParseYearMonthFromFilename`.

## Model

| member | source | states |
|---|---|---|
| Order.SortSet | tools/emit_json.py:261 | `sorted(set)`: the result is strictly ascending and holds exactly the set's elements |
| Order.SortedUnique | tools/download_all.py:71 | two strictly ascending sequences with the same elements are equal, so the sorted order of a set is unique |
| Cells.ToNumberBlank | tools/emit_json.py:130-132 | a whitespace-only cell converts to None |
| Cells.ToNumberIsParseOfNumericText | tools/emit_json.py:130-136 | `to_number` on present text parses what is left after deleting commas and whitespace and then every character outside `[0-9.-]` |
| Cells.ParseSanitisedClassifies | tools/emit_json.py:137-146 | on sanitised text, the result is a decimal exactly when the text has one '.', a digit and at most a leading '-'; an int with the signed digit value exactly when it is `-?digits`; otherwise None (`""`, `"-"`, `"."`, `"1-2"`, `"1.2.3"`) |
| Cells.ToNumberClassifies | tools/emit_json.py:127-146 | the two steps combined: the classification of any present cell |
| Cells.PointFloatHasDecimalShape | tools/emit_json.py:140-142 | sanitised text that `float` accepts has the decimal shape |
| Cells.DecimalShapeIsPointFloat | tools/emit_json.py:140-142 | sanitised text of the decimal shape is accepted by `float` |
| Cells.IntLiteralIsIntShape | tools/emit_json.py:143-144 | sanitised text without '.' is accepted by `int` exactly when it is `-?digits` |
| Cells.ToNumberOfIntText | tools/emit_json.py:127-146 | round trip: the decimal text of any integer converts back to that integer |
| Cells.ToNumberThousands | tools/emit_json.py:134-144 | `"1,234"` converts to the int 1234 |
| Cells.DeleteCommasAndSpacesStrip | tools/emit_json.py:130-134 | deleting whitespace after `strip()` gives what deleting it without the strip gives |
| Cells.SpaceRun | tools/emit_json.py:150 | the length of the leading whitespace run: all of it is whitespace and it stops at a non-space or the end |
| Cells.CollapseNoDoubleSpace | tools/emit_json.py:150 | after the substitution, no two whitespace characters are adjacent |
| Cells.CollapseOfSingleSpaced | tools/emit_json.py:150 | the substitution leaves text without a whitespace run of two unchanged |
| Cells.CleanBankNameShape | tools/emit_json.py:148-151 | the cleaned name has no leading or trailing whitespace and no run of two whitespace characters |
| Cells.CleanBankNameKeepsText | tools/emit_json.py:148-151 | cleaning keeps every non-whitespace character, in order |
| Cells.CleanBankNameIdempotent | tools/emit_json.py:148-151 | cleaning a cleaned name changes nothing |
| Header.FirstMention | tools/emit_json.py:47-50 | the first row in the scanned range with a cell containing the anchor, and no earlier row has one; None when no row does |
| Header.HeaderStart | tools/emit_json.py:45-57 | among the first `min(15, rows)` rows: the first mentioning "bank name"; only if there is none, the first mentioning "name of the bank"; `HeaderNotFound` exactly when neither occurs |
| Header.FindHeaderStart | tools/emit_json.py:45-57 | the two scanning loops with early return compute `HeaderStart` |
| Header.NearestPresent | tools/emit_json.py:65 | the nearest present cell at or left of a column, or None when all of them are missing |
| Header.FillRightNearest | tools/emit_json.py:65 | `ffill(axis=1)`: each cell becomes the nearest present cell at or to its left, and stays missing when there is none |
| Header.MissingWithNothingLeftIsNan | tools/emit_json.py:65 | a missing header cell with nothing to its left becomes the text "nan" |
| Header.NonBlankParts | tools/emit_json.py:66 | the kept parts are stripped and non-empty |
| Header.ColumnName | tools/emit_json.py:66-67 | each column name is trimmed and has no upper-case letter |
| Header.BuildColumnNames | tools/emit_json.py:59-68 | one name per column, each trimmed and lower-case |
| Header.NormalizedNames | tools/emit_json.py:70-77 | exactly `n` names: a prefix of the given names when there are too many; the given names followed by `extra_col_0 … extra_col_{k-1}` when there are too few |
| Header.ExtraLabelsDistinct | tools/emit_json.py:75 | padding labels with different numbers differ |
| Header.NormalizedNamesIdempotent | tools/emit_json.py:70-77 | normalising normalised names changes nothing |
| Header.NormalizeColumns | tools/emit_json.py:70-77 | relabels the frame in place with `NormalizedNames` and leaves its rows alone |
| Pickers.Best | tools/emit_json.py:82-122 | the index a stable descending sort puts first: a candidate that no candidate outranks, and every earlier candidate ranks strictly lower; None exactly when there is no candidate |
| Pickers.Pick | tools/emit_json.py:82-122 | the picked label is a candidate column; the picker's own error exactly when no column is a candidate |
| Pickers.BankPickShortestEarliest | tools/emit_json.py:82-90 | the bank column contains "bank name" or "name of the bank" or strips to "bank"; it is the shortest candidate, and the earliest among the shortest |
| Pickers.CardPickSpec | tools/emit_json.py:92-122 | the credit or debit column contains its key; if any candidate mentions "outstanding" so does the pick; among candidates equal on that, it is the shortest, then the earliest |
| Pickers.PluralKeyRedundant | tools/emit_json.py:97 | a column containing "credit cards" contains "credit card", so the plural key never adds a candidate |
| MonthFiles.FormatIntFits | tools/emit_json.py:235 | `{n:0wd}` of `0 <= n < 10^w` is `w` digits that read back as `n` |
| MonthFiles.FormatIntTooWide | tools/emit_json.py:235 | a number of more than `w` digits is written wider than `w` |
| MonthFiles.MonthFileNameMatchesGlob | tools/emit_json.py:244 | the glob lists the name written for (year, month) exactly when `0 <= year <= 9999` and `0 <= month <= 19` |
| MonthFiles.MonthFileNameDigits | tools/emit_json.py:235 | the digits of a listed month file read back as its year and month |
| Rows.DropEmptyRows | tools/emit_json.py:171 | `dropna(how="all")`: the kept rows are exactly the rows with a present cell |
| Rows.DropEmptyRowsAppend | tools/emit_json.py:171 | the row filter works row by row and keeps the order |
| Rows.MonthTable | tools/emit_json.py:162-172 | fails with `HeaderNotFound` exactly when the header search fails; otherwise `width` column labels over rectangular rows |
| Rows.MonthTableColumns | tools/emit_json.py:164-169 | the labels are the built column names: trimmed and lower-case |
| Rows.MonthTableRows | tools/emit_json.py:168-171 | the data rows are exactly the raw rows from the header row plus 3 that have a present cell |
| Rows.ExtractMonthTable | tools/emit_json.py:162-172 | the method builds a fresh frame holding `MonthTable`, or returns its error |
| Rows.TotalMarkerIsWordTotal | tools/emit_json.py:184 | `\b(total\|grand total)\b`, ignoring case, matches exactly when the word "total" occurs |
| Rows.GrandTotalEndsInTotal | tools/emit_json.py:184 | a word-bounded "grand total" contains a word-bounded "total" |
| Rows.BlankIsNoTotal | tools/emit_json.py:184 | a blank bank cell is not a total row |
| Rows.Project | tools/emit_json.py:181 | `df[keep]`: each row's bank, credit and debit cells, row for row |
| Rows.RowFateJudges | tools/emit_json.py:182-197 | a row survives exactly when its bank cell is present, has no "total" word and one of its measures converts; it then yields the cleaned name and both conversions |
| Rows.FiltersAreRowwise | tools/emit_json.py:182-197 | the successive frame filters of `select_core` give the row-by-row survivors |
| Rows.SurvivorsOrigin | tools/emit_json.py:182-197 | every output row comes from an input row that survives |
| Rows.SurvivorsComplete | tools/emit_json.py:182-197 | every surviving input row is in the output |
| Rows.SurvivorsAppend | tools/emit_json.py:197 | survivors keep the source order |
| Rows.BlankBankSurvives | tools/emit_json.py:191 | a present but blank bank cell survives with the name "" |
| Rows.CoreSelection | tools/emit_json.py:174-198 | an error is one of the three picker errors; on success the labels are those the pickers return |
| Rows.CoreSelectionErrors | tools/emit_json.py:176-178 | the bank picker fails first, then the credit picker, then the debit picker; success when all three pick |
| Rows.CoreSelectionRows | tools/emit_json.py:180-197 | every selected row is what some table row yields |
| Rows.CoreSelectionComplete | tools/emit_json.py:180-197 | every row a table row yields is selected |
| Rows.CoreSelectionOrder | tools/emit_json.py:197 | selection distributes over a split of the table, so the rows keep their order |
| Rows.SelectCore | tools/emit_json.py:174-198 | the method computes `CoreSelection` |
| Rows.BaseName | tools/emit_json.py:226 | `os.path.basename`: a suffix of the path containing no '/' |
| Rows.MonthDocumentSteps | tools/emit_json.py:205-235 | the document is `docs/data/` plus the month file name, with the year, month, file name, picked labels and selected rows; otherwise the extraction error |
| Rows.MonthDocumentRows | tools/emit_json.py:191-215 | every emitted row has a measure and a bank name that is trimmed, single-spaced and already clean |
| Rows.CopyRows | tools/emit_json.py:209-215 | the `iterrows` loop copies every core row, in order |
| Rows.EmitMonth | tools/emit_json.py:200-238 | the method computes `MonthDocument` |
| Aggregate.MonthFilesIn | tools/emit_json.py:244 | the files the glob lists: exactly the directory names matching the month pattern |
| Aggregate.CleanedNames | tools/emit_json.py:256 | each row's bank value cleaned, row for row |
| Aggregate.NonEmptyNamesMembers | tools/emit_json.py:257-258 | a name is gathered exactly when it is non-empty and occurs |
| Aggregate.IndexOfSorted | tools/emit_json.py:244-254 | over sorted names, the index is in strictly ascending file order, holds exactly the files that decoded, and each entry carries that document's year and month |
| Aggregate.UnionOverMembers | tools/emit_json.py:255-258 | the gathered set holds exactly what one of the visited files contributes |
| Aggregate.GatheredBanks | tools/emit_json.py:248-258 | gathering over every listed file holds exactly the bank names some listed file contributes |
| Aggregate.AddBanks | tools/emit_json.py:255-258 | adds exactly one document's non-empty cleaned bank names to the set |
| Aggregate.RebuildIndexAndBanks | tools/emit_json.py:243-261 | the index: one entry per listed file that decoded, in ascending name order, carrying its year, month and path. The bank list: strictly ascending, holding exactly the non-empty cleaned names of those files |
| Aggregate.StoredBanksListed | tools/emit_json.py:255-258 | a document whose names are already clean contributes exactly its non-empty bank names |
| Aggregate.EmittedBanksListed | tools/emit_json.py:255-258 | re-cleaning what `emit_month` wrote changes nothing: the bank list gets exactly the emitted non-empty names |
| Aggregate.EmittedMonthIndexed | tools/emit_json.py:235-254 | a month written for a year 0..9999 and a month 1..12 appears in the rebuilt index with its year, month and path |
| YearMonth.MonthNumber | tools/download_all.py:15-18 | `MONTHS[name]`: a number 1..12 whose month name is `name`; None exactly when `name` is not a month name |
| YearMonth.MonthNumberOf | tools/download_all.py:15-18 | the k-th month name maps to k+1 |
| YearMonth.MonthNamesDistinct | tools/download_all.py:15-18 | the twelve month names differ |
| YearMonth.FirstAtmMatch | tools/download_all.py:23 | the leftmost position where `ATM[A-Z]+?\d{4}` matches, or None when there is none |
| YearMonth.AtmMatchAtIsRegex | tools/download_all.py:23 | the match test holds exactly when "ATM" is followed by some non-empty letter run and four digits, as the lazy pattern requires |
| YearMonth.FirstFourDigits | tools/download_all.py:32 | the leftmost run of four digits |
| YearMonth.FirstAtmMonth | tools/download_all.py:35-37 | the first month, in calendar order, whose "ATM"+name occurs |
| YearMonth.ParseYearMonthFromFilename | tools/download_all.py:20-38 | a result has a month in 1..12 and a year in 0..9999; year and month come together or not at all |
| YearMonth.ParseSomeIff | tools/download_all.py:20-38 | a result exists exactly when the upper-cased name has four digits somewhere and mentions "ATM"+month |
| YearMonth.ParseWitness | tools/batch_emit.py:21-37 | the result's month is mentioned as "ATM"+month and its year is the value of four digits in the name |
| YearMonth.ParseIgnoresCase | tools/download_all.py:21 | lower-casing the name does not change the result |
| YearMonth.ParseRoundTrip | tools/download_all.py:23-30 | "ATM"+month name+four digits+anything parses to those digits and that month |
| YearMonth.ParseRoundTripYear | tools/download_all.py:23-30 | a name built from any year 0..9999 and month 1..12 parses back to them |
| YearMonth.SeptemberExample | tools/download_all.py:22-30 | "ATMSEPTEMBER2025.XLSX" gives (2025, 9) |
| YearMonth.MayExample | tools/download_all.py:22-30 | "ATMMAY23062025.XLSX" gives (2306, 5) |
| YearMonth.MonthOfAt | tools/batch_emit.py:51 | a match of `MONTH OF\s+[A-Z]+\s+\d{4}` at a position yields four digits |
| YearMonth.FirstMonthOf | tools/batch_emit.py:51 | the leftmost such match, or None when there is none |
| YearMonth.MonthOfText | tools/batch_emit.py:51-55 | a result has a month 1..12 and a four-digit year |
| YearMonth.MonthOfLeading | tools/batch_emit.py:51 | "MONTH OF word digits…" matches at the start with that word and those digits |
| YearMonth.MonthOfRoundTrip | tools/batch_emit.py:51-55 | "MONTH OF <month name> <yyyy>" gives that year and month |
| YearMonth.MonthOfNoRetry | tools/batch_emit.py:53-55 | when the first match's word is not a month name, the result is None: no later match is tried |
| YearMonth.InSheetYearMonth | tools/batch_emit.py:46-58 | a result comes from a readable sheet and has a month 1..12 and a year 0..9999 |
| Download.PathName | tools/download_all.py:63 | `Path(...).name`: contains no '/' and is not "." |
| Download.PathNameOfJoin | tools/download_all.py:74 | a plain name under a directory is that path's name |
| Download.Suffix | tools/download_all.py:74 | `suffix` is a tail of the name |
| Download.KeptNameShape | tools/download_all.py:64 | a kept name is its matched part, or that part and a final line feed; the part ends in ".XLSX" in any case, and that dot is the name's last |
| Download.LocalNameOfKept | tools/download_all.py:74 | the local name of a kept link is its matched part with the last five characters written ".xlsx" |
| Download.LocalNameKeepsDate | tools/download_all.py:74-81 | the local name passes the link filter, upper-cases like the link name, and gives the same year and month |
| Download.CollectLinks | tools/download_all.py:55-71 | the URLs fetched, each once and in ascending order: exactly the resolved non-empty hrefs whose path name passes the filter |
| Download.BuildEntries | tools/download_all.py:71-88 | the loop records the entry of each fetched URL, in URL order |
| Download.EntriesOfComplete | tools/download_all.py:76-88 | every fetched URL has its entry |
| Download.EntriesOfOrigin | tools/download_all.py:76-88 | every entry is that of a fetched URL, and there are no more entries than URLs |
| Download.EntriesOfSorted | tools/download_all.py:71-88 | with sorted URLs, the manifest's source URLs strictly ascend |
| Download.EntryForShape | tools/download_all.py:73-88 | an entry's path is `downloads/` plus the local name ending in ".xlsx"; year and month are both present or both absent, with the month 1..12, and they are what the link name gives |
| Batch.SniffZipIsLocalHeader | tools/batch_emit.py:39-44 | the sniff accepts exactly the files whose first four bytes, read little-endian, are 0x04034b50; short or unreadable files are refused |
| Batch.ProcessRecord | tools/batch_emit.py:71-105 | the loop body, with `y` and `m` reassigned in place, computes `Classify` |
| Batch.BatchMain | tools/batch_emit.py:60-107 | no report without a manifest; otherwise one outcome per non-blank line, in order, with `emitted` counting the emitted ones and `emitted + skipped` counting all |
| Batch.ExistenceAndSignatureFirst | tools/batch_emit.py:75-88 | a missing file is skipped before anything else; a non-ZIP file is skipped even when its year and month are known |
| Batch.ManifestDateWins | tools/batch_emit.py:73-93 | for an existing ZIP file, a year and month both truthy in the manifest go to `emit_month` unchanged |
| Batch.FileNameBeforeSheet | tools/batch_emit.py:80-93 | without a manifest date, a file-name date with a non-zero year is used, whatever the sheet says |
| Batch.SheetIsLastResort | tools/batch_emit.py:90-98 | with neither, the sheet's date is used when it has a non-zero year; otherwise the record is skipped as undated |
| Batch.EmittedShape | tools/batch_emit.py:100-102 | an emitted month has a non-zero year and month; its file is named after them and its payload carries them |
| Batch.InferredDateIsListed | tools/batch_emit.py:80-93 | a month dated from the file name or the sheet has a year 1..9999 and a month 1..12, so the index rebuild lists its file |
| Batch.CountsAddUp | tools/batch_emit.py:68-107 | there is one outcome per non-blank line, and no more emitted than non-blank lines |
| Batch.OutcomesAppend | tools/batch_emit.py:68-105 | the lines are processed independently: the outcomes of a split manifest are the outcomes of its parts |
| Batch.DownloadedDateAgrees | tools/download_all.py:74-88 | the year and month the downloader records are exactly what the batch driver would infer from the downloaded file's name |

## Left out

- Excel reading: `read_any_excel` and every `pd.read_excel` call are not modelled. The grid is an input. The header search, the header rows, the data rows and the batch driver's 12-row preview all read one grid of the first worksheet; engines and re-reads are not modelled. A workbook the reader cannot open, including the `.html` refusal, is `None`.
- The value of a decimal cell: `float(s)` is floating point, so a decimal result carries the sanitised text instead.
- Rows.MonthDocument and Rows.EmitMonth keep each converted measure per cell, as `Int`, `Decimal` or `None`. They do not model pandas' dtype inference on `core[...].map(to_number)` (`tools/emit_json.py:192-193`), which is per column. A measure column mixing ints with a `None` or a float becomes float64, so `json.dump` writes `1234` as `1234.0` and `None` as the bare token `NaN`. Only an all-int column keeps its ints, and only an all-`None` column keeps `null`.
- Rows.MonthDocument and Rows.EmitMonth, through `Cells.ToNumber`, also leave out CPython's limit of 4300 digits on `int()` of text. Above that limit `int()` raises and `to_number` returns None, where `ToNumber` gives the `Int` value.
- Rows.MonthDocument and Rows.EmitMonth omit the payload's constant "schema" member (`tools/emit_json.py:218-222`). It is the same for every month.
- JSON and file I/O are not modelled:
  - writing the month files, `index.json`, `banks.json` and the manifest;
  - decoding manifest lines and month documents, which are given already decoded.
- Decoding failures the model does not cover:
  - a malformed manifest line or a record without "path" raises in `batch_emit.main`; the model takes every non-blank line as a record;
  - a manifest year or month that is not an integer or null;
  - a month document that is not a JSON object;
  - Aggregate.RebuildIndexAndBanks types a month document's "year" and "month" as `Option<int>`, and "bank" as `Option<string>`:
    - `data.get("year")` and `data.get("month")` copy any JSON value, of any type, into `index.json` verbatim (`tools/emit_json.py:253-254`). The model copies integers and null only.
    - `clean_bank_name` raises on a "bank" that is a truthy non-string such as `5` or `true`. It also raises when a row is not an object or "rows" is a non-empty string. Such an exception escapes the `try` at lines 249-252, which guards only the read and decode (`tools/emit_json.py:255-256`). The whole rebuild then aborts, and neither `index.json` nor `banks.json` is written. The model has no abort: every decoded document contributes its entry and its names.
- Network and browser:
  - fetching and parsing the directory listing (the hrefs are an input);
  - `urljoin` and `urlparse` (function parameters);
  - the HTTP download of each workbook (a predicate saying which fetches succeed);
  - writing the bytes.
- Printed messages, the CLI entry points and the import fallback of `batch_emit.py`: they are glue.
- Duplicate column labels: pandas' `df[keep]` on repeated labels is not modelled. `Rows.SelectCore`, `Rows.EmitMonth`, `Batch.ProcessRecord` and `Batch.BatchMain` require that the three picked labels differ and that each occurs once.
- Unicode: whitespace, `\s`, `\d`, `\b`, `strip`, `upper` and `lower` are taken over ASCII only. Whitespace is space, tab, line feed, vertical tab, form feed, carriage return and 0x1C-0x1F, as `str.isspace` has it.
- Path normalisation: `Path(...)` and `str(Path(...))` are not modelled. Files on disk are looked up by the path text the manifest gives.
- `str.splitlines`: the manifest is taken as its list of lines.
- `emit_month` failures while writing: an emit fails in the model only when the workbook cannot be read or extraction raises.
- `Download.LocalName`: a link name is never empty, so the empty name is modelled only as `Path` treats it and no property is stated for it.
- `Batch.BatchMain` does not model the "No manifest" message itself, only that nothing is counted.
