# SEC fails-to-deliver pipeline, modelled in Dafny

This project models the deterministic core of a pipeline that collects the SEC
"fails-to-deliver" data. The pipeline has three parts.

- **The downloader** (`FailsToDeliverUniverseDownloader`):
  - scrapes the catalog page for archive links and normalises them;
  - decodes the `cnsfailsYYYYMMh` archive names and turns them into a publication date;
  - parses the pipe-delimited report lines and cleans the ticker symbols;
  - stages each archive's records into per-issuer and per-date CSV lines;
  - merges those lines into the CSV stores, removing duplicates and sorting;
  - runs the loop over the discovered distributions.
- **`build_master`**: concatenates every CSV file, in sorted path order, into one
  master file with six columns.
- **The period rules**: they assign a settlement date to a reporting period. Periods
  are monthly before 2009-07-01 and half-monthly from then on. Each period gets its
  bounds and an estimated release date.

Modules, one per file:

| file | module | what it holds |
|---|---|---|
| `text.dfy` | `Wrappers`, `Text` | ASCII `lower`/`upper`/`isspace`, `find`, `strip`, `split`, `join`, `replace`, decimal digits, Python string order |
| `calendar.dfy` | `Calendar` | `datetime.date` values, month arithmetic, `strftime`/`strptime("%Y%m%d")` |
| `sorting.dfy` | `Sorting` | `sorted()` over a set under a total preorder |
| `distribution.dfy` | `Distribution` | archive names, publication dates, link scraping, URL normalisation |
| `records.dfy` | `Records` | the report line parser and a writer that partners it |
| `ticker.dfy` | `Ticker` | `_normalize_ticker` |
| `downloader.dfy` | `Downloader` | the merge writer, archive staging, and the `FailsToDeliverDownloader` class with its file store and run loop |
| `master.dfy` | `Master` | `build_master` |
| `periods.dfy` | `Periods` | scheme, period label, period bounds and release estimate |

Imperative source code stays imperative here:
- the scraping loop, the ticker cleaner loop, the merge loops and the archive line loop are methods with loops;
- the `run` loop is a method of the class;
- the nested loops of `build_master` are methods with loops;
- the CSV stores are a `map` field of the class, which the save methods update.

Each method is proved against a specification function. The properties are proved
as lemmas about those functions.

The file system is a map from store file (kind and name) to its lines. Writing a temp
file and renaming it over the target becomes one assignment to that map. The network
becomes a function parameter from URL to download outcome. "Today" is a parameter.

Where the code departs from the documented intent, the model follows the code:
- A ticker whose lower-cased text contains "defunct" but has neither `-` nor `_` is not rejected. It is cleaned like any other ticker (`Ticker.DefunctCut`).
- `-` is searched before `_`: the cut is at the first `-` when there is one, even if an `_` comes earlier.
- The universe file's symbol id is the ticker itself (`symbol_id = ticker`).
- Issuer files are merged once per distribution, right after its archive is staged.
- `run` returns false when discovery yields no distribution.
- There is no rate limiter and no concurrency in the code.
- A settlement date that polars cannot parse compares as null with the cutover. `when()` takes a null condition as false, so such a row falls in the `semi_monthly_post_2009_07` scheme with null period columns (`Periods.PeriodRow`).

## Model

| member | source | states |
|---|---|---|
| Distribution.ParseDistributionFileName | DataProcessing/process.sample/sample.process.py:235-252 | A decoded triple has a year of 4 digits, a month of 2 digits and half `a` or `b`. Its canonical stem `cnsfails`+YYYY+MM+half begins the stripped, lower-cased name. A stripped name shorter than 15 characters is rejected. |
| Distribution.ParseDistributionFileNameIff | DataProcessing/process.sample/sample.process.py:235-252 | The parser returns a triple exactly when the stripped, lower-cased name starts with that well-formed triple's stem. Both directions are stated, so every other name gives None. |
| Distribution.ParseOfStem | DataProcessing/process.sample/sample.process.py:236-252 | A name whose stripped, lower-cased form starts with a well-formed stem decodes to that triple. Leading spaces, upper case and any trailing text are all accepted. |
| Distribution.ParseFileNameStem | DataProcessing/process.sample/sample.process.py:235-252 | Round trip: decoding the stem of a well-formed triple, followed by any suffix, gives the triple back. |
| Distribution.ProcessingDate | DataProcessing/process.sample/sample.process.py:254-266 | For 1 <= month <= 12 (and no date past 9999-12-31), the publication date is a date `datetime.date` can hold. |
| Distribution.ProcessingDateFirstHalf | DataProcessing/process.sample/sample.process.py:255-261 | Half `a` (any case) is published on the last day of its month. That day is computed as the first of the next month minus one day, with December rolling into January. |
| Distribution.ProcessingDateSecondHalf | DataProcessing/process.sample/sample.process.py:262-266 | Any other half is published on a 15th, in the month that starts the day after the covered month ends. |
| Distribution.ProcessingDatesOrdered | DataProcessing/process.sample/sample.process.py:254-266 | Publication comes after the covered half-month. Half `a` publishes before half `b`, and half `b` before the next month's half `a`. |
| Distribution.ProcessingDateInjective | DataProcessing/process.sample/sample.process.py:254-266 | Two archives (year, month, `a`/`b`) share a publication date only when they are the same archive, so a universe file belongs to one archive. |
| Distribution.ScrapeDownloadLinks | DataProcessing/process.sample/sample.process.py:203-217 | The loop's result holds exactly the links of the scan (`ScrapedLinks`). Each appears once, in strictly ascending string order, and each has the archive-link shape. |
| Distribution.ScrapedLinksSound | DataProcessing/process.sample/sample.process.py:203-217 | Every scraped link starts with the marker, ignoring case, and contains no `"`. It occurs in the page immediately before a `"`. |
| Distribution.LinksFromMarkerSound | DataProcessing/process.sample/sample.process.py:211-216 | From a marker match on, the first link runs up to the first quote and covers the whole marker. The rest of the scan is sound for the text after that quote. |
| Distribution.NormalizeDownloadUrl | DataProcessing/process.sample/sample.process.py:219-224 | A URL starting with `http` (any case) is returned unchanged. Any other URL ends the result, which starts with `https://www.sec.gov/` and is exactly the host plus the URL plus one `/` when the URL has none in front. So it never doubles or drops the slash. The result always starts with `http`. |
| Distribution.NormalizeDownloadUrlIdempotent | DataProcessing/process.sample/sample.process.py:219-224 | Normalising a normalised URL changes nothing. |
| Records.ParsePrice | DataProcessing/process.sample/sample.process.py:368-375 | With commas removed and whitespace stripped, a non-empty decimal text is kept as that exact text. Anything else, the blank price included, gives the default 0. A kept price has no comma. The function has no failure case, so the price never rejects a line. |
| Records.TryParseRawLine | DataProcessing/process.sample/sample.process.py:343-378 | An accepted line has at least six `\|` fields. The record's settlement date renders back to stripped field 0, its quantity is positive, its symbol is stripped field 2 and non-empty, and its CUSIP is stripped field 1. The date is what stripped field 0 parses to, and the quantity is what field 3 parses to once commas are removed and whitespace stripped. Empty lines, lines without `\|` and lines with fewer than six fields are rejected. So is a line whose date or quantity does not parse, whose quantity is not positive, or whose stripped symbol is empty. |
| Records.AcceptedLine | DataProcessing/process.sample/sample.process.py:343-378 | The converse: a line that has six fields, a date that parses, a positive integer quantity once commas are removed, and a non-blank symbol is accepted with exactly those values. |
| Records.ParseFormatRawLine | DataProcessing/process.sample/sample.process.py:343-378 | Round trip: parsing the report line written for a well-formed record gives back that record. |
| Records.PriceNeverRejects | DataProcessing/process.sample/sample.process.py:368-378 | Replacing the price column never changes whether a line is accepted. It changes only the record's price. |
| Calendar.ParseFormatDate8 | DataProcessing/process.sample/sample.process.py:305-306 | `strptime("%Y%m%d")` of `strftime("%Y%m%d")` gives the date back. |
| Calendar.FormatParseDate8 | DataProcessing/process.sample/sample.process.py:350-354 | A text that parses as YYYYMMDD is exactly the rendering of its date. |
| Calendar.EndOfMonthIsLastDay | DataProcessing/helpers/period_parition.py:25-28 | First of the month plus one month minus one day is the month's last day, and no day of the month lies after it. |
| Ticker.DefunctCut | DataProcessing/process.sample/sample.process.py:384-390 | The result is a prefix of the ticker. Without "defunct" (ignoring case) the ticker is kept whole. With it, the ticker is cut just before its first `-`, or before its first `_` only when it holds no `-`. A ticker holding neither is kept. |
| Ticker.CutDefunct | DataProcessing/process.sample/sample.process.py:384-390 | The delimiter loop computes `DefunctCut`: `-` is tried before `_`, and the first one found ends the loop. |
| Ticker.CleanChar | DataProcessing/process.sample/sample.process.py:397-401 | One character contributes at most one character, and that one is upper case, a digit or `.`. |
| Ticker.CleanCharMaps | DataProcessing/process.sample/sample.process.py:397-401 | An alphanumeric character contributes itself upper-cased. A `.`, `/`, `-` or `_` contributes `.`. Any other character contributes nothing. |
| Ticker.CleanCharsSplit | DataProcessing/process.sample/sample.process.py:396-401 | Each character contributes its own piece at its own position, whatever surrounds it. |
| Ticker.CleanCharsOfPlain | DataProcessing/process.sample/sample.process.py:396-401 | On text of letters, digits and separators only, the cleaner keeps the length, upper-cases each letter in place and turns each separator into `.`. |
| Ticker.CleanCharsConcat | DataProcessing/process.sample/sample.process.py:396-401 | The cleaner works character by character: it distributes over concatenation. |
| Ticker.NormalizedTicker | DataProcessing/process.sample/sample.process.py:380-403 | The cleaned ticker holds only upper-case letters, digits and `.`, and never starts or ends with `.`. |
| Ticker.NormalizedTickerSteps | DataProcessing/process.sample/sample.process.py:380-403 | For a non-empty ticker, the result is the "defunct" cut, then `strip()`, then the cleaner, then `strip('.')`. |
| Ticker.NormalizedTickerOfPlain | DataProcessing/process.sample/sample.process.py:380-403 | A ticker of letters, digits and separators, with a letter or digit at each end and no "defunct", comes out character for character: letters upper-cased and each separator a `.`. For example, `ab-c_d/e.f` gives `AB.C.D.E.F`. |
| Ticker.NormalizeTicker | DataProcessing/process.sample/sample.process.py:380-403 | The method, with its character loop, returns `NormalizedTicker`. |
| Ticker.NormalizedTickerIdempotent | DataProcessing/process.sample/sample.process.py:380-403 | Normalising a normalised ticker returns it unchanged. |
| Ticker.LowerTickerInjective | DataProcessing/process.sample/sample.process.py:334-335 | Two cleaned tickers with the same lower-case form are equal. |
| Downloader.RowDate | DataProcessing/process.sample/sample.process.py:432-437 | An issuer row's sort key is exactly the date its first comma field parses to as YYYYMMDD. When that field does not parse, the key is 1900-01-01. |
| Downloader.MergeRows | DataProcessing/process.sample/sample.process.py:410-439 | Empty contents, or no non-empty row at all, leave the file alone. Otherwise the rows are exactly the union of the old file's non-empty lines and the new non-empty lines, each once, non-decreasing by the store's key. |
| Downloader.MergeIdempotent | DataProcessing/process.sample/sample.process.py:414-427 | Merging the same lines a second time leaves the same set of rows. |
| Downloader.MergeKeepsRows | DataProcessing/process.sample/sample.process.py:414-424 | A merge never loses a non-empty row of the old file. |
| Downloader.FailsToDeliverDownloader.SaveContentToFile | DataProcessing/process.sample/sample.process.py:406-445 | The target file becomes the merge of its old lines with the contents. No other file changes, and no row of the store is lost. |
| Downloader.StageRawLine | DataProcessing/process.sample/sample.process.py:290-303 | A data line, with trailing CR and LF removed, yields a record exactly when it parses, its symbol cleans to a non-empty ticker, and that ticker is in the allowed set when one is given. The record yielded is the parsed record, filed under the cleaned ticker, with a date and quantity that can be written. |
| Downloader.StagedRecords | DataProcessing/process.sample/sample.process.py:294-303 | Every staged record has a non-empty cleaned ticker, in the allowed set when one is given, and a date and quantity that can be written. A record whose ticker cleans to nothing or is not allowed contributes nothing. |
| Downloader.StagedRecordsComplete | DataProcessing/process.sample/sample.process.py:290-303 | Whatever a line contributes is among the staged records. |
| Downloader.StagedRecordsSound | DataProcessing/process.sample/sample.process.py:290-303 | Every staged record is what some line contributes. |
| Downloader.StageArchiveLines | DataProcessing/process.sample/sample.process.py:286-332 | After the loop the state is the staging of the entry's lines after the header. The count is the number of staged records and the universe lines are one per record in order. Each ticker's list holds its issuer lines in order. |
| Downloader.StagingCounts | DataProcessing/process.sample/sample.process.py:318-332 | The returned count equals the number of universe lines and the total number of per-ticker lines. |
| Downloader.IssuerLineKey | DataProcessing/process.sample/sample.process.py:432-439 | An issuer row sorts by the distribution's publication date. |
| Downloader.UniverseLineKey | DataProcessing/process.sample/sample.process.py:429-430 | A universe row sorts by its symbol id, the ticker itself. |
| Downloader.IssuerFileInjective | DataProcessing/process.sample/sample.process.py:334-335 | Distinct cleaned tickers are written to distinct issuer files (`ticker.lower()`). |
| Downloader.FailsToDeliverDownloader.SaveSymbolLines | DataProcessing/process.sample/sample.process.py:334-335 | Each ticker's lines are merged into its own issuer file, whatever the dict order. Files of other tickers are untouched and no row is lost. |
| Downloader.ArchiveRecords | DataProcessing/process.sample/sample.process.py:281-287 | An archive yields the valid records of its first entry only. An empty archive yields none. |
| Downloader.ArchiveOutcome | DataProcessing/process.sample/sample.process.py:334-341 | Issuer-file merges followed by the universe-file merge amount to the following. Each staged ticker's file merges its issuer lines and the date's universe file merges the universe lines. Nothing else changes, and a distribution with no staged record changes nothing. |
| Downloader.FailsToDeliverDownloader.ProcessDistributionArchive | DataProcessing/process.sample/sample.process.py:274-341 | The count is the number of staged records. Each staged ticker's issuer file and the date's universe file hold the merges, and no other file changes. No row is lost, and the universe file exists afterwards exactly when it did before or the count is positive. |
| Downloader.FailsToDeliverDownloader.constructor | DataProcessing/process.sample/sample.process.py:82-92 | A missing or empty ticker set from the map files means no filtering. |
| Downloader.FailsToDeliverDownloader.RunTurn | DataProcessing/process.sample/sample.process.py:101-131 | One turn of the loop. It yields a record exactly when its distribution contributes (published by today, universe file absent, a record staged); otherwise nothing changes. No row is lost. The turn's effect (`TurnEffect`) is that its universe file exists afterwards when it makes one, and only the files the turn writes change. A universe file it writes did not exist before and now holds the merge of the turn's universe lines. When the turn yields a record, the issuer file of each staged ticker holds its old rows merged with that ticker's issuer lines from the archive. `TurnEffect` states the same per issuer file (`Turn.issuerRows`). |
| Downloader.FailsToDeliverDownloader.Run | DataProcessing/process.sample/sample.process.py:94-131 | Returns false for an empty discovery. Otherwise it returns `RunOk`: true when some distribution published by today, not already processed and yielding a record is processed. No row of the stores is lost. Afterwards the universe files are those present before plus one for each distribution published by today that yields a record. Every universe file present before the run is unchanged. Only the files written in the distributions' turns can change (`TouchedFiles`; a distribution skipped as already processed writes nothing). Each new universe file holds the merge of the universe lines of the first distribution that made it (`UniverseWrites`). Every issuer file holds its old rows merged with all the lines the run's writing turns sent to it, in turn order (`IssuerWrites`; a file no turn wrote is unchanged). |
| Downloader.NewUniverseFilesIff | DataProcessing/process.sample/sample.process.py:101-131 | A file is in `NewUniverseFiles` exactly when some distribution with that date is published by today and yields a record. By `Run`, the universe files after a run are the stored ones plus these. |
| Downloader.TouchedFilesIff | DataProcessing/process.sample/sample.process.py:101-131 | A file may be written by a run exactly when, for some distribution published by today that yields a record and whose universe file was neither there when the run began nor made by an earlier distribution, it is that universe file or the issuer file of one of its tickers. |
| Downloader.TouchedAvoidsStored | DataProcessing/process.sample/sample.process.py:105-107 | No universe file present when the run begins is among the files it may write: its distributions are skipped as already processed. |
| Downloader.IssuerWritesKeys | DataProcessing/process.sample/sample.process.py:101-131 | An issuer file receives lines in a run (`IssuerWrites`) exactly when it is an issuer file among those the run's turns may write (`TouchedFiles`). |
| Downloader.IssuerLinesForTicker | DataProcessing/process.sample/sample.process.py:318-335 | Since clean tickers get files of their own, the lines an archive stages for a ticker's issuer file are exactly that ticker's lines, in line order. |
| Downloader.IssuerRowsTicker | DataProcessing/process.sample/sample.process.py:318-335 | In the issuer rows of an archive (`IssuerRowsOf`, whose keys are the files of the staged tickers), each staged ticker's file holds that ticker's issuer lines. |
| Downloader.SavedAsCompose | DataProcessing/process.sample/sample.process.py:410-439 | Merging two batches of lines into a file one after the other leaves what merging both at once would, because the writer keeps the union of old and new rows. |
| Downloader.UniverseWritesFirst | DataProcessing/process.sample/sample.process.py:101-131 | A universe file made by a run is written with the universe lines of the first distribution that has its date, is published by today and yields a record. |
| Downloader.RunOkIff | DataProcessing/process.sample/sample.process.py:101-131 | `run` succeeds exactly when some discovered distribution is published by today, had no universe file when the run began, and yields at least one record. |
| Master.NormalizeRow | DataProcessing/helpers/master.py:35-39 | A row becomes exactly six fields: its first six fields are kept and missing ones are `""`. |
| Master.NormalizeRowKeepsSix | DataProcessing/helpers/master.py:35-40 | A row that already has six fields is written unchanged. |
| Master.FileRowsShape | DataProcessing/helpers/master.py:32-41 | A file contributes one written row per non-empty input row. Each has six fields and is the normalisation of a non-empty input row. |
| Master.MasterRowsShape | DataProcessing/helpers/master.py:24-43 | The count is the number of non-empty rows across all input files, and every data row has six fields. |
| Master.SortedPaths | DataProcessing/helpers/master.py:19-20 | Every CSV path once, in ascending path order. The list is empty only when there is no file. |
| Master.WriteFileRows | DataProcessing/helpers/master.py:32-41 | The row loop appends the file's normalised non-empty rows and counts them. |
| Master.BuildMaster | DataProcessing/helpers/master.py:14-43 | With no file the output is just the header and the count is 0. The output is always the header followed by the rows of the files in sorted path order, rows in file order, and the count is the number of data rows written. |
| Periods.SchemeByMonth | DataProcessing/helpers/period_parition.py:22-35 | A date is `monthly_pre_2009_07` exactly when it is before July 2009, so all days of a month share one scheme. |
| Periods.PeriodRow | DataProcessing/helpers/period_parition.py:13-71 | A null settlement date gives the semi-monthly scheme and null period, bounds and release estimate. |
| Periods.PeriodBounds | DataProcessing/helpers/period_parition.py:25-58 | period_start <= date <= period_end, both valid dates in the date's own month. |
| Periods.PeriodsTile | DataProcessing/helpers/period_parition.py:46-58 | Every date between a period's bounds has that same period, so the periods tile the calendar. |
| Periods.YearMonthInjective | DataProcessing/helpers/period_parition.py:38-42 | `strftime("%Y-%m")` determines the year and month. |
| Periods.LabelIffStart | DataProcessing/helpers/period_parition.py:37-51 | Two dates carry the same period label exactly when their periods start on the same day. |
| Periods.ReleaseIsProcessingDate | DataProcessing/helpers/period_parition.py:62-71 | The estimate is null exactly before the cutover. After it, the estimate is the downloader's publication date for half `a` (first half-month) or `b` (second). |
| Periods.ReleaseAfterPeriodEnd | DataProcessing/helpers/period_parition.py:53-71 | A release estimate never precedes its period's end. |
| Sorting.SortSet | DataProcessing/process.sample/sample.process.py:430-439 | `sorted()` of a set: a permutation of the set, non-decreasing under the key order. |
| Text.SplitJoin | DataProcessing/process.sample/sample.process.py:308-316 | Splitting a joined line at a separator no field holds gives the fields back. |

## Left out

- HTTP: `_http_get_text`, `_download_binary`, the session, retries and back-off. A download is a function parameter from URL to `Missing` (empty payload), `Failed` (error after retries) or a payload.
- `_get_distribution_metadata` and `_try_get_file_name`: `urlparse` and the catalog walk. `run` takes the discovered list, and the distribution title (used only in messages) is not modelled.
- Zip decoding, UTF-8 decoding with errors ignored, and splitting a stream into lines. An archive is `BadZip` or its entries as lines. A `BadZip` archive raises in the code, is caught in `run`, and changes no file, as in the model.
- `_load_tickers_from_map_files`: directory listing. The constructor takes the ticker set it would return.
- `_already_processed`: the file-existence test is a lookup of the universe file in the store.
- `dt.datetime.utcnow()`: "today" is a parameter of `Run`.
- The uuid temp file and `replace`: the store update is one assignment, and atomicity is an operating-system property.
- Messages printed to the console.
- Records.ParsePrice: the price keeps its cleaned decimal text, and the float value and its `%.6f` rendering are not modelled. Text that `float()` accepts is taken as an optional sign, digits and at most one `.`. Exponents, `inf` and `nan` are not modelled. This matters for merging: the source writes `1.5` and `1.50`, or a blank price and `0`, as the same text `1.500000`, so the merge keeps one row where the model keeps two.
- Records.TryParseRawLine: `strptime("%Y%m%d")` is taken as exactly eight digits naming a valid date. `int()` is taken as an optional sign followed by digits. Python's leniency (whitespace, `_` between digits, unpadded month) is not modelled.
- Distribution.ParseDistributionFileName: `int(token[0:4])` and `int(token[4:6])` are taken as all-digit fields. A sign, spaces, `_` between digits (`int("2_19")` is 219) or non-ASCII digits that `int()` would also accept are not modelled.
- Text: `lower()`, `upper()`, `isalnum()` and `isspace()` are modelled on ASCII only.
- Downloader.MergeRows: the order among rows with equal keys is left unspecified, as `sorted()` over a set leaves it to the set's iteration order.
- Downloader.FailsToDeliverDownloader.SaveSymbolLines: the model writes the tickers in any order and proves the outcome for every order, the source's insertion order included. The order cannot matter because distinct tickers write distinct files (`IssuerFileInjective`).
- Master.BuildMaster: CSV quoting on read and write, and newline handling, are not modelled. A file is its rows as `csv.reader` returns them, and the output is the rows `csv.writer` is given. `rglob`, `is_file` and the output path are not modelled; the input is a map from path (as its parts) to rows.
- Periods: the aggregation at period_parition.py lines 73-88 (sums, means and float weights) and the CSV read and write are not modelled. The date column is modelled as a date, or null when `strptime` fails.
- Calendar: dates before year 1 or after 9999 are outside `datetime.date`. `ProcessingDate` therefore requires a year from 1, a month in 1..12 and no roll past 9999-12-31, because the code raises there.
- Distribution.ProcessingDate: a month of 00 or 13 to 99, or a year of 0000, in an archive name makes `_get_processing_date` raise `ValueError`. It is called from `_get_distribution_metadata` (sample.process.py line 166), which `run` calls at line 96, outside the `try` at line 112. So a single such catalog link aborts the whole run. This abort is not modelled, because `Run` takes the discovered list.
- The other helper scripts (the spider, unzip, clean, clean_master, paths) and the trading strategy are not part of this model.
