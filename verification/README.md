# hkex-filing-scraper, modelled in Dafny

This project models the core of the HKEX filing scraper. The scraper has two phases.

- **Phase 1** reads filing metadata from the exchange's JSON title-search API one calendar month at a time. It normalises each record and derives the owner's ticker and category, the filing type and the stock codes the title mentions. It then writes one `UPSERT` per filing to SurrealDB through a persister that halves a rejected batch and retries each half.
- **Phase 2** is the document backfill. It works in batches of filings that still lack a document. For each one it checks the URL, downloads the file and extracts text and Markdown tables. Before writing, it sizes the `UPDATE` statement under the database's body limit. A write that fails gets one smaller retry. Finally the filing is marked skipped or failed where appropriate. The loop stops at the limit, when nothing is left, or after three batches in a row that change nothing.
- **The graph linkers** relate companies to their filings, and filings to the companies their titles mention. Both work in fixed-size batches.

Every operation is a pure function, or a method whose loop carries its invariants. Whatever the code cannot see is a parameter:

- the database's replies;
- the HTTP download;
- the format extractors;
- UTF-8 and JSON sizes;
- MD5.

Most operations are paired with a partner lemma: a round trip, an invariant, a reference definition or a case split over every input. The contracts that state less than the code does are named under "## Left out".

Modules, one per file:

- `Strings`: the Python `str` builtins the code uses. These are split, join, strip, find, zfill, `sorted` over a set, and the `\s` and `isprintable` character classes.
- `Seqs` and `Wrappers`: shared helpers.
- `TextUtils`: `squash_ws` and `escape_sql`.
- `Classify`: `classify_filing`, `is_derivative_issuer_filing` and `extract_issuer_name`.
- `Tickers`: `extract_referenced_tickers`, with its two regular expressions written as scanners.
- `Api`: `_parse_api_record`.
- `Calendar`: `generate_monthly_chunks`.
- `Extractor`: the extension router `extract_content_with_tables`, and the final tidying of `_clean_markdown`.
- `Tables`: `_table_to_markdown` and `_extract_tables_from_md`.
- `Db`: `upsert_batch_with_retry`.
- `Metadata`: `_save_filings_batch_metadata`.
- `Payload`: the sizing and write protocol of `_save_document_to_filing`.
- `Backfill`: the download pre-checks, one batch of `run_phase2`, and its loop.
- `Graph`: `_ticker_to_record_id`, `link_filings_to_companies` and `cross_reference_filings`.

Where the code's comments and its statements differ, the model follows the statements:

- **Body limit.** The comment at `pipeline.py:203` targets 900 KB, but `MAX_SQL_BODY_SIZE` is imported from a `config.py` that does not define it. The model therefore takes it as the parameter `maxBody`.
- **Line back-off on text that was not cut.** The back-off runs even when the text was not cut. `BackOff` keeps this behaviour: it moves back to the last newline past half the target, whether or not the target cut anything.
- **`.doc`/`.docx` downloads.** The router returns no text for `.doc`/`.docx`, although the download filter accepts those files. `RouteDoc` and `RouteDocx` state this.

## Model

| member | source | states |
|---|---|---|
| Api.FirstLine | src/hkex_scraper/api.py:53-57 | the stock code and name are trimmed: the stripped text before the first `<br/>`, or the whole stripped cell when it has none |
| Api.AbsoluteLink | src/hkex_scraper/api.py:59-61 | the base URL is prepended exactly when the link starts with "/"; the result always ends with the link |
| Api.DatePart | src/hkex_scraper/api.py:50-51 | the date is the text before the first space of `DATE_TIME` (all of it when there is no space) |
| Api.DecodeEntities | src/hkex_scraper/api.py:63-64 | decoding the two entities never lengthens the title |
| Api.DecodeWithoutAmpersand | src/hkex_scraper/api.py:64 | a title without "&" is left unchanged by the entity step |
| Api.DecodeIsSinglePass | src/hkex_scraper/api.py:64 | the replacements run once each in a fixed order: "&amp;#x3b;" becomes "&#x3b;", not ";" |
| Api.ParseApiRecord | src/hkex_scraper/api.py:32-72 | the parsed filing has the date part of `DATE_TIME`; the code is the first line of `STOCK_CODE` and the name the squashed first line of `STOCK_NAME`; the title is the squashed entity-decoded `TITLE`; the link is absolutised exactly when site-relative |
| Api.ParseCleanRecord | src/hkex_scraper/api.py:32-72 | a record whose fields are already clean (date without a space, trimmed code, squashed name and title without `<br/>` or "&", absolute link) parses to exactly those fields |
| TextUtils.ReplaceUnprintable | src/hkex_scraper/utils.py:48 | same length; every character is printable or the space, and the only whitespace left is the plain space |
| TextUtils.CollapseWs | src/hkex_scraper/utils.py:49 | no two adjacent whitespace characters, only plain spaces, never longer, and it starts with whitespace exactly when the input does |
| TextUtils.SquashWs | src/hkex_scraper/utils.py:46-49 | the result has no edge whitespace, no double space, and only printable characters or spaces |
| TextUtils.SquashWsJoinsWords | src/hkex_scraper/utils.py:46-49 | `squash_ws(s)` is the words of the cleaned text joined by single spaces (the reference definition) |
| TextUtils.SquashedFixpoint | src/hkex_scraper/utils.py:46-49 | text already in squashed form is returned unchanged |
| TextUtils.SquashWsIdempotent | src/hkex_scraper/utils.py:46-49 | squashing twice equals squashing once |
| TextUtils.KeepPrintable | src/hkex_scraper/utils.py:57 | the filter never lengthens and keeps only printable characters and spaces |
| TextUtils.EscapeSql | src/hkex_scraper/utils.py:52-61 | `None` gives ""; otherwise the result is at most twice as long, has no line break or tab, is a valid single-quoted literal body, and unescapes to the printable characters of the input |
| TextUtils.SpaceStepIsDead | src/hkex_scraper/utils.py:57-58 | after the printable filter, the newline/return/tab replacement changes nothing |
| TextUtils.EscapeIsEscapeAll | src/hkex_scraper/utils.py:59-60 | doubling backslashes and then escaping quotes escapes each character independently |
| TextUtils.EscapeAllFacts | src/hkex_scraper/utils.py:59-60 | escaping at most doubles the length, adds only "\\" and "'", and is undone by unescaping |
| Classify.FirstRule | src/hkex_scraper/utils.py:137-158 | finds the first rule in order whose keyword occurs, and no earlier rule fires |
| Classify.Classify | src/hkex_scraper/utils.py:135-158 | the category is that of the first rule firing on the upper-cased title, or ("OTHER", "Announcement") when none fires |
| Classify.ClassifyIgnoresCase | src/hkex_scraper/utils.py:137 | titles equal up to letter case are classified alike |
| Classify.ClassifyOfLower | src/hkex_scraper/utils.py:137 | lower-casing a title does not change its category |
| Classify.ClassifyAnnualReport | src/hkex_scraper/utils.py:138-139 | "Annual Report 2024" is an ANNUAL_REPORT |
| Classify.DerivativeIgnoresCase | src/hkex_scraper/utils.py:102-105 | derivative detection ignores letter case |
| Classify.InsertByLengthSorts | src/hkex_scraper/utils.py:115 | insertion keeps the list longest-keyword-first and adds exactly one entry |
| Classify.SortByLengthSorts | src/hkex_scraper/utils.py:115 | the sort by descending keyword length is a longest-first permutation of the issuer table |
| Classify.FirstIssuer | src/hkex_scraper/utils.py:115-117 | finds the first entry whose keyword occurs in the title, and no earlier one occurs |
| Classify.FirstMatch | src/hkex_scraper/utils.py:115-117 | the entry the scan over a table returns has a keyword in the title, and no entry matches when it returns nothing |
| Classify.BestIssuerIsFirstLongest | src/hkex_scraper/utils.py:74-99 | the reference choice over the unsorted table is empty exactly when nothing matches, and is otherwise the first, in table order, of the longest matching keywords |
| Classify.InsertFirstMatch | src/hkex_scraper/utils.py:115 | inserting an entry behind every entry at least as long changes the first match only when the new keyword matches and is strictly longer |
| Classify.SortedFirstMatch | src/hkex_scraper/utils.py:115-117 | the sort is stable: scanning the sorted table picks the same entry as the reference choice over the table in its own order |
| Classify.SortedPicksFirstLongest | src/hkex_scraper/utils.py:115-117 | the entry found in the sorted table is the first longest match of the original table |
| Classify.KeepUpperAlnum | src/hkex_scraper/utils.py:127 | only capitals and digits survive, and every one of them does |
| Classify.KeepUpperAlnumCounts | src/hkex_scraper/utils.py:127 | every capital and digit survives as often as it occurs, and nothing else does |
| Classify.KeepUpperAlnumKeeps | src/hkex_scraper/utils.py:127 | a word of capitals and digits passes the filter unchanged |
| Classify.IssuerBeforeSeparator | src/hkex_scraper/utils.py:119-129 | the fallback issuer name is non-empty and made only of capitals and digits; it is "DERIV" when no separator occurs past the start of the title |
| Classify.IssuerOfDailyTitle | src/hkex_scraper/utils.py:119-129 | the capitals-and-digits word before " - Daily" is the fallback name |
| Classify.IssuerFrom | src/hkex_scraper/utils.py:108-129 | with a known keyword in the title, the short name of the first entry, in table order, among the longest matching keywords; otherwise the separator fallback, made of capitals and digits |
| Classify.TieGoesToFirst | src/hkex_scraper/utils.py:74-99 | with "HSBC" listed before "BOCI" and both in the title, the issuer is HSBC |
| Classify.TieFollowsTableOrder | src/hkex_scraper/utils.py:74-99 | with the table order swapped, the same title gives BOCI |
| Classify.IssuerFromDaily | src/hkex_scraper/utils.py:108-129 | with no known keyword, the issuer of "WORD - Daily…" is WORD |
| Classify.LongestMatch | src/hkex_scraper/utils.py:114-117 | in a longest-first permutation, the first keyword that matches is a longest matching keyword of the original table |
| Classify.NoneMatch | src/hkex_scraper/utils.py:115-117 | no match in the sorted table means no match in the original table |
| Tickers.CodeList | src/hkex_scraper/utils.py:170-172 | the repeated `\d{3,5}[,\s]*` group yields only 3-5 digit codes, and is empty exactly when it consumes nothing |
| Tickers.StockCodeAt | src/hkex_scraper/utils.py:169-173 | a "stock code(s)" match consumes input and yields at least one 3-5 digit code |
| Tickers.StockCodes | src/hkex_scraper/utils.py:169-173 | every code found after "stock code" has 3-5 digits; its partners StockCodeMentionFound and StockListFound state which codes are found |
| Tickers.StockCodeMentionFound | src/hkex_scraper/utils.py:169-173 | the code of a leading "stock code NNN" mention is the first code found and is referenced; it is the only one when the title ends there |
| Tickers.ScanReaches | src/hkex_scraper/utils.py:169-173 | the scan passes over positions where no mention starts without finding anything |
| Tickers.NoStockWithoutS | src/hkex_scraper/utils.py:169 | no mention starts before the first letter s |
| Tickers.CodeListOfCodes | src/hkex_scraper/utils.py:170-172 | a list of codes separated by ", " is read back as exactly those codes, ending after the last one |
| Tickers.StockListAt | src/hkex_scraper/utils.py:169-173 | a "stock code" mention followed by a separated list matches there and yields exactly that list |
| Tickers.StockListFound | src/hkex_scraper/utils.py:169-173 | the first "stock code" list in a title opens the scan's result, and each of its codes is referenced |
| Tickers.JointMention | src/hkex_scraper/utils.py:166-176 | both codes of "Joint Announcement (stock code: a, b)" are referenced |
| Tickers.JointExample | tests/test_utils.py:46-50 | "Joint Announcement (stock code: 0298, 1234)" filed by company 0001 references 0298.HK and 1234.HK |
| Tickers.JointOwnExample | tests/test_utils.py:52-56 | "Joint Announcement (stock code: 0001, 0298)" filed by company 0001 references 0298.HK but not 0001.HK |
| Tickers.HkCodeAt | src/hkex_scraper/utils.py:175-176 | a "(NNN.HK)" match consumes input and yields a 3-5 digit code |
| Tickers.HkCodes | src/hkex_scraper/utils.py:175-176 | every "(…HK)" code found has 3-5 digits |
| Tickers.HkCodeAtOccurs | src/hkex_scraper/utils.py:175 | the scanner matches at a position exactly when the pattern occurs there (reference predicate) |
| Tickers.HkCodesComplete | src/hkex_scraper/utils.py:175-176 | a code is found exactly when "(code.HK)" occurs in the title, in either case |
| Tickers.ReferencedCodes | src/hkex_scraper/utils.py:166-176 | all collected codes have 3-5 digits |
| Tickers.TickerSet | src/hkex_scraper/utils.py:178-182 | every ticker is four or five digits plus ".HK" and differs from the filing's own ticker |
| Tickers.ExtractReferencedTickers | src/hkex_scraper/utils.py:164-183 | the result is strictly sorted, free of duplicates, all in ticker form, excludes the own ticker, and has exactly the members of the ticker set |
| Tickers.ReferencedTickersExactly | src/hkex_scraper/utils.py:164-183 | a ticker is returned exactly when some mentioned code normalises to it and its normal form differs from the own code's |
| Tickers.TickerForm | src/hkex_scraper/utils.py:180-182 | a 3-5 digit code becomes four or five digits plus ".HK" |
| Tickers.TickerDistinct | src/hkex_scraper/utils.py:180-181 | codes with different normal forms give different tickers |
| Tickers.ZFillNormalisedInjective | src/hkex_scraper/utils.py:180-182 | zero-padding is injective on normalised codes |
| Tickers.PaddedNormalises | src/hkex_scraper/utils.py:180-182 | stripping the zeros of a padded normal form gives it back (round trip) |
| Tickers.HkSuffixExample | src/hkex_scraper/utils.py:175-183 | in "(0451.HK) (0005.HK)" filed by company 0005, "0451.HK" is returned and the filing's own "0005.HK" is not |
| Calendar.DaysInMonth | src/hkex_scraper/api.py:137 | 28 to 31 days, and February has 29 exactly in leap years |
| Calendar.NextDay | src/hkex_scraper/api.py:136-143 | the next day is a valid date strictly after the given one |
| Calendar.MonthIndexRoundTrip | src/hkex_scraper/api.py:140-143 | a month counter maps back to its year and month, so the month-by-month step decrements are exact |
| Calendar.OrderOfMonths | src/hkex_scraper/api.py:135 | comparing month counters agrees with comparing dates |
| Calendar.MonthsAdjoin | src/hkex_scraper/api.py:137-143 | the day after a month's last day is the first of the next month |
| Calendar.ChunkCount | src/hkex_scraper/api.py:134-135 | there are no chunks exactly when the end month precedes the start month |
| Calendar.GenerateMonthlyChunks | src/hkex_scraper/api.py:126-144 | one chunk per month from the end month back to the start month, each clipped to the range; fails (the `ValueError`) only when a chunk is due for January of year 1 |
| Calendar.ChunkFacts | src/hkex_scraper/api.py:136-139 | every chunk lies within the range and in a single month, months descending |
| Calendar.ChunkInMonth | src/hkex_scraper/api.py:136-138 | a chunk lies in its month, within the range, and starts no later than it ends |
| Calendar.ChunksContiguous | src/hkex_scraper/api.py:136-143 | consecutive chunks leave no gap: each older chunk ends the day before the newer one starts |
| Calendar.ChunksCover | src/hkex_scraper/api.py:133-144 | every date of the range lies in the chunk of its month |
| Extractor.CleanPath | src/hkex_scraper/extractor.py:478 | the path is a prefix of the lower-cased URL, with no "?" or "#" |
| Extractor.ExtractContentWithTables | src/hkex_scraper/extractor.py:474-485 | a URL path ending ".pdf" goes to the PDF extractor, ".htm"/".html" to the HTML one, ".xlsx"/".xls" to the Excel one, and any other gives ("", []) |
| Extractor.ExtensionsExclusive | src/hkex_scraper/extractor.py:479-484 | no path ends in two of the routed extensions from different branches, so the branch order does not matter |
| Extractor.ExtractIgnoresQueryAndCase | src/hkex_scraper/extractor.py:474-485 | a query string or upper-casing the URL does not change what is extracted |
| Extractor.RoutePdf | src/hkex_scraper/extractor.py:479-480 | ".pdf" goes to the PDF extractor |
| Extractor.RouteHtm | src/hkex_scraper/extractor.py:481-482 | ".htm" goes to the HTML extractor |
| Extractor.RouteHtml | src/hkex_scraper/extractor.py:481-482 | ".html" goes to the HTML extractor |
| Extractor.RouteXlsx | src/hkex_scraper/extractor.py:483-484 | ".xlsx" goes to the Excel extractor |
| Extractor.RouteXls | src/hkex_scraper/extractor.py:483-484 | ".xls" goes to the Excel extractor |
| Extractor.RouteDoc | src/hkex_scraper/extractor.py:485 | ".doc" gets no extractor |
| Extractor.RouteDocx | src/hkex_scraper/extractor.py:485 | ".docx" gets no extractor |
| Extractor.RouteIgnoresQuery | src/hkex_scraper/extractor.py:478 | a query string does not change the route |
| Extractor.RouteIgnoresFragment | src/hkex_scraper/extractor.py:478 | a fragment does not change the route |
| Extractor.RouteIgnoresCase | src/hkex_scraper/extractor.py:478 | upper- or lower-casing the URL does not change the route |
| Extractor.RStripAll | src/hkex_scraper/extractor.py:117 | every line is right-stripped, one for one |
| Extractor.TidyLines | src/hkex_scraper/extractor.py:116-120 | the tidied text has no edge whitespace |
| Extractor.TidyLinesClean | src/hkex_scraper/extractor.py:116-120 | no line of the tidied text ends in whitespace |
| Extractor.CleanMarkdown | src/hkex_scraper/extractor.py:88-120 | empty text gives ""; otherwise the result is trimmed and no line ends in whitespace, whatever the regex passes did |
| Extractor.TidyFixpoint | src/hkex_scraper/extractor.py:116-120 | already tidy text is unchanged |
| Extractor.TidyIdempotent | src/hkex_scraper/extractor.py:116-120 | tidying twice equals tidying once |
| Tables.CellText | src/hkex_scraper/extractor.py:138 | a cell's text is squashed, and a missing or falsy cell gives "" |
| Tables.ColNames | src/hkex_scraper/extractor.py:133 | exactly n placeholder names |
| Tables.HeaderTexts | src/hkex_scraper/extractor.py:129-134 | every header text is squashed; given headers, not all `None`, are kept one for one as their cell texts |
| Tables.PlaceholderHeaders | src/hkex_scraper/extractor.py:131-134 | with no headers, or all of them `None`, the headers are Col1..ColN for the width of the first row |
| Tables.RowCells | src/hkex_scraper/extractor.py:137-141 | a row has exactly as many cells as headers: its own texts, padded with "" or cut |
| Tables.TableLines | src/hkex_scraper/extractor.py:135-142 | two lines more than there are rows |
| Tables.TableLinesShape | src/hkex_scraper/extractor.py:135-142 | the header line comes first, then the separator of one dash cell per header, then each row's line in order |
| Tables.TableLinesOneLine | src/hkex_scraper/extractor.py:134-143 | no rendered line contains a line break |
| Tables.TableToMarkdown | src/hkex_scraper/extractor.py:127-143 | no headers and no rows give ""; otherwise splitting the result on newlines gives back exactly the rendered lines |
| Tables.ParseHeaders | src/hkex_scraper/extractor.py:170-173 | at least one header, each trimmed and without "\|" |
| Tables.HeaderLineRoundTrip | src/hkex_scraper/extractor.py:170-173 | parsing the line rendered from trimmed, pipe-free cells gives back exactly those cells |
| Tables.HeadersRoundTrip | src/hkex_scraper/extractor.py:127-173 | the table parser reads back the headers the renderer wrote, when at least one exists and none contains "\|" |
| Tables.TableLineIsStripped | src/hkex_scraper/extractor.py:159 | a table line is exactly one whose stripped form starts with "\|" |
| Tables.TableRunsSound | src/hkex_scraper/extractor.py:157-166 | every span found is a maximal run of table lines, at least three long; spans are in order and disjoint |
| Tables.TableRunsComplete | src/hkex_scraper/extractor.py:157-166 | every maximal run of at least three table lines is described |
| Tables.DescribeIndex | src/hkex_scraper/extractor.py:166-167 | tables are numbered 1, 2, … in order |
| Tables.ScanRun | src/hkex_scraper/extractor.py:161-163 | the inner loop stops at the end of the maximal run of table lines |
| Tables.ExtractTablesFromMd | src/hkex_scraper/extractor.py:146-188 | the loop returns exactly the blocks of the reference definition (maximal runs of three or more table lines, each described), numbered from 1 |
| Db.UpsertBatchWithRetry | src/hkex_scraper/db.py:65-97 | no statements gives 0 with no request; an accepted list counts whole; a rejected single statement, or a rejection at the depth cap, counts 0 and logs its first statement; the count never exceeds the input |
| Db.LeavesCover | src/hkex_scraper/db.py:93-95 | the final lists of the halving partition the input in order |
| Db.LeavesJudged | src/hkex_scraper/db.py:72-95 | each final list is non-empty, and is accepted exactly when the database accepts it |
| Db.CountIsAccepted | src/hkex_scraper/db.py:72-97 | the count is the number of statements in accepted lists; the failure file gets the first statement of each abandoned list |
| Db.DepthBounded | src/hkex_scraper/db.py:77-95 | no request is made deeper than the cap |
| Metadata.CompanyTicker | src/hkex_scraper/pipeline.py:113-125 | the category is LISTED exactly for a non-blank code and DERIVATIVE exactly for a blank code with a derivative title; the ticker is then the issuer name plus "_DERIV.HK", and "UNKNOWN.HK" for any other blank code |
| Metadata.DerivativeTicker | src/hkex_scraper/pipeline.py:113-119 | a code-less derivative filing "WORD - Daily…" with no known issuer gets the ticker "WORD_DERIV.HK" |
| Metadata.ListedTicker | src/hkex_scraper/pipeline.py:113-129 | a listed filing's ticker is the normalised code zero-filled to four digits plus ".HK", and is never among its own referenced tickers |
| Metadata.ListedTickerIsCompanyNode | src/hkex_scraper/pipeline.py:124-125 | for a digit code, the graph linker maps the filing's ticker to the company record "code_HK" |
| Metadata.FilingDateExpr | src/hkex_scraper/pipeline.py:104-111 | NULL exactly when the date does not split into three "/"-parts; otherwise the parts, year first, which join back to the date |
| Metadata.DateRoundTrip | src/hkex_scraper/pipeline.py:106-109 | "dd/mm/yyyy" of slash-free parts gives the literal of those parts |
| Metadata.FilingToRecord | src/hkex_scraper/pipeline.py:96-161 | the upsert's category follows the code, its text fields hold no line break, and its referenced tickers are the extracted ones, strictly sorted |
| Metadata.SaveFilingsBatchMetadata | src/hkex_scraper/pipeline.py:88-166 | no filings gives 0; a dry run gives the full count; an accepted batch gives the full count; the result never exceeds the count |
| Payload.ScaleUpBounds | src/hkex_scraper/pipeline.py:213 | `int(n * 1.1)` is at least n and more than 1.1·n − 1 |
| Payload.ScaleUpMonotone | src/hkex_scraper/pipeline.py:213 | the estimate is monotone in the length |
| Payload.ScaleDownBounds | src/hkex_scraper/pipeline.py:220 | `int(x / 1.1)` lies between 0 and x, and scaling it back up stays within x |
| Payload.ScaleDownExample | src/hkex_scraper/pipeline.py:220 | `int(33 / 1.1)` is 29, as the doubles give |
| Payload.EmergencyShrinks | src/hkex_scraper/pipeline.py:321 | over the hard limit, the emergency target is strictly below a non-zero length |
| Payload.BackOff | src/hkex_scraper/pipeline.py:221-225 | the result is a prefix within the target: either the plain prefix, or cut just before the prefix's last newline when that lies past half the target |
| Payload.BackOffKeepsHalf | src/hkex_scraper/pipeline.py:223-225 | a back-off keeps more than half the target, or is the plain prefix |
| Payload.KeepTables | src/hkex_scraper/pipeline.py:234-242 | the kept tables are a prefix whose running size fits 200 KiB, and the next table would not fit |
| Payload.FloorTarget | src/hkex_scraper/pipeline.py:248 | the target is at least 50 000 characters, and at least the room divided by 1.1 |
| Payload.CutPlan | src/hkex_scraper/pipeline.py:217-258 | the cut keeps a prefix of the text and of the tables, and is marked truncated |
| Payload.PreTruncate | src/hkex_scraper/pipeline.py:201-258 | the plan keeps a prefix of the text and of the tables |
| Payload.UnderBudgetUnchanged | src/hkex_scraper/pipeline.py:213-216 | text and tables pass unchanged and unmarked exactly when the estimate is within the body limit |
| Payload.RoomyKeepsTables | src/hkex_scraper/pipeline.py:218-226 | with more than 50 000 bytes of room all tables are kept, and the cut text's estimate fits the room |
| Payload.TightCutsTables | src/hkex_scraper/pipeline.py:219-252 | tables are dropped only when the room is at most 50 000; then the kept tables are the 200 KiB prefix and the text keeps more than 25 000 characters or all of them |
| Payload.OverBudgetCuts | src/hkex_scraper/pipeline.py:216-226 | over budget the plan is the cut for the remaining room; with ample room the new estimate fits |
| Payload.ReasonText | src/hkex_scraper/pipeline.py:269 | the status reason is empty exactly when the text was not truncated |
| Payload.BuildSaveSql | src/hkex_scraper/pipeline.py:260-294 | the statement stores the given text and its length, the tables and their count, and the reason that matches the truncation flag |
| Payload.FirstWrite | src/hkex_scraper/pipeline.py:316-328 | the first write carries a prefix of the planned text, all planned tables, and the stored text's length |
| Payload.EmergencyCut | src/hkex_scraper/pipeline.py:319-328 | over the hard limit the text is re-cut (strictly shorter when non-empty) and marked truncated; otherwise the planned statement is sent as is |
| Payload.ResultCode | src/hkex_scraper/pipeline.py:330-366 | the reason is empty exactly on success |
| Payload.RetryWrite | src/hkex_scraper/pipeline.py:339-349 | the retry carries at most 500 KiB of the text's prefix, no tables, and the truncation reason |
| Payload.Respond | src/hkex_scraper/pipeline.py:330-366 | a retry happens exactly on a 413-like failure; success exactly when the last write succeeded; 413 failure exactly when the retry failed; otherwise the first error |
| Payload.SaveDocumentToFiling | src/hkex_scraper/pipeline.py:169-366 | one or two writes, each storing a prefix of the text with its true length |
| Payload.WriteProtocol | src/hkex_scraper/pipeline.py:315-366 | the first write is the planned one; the second write, made exactly on a 413-like error, is the fallback; the outcome codes follow |
| Payload.UnderBudgetSentWhole | src/hkex_scraper/pipeline.py:201-332 | a document under both limits is sent whole with an empty reason |
| Payload.Is413Examples | src/hkex_scraper/pipeline.py:296-313 | only a dictionary reply can be a 413, and one naming 413 is |
| Backfill.DownloadDocument | src/hkex_scraper/pipeline.py:39-48 | an empty URL gives "no_url" and an unsupported extension gives "unsupported_type", without a request; any other non-request result has no bytes and a reason |
| Backfill.SupportedIffKnownType | src/hkex_scraper/pipeline.py:185-195 | the download filter accepts exactly the URLs the save gives a known document type |
| Backfill.FilingIdOf | src/hkex_scraper/pipeline.py:576-577 | the id is the part of the record id after its last ":", or `filingId` when it has none |
| Backfill.SaveDownloaded | src/hkex_scraper/pipeline.py:613-639 | a downloaded document is saved or failed, never skipped, and a failure carries a non-empty code |
| Backfill.Process | src/hkex_scraper/pipeline.py:574-639 | a row is ignored exactly without an id, skipped as "no_document_url" exactly without a URL, and otherwise keeps its id; skips and failures carry reasons |
| Backfill.SaveFailureCode | src/hkex_scraper/pipeline.py:638 | the "save_error" fallback is never used: the save always gives a code |
| Backfill.Outcomes | src/hkex_scraper/pipeline.py:575-639 | one outcome per fetched row, in row order |
| Backfill.Count | src/hkex_scraper/pipeline.py:583-644 | each row lands in exactly one counter; texts and tables come only from saved documents |
| Backfill.MarksCounted | src/hkex_scraper/pipeline.py:582-638 | exactly one status mark per row skipped or failed |
| Backfill.MarksHaveReasons | src/hkex_scraper/pipeline.py:582-638 | every mark names a filing and a non-empty reason |
| Backfill.Fetch | src/hkex_scraper/pipeline.py:557-567 | a `LIMIT n` fetch returns a prefix of the pending rows, at most n, none for n ≤ 0 |
| Backfill.NextBatch | src/hkex_scraper/pipeline.py:552-567 | the next request asks for the batch size or what is left of the limit, whichever is less, and never exceeds the limit |
| Backfill.StepOn | src/hkex_scraper/pipeline.py:552-663 | a batch that fetched rows without reaching the stall cap keeps the loop invariant |
| Backfill.StepEmpty | src/hkex_scraper/pipeline.py:568-570 | an empty fetch ends the loop |
| Backfill.StepStalled | src/hkex_scraper/pipeline.py:651-661 | reaching three stalls ends the loop |
| Backfill.LoopDone | src/hkex_scraper/pipeline.py:552-663 | the loop ends at the limit, on an empty fetch or on three stalls, with counters that sum its batches |
| Backfill.RunPhase2Done | src/hkex_scraper/pipeline.py:506-678 | nothing missing gives zero counters and no batches; otherwise the run ends for one of the three reasons and the totals sum the batches |
| Graph.TickerToRecordId | src/hkex_scraper/graph.py:13-21 | a record ID is at least two characters |
| Graph.RecordIdOfTicker | src/hkex_scraper/graph.py:18-21 | "code.EX" maps to the code without leading zeros, "_", then EX |
| Graph.RecordIdOfFilingTicker | src/hkex_scraper/graph.py:13-21 | a filing's digit ticker maps to its normalised code plus "_HK" |
| Graph.RecordIdExample | src/hkex_scraper/graph.py:16 | "0451.HK" maps to "451_HK" |
| Graph.AllZeroCode | src/hkex_scraper/graph.py:19 | an all-zero code maps to "0" |
| Graph.NoDotMeansHk | src/hkex_scraper/graph.py:20 | a ticker without "." gets exchange HK |
| Graph.ExtraPartsIgnored | src/hkex_scraper/graph.py:18-20 | parts after the second "." are ignored |
| Graph.BatchesPartition | src/hkex_scraper/graph.py:88-89 | the batches partition the list in order, each non-empty and at most the batch size, all but the last full |
| Graph.AcceptedCount | src/hkex_scraper/graph.py:104-109 | at most the number of items sent |
| Graph.SendBatches | src/hkex_scraper/graph.py:85-109 | the batches sent are the partition; linked plus errors is the item count; linked is the size of the accepted batches |
| Graph.KeepMembers | src/hkex_scraper/graph.py:74-82 | an item is kept exactly when its company key is a known company |
| Graph.MatchCompanies | src/hkex_scraper/graph.py:74-83 | valid plus skipped is the number of tickers, and the valid ones are the kept ones |
| Graph.NonEmpty | src/hkex_scraper/graph.py:69 | the scan keeps exactly the non-empty tickers |
| Graph.SourceTickers | src/hkex_scraper/graph.py:53-70 | a run's tickers come sorted and complete; a failed scan gives none |
| Graph.LinkFilingsToCompanies | src/hkex_scraper/graph.py:41-130 | disabled or failed scans do nothing; otherwise the valid tickers are batched by 50, their counts add up, and the result is the edge count |
| Graph.PageAt | src/hkex_scraper/graph.py:153-170 | a page has at most 5000 rows |
| Graph.FetchFilings | src/hkex_scraper/graph.py:145-177 | paging yields a prefix of the rows, and all rows when no page fails |
| Graph.XrefsOf | src/hkex_scraper/graph.py:181-189 | a filing without a title or id yields no cross-reference |
| Graph.XrefsSound | src/hkex_scraper/graph.py:180-189 | every cross-reference comes from a filing whose title mentions the ticker |
| Graph.XrefsComplete | src/hkex_scraper/graph.py:180-189 | every mention in a fetched filing yields a cross-reference |
| Graph.ToRecords | src/hkex_scraper/graph.py:202-206 | each pair keeps its filing and maps the ticker to its record ID |
| Graph.CrossReferenceFilings | src/hkex_scraper/graph.py:137-241 | fetched filings are a prefix of the table; valid references are batched by 100 and created plus errors equals valid; no references means nothing sent |
| Strings.SplitJoin | src/hkex_scraper/pipeline.py:108 | splitting a join of separator-free parts returns the parts |
| Strings.StripLeadingZeros | src/hkex_scraper/utils.py:180 | `lstrip("0") or "0"` is a non-empty suffix starting with a non-zero digit, or "0" exactly for all-zero input |
| Strings.ZFillDigits | src/hkex_scraper/utils.py:182 | zero-filling digits gives digits, with the input at the end and zeros before it |
| Strings.SortedList | src/hkex_scraper/utils.py:183 | `sorted(set(...))` is strictly increasing with exactly the set's members |

## Left out

- Network and database transport: `surreal_query`, the HTTP body of `_download_document`, `fetch_chunk_via_api` and `_load_company_ids` are not modelled. Their results are parameters: replies, fetch functions, company ID sets and row snapshots.
- The thread pool of `run_phase2` is not modelled. Downloads are mapped sequentially in row order, so the skip marks come in row order rather than completion order. Exceptions raised by a download worker, which the source counts as errors, are not modelled.
- The format extractors (`extract_pdf_content`, `extract_html_content`, `extract_excel_content`) and `_parse_initial_page_html` depend on third-party parsers. They are parameters, or not part of this model.
- The regular-expression passes of `_clean_markdown` before the final line tidy are one parameter, `passes`. The model proves what holds after any such pass: the line-wise right strip and the overall strip.
- Floating point: `int(n * 1.1)`, `int(x / 1.1)` and the emergency factor are computed on the exact rational values of the IEEE doubles, without intermediate rounding.
- Payload.ScaleDown: the quotient by the double nearest 1.1 is truncated without first being rounded to a double. Python rounds `11 / 1.1` up to `10.0`, so `int(11 / 1.1)` is 10 where the model gives 9; likewise 22 gives 20 against 19, and 72094 gives 65540 against 65539. The model's target can be one character short.
- MD5 digests, UTF-8 and JSON sizes, and the database's replies are parameters. Record IDs built from MD5 are not modelled.
- `MAX_SQL_BODY_SIZE` is the parameter `maxBody`, because `config.py` does not define it.
- `str.isprintable` is approximated; case mapping covers ASCII letters only; `\d` covers ASCII digits only.
- Logging and the failure-file writes are not modelled, except the first statement of each abandoned list (`failed`).
- The count query of `run_phase2` is not parsed. Its answer is the parameter `totalMissing`.
- The time-of-day part of `datetime` is not modelled, and neither is `datetime.now`.
- The schema DDL in `db.py`, the CLI in `main.py`, and environment parsing in `config.py` are not part of this model.
- `run_phase1` is not modelled as a whole. Its parts are: chunking, record parsing, and the metadata batch.
- Calendar.GenerateMonthlyChunks: Python's `ValueError` for a date before year 1 is modelled as `ok == false` with no chunks.
- Backfill.RunPhase2Done: the phase-2 `while` loop is the recursive function `Loop`. Its termination follows from the processed count rising towards the limit.
- Api.DecodeEntities: only the length bound is stated as a contract. The single-pass behaviour is stated by the example lemmas.
- Graph.TickerToRecordId: the contract states only the length; the lemmas listed above give its value case by case.
- Graph.AcceptedCount: the contract states only the bound. `SendBatches` relates the count to the accepted batches.
- Payload.PreTruncate: the contract states only prefixes. The lemmas `UnderBudgetUnchanged` and `OverBudgetCuts` give the two cases.
- Tables.ParseHeaders: the contract states the shape of each header. The values are given by `HeadersRoundTrip` for rendered tables only.
- The row count of `_extract_tables_from_md` is defined through `IsDataRow`. No separate lemma relates it to rendered rows: a row whose cells are all empty, or made only of dashes and colons, would look like a separator row and not be counted.
