# ShopBack export userscripts: a Dafny model

This project models the deterministic core of three ShopBack userscripts and
proves properties about it.

- **Transaction exporter** (`ShopBack_Transaction_Exporter.user.js`). It has
  three pagination drivers:
  - the token-chained cashback loop;
  - the token-chained payment loop;
  - the order-history loop, whose cursor is the last order's `paidAt`.

  It also has the rule that picks the downloaded file. A complete run uses
  the normal name. A failed run uses a `partial_` name, is skipped when empty,
  and rethrows. `startExport` runs the three exports one after another.
- **Cashback-table exporter** (`shopback-cashback-export.user.js`). This
  covers transaction-type classification, transaction-identifier extraction,
  confirmation-date extraction and `formatDate`. It also covers the fold of a
  page's rows, where year rows change the year and short rows are skipped. The
  walk over at most 100 pages and the CSV text of `downloadCSV` are included.
- **Order CSV builder** (`DownloadOrdersAsCSV.js`). This covers the order-date
  pattern, the 12-hour to 24-hour conversion and the date column. It also
  covers the field sanitising, the unquoted CSV assembly and the scroll loop
  that stops once the page height is stable.

The network is a finite sequence of responses. Each response is a parsed body
or the error that was thrown. Every DOM lookup is replaced by the text it
would return. The clock is a parameter.

Modules:
- `Common` has `Option` and `Result`.
- `Text` models the JavaScript string operations: `trim`, `split`, `join`,
  `replace`, `padStart`, `parseInt` and `toString`. It also holds the greedy
  character-class runs the regular expressions use.
- `Csv` holds the writer and a reader for section 2 of RFC 4180, with their
  round trips.
- `TransactionExport`, `CashbackTable` and `OrderCsv` follow the three scripts.

Behaviour of the scripts worth knowing, as the model states it:
- **A card whose date does not match.** In `DownloadOrdersAsCSV.js` the
  destructuring of the failed match throws at line 78, so the whole export
  ends with no file (`OrderCsv.BuildRowsFails`).
- **A first page with no total.** An absent or zero `meta.total` counts as 0,
  so the token loop stops after the first page
  (`TransactionExport.MissingTotalOneFetch`).
- **The duplicate guard.** It compares the last order number of consecutive
  pages, not the last record of one page with the first of the next.
- **Amounts.** Every amount is kept as the text shown.

## Model

| member | source | states |
|---|---|---|
| TransactionExport.NextParamSpec | ShopBack_Transaction_Exporter.user.js:254-268 | the cashback token is the text after the leftmost `next=` that is followed by a non-`&`, up to the next `&` or the end; there is none exactly when no such `next=` exists |
| TransactionExport.FirstParam | ShopBack_Transaction_Exporter.user.js:258 | the position found is the leftmost one where `next=([^&]+)` matches, and none is found only when it matches nowhere |
| TransactionExport.TokenLoop | ShopBack_Transaction_Exporter.user.js:216-278 | a run makes at least one request and never more than one per response; the first request carries the starting token |
| TransactionExport.TokenLoopPages | ShopBack_Transaction_Exporter.user.js:254-278 | every request but the last was answered with a token, the next request carries that token, and the count after it was still below the total |
| TransactionExport.TokenLoopEnd | ShopBack_Transaction_Exporter.user.js:245-278 | the records are exactly the concatenation of the answered pages' records in fetch order; a clean end is an answered page with no token or with the count at the total; a failed end is the thrown error (or no response), and that page adds nothing |
| TransactionExport.TokenLoopSpec | ShopBack_Transaction_Exporter.user.js:176-313 | both of the above together: the complete description of a cashback or payment run |
| TransactionExport.LaterTotalsIgnored | ShopBack_Transaction_Exporter.user.js:240-243 | after the first page, the totals the pages report do not affect the run |
| TransactionExport.TotalFromFirstPageOnly | ShopBack_Transaction_Exporter.user.js:239-243 | two response sequences that differ only in the totals after the first page give the same run |
| TransactionExport.MissingTotalOneFetch | ShopBack_Transaction_Exporter.user.js:273-276 | a first page with no total, or a total of zero or less, is the only page fetched, and its records are the result |
| TransactionExport.OrderLoop | ShopBack_Transaction_Exporter.user.js:490-542 | an order run makes at least one request, at most one per response, and the first carries the initial `before` |
| TransactionExport.OrderLoopSpec | ShopBack_Transaction_Exporter.user.js:490-542 | every request but the last got a non-empty page whose last order number differs from the previous page's, and the next request carries that page's last `paidAt`; the records are those pages' orders in order; the last request threw, which is the run's error, or ended the loop cleanly without being appended |
| TransactionExport.OrderRunCons | ShopBack_Transaction_Exporter.user.js:516-525 | an appended page in front of a described run gives a described run: the page's orders come first and its `paidAt` is the next cursor |
| TransactionExport.OrderBoundariesDistinct | ShopBack_Transaction_Exporter.user.js:516-525 | there is no duplicate boundary page: consecutive appended pages end in different order numbers, and the first does not end in `null` |
| TransactionExport.Finish | ShopBack_Transaction_Exporter.user.js:280-311 | a run that threw rethrows its error and downloads its records under the partial name exactly when there are some; a run stuck on a request that never settles downloads nothing and neither returns nor rethrows; a complete run returns its records and downloads them under the normal name, except that an order run with no orders downloads nothing |
| TransactionExport.TokenPartialExport | ShopBack_Transaction_Exporter.user.js:295-311 | partial data is never lost: when a token export throws at request k, every earlier request was answered, request k threw, and the download is exactly the records of pages 1..k-1 under `partial_` + name, or none when those are empty |
| TransactionExport.OrderPartialExport | ShopBack_Transaction_Exporter.user.js:561-578 | the same for the order export: every page before the request that threw was appended, and the download is exactly their orders under the partial name |
| TransactionExport.EmptyOrdersNoFile | ShopBack_Transaction_Exporter.user.js:544-547 | a first page with no JSON object, a parse failure or no orders ends the export cleanly with no file and an empty result |
| TransactionExport.ExportAll | ShopBack_Transaction_Exporter.user.js:154-173 | the cashback export always runs; the payment export runs exactly when the cashback export returned, and the order export exactly when both earlier exports returned; each export that runs has the outcome of its own responses |
| CashbackTable.LabelsDistinct | shopback-cashback-export.user.js:124-141 | the five type labels name the types one-to-one, and none holds a comma, quote or line feed |
| CashbackTable.FirstFiringSpec | shopback-cashback-export.user.js:124-141 | with an ordered rule table, the first rule that fires decides the type, and with none firing the type is Purchase |
| CashbackTable.RulesFire | shopback-cashback-export.user.js:125-139 | when each of the five rules fires: the voucher marker anywhere, a description starting with `Code used:`, `Referral` anywhere, `Challenge` anywhere, an identifier starting with `AU_` or `Code used:` |
| CashbackTable.DetermineTypeByRules | shopback-cashback-export.user.js:124-141 | the chain of checks classifies exactly as the first-match rule table does |
| CashbackTable.TrailingId | shopback-cashback-export.user.js:160-164 | the captured identifier is the maximal run of `[a-zA-Z0-9_-]` that ends the text |
| CashbackTable.VoucherId | shopback-cashback-export.user.js:147-150 | a voucher line yields the trimmed text between the marker's colon and the next colon or the end |
| CashbackTable.CodeUsedId | shopback-cashback-export.user.js:152-155 | a `Code used: ` line yields the rest of the line, trimmed |
| CashbackTable.RegularId | shopback-cashback-export.user.js:160-166 | any other line yields its maximal trailing run of identifier characters, which is empty when the line does not end in one |
| CashbackTable.LabelledId | shopback-cashback-export.user.js:161-163 | a line ending in `ID:`, optional white space and an identifier yields that identifier |
| CashbackTable.FindConfirmed | shopback-cashback-export.user.js:280 | the position found is the leftmost one where `Confirmed by (\d{2} [A-Za-z]+ \d{4})` matches, and none is found only when it matches nowhere |
| CashbackTable.ShapeMatches | shopback-cashback-export.user.js:280 | a date written out as "Confirmed by DD Month YYYY" is a match of the pattern there, and the group is that date |
| CashbackTable.MatchShape | shopback-cashback-export.user.js:280 | every match of the pattern is such a written-out date |
| CashbackTable.ConfirmationDateAbsent | shopback-cashback-export.user.js:277-287 | the result is empty exactly when the text writes out no confirmation date |
| CashbackTable.ConfirmationDateLeftmost | shopback-cashback-export.user.js:280-284 | the first date written out in the text is reported as `DD-Month-YYYY 00:01` |
| CashbackTable.DateParts | shopback-cashback-export.user.js:282 | the matched group splits at its two spaces into day, month and year |
| CashbackTable.FormatDateFields | shopback-cashback-export.user.js:112-116 | "D Mon" and "H:MM" become `DD-Mon-YYYY HH:MM`, with the day and hour padded to two characters and the month, year and minutes kept |
| CashbackTable.FormatDateNoMonth | shopback-cashback-export.user.js:113-115 | a day text without a space has no month, which prints as `undefined` |
| CashbackTable.TypeTextHasSecond | shopback-cashback-export.user.js:315-318 | an occurrence at the start of the second paragraph is an occurrence in the text the type is decided on |
| CashbackTable.VoucherRecord | shopback-cashback-export.user.js:315-353 | a row whose second description line is a voucher line is a Gift Card carrying the voucher code, when that code is not empty |
| CashbackTable.ProcessRowsAppend | shopback-cashback-export.user.js:384-401 | processing two runs of rows is processing the first, then the second from where it left off |
| CashbackTable.ProcessRowsSpec | shopback-cashback-export.user.js:384-401 | processing rows appends one record per row of four or more cells, in document order, each dated with the year of the nearest year row above it; the last year row's year stays in effect |
| CashbackTable.StepSpec | shopback-cashback-export.user.js:387-394 | one row extends the records and the year in effect as that reference description does |
| CashbackTable.Walk | shopback-cashback-export.user.js:439-451 | at most 100 pages are read, and at least one when there is a page; every page read but the last had an enabled next button; the walk stops before the end only at a disabled button or the bound |
| CashbackTable.WalkFold | shopback-cashback-export.user.js:441-451 | the walk processes the rows of the pages it reads as one sequence, page after page |
| CashbackTable.HeaderSafe | shopback-cashback-export.user.js:405 | every header name can stand unquoted in a line |
| CashbackTable.RecordCellsValues | shopback-cashback-export.user.js:409-418 | a record's line has eight fields, whose values are the record's, with the vendor exactly as shown |
| CashbackTable.RecordCellsSafe | shopback-cashback-export.user.js:409-418 | with no comma, quote or line feed in the verbatim fields, every field of a record's line can be read back |
| CashbackTable.RecordRowsSafe | shopback-cashback-export.user.js:408-420 | the same for every record's line |
| CashbackTable.RecordLinesTerminated | shopback-cashback-export.user.js:408-420 | the records' text is one line per record, each followed by a line feed |
| CashbackTable.DocumentValues | shopback-cashback-export.user.js:404-420 | the header row and the record rows read back as the header and each record's eight values |
| CashbackTable.DocumentText | shopback-cashback-export.user.js:404-420 | the file text is the header line and the record lines, each followed by a line feed |
| CashbackTable.CsvRoundTrip | shopback-cashback-export.user.js:404-420 | under section 2 of RFC 4180 the file reads back as the header followed by each record's eight values in order, whatever commas or quotes the vendor holds |
| CashbackTable.ExportSpec | shopback-cashback-export.user.js:434-454 | the file is `shopback_cashback.csv` and holds the records of the rows of the pages read (at most 100, stopping after the first page with a disabled button), dated from the current year down |
| Csv.EscapedRoundTrip | shopback-cashback-export.user.js:413 | a value with every `"` doubled and a closing quote reads back as the value, whatever it contains |
| Csv.FieldRoundTrip | shopback-cashback-export.user.js:413 | a quoted field and a safe verbatim field each read back as their value |
| Csv.RecordRoundTrip | shopback-cashback-export.user.js:419 | a comma-joined line of safe fields reads back as the fields' values |
| Csv.TerminatedRoundTrip | shopback-cashback-export.user.js:406-420 | lines each followed by a line feed read back as the rows' values |
| Csv.PlainCellsText | shopback-cashback-export.user.js:406 | unquoted cells are written and read back as their texts |
| OrderCsv.DateAt | DownloadOrdersAsCSV.js:77 | every group the pattern matches is non-empty and made of its class |
| OrderCsv.FindDate | DownloadOrdersAsCSV.js:77 | the position found is the leftmost one where `(\d+)\s+(\w+)\s+(\d+)\s+(\d+:\d+)` followed by `AM` or `PM` matches, and none is found only when it matches nowhere |
| OrderCsv.WrittenMatches | DownloadOrdersAsCSV.js:77 | a date written out in the pattern's shape is what the pattern matches there, group by group |
| OrderCsv.MatchWritten | DownloadOrdersAsCSV.js:77 | every match is a date written out in that shape |
| OrderCsv.OrderDateAbsent | DownloadOrdersAsCSV.js:77-78 | there is no match exactly when no date in that shape is written anywhere in the text |
| OrderCsv.OrderDateLeftmost | DownloadOrdersAsCSV.js:77-78 | the groups reported are those of the first date written in the text |
| OrderCsv.To24RoundTrip | DownloadOrdersAsCSV.js:84-88 | for clock hours 1 to 12, the conversion lands in 0..23 and its 12-hour reading gives back the hour and period (12 AM is 0, 12 PM is 12, other PM hours add 12) |
| OrderCsv.From24RoundTrip | DownloadOrdersAsCSV.js:84-88 | every hour of the day is reached by converting exactly one clock reading |
| OrderCsv.TimeSplit | DownloadOrdersAsCSV.js:81 | the time group splits at its colon into the hour and minute digits |
| OrderCsv.HourTextValue | DownloadOrdersAsCSV.js:91 | the hour text is at least two digits, has exactly two below 100, and reads back as the hour |
| OrderCsv.DayTextValue | DownloadOrdersAsCSV.js:91 | padding the day to two digits keeps its value |
| OrderCsv.DateTextSplits | DownloadOrdersAsCSV.js:91 | the date column splits back at `-`, ` ` and `:` into day, month, year, hour and minutes |
| OrderCsv.FormatOrderDateReads | DownloadOrdersAsCSV.js:80-91 | the date column reads back as the matched day, month, year and minutes, with the hour on the 24-hour clock |
| OrderCsv.TotalTextSpec | DownloadOrdersAsCSV.js:93 | the total drops a leading `Total: ` and is left as trimmed when the label is absent |
| OrderCsv.QuantityTextSpec | DownloadOrdersAsCSV.js:96 | the quantity drops a leading `x` and is left as trimmed when it has no `x` |
| OrderCsv.ItemNameSpec | DownloadOrdersAsCSV.js:95 | the item name has no comma and is the comma-separated pieces of the trimmed text written end to end, so every other character is kept in order; it is unchanged when the text has no comma |
| OrderCsv.Columns | DownloadOrdersAsCSV.js:93-98 | a card gives six columns, and the item-name column has no comma |
| OrderCsv.OrderFields | DownloadOrdersAsCSV.js:72-98 | a card has columns exactly when its date text matches the pattern |
| OrderCsv.BuildRows | DownloadOrdersAsCSV.js:72-99 | when every card has columns, the rows are those columns, one per card in page order |
| OrderCsv.BuildRowsFails | DownloadOrdersAsCSV.js:72-99 | there are no rows exactly when some card's date text does not match |
| OrderCsv.DownloadOrders | DownloadOrdersAsCSV.js:101-107 | a download is always named `shopback_orders.csv` |
| OrderCsv.DownloadOrdersSpec | DownloadOrdersAsCSV.js:66-115 | the export fails, with no file, exactly when some card's date does not match; otherwise the text is the header line followed by at least one line per card |
| OrderCsv.RowRoundTrip | DownloadOrdersAsCSV.js:102 | a row of fields free of commas and line feeds, comma-joined, splits back into the row |
| OrderCsv.OrdersTextRoundTrip | DownloadOrdersAsCSV.js:102 | when no field holds a comma or line feed, the file splits back into exactly the rows and fields written |
| OrderCsv.RowColumns | DownloadOrdersAsCSV.js:102 | a line shows as many columns as its row has fields exactly when no field holds a comma |
| OrderCsv.ScrollUntilStable | DownloadOrdersAsCSV.js:45-56 | the loop stops at the first height equal to the one before it, with the height before the first scroll taken as 0 |
| Text.Trim | shopback-cashback-export.user.js:316 | the trimmed text neither starts nor ends with white space |
| Text.TrimBounds | shopback-cashback-export.user.js:316 | only white space is cut from either end |
| Text.RemoveAll | DownloadOrdersAsCSV.js:95 | every occurrence of the character is removed and every other character is kept as often as before; a one-character text loses that character exactly when it is the one removed |
| Text.RemoveAllAppend | DownloadOrdersAsCSV.js:95 | removal distributes over concatenation, so with the one-character case the result is the kept characters in their original order |
| Text.RemoveAllPieces | DownloadOrdersAsCSV.js:95 | removing every occurrence gives the pieces between occurrences written end to end |
| Text.IndexOf | DownloadOrdersAsCSV.js:93 | the index found is the first occurrence at or after the start |
| Text.ReplaceFirstSpec | DownloadOrdersAsCSV.js:93 | a string pattern removes exactly its leftmost occurrence, and nothing when it does not occur |
| Text.ReplaceFirstPrefix | shopback-cashback-export.user.js:154 | removing a pattern the text starts with leaves the remainder |
| Text.Split | shopback-cashback-export.user.js:113 | a split has at least one piece and no piece holds the separator |
| Text.JoinSplit | shopback-cashback-export.user.js:113 | joining the pieces of a split with the separator restores the text |
| Text.SplitCount | shopback-cashback-export.user.js:113 | a split has one more piece than the text has separators |
| Text.SplitFirst | shopback-cashback-export.user.js:149 | the first piece is the longest prefix free of the separator |
| Text.SplitJoin | shopback-cashback-export.user.js:282 | splitting a join of separator-free parts gives back the parts |
| Text.SplitJoinCount | DownloadOrdersAsCSV.js:102 | a split of a join has as many pieces as were joined if and only if no part holds the separator |
| Text.PadStart2 | shopback-cashback-export.user.js:115 | the text is kept at two or more characters, and shorter text is left-filled with `0` to exactly two |
| Text.NatToString | DownloadOrdersAsCSV.js:91 | the decimal text of a number is all digits with no leading zero, one digit exactly below 10 |
| Text.NatToStringValue | DownloadOrdersAsCSV.js:91 | printing a number and parsing it back gives the number |
| Text.LeadingZeroValue | DownloadOrdersAsCSV.js:91 | a leading zero does not change the value `parseInt` reads |
| Text.RunLengthUnique | DownloadOrdersAsCSV.js:77 | a run of a class followed by a character outside it is exactly the greedy run, the only one backtracking can use |
| Text.RunsOf | DownloadOrdersAsCSV.js:77 | pieces of the pattern's classes, each followed by a character outside its class, are exactly the runs the pattern takes |

## Left out

- Network: `fetch`, the request headers, user-agent sniffing and the request body. Responses are an input sequence.
- JSON: `JSON.parse`, `JSON.stringify`, `encodeURIComponent` and the `{.*}` extraction. They become the outcomes "parsed page", "no JSON object" and "parse error".
- DOM lookups, the selector fallback lists, `findExpandedRow`, `extractIdFromExpanded` and `extractPurchaseAmount`. Their results are fields of the row given as input.
- `clickNextPage`: replaced by one boolean per page.
- The UI: buttons, status log, alerts, the MutationObserver and `setInterval` keep-alive, `waitForTable` and `isCashbackPage`.
- Every `sleep` and `setTimeout` delay: these are timing only.
- The progress percentage: it is floating point and divides by a total that may be zero.
- The download mechanics: Blob, object URL, data URI and anchor click. A download is its file name and content.
- `new Date()`: the initial `before` cursor and the current year are parameters.
- `TransactionExport.TokenLoop`, `TransactionExport.OrderLoop`: the response sequence is finite. A request past its end gets `NoResponse`: a fetch that never settles. The export then waits forever (`TransactionExport.Finish` gives `Waiting`), downloading nothing and neither returning nor rethrowing, and `startExport` never reaches the later exports.
- `CashbackTable.Walk`: a walk that runs out of given pages stops there.
- `OrderCsv.ScrollUntilStable`: the heights are a finite sequence. When they never repeat, the result is `None`, where the script would keep scrolling.
- `TransactionExport.CashbackBody`, `TransactionExport.PaymentBody`: `data.meta.pagination.next` and `data.meta.next` are taken to be strings. A truthy `pagination.next` that is not a string makes `.match` throw at `ShopBack_Transaction_Exporter.user.js:258`, after the page's records were added at line 247, so the partial file would include that page; this error path is not modelled.
- `TransactionExport.Order`: `orderNumber` is a string or `null`. An absent (`undefined`) order number is not modelled.
- `CashbackTable.CsvRoundTrip`: requires that the verbatim fields hold no comma, quote or line feed, because the script writes them unquoted and promises nothing for such fields.
- `OrderCsv.OrdersTextRoundTrip`: requires fields without commas or line feeds, for the same reason. `OrderCsv.RowColumns` states the column shift a comma causes.
- `OrderCsv.To24RoundTrip`: holds for clock hours 1 to 12. The pattern accepts any digits, and for other hours the conversion follows the code (13 PM gives 25) without that property.
- JavaScript number semantics: `parseInt` of very long digit strings and totals that are not integers are not modelled. Hours and totals are unbounded integers.
- Strings are sequences of Unicode scalar values. UTF-16 surrogate pairs are not modelled.
- DOM errors other than a failed date match: a missing element in a cashback row throws in the script and is not modelled. Every row given is well formed.
