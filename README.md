# Bill status report reconciler — verified model

This project models the reconciliation pipeline of a browser tool used by a
pay and accounts office. The tool reads two XML report exports:

- an e-payment authorization issue register;
- a voucher compilation sheet.

It does the following with them:

- tells the two exports apart by the `Name` of their root elements;
- builds a lookup map from normalized voucher number to bill type, user name
  and token number;
- collects the vouchers of the sheet, office by office, each with its
  de-duplicated, cleaned object heads and function heads;
- overlays the register's data onto each voucher;
- sorts the vouchers into four buckets: NCDDO when the office name mentions
  LUCKNOW, otherwise CDDO, each split into normal bills and e-bills;
- stable-sorts the two normal buckets by token number;
- labels every bill with a display category;
- computes the figures of the daily status report: per-category remarks,
  the e-bill percentage, the four table rows, the row heights and the file
  name.

The small state machine of the page is modelled as well: two file slots, the
last results and the two buttons.

The model keeps the shape of the code:

- **Pure parts are functions with lemmas about them.** These are identifier
  normalization, date extraction, head clean-up, the categorizer and the
  aggregation.
- **Loops of the source are methods with loop invariants.** These are the
  parsers' loops, the reconcile loop, and the in-place stable sort on an
  `array`. Each method is proved equal to a specification function, and the
  properties of that function are proved separately.
- **The page state is a class.** Between complete analysis runs its methods
  keep an invariant linking the buttons, the file slots and the stored
  results. The analysis run is split at its two `await`s into three steps,
  so a file chosen while a run waits can be placed between them
  (`Session.Session.ReplaceFirstDuringRun`).

Points of the code's behaviour that the model keeps as written:

- **Categorizer.** The label is not decided by the first marker found. The
  code collects every user-name marker present, in the fixed order Gpf, Salary(eis), Gem,
  Pension, and joins them with ", ". There is no outer-office marketplace
  rule.
- **Lookup key.** The reconciler looks vouchers up by the sheet's raw
  `VoucherNumber1`, not by a normalized number. A sheet number with white
  space in it is therefore never found (`Reconcile.OverlayLookup`).
- **Jurisdiction test.** Only the upper-cased office name is searched for
  "LUCKNOW".
- **Null office name.** A `Textbox11` element without a `DDOName` attribute
  gives a null office name. `toUpperCase` then throws. This is modelled as
  the failure `MissingDdoName`, whose message is V8's (Chrome's) wording
  of that `TypeError`.
- **Errors.** The only errors are the four in `Errors.AnalysisError`, plus
  the file-type rejection of the page.

Modules, one per file:

| Module | Contents |
|---|---|
| `Wrappers` | Option and Result |
| `Text` | JavaScript string built-ins |
| `Xml` | the parsed tree and its lookups |
| `Identifier` | normalization |
| `MapFold` | a `Map` filled by `set` |
| `OrderedSet` | a `Set` read back in insertion order |
| `Filtering` | bucket selection |
| `StableSort` | `Array.prototype.sort` |
| `Heads` | `processHead` |
| `ReportDate` | the report date |
| `AuthRegister` | the register parser |
| `CompilationSheet` | the sheet parser |
| `Reconcile` | `reconcileData` |
| `Category` | `getDisplayCategory` |
| `Aggregate` | remarks, percentage, rows, file name |
| `Analysis` | the analysis run |
| `Session` | the page state |
| `Errors` | the ways an analysis run can fail |

## Model

| member | source | states |
|---|---|---|
| Identifier.NormalizeIdIsFirstToken | script.js:186 | the normalized number has no white space, is trimmed, is a prefix of the trimmed text ending at its end or at white space, and is empty exactly when the raw text is all white space |
| Identifier.NormalizeIdIdempotent | script.js:186 | normalizing a normalized number changes nothing |
| Identifier.NormalizeIdTrimsExample | script.js:186 | " V1234 \n" normalizes to "V1234"; "" to "" |
| Identifier.NormalizeIdFirstTokenExample | script.js:186 | "V12 34" normalizes to "V12": only the first token is kept |
| Text.TrimSpec | script.js:186 | `trim` leaves no white space at either end, is empty exactly for all-blank text, leaves trimmed text alone and introduces no character |
| Text.FirstToken | script.js:186 | `split(/[\s\r\n]+/)[0]` on trimmed text is the longest blank-free prefix |
| Text.PrefixBefore | script.js:206 | `split(delim)[0]` is the longest prefix free of the delimiter, ending where the delimiter first occurs |
| Text.IndexOfFrom | script.js:206 | the search returns the leftmost occurrence at or after the start, or none when there is none |
| Text.ReplaceChar | script.js:206 | `replace(/-/g, '/')` rewrites exactly the matching characters and keeps the length |
| Text.ToUpper | script.js:270 | `toUpperCase` maps each character and keeps the length |
| Text.Join | script.js:301 | `join` of no parts is "", of one part is that part, and starts with the first part's first character |
| Text.DecimalValueOfNatToString | script.js:375 | a decimal numeral printed by a template literal reads back as the number |
| Xml.FirstWithTagIsFirst | script.js:192 | `querySelector`/`getElementsByTagName(...)[0]` finds an element exactly when one has the tag, and it is the earliest in document order |
| Xml.WithTagMembers | script.js:183 | `getElementsByTagName` returns exactly the elements with the tag |
| AuthRegister.OrDefault | script.js:190 | the bill type, defaulting to 'Normal', is the attribute when it is non-empty and the default when it is null or empty |
| AuthRegister.NonEmpty | script.js:191 | the user name, defaulting to null, is null exactly when the attribute is null or empty |
| AuthRegister.TokenOf | script.js:192-194 | the token is null exactly when the first token element's attribute is absent or empty, and otherwise the attribute normalized |
| AuthRegister.EntryDefaults | script.js:187-194 | a voucher yields an entry exactly when it has a `Details` descendant; the bill type defaults to "Normal", the user name to null, the token to null, and a token has no white space |
| AuthRegister.Write | script.js:195-196 | a voucher writes exactly when it has an entry and a non-empty normalized number, and writes that pair |
| AuthRegister.AuthMapKeys | script.js:185-199 | a key is in the map exactly when some voucher with `Details` normalizes to it; the empty key is never stored |
| AuthRegister.AuthMapLastWins | script.js:196 | a repeated voucher number keeps the entry of its last voucher |
| AuthRegister.AuthMapEntries | script.js:185-199 | every stored entry comes from a voucher with that key, with a non-empty bill type, a non-empty user name if any, and a blank-free token |
| AuthRegister.MissingVoucherNumberKey | script.js:186 | a voucher without a `VoucherNumber` attribute is stored under "null" |
| AuthRegister.BuildVoucherDetailsMap | script.js:182-199 | the loop builds exactly the map of the `set`s performed in document order |
| AuthRegister.ParsePaymentAuth | script.js:178-210 | fails with the register error exactly when a `parsererror` element exists, before any traversal; otherwise returns the map and the issue date |
| MapFold.FoldKeys | script.js:196 | after a sequence of `set`s a key is present exactly when some `set` wrote it |
| MapFold.FoldLastWins | script.js:196 | a key holds the value of its last `set` |
| MapFold.FoldValueWritten | script.js:196 | every stored pair was written by some `set` |
| ReportDate.ExtractDateShape | script.js:204-207 | the extracted date has no `-`, is trimmed, is no longer than the cell, and is empty for a missing or empty cell |
| ReportDate.ExtractDatePlain | script.js:206 | a cell holding neither the delimiter nor `-` is only trimmed |
| ReportDate.IssueDateExample | script.js:206 | "01-04-2024 till 30-04-2024" yields "01/04/2024" |
| ReportDate.IssueRangePrefixExample | script.js:206 | the text before " till " is the start date |
| ReportDate.StartDateExample | script.js:206 | trimming and replacing dashes turns "01-04-2024" into "01/04/2024" |
| ReportDate.DateFromDocumentShape | script.js:201-208 | without a `Tablix2` element the date is empty; any date has no `-` and is trimmed |
| ReportDate.ResolveReportDate | script.js:162 | the report date is the sheet's date unless that is empty, then the register's; it is empty only when both are |
| ReportDate.ReportDateShape | script.js:162 | the chosen date of a pair of documents has no `-`, is trimmed, and is the sheet's date whenever that is non-empty |
| Heads.MatchAtShape | script.js:236 | a match of `\s*\[\s*(\d+)\s*\]` found at a position has exactly the pattern's shape |
| Heads.MatchAtOfShape | script.js:236 | any stretch of text with the pattern's shape is the match found where it starts (greedy parts have no other extent) |
| Heads.FirstMatchLeftmost | script.js:236 | the match used is the leftmost one |
| Heads.FirstMatchNone | script.js:236 | no match is used only when there is none anywhere |
| Heads.FirstMatchAt | script.js:236 | the leftmost match is at a position with a match and none before it |
| Heads.MatchAtPrefix | script.js:236 | a match depends only on the text up to its closing bracket |
| Heads.CanonicalizeWithoutBracket | script.js:236 | a head without `[` is not changed by the replace |
| Heads.FirstMatchOfRewritten | script.js:236 | after the rewrite, the leftmost match is the rewritten code `[digits]` |
| Heads.RewriteCanonical | script.js:236 | rewriting the already rewritten code changes nothing |
| Heads.CanonicalizeIdempotent | script.js:236 | applying the replace twice gives the same head as once |
| Heads.ProcessHeadKept | script.js:234-241 | a kept head is non-empty, trimmed and free of every generic term; a missing or empty attribute is dropped; a non-generic head is kept exactly when it is not all blank |
| OrderedSet.AddSpec | script.js:243 | `add` holds the new value and the old ones, nothing else, each once |
| OrderedSet.DistinctMembers | script.js:247 | `Array.from(set)` holds every added value exactly once and nothing else |
| OrderedSet.DistinctFirstSeenOrder | script.js:247 | the values come out in the order they were first added |
| CompilationSheet.PresentMembers | script.js:242-245 | the heads added are exactly those a detail yields |
| CompilationSheet.HeadSetWellFormed | script.js:230-247 | a voucher's heads are duplicate-free, non-empty, trimmed, not generic, and exactly those its details yield |
| CompilationSheet.VoucherOfSkips | script.js:226-227 | a voucher element is skipped exactly when `VoucherNumber1` is missing or empty; otherwise the voucher keeps that number unchanged and the office's name |
| CompilationSheet.VoucherOfWellFormed | script.js:225-247 | every voucher read has a non-empty number and clean, duplicate-free head lists |
| CompilationSheet.OfficeVouchersWellFormed | script.js:223-248 | an office yields at most one voucher per voucher element, each well formed and carrying the office name |
| CompilationSheet.AllVouchersWellFormed | script.js:220-249 | every voucher of the sheet is well formed |
| CompilationSheet.AddHead | script.js:242-245 | one `add` of a processed head, or nothing when the head is dropped |
| CompilationSheet.CollectHeads | script.js:229-246 | the detail loop yields exactly the ordered sets of object heads and function heads |
| CompilationSheet.ParseVoucher | script.js:226-247 | the voucher loop body yields the voucher the element specifies, or skips it |
| CompilationSheet.CollectOfficeVouchers | script.js:223-248 | the voucher loop of one office yields exactly its vouchers, in document order |
| CompilationSheet.ParseCompilationSheet | script.js:212-260 | fails with the sheet error exactly when a `parsererror` element exists, before any traversal; otherwise returns every office's vouchers in document order and the compilation date |
| Filtering.SelectMembers | script.js:271-277 | a bucket holds exactly the elements of its kind |
| Filtering.SelectKinds | script.js:271-277 | every element of a bucket is of its kind |
| Filtering.SelectSplit | script.js:271-277 | a yes/no split keeps every element exactly once |
| StableSort.SortByCorrect | script.js:280-282 | the sort orders by key, is a permutation, and keeps equal-key elements in their original order |
| StableSort.InsertPermutes | script.js:280-282 | inserting one element adds exactly that element |
| StableSort.InsertSorted | script.js:280-282 | inserting into a sorted sequence keeps it sorted |
| StableSort.InsertStable | script.js:280-282 | an insertion appends to its own key's elements and leaves other keys' elements as they were |
| StableSort.InsertAt | script.js:280-282 | one pass of the in-place sort inserts the element into the sorted prefix |
| StableSort.Sort | script.js:280-282 | the in-place sort leaves the array equal to the specified stable sort of its old contents |
| Reconcile.OverlayLookup | script.js:266-269 | a voucher the register knows takes its bill type, user name and token; any other is a normal bill with neither; a sheet number containing white space is never found |
| Reconcile.BillsSpec | script.js:265-269 | the overlay gives one bill per voucher, in order |
| Reconcile.SelectPartition | script.js:270-277 | the four buckets together hold every bill exactly as often as the input |
| Reconcile.SelectPartitionSizes | script.js:270-277 | the bucket sizes add up to the number of bills |
| Reconcile.NormalBucket | script.js:280-283 | a sorted normal bucket is ordered by token, holds exactly the bills of its kind, and keeps the input order among bills with the same token |
| Reconcile.ReconcileAccountsForAll | script.js:262-285 | a successful reconciliation puts every voucher in exactly one bucket; each of the four buckets holds exactly the bills of its office (LUCKNOW or not) and bill type (Normal or not); the normal buckets are sorted by token and keep the input order among equal tokens; the e-bill buckets are the input's bills of their kind in input order |
| Reconcile.SortBucket | script.js:280-282 | sorting a bucket in place gives the stable sort by token |
| Reconcile.Push | script.js:270-277 | one `push` onto the bucket of the bill's office and type extends the buckets to one more bill |
| Reconcile.ReconcileData | script.js:262-285 | the loop and the two sorts return exactly the specified reconciliation, or the null-office-name failure |
| Category.MarkersInSpec | script.js:290-295 | a marker's category is listed exactly when the marker occurs; nothing is listed when none occurs |
| Category.MarkersWin | script.js:290-301 | when any marker occurs, the label is exactly the categories of the markers present, in fixed order, comma-joined, and the heads play no part |
| Category.HeadsWhenUnmarked | script.js:296-301 | without a marker the label is the object heads if any, else the function heads if any, else "Uncategorized" |
| Category.UncategorizedMeansNothingApplies | script.js:287-302 | a bill labelled "Uncategorized" has no marker and no heads, unless a head is itself that text |
| Category.JoinIsNotUncategorized | script.js:301 | joining labels other than "Uncategorized" never gives "Uncategorized" |
| Aggregate.TallyKeys | script.js:370-374 | the counts object has one property per distinct category |
| Aggregate.TallyCounts | script.js:370-374 | every category's count is the number of bills with it |
| Aggregate.TallyPositive | script.js:370-374 | every count is at least one |
| Aggregate.TallySum | script.js:370-374 | the counts add up to the number of bills |
| Aggregate.ObjectEntriesPermutes | script.js:375 | `Object.entries` lists every property once, keeping the total count |
| Aggregate.ObjectEntriesOrder | script.js:375 | `Object.entries` lists array-index keys first, ascending |
| Aggregate.PermutedEntries | script.js:375 | reordering the properties keeps keys distinct and every count |
| Aggregate.RemarkEntriesSpec | script.js:368-375 | the remark lines are one per distinct label, each with the number of bills of that label (at least one), the counts adding up to the bucket size |
| Aggregate.RemarksEmpty | script.js:368-369 | the remarks are empty exactly when the bucket is |
| Aggregate.Lines | script.js:375 | one line per entry, each the entry's remark line |
| Aggregate.RemarkLineSpec | script.js:375 | a line for a count of at least one is the bullet, the category and "- ", then a numeral that reads back as the count, then " Bill" exactly for one bill and " Bills" for more |
| Aggregate.RemarkLinesSpec | script.js:368-375 | every remark line names a label of the bucket and reads back as the number of the bucket's bills with that label, in the singular exactly for one bill |
| Aggregate.PercentNearest | script.js:383 | the percentage in hundredths is the nearest hundredth of e-bills / total × 100, and at most 100% |
| Aggregate.Fixed2Value | script.js:383 | the two-decimal text reads back as the hundredths |
| Aggregate.PercentTextWhenNothingPassed | script.js:383 | with no bills passed the percentage is "0.00%" |
| Aggregate.Rows | script.js:442-447 | four rows, each with total = passed + returned |
| Aggregate.ReadymadeRowsCountEveryBill | script.js:361-366 | in the ready-made report nothing is returned and the row totals add up to all bills |
| Aggregate.ReadymadePercentAtMost100 | script.js:381-383 | the ready-made percentage is at most 100% |
| Aggregate.ReadymadeRowsCountEveryVoucher | script.js:361-366 | after a successful reconciliation the row totals add up to the number of vouchers of the sheet |
| Aggregate.RowHeight | script.js:452-455 | a row is at least 10 high |
| Aggregate.RowHeightGrowth | script.js:452-455 | a row is 10 high up to one line and grows by 5 per further line of remarks |
| Aggregate.ReportDateOr | script.js:359 | a non-empty issue date is used as the report date |
| Aggregate.PdfFileNameSpec | script.js:482 | the file name contains no slash, and dates without dashes get different names |
| Aggregate.PdfFileNameExample | script.js:482 | "01/04/2024" gives "Daily_Status_Report_01-04-2024.pdf" |
| Errors.Message | script.js:157 | every error carries a non-empty message |
| Analysis.IdentifyPairSpec | script.js:147-158 | the pair is identified exactly when one root name is each report's, in either order; the register comes first; the order of upload does not matter |
| Analysis.AnalyzeDocuments | script.js:139-164 | the analysis run returns exactly the specified outcome |
| Analysis.AnalysisSpecProperties | script.js:139-164 | the outcome does not depend on the upload order; a success has a dash-free date and accounts for every voucher of the sheet once |
| Analysis.AnalysisErrorOrder | script.js:150-161 | an unidentified pair is reported before parsing, a malformed register before the sheet, a malformed sheet before reconciling |
| Session.ExtensionSpec | script.js:89 | the extension is the longest dot-free tail of the file name |
| Session.XmlNamesAccepted | script.js:89 | "register.XML" and "xml" are accepted |
| Session.OtherNamesRejected | script.js:89 | "register.xml.txt" and "register" are rejected |
| Session.Session.constructor | script.js:26-29 | the page starts with no files and no results; both buttons start disabled, which satisfies the page invariant |
| Session.Session.CheckFilesReady | script.js:107-115 | Analyze is enabled and the status is "Files ready" exactly when both files are chosen |
| Session.Session.HandleFile | script.js:88-105 | a non-XML file only sets the error status; otherwise it fills its slot, clears the results and disables the PDF button, which restores the page invariant even in the middle of a run |
| Session.Session.BeginAnalysis | script.js:129-141 | without both files only the error status is set; otherwise the status says processing, both buttons are disabled and the run holds the first file |
| Session.Session.ReadSecondFile | script.js:143 | the second file is read from slot 2 as it is when the first read finishes |
| Session.Session.FinishAnalysis | script.js:144-175 | a success stores the results of the two documents read and enables the PDF button; a failure shows "Error: " and the message and leaves the results and the PDF button alone; Analyze is enabled again either way |
| Session.Session.ShowOutcome | script.js:161-175 | a successful outcome is stored and enables the PDF button; a failure shows "Error: " and its message and leaves the results and the PDF button alone; Analyze is enabled again either way |
| Session.Session.AnalyzeFiles | script.js:129-176 | a run with no file chosen while it waits: without both files only the error status is set; otherwise a success stores the results and enables the PDF button, a failure shows "Error: " and the message with the PDF button disabled, and Analyze is enabled again; the page invariant holds again after the run |
| Session.Session.ReplaceFirstDuringRun | script.js:129-176 | a first file chosen while a run reads the second one enables Analyze in mid-run, and a successful run still stores the results of the file it began with and enables the PDF button |

## Left out

- `sync_project.py`: a developer tool for mirroring files, made of file-system watching, threads, git calls and sleeps. None of it is part of the reconciler.
- The page wiring, the screen switching, the HTML of `displayResults` and the result-area messages. These are DOM output only.
- The PDF drawing of `generatePdf`: fonts, coordinates and text placement. The number of lines `splitTextToSize` wraps the remarks to is a parameter of `Aggregate.RowHeight`.
- `DOMParser` and the asynchronous `file.text()`. The two documents are inputs, given as trees. A malformed file is a tree holding a `parsererror` element.
- Aggregate.PercentText: rounds the exact value of e-bills / total × 100 to two decimals, halves up. The source formats a double with `toFixed(2)`, which can round a binary approximation the other way at an exact half.
- Aggregate.ReportDateOr: the date of today when the issue date is empty is a parameter. The clock is not modelled.
- The manual report form (`generateManualPdfReport`): it only reads the page's input fields.
- Text.ToUpper: covers the ASCII letters only. Other letters that `toUpperCase` changes are not modelled. The same holds for Text.ToLower, and for the case-insensitive generic-term test of Heads.IsGeneric.
- Reconcile.TokenKey: a token that is not all digits is read as 0. The source subtracts tokens as numbers, so a signed or decimal token keeps its value, and a non-numeric token makes the comparator return NaN, which the sort reads as "equal". The model also compares all-digit tokens by their exact values. The source converts each token to a double before subtracting, so tokens above 2^53 (16 or more digits) are rounded first, and tokens that round to the same double keep their input order. For example, "9007199254740993" and "9007199254740992" compare equal in the source, but the model puts the smaller one first.
- Reconcile.Overlay: returns a new bill value. The source writes `billType`, `userNm` and `token` into the voucher objects in place, and nothing else shares those objects afterwards.
- Session.Session.constructor: the initial state of the two buttons and of the status line comes from the page's markup. That markup is not part of this model, so both buttons are taken to start disabled and the status line empty.
- Session.Session.AnalyzeFiles: does not model the status line's CSS classes (`updateStatus`), the results area, or the `console.error` call. Its contract is for a run during which no file is chosen. The source waits twice (script.js:141, 143), and nothing stops a file from being chosen then, or a second run from starting. The steps `BeginAnalysis`, `ReadSecondFile` and `FinishAnalysis` model those waits, and `ReplaceFirstDuringRun` shows one such schedule. The model states no property of every schedule of several runs at once, and the page invariant is promised only between complete runs.
- Aggregate.Tally: counts every label as an ordinary key. The source tallies into a plain object literal, so a label equal to an `Object.prototype` property name behaves differently. "constructor", "toString" or "valueOf" read an inherited function, and the count becomes that function's text followed by "1". A label "__proto__" is never stored, so it is missing from the remarks.
- Errors.Message: the text for a null office name is V8's (Chrome's) wording of the `TypeError`. Other engines word that error differently, and the status line shows whatever the engine produces (script.js:171).
