# Budgetwise client logic, modelled in Dafny

Budgetwise is a shared-budget web application: groups of users record expenses as
drafts, import them from bank statements (CSV, PDF via an OCR service, receipt
photos), dictate them by voice, categorise merchants, set a monthly budget and
navigate between groups. This project models the deterministic logic of its client
and of its two OCR routes, and proves what that logic promises:

- merchant categorisation: key normalisation, the user's own rules (literal or
  regular expression, first match wins) and the built-in keyword table;
- the statement import: the hand-written CSV tokenizer (a loop, proved against a
  scanning function), header guessing, date and amount cleaning, the preview with
  its category precedence and filter, the rules remembered per merchant key (a
  loop filling a map), the drafts written, and the preview pager;
- the manual draft form: a class whose participant list is replaced by the
  auto-split effect, "split equally", "paid by me" and single-field edits, the
  category a parsed receipt sets, and the submit checks (amount, then the paid and
  owed totals within 0.01);
- the OCR routes: JSON values as a datatype, `readField`, `parseAmount`, the `||`
  and `??` fallback chains, the transaction filter and the receipt refusal;
- voice drafts: the first number and the text after "at", the draft built from the
  transcript, the recorder's file extension and the byte-copy loop of `base64ToBlob`;
- small rules: category badges, the budget period of the current month, the group
  switcher's selection and path rewrite, the active group of a dashboard page, and
  the resizable sidebar as a class with its mouse handlers.

Files: `common.dfy` (Option, Result), `text.dfy` (JavaScript string operations),
`calendar.dfy` (period keys, month lengths, `Date` day arithmetic), `amounts.dfy`
(amount cleaning and `parseFloat` on cleaned text), `drafts.dfy` (the draft row),
then one file per source file or route as listed below.

Amounts are `real`, so sums are exact; `NaN` is a constructor of its own. The
`Date` parser, the clock, `Number` on free text and the user-regex engine are
parameters of the functions that need them.

## Model

| member | source | states |
|---|---|---|
| MerchantRules.NormalizeMerchantKey | lib/imports/merchantRules.ts:77-82 | the key holds only a–z, digits and single inner spaces, with no space at either end |
| MerchantRules.NormalizeFixesKeys | lib/imports/merchantRules.ts:77-82 | an already normalised key is returned unchanged |
| MerchantRules.NormalizeIdempotent | lib/imports/merchantRules.ts:77-82 | normalising twice is normalising once |
| MerchantRules.ReplaceSymbols | lib/imports/merchantRules.ts:79 | every character outside `[a-z0-9\s]` becomes a space, the rest stay in place |
| MerchantRules.CollapseSpaces | lib/imports/merchantRules.ts:80 | the collapsed text is never longer, is empty only when the input is, and starts with a space exactly when the input starts with white space |
| MerchantRules.CollapseMakesKeyChars | lib/imports/merchantRules.ts:79-80 | collapsing text of kept characters leaves only letters, digits and spaces, never two spaces in a row |
| MerchantRules.TrimCollapsed | lib/imports/merchantRules.ts:80-81 | trimming a collapsed string of key characters gives a normalised key |
| MerchantRules.CollapseFixesSingleSpaced | lib/imports/merchantRules.ts:80 | a single-spaced string of key characters is left unchanged by the collapse |
| MerchantRules.FirstRuleCategory | lib/imports/merchantRules.ts:84-101 | None iff no rule matches; otherwise the category of a rule that matches with no earlier rule matching |
| MerchantRules.FirstMatchShifts | lib/imports/merchantRules.ts:86-100 | a first match behind a non-matching rule is the first match of the whole list |
| MerchantRules.ApplyMerchantRules | lib/imports/merchantRules.ts:84-101 | the first rule in list order that matches decides; null when none does; literal rules are tested on the normalised merchant, regex rules on the original text |
| MerchantRules.ApplyFirstMatch | lib/imports/merchantRules.ts:86-100 | the rule that matches with no earlier rule matching is the one whose category is returned |
| MerchantRules.ApplyRulesAppend | lib/imports/merchantRules.ts:86-100 | rules appended after a matching list are never consulted, and a list with no match defers to what follows |
| MerchantRules.FirstRuleAppend | lib/imports/merchantRules.ts:86-100 | the same split property for the first-match search |
| MerchantRules.EmptyRuleIsSkipped | lib/imports/merchantRules.ts:87 | a rule with empty `match_text` never decides, wherever it stands |
| MerchantRules.BadRegexIsSkipped | lib/imports/merchantRules.ts:88-96 | a regex rule that fails to compile is passed over and the search continues |
| MerchantRules.LiteralTest | lib/imports/merchantRules.ts:9-74 | a one-word table pattern matches exactly the texts that include the word |
| MerchantRules.LiteralFrom | lib/imports/merchantRules.ts:9-74 | the same from any starting position |
| MerchantRules.FirstCategory | lib/imports/merchantRules.ts:104-112 | the category of the first table row with a matching pattern, else "Uncategorized" |
| MerchantRules.FirstCategoryShifts | lib/imports/merchantRules.ts:105-110 | a first match further down the table, behind a row that does not match, is the table's first match |
| MerchantRules.CategorizeMerchant | lib/imports/merchantRules.ts:104-112 | the answer is one of the eight built-in categories; "Uncategorized" iff no row matches the lower-cased merchant; otherwise the first matching row's category |
| MerchantRules.BuiltInTableAnswers | lib/imports/merchantRules.ts:104-112 | the table's answer is one of the eight categories, by the first-match rule |
| MerchantRules.TableCategories | lib/imports/merchantRules.ts:7-76 | the seven rows are Groceries, Dining, Transport, Shopping, Entertainment, Bills, Health in that order |
| MerchantRules.FirstMatchExists | lib/imports/merchantRules.ts:105-110 | when some row matches, there is a first matching row |
| MerchantRules.WalmartIsGroceries | lib/imports/merchantRules.ts:11-108 | any merchant containing "walmart" in any case is Groceries |
| MerchantRules.WalmartComIsGroceries | lib/imports/merchantRules.ts:11-108 | "walmart.com" in any case is Groceries, never Shopping |
| MerchantRules.WalmartComPatternIsDead | lib/imports/merchantRules.ts:51 | removing Shopping's `/walmart\.com/` pattern changes no answer of the table |
| MerchantRules.NonMatchingPatternIsInert | lib/imports/merchantRules.ts:107 | inserting a pattern that does not match leaves `some` unchanged |
| MerchantRules.FirstCategoryAgree | lib/imports/merchantRules.ts:104-112 | two tables whose rows agree on category and on matching give the same answer |
| CsvParser.ParseCsv | components/imports/StatementImportForm.tsx:57-103 | the character loop (quote toggling, doubled quotes skipped by two, comma and CR/LF handling, final flush, blank-row filter) returns exactly the scanning function's table |
| CsvParser.EndRow | components/imports/StatementImportForm.tsx:84-92 | after a line break outside quotes nothing is pending and the quoting state is kept; exactly when a cell or row was pending, the row with its trimmed last cell is appended to the table (for a storable row, `StoredRow`) |
| CsvParser.KeepNonBlank | components/imports/StatementImportForm.tsx:102 | every kept row has a non-empty cell, every kept row is an input row, and input without blank rows is kept whole |
| CsvParser.EndRowKeepsCellsTrimmed | components/imports/StatementImportForm.tsx:79-86 | a line break keeps every stored cell trimmed |
| CsvParser.ScanKeepsCellsTrimmed | components/imports/StatementImportForm.tsx:63-95 | reading any text never stores an untrimmed cell |
| CsvParser.ParsedRowsAreClean | components/imports/StatementImportForm.tsx:79-102 | every returned cell is trimmed and no returned row is blank |
| CsvParser.EscapeQuotes | components/imports/StatementImportForm.tsx:67-71 | doubling the quotes of a cell never shortens it |
| CsvParser.ScanQuotedBody | components/imports/StatementImportForm.tsx:67-94 | inside quotes, `""` yields one `"` and commas and line breaks are cell text; the closing quote only ends quoting |
| CsvParser.ScanOpenQuote | components/imports/StatementImportForm.tsx:73-76 | an opening quote only starts quoting |
| CsvParser.ScanComma | components/imports/StatementImportForm.tsx:78-82 | a comma outside quotes stores the trimmed pending cell in the row |
| CsvParser.ScanNewline | components/imports/StatementImportForm.tsx:84-92 | CR or LF outside quotes ends the row |
| CsvParser.ScanQuotedCell | components/imports/StatementImportForm.tsx:67-76 | a quoted cell is read back as its text |
| CsvParser.ScanRow | components/imports/StatementImportForm.tsx:63-95 | reading an encoded row leaves its cells stored and its last cell pending |
| CsvParser.ScanLineEnd | components/imports/StatementImportForm.tsx:84-92 | a line ending (LF, CR or CRLF) after a storable row stores it once, with no extra row for CRLF |
| CsvParser.StoredRow | components/imports/StatementImportForm.tsx:84-92 | flushing a pending storable row appends it to the table, and a second line break adds nothing |
| CsvParser.ScanLine | components/imports/StatementImportForm.tsx:63-95 | an encoded row and its line ending store that row |
| CsvParser.ScanTable | components/imports/StatementImportForm.tsx:63-95 | an encoded table is stored row by row, in order |
| CsvParser.ParseEncodedTable | components/imports/StatementImportForm.tsx:57-103 | round trip: a table of trimmed, non-blank rows written as quoted CSV with LF, CR or CRLF endings parses back to itself |
| CsvParser.ParseEncodedTableWithoutFinalBreak | components/imports/StatementImportForm.tsx:97-100 | a final row without a trailing line break is still emitted |
| CsvParser.StorableRowsKept | components/imports/StatementImportForm.tsx:102 | the blank-row filter keeps every storable row |
| CsvParser.FinishLastRow | components/imports/StatementImportForm.tsx:97-100 | the flush after the loop stores the pending last row |
| StatementImport.GuessIndex | components/imports/StatementImportForm.tsx:50-53 | None iff no lower-cased header contains a keyword; otherwise the earliest header that does |
| StatementImport.GuessColumn | components/imports/StatementImportForm.tsx:50-55 | the earliest matching header in header order, or "" when none matches |
| StatementImport.HeaderRow | components/imports/StatementImportForm.tsx:340 | one header per cell of the first row, never empty, equal to the cell when the cell is not empty |
| StatementImport.LoadSheet | components/imports/StatementImportForm.tsx:334-350 | fewer than two rows is the "Unable to read this CSV" error; otherwise the headers, the data rows after the first, and a guessed mapping naming only headers |
| StatementImport.ReadCsvFile | components/imports/StatementImportForm.tsx:333-350 | reading a file is parsing it, then loading the sheet |
| StatementImport.FindHeader | components/imports/StatementImportForm.tsx:186-187 | the first header equal to the mapped name; None iff there is none |
| StatementImport.ParsedRows | components/imports/StatementImportForm.tsx:184-203 | nothing without headers, otherwise one mapped row per data row, keeping its raw cells |
| StatementImport.ParsedRowField | components/imports/StatementImportForm.tsx:189-201 | a field is "" when its column is unmapped or the cell is missing, and otherwise the cell of the first header with that name |
| StatementImport.SplitDate | components/imports/StatementImportForm.tsx:113 | splitting on `/` and `-` gives at least one piece and no piece holds a separator |
| StatementImport.SplitAfterPiece | components/imports/StatementImportForm.tsx:113 | a piece without separators stays glued to the next piece |
| StatementImport.SplitJoin | components/imports/StatementImportForm.tsx:113 | splitting undoes joining with either separator |
| StatementImport.TrimAll | components/imports/StatementImportForm.tsx:113 | every piece is trimmed, in place |
| StatementImport.LocalDate | components/imports/StatementImportForm.tsx:120 | `new Date(year, month - 1, day)` is always a valid calendar day |
| StatementImport.NormalizeDate | components/imports/StatementImportForm.tsx:105-128 | blank input after trimming is null |
| StatementImport.NormalizeDateFallback | components/imports/StatementImportForm.tsx:113-123 | when `Date` cannot parse three numeric pieces, the fallback date's ISO day is returned |
| StatementImport.FallbackDayFirst | components/imports/StatementImportForm.tsx:117-119 | a first piece above 12 is the day; a year below 100 becomes 2000 + year |
| StatementImport.LocalDateOfInts | components/imports/StatementImportForm.tsx:120 | whole arguments past year 99 that name a real day give that day, with no carrying |
| StatementImport.FallbackMonthFirst | components/imports/StatementImportForm.tsx:117-119 | a first piece of 12 or less is the month |
| StatementImport.NormalizeAmount | components/imports/StatementImportForm.tsx:130-135 | null, or the absolute value of the cleaned number |
| StatementImport.LoadRules | components/imports/StatementImportForm.tsx:173-177 | one rule per stored row, each loaded by `LoadRule` |
| StatementImport.LoadRule | components/imports/StatementImportForm.tsx:174-176 | the rule's text is normalised on load (a null text becomes ""), category and regex flag are kept |
| StatementImport.LoadedKey | components/imports/StatementImportForm.tsx:176 | a loaded text (null read as "") is a merchant key, and a text that already is one is kept |
| StatementImport.PreviewMerchant | components/imports/StatementImportForm.tsx:210 | an empty merchant becomes "Imported transaction" |
| StatementImport.PreviewOf | components/imports/StatementImportForm.tsx:207-229 | a preview keeps its parsed-row index, a non-negative amount and a non-empty merchant |
| StatementImport.AllPreviews | components/imports/StatementImportForm.tsx:206-229 | one preview per parsed row, each with its own index |
| StatementImport.KeptFrom | components/imports/StatementImportForm.tsx:230 | the filter keeps exactly the rows with a date and a non-zero amount, in order, each with its original index |
| StatementImport.KeptShift | components/imports/StatementImportForm.tsx:230 | putting a kept row in front of the later kept rows keeps them from the input, in index order, and missing none |
| StatementImport.KeptFromAll | components/imports/StatementImportForm.tsx:230 | over previews numbered in order with non-negative amounts, every survivor has a positive amount, and the filter keeps order and misses no row |
| StatementImport.PreviewRows | components/imports/StatementImportForm.tsx:205-231 | survivors have a date, a positive amount and a merchant; they keep their original index and order; every row passing the filter survives |
| StatementImport.PreviewCategory | components/imports/StatementImportForm.tsx:211-219 | category precedence is override, CSV column, rule, built-in table; the source is "user" when overridden, else "rule" whenever a rule matched, even when the column decided, else "user" |
| StatementImport.PreviewUsesFirstRule | components/imports/StatementImportForm.tsx:211-219 | without override or CSV category, the first matching rule's category is used and tagged "rule" |
| StatementImport.EntryOf | components/imports/StatementImportForm.tsx:405-412 | a remembered row contributes its normalised merchant key and its category |
| StatementImport.RememberedEntries | components/imports/StatementImportForm.tsx:402-403 | only remembered rows contribute, each with a normalised key |
| StatementImport.KeyOrderIsMapKeys | components/imports/StatementImportForm.tsx:404-416 | the Map's values come out once per key, in first-insertion order |
| StatementImport.RulesToSave | components/imports/StatementImportForm.tsx:402-416 | the reduce loop over the remembered rows produces exactly the Map's values in insertion order |
| StatementImport.SavedMapShape | components/imports/StatementImportForm.tsx:404-414 | every saved rule is keyed by its own non-empty text, for this user, and is not a regex |
| StatementImport.SavedMapLast | components/imports/StatementImportForm.tsx:404-414 | the category saved under a key is the one of the last entry with that key |
| StatementImport.SavedMapCovers | components/imports/StatementImportForm.tsx:404-414 | every entry with a non-empty key has its key in the map |
| StatementImport.SavedMapLastWins | components/imports/StatementImportForm.tsx:404-414 | each key's entry holds the last remembered category for that key, and every non-empty key is present |
| StatementImport.SavedRulesAreMapEntries | components/imports/StatementImportForm.tsx:416 | the saved rules list the Map's entries in key order |
| StatementImport.SavedRulesDistinct | components/imports/StatementImportForm.tsx:404-416 | at most one saved rule per merchant key |
| StatementImport.SavedRulesLastWins | components/imports/StatementImportForm.tsx:405-412 | every saved rule belongs to the user, is not a regex, has a non-empty normalised key, and carries the last remembered category for its key |
| StatementImport.SavedRulesComplete | components/imports/StatementImportForm.tsx:405-406 | every remembered row with a non-empty key has a saved rule; empty keys are skipped |
| StatementImport.ImportDrafts | components/imports/StatementImportForm.tsx:375-394 | one draft per preview row, in order |
| StatementImport.ImportDraftsBalanced | components/imports/StatementImportForm.tsx:375-394 | each imported draft has one participant, the importer, whose paid and owed totals equal the amount; source is "import" |
| StatementImport.HandleImport | components/imports/StatementImportForm.tsx:353-416 | refused without a user, then without date and amount columns, then with no preview row; otherwise the drafts and the rules to save |
| StatementImport.PageCount | components/imports/StatementImportForm.tsx:626 | the fewest pages of ten that hold all rows; zero iff there are no rows |
| StatementImport.Slice | components/imports/StatementImportForm.tsx:566 | JavaScript's `slice` never returns more than the rows |
| StatementImport.PagerStaysInRange | components/imports/StatementImportForm.tsx:615-635 | Previous and Next keep the page within 1..page count and move by one where they can |
| StatementImport.PageIsWindow | components/imports/StatementImportForm.tsx:565-566 | page p shows the rows from (p − 1)·10, at most ten of them |
| StatementImport.LastPage | components/imports/StatementImportForm.tsx:626 | the last page is the page count, and page 1 when there are no drafts |
| StatementImport.PageAfterPreviewChange | components/imports/StatementImportForm.tsx:233-235 | the page goes back to 1 only when the number of raw rows or headers changes, and is kept otherwise |
| StatementImport.RemapStrandsPage | components/imports/StatementImportForm.tsx:233-235 | on page 3 of 25 drafts, a remap that leaves 5 keeps page 3: past the last page, showing no row, with the pager hidden |
| StatementImport.PageForPreview | components/imports/StatementImportForm.tsx:233-235 | the page goes back to 1 whenever the number of preview rows changes |
| StatementImport.PreviewPageStaysInRange | components/imports/StatementImportForm.tsx:565-566 | with that reset a page in range stays in range, and while there are drafts the page shown holds one |
| StatementImport.PagesCoverRows | components/imports/StatementImportForm.tsx:565-566 | pages 1..k together are the first 10·k rows |
| StatementImport.AllPagesAreRows | components/imports/StatementImportForm.tsx:565-626 | all pages together show every preview row exactly once, in order |
| Drafts.SoleParticipant | components/imports/StatementImportForm.tsx:385-391 | one participant, the creator, paying and owing the amount |
| Drafts.SoleParticipantBalanced | components/expenses/VoiceDraftForm.tsx:120-126 | a sole participant's paid and owed totals equal the amount |
| Drafts.TotalsAppend | components/expenses/ExpenseDraftForm.tsx:258-265 | the paid and owed reductions add up over a split list |
| ExpenseDraftForm.InitialParticipants | components/expenses/ExpenseDraftForm.tsx:65-76 | one participant per member, paid and owed 0 |
| ExpenseDraftForm.AutoSplitList | components/expenses/ExpenseDraftForm.tsx:99-114 | every owed becomes amount / members (NaN read as 0); the current user's paid becomes the amount, other paid values stay |
| ExpenseDraftForm.SplitOwed | components/expenses/ExpenseDraftForm.tsx:133-138 | every owed becomes the share; paid values are untouched |
| ExpenseDraftForm.PaidByList | components/expenses/ExpenseDraftForm.tsx:144-149 | the current user has paid the amount and everyone else 0; owed is untouched |
| ExpenseDraftForm.UpdatedList | components/expenses/ExpenseDraftForm.tsx:116-126 | only the named field of the entries with that user id changes; length, order and other entries stay |
| ExpenseDraftForm.CountOfDistinct | components/expenses/ExpenseDraftForm.tsx:65-76 | in a list of distinct users a present user is counted once |
| ExpenseDraftForm.OwedTotalOfShares | components/expenses/ExpenseDraftForm.tsx:262-265 | equal shares total the share times the head count |
| ExpenseDraftForm.PaidTotalOfOnePayer | components/expenses/ExpenseDraftForm.tsx:258-261 | with one payer the paid total is that payer's entries times the amount |
| ExpenseDraftForm.SharesAddUp | components/expenses/ExpenseDraftForm.tsx:104-105 | the members' shares add back up to the amount |
| ExpenseDraftForm.AutoSplitBalances | components/expenses/ExpenseDraftForm.tsx:99-114 | after the auto split of fresh participants both totals equal the amount exactly |
| ExpenseDraftForm.AutoSplitPaidTotal | components/expenses/ExpenseDraftForm.tsx:99-114 | in the auto split the current user pays the whole amount, so the paid total is the amount |
| ExpenseDraftForm.AutoSplitOwedTotal | components/expenses/ExpenseDraftForm.tsx:99-114 | in the auto split everyone owes one share, so the owed total is the amount |
| ExpenseDraftForm.SplitThenPaidByMeBalances | components/expenses/ExpenseDraftForm.tsx:128-150 | "split equally" then "paid by me" balances both totals |
| ExpenseDraftForm.PaidByOneTotal | components/expenses/ExpenseDraftForm.tsx:140-149 | "paid by me" over distinct users, the current user among them, makes the paid total the amount |
| ExpenseDraftForm.SplitOwedTotal | components/expenses/ExpenseDraftForm.tsx:127-138 | after "split equally" the owed total is the amount |
| ExpenseDraftForm.Submission | components/expenses/ExpenseDraftForm.tsx:193-294 | a NaN or non-positive amount is refused first, then no user, then a paid total off by more than 0.01, then an owed total off by more than 0.01; otherwise the manual draft is saved |
| ExpenseDraftForm.AutoSplitIsAccepted | components/expenses/ExpenseDraftForm.tsx:267-277 | a freshly auto-split draft with a positive amount passes both total checks and is saved |
| ExpenseDraftForm.AutoSplitWithoutUserIsRefused | components/expenses/ExpenseDraftForm.tsx:107-110 | without a current user the auto split pays nothing, so a positive amount fails the paid-total check |
| ExpenseDraftForm.FormRules | components/expenses/ExpenseDraftForm.tsx:89-93 | the form keeps the stored rule texts as they are, without normalising them |
| ExpenseDraftForm.ReceiptCategoryChoice | components/expenses/ExpenseDraftForm.tsx:176-180 | a parsed merchant gets the first matching user rule's category, else the built-in category |
| ExpenseDraftForm.CapitalisedLiteralNeverMatches | components/expenses/ExpenseDraftForm.tsx:93 | a literal rule with a capital letter can never match in this form, since its text is not normalised |
| ExpenseDraftForm.FoundInKeyHasNoCapital | lib/imports/merchantRules.ts:97 | whatever a normalised key includes has no capital letter |
| ExpenseDraftForm.DraftForm.constructor | components/expenses/ExpenseDraftForm.tsx:21-44 | the initial state: no members, auto split on, NaN amount, today's date |
| ExpenseDraftForm.DraftForm.LoadMembers | components/expenses/ExpenseDraftForm.tsx:48-80 | without a user nothing changes; otherwise the member rows (none when absent) and their initial participants |
| ExpenseDraftForm.DraftForm.LoadRules | components/expenses/ExpenseDraftForm.tsx:82-97 | with a user, the stored rules as they are |
| ExpenseDraftForm.DraftForm.SetAmount | components/expenses/ExpenseDraftForm.tsx:46 | the amount is what the input reads as |
| ExpenseDraftForm.DraftForm.AutoSplitEffect | components/expenses/ExpenseDraftForm.tsx:99-114 | a no-op when auto split is off or there are no members; otherwise the auto-split list |
| ExpenseDraftForm.DraftForm.UpdateParticipant | components/expenses/ExpenseDraftForm.tsx:116-126 | the participants become the updated list |
| ExpenseDraftForm.DraftForm.SplitEqually | components/expenses/ExpenseDraftForm.tsx:128-139 | a no-op without members; otherwise auto split on and every owed set to the share |
| ExpenseDraftForm.DraftForm.PaidByMe | components/expenses/ExpenseDraftForm.tsx:141-150 | a no-op without a current user; otherwise the paid-by-me list |
| ExpenseDraftForm.DraftForm.ReceiptChange | components/expenses/ExpenseDraftForm.tsx:152-191 | no file does nothing; a parser error or exception sets the message only; parsed fields that are present replace the form's |
| ExpenseDraftForm.DraftForm.ApplyReceipt | components/expenses/ExpenseDraftForm.tsx:172-185 | a truthy amount, merchant or date replaces the form's; a merchant also sets the receipt category |
| ExpenseDraftForm.DraftForm.Submit | components/expenses/ExpenseDraftForm.tsx:193-294 | the outcome is the submission of the form's current state |
| OcrJson.Get | app/api/parse-statement/route.ts:29 | optional chaining: the property of an object, undefined on anything else |
| OcrJson.ReadField | app/api/parse-statement/route.ts:10-16 | null for null or undefined, a string or number as is, else `value` if defined, else `raw` if defined, else null |
| OcrJson.FirstTruthy | app/api/parse-statement/route.ts:48-59 | `||` chains: the first truthy candidate, else the fallback |
| OcrJson.FirstPresent | app/api/parse-statement/route.ts:60-64 | `??` chains: the first non-null candidate, even a zero; null iff all are null |
| OcrJson.ParseAmount | app/api/parse-statement/route.ts:18-23 | null for null or undefined; otherwise null or a non-negative number; a string is cleaned and parsed |
| OcrJson.NoAmountCharsIsNaN | app/api/parse-statement/route.ts:20-21 | text with no digit, point or minus gives null |
| OcrJson.NothingKept | app/api/parse-statement/route.ts:20 | cleaning such text leaves nothing |
| OcrJson.BooleanAndObjectHaveNoAmount | app/api/parse-statement/route.ts:18-23 | a boolean or an object never yields an amount |
| OcrJson.ParseMoneyField | app/api/parse-receipt/route.ts:17-22 | a money figure in text, with no digit before and nothing numeric after, is read exactly |
| OcrJson.Prediction | app/api/parse-receipt/route.ts:25-26 | `document.inference.prediction`, else `inference.result.fields`, else `{}`; always truthy |
| OcrJson.ReadFields | app/api/parse-receipt/route.ts:28-35 | `readField` of each candidate key, in order |
| OcrJson.ParseAmounts | app/api/parse-receipt/route.ts:37-43 | `parseAmount(readField(...))` of each candidate key, in order |
| ParseStatement.Unwrapped | app/api/parse-statement/route.ts:29-32 | each item's `fields` when truthy, else the item |
| ParseStatement.Transactions | app/api/parse-statement/route.ts:29-40 | the unwrapped `list_of_transactions.items` when it is an array; otherwise the first truthy of transactions, line_items, operations, statement_lines, else `[]` |
| ParseStatement.RowOf | app/api/parse-statement/route.ts:47-77 | date, merchant and category by `||` over their keys (category null by default), amount by `??` over amount, debit, credit, value |
| ParseStatement.KeepRows | app/api/parse-statement/route.ts:78 | every row kept has a truthy date, a finite amount and a truthy merchant, and none is added |
| ParseStatement.KeepRowsIndexes | app/api/parse-statement/route.ts:78 | each kept row is one of the input rows, and every input row that passes the filter is kept |
| ParseStatement.KeepRowsAppend | app/api/parse-statement/route.ts:78 | filtering keeps input order |
| ParseStatement.RowsComeFromItems | app/api/parse-statement/route.ts:25-79 | over any transaction array: each returned row is read from one transaction, and every transaction whose row passes is returned |
| ParseStatement.ExtractRows | app/api/parse-statement/route.ts:25-79 | a non-array source gives no rows; every emitted row passes the filter |
| ParseStatement.ExtractedRowsComeFromTransactions | app/api/parse-statement/route.ts:46-78 | every emitted row is the row of some transaction and passes the filter, and every transaction whose row passes is emitted |
| ParseStatement.NullTransactionThrows | app/api/parse-statement/route.ts:47-49 | a null or undefined transaction makes the extraction throw |
| ParseStatement.AmountStopsAtFirstParsed | app/api/parse-statement/route.ts:60-64 | a parsed `amount`, even 0, stops the chain |
| ParseStatement.AmountFallsBackToDebit | app/api/parse-statement/route.ts:60-62 | a missing `amount` moves the chain to `debit` |
| ParseStatement.DateSkipsFalsy | app/api/parse-statement/route.ts:48-52 | an empty `date` is skipped for `transaction_date` |
| ParseStatement.CategoryDefaultsToNull | app/api/parse-statement/route.ts:65-69 | with no category key the category is null |
| ParseStatement.ZeroAmountRowIsKept | app/api/parse-statement/route.ts:73-78 | a parsed amount of 0 is finite, so such a row survives the filter |
| ParseReceipt.ExtractReceipt | app/api/parse-receipt/route.ts:24-52 | merchant and date are the first truthy of their keys' fields, else null; the amount is the first total that parses, null exactly when none does, and never negative |
| ParseReceipt.FirstTruthyOrFallback | app/api/parse-receipt/route.ts:28-35 | a `||` chain gives its fallback or a truthy value |
| ParseReceipt.FirstTruthyExists | app/api/parse-receipt/route.ts:28-35 | when some candidate is truthy there is a first one |
| ParseReceipt.FirstPresentIsOne | app/api/parse-receipt/route.ts:37-43 | a present `??` result is one of the candidates |
| ParseReceipt.FirstPresentExists | app/api/parse-receipt/route.ts:37-43 | when some candidate is present there is a first one |
| ParseReceipt.ReceiptReply | app/api/parse-receipt/route.ts:147-157 | refused with "No receipt fields detected." iff neither the merchant nor the amount is truthy; otherwise the receipt |
| ParseReceipt.ZeroTotalWithoutMerchantIsRefused | app/api/parse-receipt/route.ts:149-154 | a total of 0 with no merchant is refused |
| ParseReceipt.ZeroTotalHidesLaterTotals | app/api/parse-receipt/route.ts:37-43 | a zero `total_amount` stops the chain, so `total` is never read |
| ParseReceipt.MerchantAloneIsAccepted | app/api/parse-receipt/route.ts:149-157 | a merchant alone is enough to be accepted |
| ParseReceipt.MerchantDefaultsToNull | app/api/parse-receipt/route.ts:28-35 | with no merchant key of any kind the merchant is null |
| ParseReceipt.AmountDefaultsToNull | app/api/parse-receipt/route.ts:37-43 | with no total that parses, the amount is null |
| ParseReceipt.DateDefaultsToNull | app/api/parse-receipt/route.ts:45-49 | with no date field of any kind, the date is null |
| ParseReceipt.EmptyMerchantNameIsSkipped | app/api/parse-receipt/route.ts:29-30 | an empty `merchant_name` is skipped for `supplier_name` |
| Calendar.TwoDigitMonth | components/expenses/VoiceDraftForm.tsx:12 | two digits whose value is the month |
| Calendar.PeriodKeyOf | components/expenses/VoiceDraftForm.tsx:9-14 | `YYYY-MM` of the date read, "NaN-NaN" for an invalid date |
| Calendar.ParseJoinedKey | components/imports/StatementImportForm.tsx:137-142 | a key of digits, a dash and two digits splits back at the dash into year and month |
| Calendar.PeriodKeyRoundTrip | components/imports/StatementImportForm.tsx:137-142 | a period key reads back to its year and month |
| Calendar.DaysInMonth | components/groups/SetBudgetForm.tsx:34 | 28 to 31 days, by month and the Gregorian leap-year rule |
| Calendar.NormalizeDay | components/groups/SetBudgetForm.tsx:33-34 | `Date`'s day overflow lands on a valid day, and an in-range day is kept |
| Calendar.MakeDate | components/groups/SetBudgetForm.tsx:33-34 | `new Date(year, monthIndex, day)` is a valid calendar day |
| Calendar.DayZeroIsLastDay | components/groups/SetBudgetForm.tsx:34 | day 0 of the next month is the last day of this one |
| Amounts.CleanAmountText | app/api/parse-receipt/route.ts:19 | only digits, `.` and `-` remain, in order |
| Amounts.CleanAppend | app/api/parse-receipt/route.ts:19 | cleaning distributes over concatenation |
| Amounts.CleanKeepsAmountText | app/api/parse-receipt/route.ts:19 | cleaned text is left as it is |
| Amounts.DigitPrefix | components/expenses/VoiceDraftForm.tsx:17 | the longest run of digits at the start |
| Amounts.ParseAmountText | app/api/parse-receipt/route.ts:17-22 | null or a non-negative number |
| Amounts.ParseMoney | app/api/parse-receipt/route.ts:17-22 | `n.cc` inside text with no digit before and nothing numeric after reads as n + cc/100 |
| Amounts.ParseAmountOfParsed | app/api/parse-receipt/route.ts:19-21 | the amount is the absolute value of what `parseFloat` read |
| Amounts.CleanAroundMoney | app/api/parse-receipt/route.ts:19 | cleaning around a money figure keeps the figure |
| Amounts.ParseFloatOfMoney | app/api/parse-receipt/route.ts:19 | `parseFloat` reads a signed money figure exactly |
| Amounts.ParseUnsignedMoney | app/api/parse-receipt/route.ts:19 | the unsigned part of `n.cc` is n + cc/100 |
| Amounts.TwoDigitsValue | app/api/parse-receipt/route.ts:19 | two written cents digits are worth the cents |
| Amounts.DigitRunEnds | components/expenses/VoiceDraftForm.tsx:17 | the digit prefix stops at the first non-digit |
| VoiceDraft.FirstDigitFrom | components/expenses/VoiceDraftForm.tsx:17 | the first digit at or after a position; None iff there is none |
| VoiceDraft.Fraction | components/expenses/VoiceDraftForm.tsx:17 | one or two digits after a point, present iff a digit follows the point |
| VoiceDraft.FindNumber | components/expenses/VoiceDraftForm.tsx:17 | no match iff the text has no digit; otherwise a run of digits at the first digit |
| VoiceDraft.VoiceAmount | components/expenses/VoiceDraftForm.tsx:17-18 | a non-negative amount, 0 when the text has no digit |
| VoiceDraft.VoiceAmountOfMoney | components/expenses/VoiceDraftForm.tsx:17-18 | the first `n.cc` after digit-free text reads as n + cc/100 |
| VoiceDraft.VoiceAmountOfWhole | components/expenses/VoiceDraftForm.tsx:17-18 | a whole number not followed by a point and a digit reads as itself |
| VoiceDraft.FindNumberAt | components/expenses/VoiceDraftForm.tsx:17 | the match takes all digits after a digit-free prefix |
| VoiceDraft.LastSplit | components/expenses/VoiceDraftForm.tsx:21 | the greedy `\s+` gives the merchant start furthest right |
| VoiceDraft.AtGroupFrom | components/expenses/VoiceDraftForm.tsx:21 | the capture comes from the leftmost "at" that matches |
| VoiceDraft.VoiceMerchant | components/expenses/VoiceDraftForm.tsx:20-29 | never empty; without a match the whole text, with "" as null |
| VoiceDraft.MerchantAfterAt | components/expenses/VoiceDraftForm.tsx:20-24 | the trimmed text after a word-boundary "at" (any case) and white space is the merchant |
| VoiceDraft.TrimKeepsLeadingText | components/expenses/VoiceDraftForm.tsx:23 | text starting with a non-space stays non-empty after trimming |
| VoiceDraft.CreateFromText | components/expenses/VoiceDraftForm.tsx:95-145 | refused when the amount is not positive, before any write; sign-in without a user; otherwise one participant paying and owing the amount, budget impact on, no category, source voice, today's period key, the transcript as notes |
| VoiceDraft.VoiceDraftBalanced | components/expenses/VoiceDraftForm.tsx:120-126 | a saved voice draft's totals both equal its amount |
| VoiceDraft.NoDigitIsRefused | components/expenses/VoiceDraftForm.tsx:99-102 | a transcript with no digit is always refused |
| VoiceDraft.FileExtensionForMime | components/expenses/VoiceDraftForm.tsx:187-192 | tested for aac, then mp4 (m4a), then ogg; webm iff none is contained |
| VoiceDraft.RecorderCandidatesExtensions | components/expenses/VoiceDraftForm.tsx:175-192 | the recorder's candidate types get m4a, webm and ogg; no type gives webm |
| VoiceDraft.ByteValues | components/expenses/VoiceDraftForm.tsx:35-38 | one byte per character, the code modulo 256 |
| VoiceDraft.CharsOf | components/expenses/VoiceDraftForm.tsx:33 | one character per byte with that code |
| VoiceDraft.Latin1RoundTrip | components/expenses/VoiceDraftForm.tsx:33-38 | for `atob` output the copy loses nothing |
| VoiceDraft.DecodedBytes | components/expenses/VoiceDraftForm.tsx:32-40 | the loop fills a fresh array of the string's length with each character code |
| CategoryIcon.StyleFor | components/shared/CategoryIcon.tsx:8-167 | the style of the first row with a keyword in the value, else the default |
| CategoryIcon.FirstRowExists | components/shared/CategoryIcon.tsx:9-163 | when some row hits there is a first one |
| CategoryIcon.GetCategoryIcon | components/shared/CategoryIcon.tsx:7-167 | the default #E6EDF2 / #4B5563 iff no keyword is in the lower-cased category (null read as ""); otherwise the first hit row's style |
| CategoryIcon.DefaultMeansNoRow | components/shared/CategoryIcon.tsx:164-167 | the default style is given only when no row hits |
| CategoryIcon.IconIgnoresCase | components/shared/CategoryIcon.tsx:8 | the category's case does not matter |
| CategoryIcon.GroceryComesFirst | components/shared/CategoryIcon.tsx:9-27 | a category with both "groc" and "food" gets the grocery style |
| CategoryIcon.BuiltInCategoriesHaveTheirIcons | components/shared/CategoryIcon.tsx:9-167 | each of the eight built-in categories gets its own badge, Uncategorized the default |
| CategoryIcon.GroceriesBadge | components/shared/CategoryIcon.tsx:9 | "Groceries" gets the grocery badge |
| CategoryIcon.GroceriesRow | components/shared/CategoryIcon.tsx:9 | "groceries" hits the first row |
| CategoryIcon.DiningBadge | components/shared/CategoryIcon.tsx:27 | "Dining" gets the dining badge |
| CategoryIcon.DiningRow | components/shared/CategoryIcon.tsx:9-27 | "dining" misses the grocery row and hits the dining row |
| CategoryIcon.TransportBadge | components/shared/CategoryIcon.tsx:55 | "Transport" gets the transport badge |
| CategoryIcon.TransportRow | components/shared/CategoryIcon.tsx:9-55 | "transport" hits the transport row first |
| CategoryIcon.ShoppingBadge | components/shared/CategoryIcon.tsx:85 | "Shopping" gets the shopping badge |
| CategoryIcon.ShoppingRow | components/shared/CategoryIcon.tsx:9-85 | "shopping" hits the shopping row first |
| CategoryIcon.EntertainmentBadge | components/shared/CategoryIcon.tsx:107 | "Entertainment" gets the entertainment badge |
| CategoryIcon.EntertainmentRow | components/shared/CategoryIcon.tsx:9-107 | "entertainment" hits the entertainment row first |
| CategoryIcon.BillsBadge | components/shared/CategoryIcon.tsx:131 | "Bills" gets the bills badge |
| CategoryIcon.BillsRow | components/shared/CategoryIcon.tsx:9-131 | "bills" hits the bills row first |
| CategoryIcon.HealthBadge | components/shared/CategoryIcon.tsx:148 | "Health" gets the health badge |
| CategoryIcon.HealthRow | components/shared/CategoryIcon.tsx:9-148 | "health" hits the health row first |
| CategoryIcon.UncategorizedBadge | components/shared/CategoryIcon.tsx:164-167 | "Uncategorized" gets the default style |
| CategoryIcon.UncategorizedRow | components/shared/CategoryIcon.tsx:9-163 | "uncategorized" hits no row |
| CategoryIcon.RowHits | components/shared/CategoryIcon.tsx:9-163 | a row with a keyword in the value hits |
| CategoryIcon.NoRowBefore | components/shared/CategoryIcon.tsx:9-163 | rows that miss before a hit leave the hit first |
| CategoryIcon.MerchantCategoryIcon | components/shared/CategoryIcon.tsx:7-167 | every category `categorizeMerchant` can give has the badge of its place in the table |
| BudgetForm.MonthStart | components/groups/SetBudgetForm.tsx:33 | day 1 of the current month |
| BudgetForm.MonthEnd | components/groups/SetBudgetForm.tsx:34 | the last day of the current month |
| BudgetForm.UtcDateOfMidnight | components/groups/SetBudgetForm.tsx:44-45 | the UTC day of local midnight: the same day at or west of Greenwich, the day before east of it |
| BudgetForm.SubmitBudget | components/groups/SetBudgetForm.tsx:19-50 | a NaN or non-positive amount is refused before any write; otherwise the period key and the ISO dates of local midnight of the month's first and last days, each under the time-zone offset of its own instant |
| BudgetForm.PeriodSlipsEastOfGreenwich | components/groups/SetBudgetForm.tsx:33-45 | date by date: written at a negative offset the start is the previous month's last day and the end a day early; at an offset of zero or more each is the local day |
| BudgetForm.SummerTimeSplitsThePeriod | components/groups/SetBudgetForm.tsx:33-45 | with offset 0 on 1 March and −60 on 31 March 2026 (London) the period written is 1–30 March, not the local month |
| BudgetForm.SubmitBudgetLocal | components/groups/SetBudgetForm.tsx:19-50 | the same checks, with the local first and last days as dates |
| BudgetForm.LocalPeriodCoversMonth | components/groups/SetBudgetForm.tsx:29-34 | the corrected period starts on the 1st, ends on the month's last day, both lie in the month the key names, and the key reads back to it |
| BudgetForm.WestOfGreenwichIsLocal | components/groups/SetBudgetForm.tsx:44-45 | when the offset is zero or more at both midnights the written dates are the intended ones |
| GroupSwitcher.SelectedGroupId | components/layout/GroupSwitcher.tsx:23-27 | nothing iff there are no groups; the active id when non-empty, else the first group's id |
| GroupSwitcher.DeleteTarget | components/layout/GroupSwitcher.tsx:41-54 | the selected group, only when it is non-empty and the user confirmed |
| GroupSwitcher.RunEnd | components/layout/GroupSwitcher.tsx:34 | `[^/]+` stops at the next `/` or the end |
| GroupSwitcher.FirstSegment | components/layout/GroupSwitcher.tsx:34 | the leftmost `/groups/<segment>` |
| GroupSwitcher.ReplaceGroup | components/layout/GroupSwitcher.tsx:34 | only the first `/groups/<segment>` is replaced, by `/groups/` and the id expanded as a replacement text; the rest of the path is kept; no match leaves the path unchanged |
| GroupSwitcher.Pattern | components/layout/GroupSwitcher.tsx:34 | `$$` in the replacement stands for a dollar sign and `$&` for the matched text |
| GroupSwitcher.ExpandLiteral | components/layout/GroupSwitcher.tsx:34 | a replacement text with no `$` is copied as it is |
| GroupSwitcher.ExpandAfterLiteral | components/layout/GroupSwitcher.tsx:34 | the literal `/groups/` in front of the id is copied and only the id is expanded |
| GroupSwitcher.ExpandMatched | components/layout/GroupSwitcher.tsx:34 | `$&` expands to the matched text |
| GroupSwitcher.MatchPatternInId | components/layout/GroupSwitcher.tsx:33-34 | switching to the id `$&` on `/groups/<old>/tail` writes `/groups//groups/<old>/tail` |
| GroupSwitcher.NextPath | components/layout/GroupSwitcher.tsx:33-35 | a path containing `/groups/` is rewritten; otherwise, or with no path, `/groups/<id>/expenses` |
| GroupSwitcher.SegmentEndsAfterId | components/layout/GroupSwitcher.tsx:34 | the rewritten segment ends where the id does |
| GroupSwitcher.SwitchKeepsPage | components/layout/GroupSwitcher.tsx:33-34 | `/groups/<old>/tail` becomes `/groups/` + the expanded new id + `/tail`, which is `/groups/<new>/tail` for an id with no `$` |
| GroupSwitcher.SwitchFromElsewhere | components/layout/GroupSwitcher.tsx:35 | off the group pages the switch goes to the new group's expenses |
| GroupSwitcher.SwitchIsIdempotent | components/layout/GroupSwitcher.tsx:33-35 | rewriting twice to the same group is rewriting once |
| GroupSwitcher.ReplaceTwice | components/layout/GroupSwitcher.tsx:34 | replacing the segment again with the same id changes nothing |
| GroupSwitcher.ReplaceSameId | components/layout/GroupSwitcher.tsx:34 | replacing a `/groups/<id>` segment with the same id puts back what was there |
| GroupSwitcher.ReplacedSegmentIsFirst | components/layout/GroupSwitcher.tsx:34 | the new segment stays the first match |
| GroupSwitcher.NoSegmentStays | components/layout/GroupSwitcher.tsx:34 | a path where the pattern does not match is left alone both times |
| UserGroup.LoadedGroups | lib/groups/getUserGroup.ts:15-27 | empty when the query threw or returned no data |
| UserGroup.FindActive | lib/groups/getUserGroup.ts:29-30 | the first group whose id equals the cookie; None iff there is none |
| UserGroup.FirstGroupId | lib/groups/getUserGroup.ts:32-34 | the active group's id, else the first group's, else undefined |
| UserGroup.GroupName | lib/groups/getUserGroup.ts:35-36 | the active group's name, else the first group's |
| UserGroup.UserAndFirstGroup | lib/groups/getUserGroup.ts:5-38 | sign in iff there is no user; otherwise the groups, the chosen id and the name |
| UserGroup.ChosenGroupIsAMembership | lib/groups/getUserGroup.ts:29-34 | the chosen id is one of the memberships, and there is one iff there are memberships |
| UserGroup.CookieSelectsGroup | lib/groups/getUserGroup.ts:29-34 | a cookie naming one of the user's groups selects it |
| UserGroup.StaleCookieFallsBack | lib/groups/getUserGroup.ts:29-34 | a missing or stale cookie falls back to the first membership |
| UserGroup.FailedQueryHasNoGroup | lib/groups/getUserGroup.ts:15-36 | a failed query gives no groups, no id and no name |
| UserGroup.NameCanComeFromAnotherGroup | lib/groups/getUserGroup.ts:35-36 | when the active group has no name, the name shown is another group's |
| Sidebar.Clamp | components/layout/ResizableSidebar.tsx:5-42 | the width lies in [220, 360], is the identity in range, and takes the nearer bound outside |
| Sidebar.ClampNumber | components/layout/ResizableSidebar.tsx:25 | a stored infinity clamps to a bound |
| Sidebar.ClampIdempotent | components/layout/ResizableSidebar.tsx:25-42 | clamping twice is clamping once |
| Sidebar.ClampMonotone | components/layout/ResizableSidebar.tsx:42 | clamping keeps the order of two widths |
| Sidebar.StoredNumber | components/layout/ResizableSidebar.tsx:22-24 | a missing or empty entry reads as NaN |
| Sidebar.ResizableSidebar.constructor | components/layout/ResizableSidebar.tsx:16-19 | starts at 220, not dragging |
| Sidebar.ResizableSidebar.LoadStored | components/layout/ResizableSidebar.tsx:21-27 | a numeric stored width is clamped and used; a missing or non-numeric one leaves the width unchanged |
| Sidebar.ResizableSidebar.MouseDown | components/layout/ResizableSidebar.tsx:52-56 | dragging starts, the width stays in range |
| Sidebar.ResizableSidebar.MouseUp | components/layout/ResizableSidebar.tsx:46-50 | dragging stops |
| Sidebar.ResizableSidebar.MouseMove | components/layout/ResizableSidebar.tsx:40-44 | while dragging the width becomes the clamped cursor position; otherwise nothing changes |
| Sidebar.ResizableSidebar.Resize | components/layout/ResizableSidebar.tsx:33-38 | desktop iff the viewport is at least 768 wide |
| Sidebar.ResizableSidebar.ContentPadding | components/layout/ResizableSidebar.tsx:119 | the width on desktop, 0 otherwise |
| Text.ToLower | components/shared/CategoryIcon.tsx:8 | every ASCII capital becomes its small letter, nothing else changes |
| Text.ToLowerIdempotent | components/shared/CategoryIcon.tsx:8 | lower-casing twice is lower-casing once |
| Text.Trim | components/imports/StatementImportForm.tsx:79 | neither end is white space, and trimmed text is left as it is |
| Text.TrimAfterSpaces | components/expenses/VoiceDraftForm.tsx:23 | leading white space is removed again by trimming |
| Text.ContainsIff | lib/imports/merchantRules.ts:97 | `includes` holds iff the needle sits in the haystack at some position |
| Text.NatToStringRoundTrip | components/groups/SetBudgetForm.tsx:30 | a year written in decimal reads back to itself |

## Left out

- Supabase: authentication, table reads and writes, upserts, the `confirm_expense_draft` RPC and storage uploads are remote I/O. Their results are parameters (`user`, member rows, stored rules), and a successful write is the value a function returns (a draft, a plan, an upsert).
- The OCR and transcription fetches, the polling loops of both routes, and the PDF and image branches of the import form's file handler are network plumbing. Their answers enter as `Json` values or as `ReceiptReply`.
- JavaScript `Date` is left out: parsing, `toISOString` and `getTimezoneOffset`. The parser is a `DateReader` parameter (`Calendar.PeriodKeyOf`, `StatementImport.NormalizeDate`). The clock's "now" and "today" are parameters. Only the budget form's ISO dates model the time-zone shift, through one offset parameter per date (`getTimezoneOffset()` at each of the two instants).
- `parseFloat` and `Number` on free text (the form inputs) are abstract: an `Amount` parameter, or `DateLib.number`. On cleaned amount text the parse is modelled exactly, but only for ASCII digits without exponents.
- IEEE floating point is left out: amounts are exact reals, and the 0.01 tolerance is compared exactly. `Infinity` appears only as a stored sidebar width.
- The user-regex engine is a parameter that answers or reports a compile failure. The built-in table's regular expressions are modelled exactly: literals and `word\s*word` shapes.
- Strings are sequences of characters. `toLowerCase` changes ASCII capitals only, and `\s` and `trim` use JavaScript's white-space set.
- Voice recording is left out: MediaRecorder, the Capacitor recorder, `pickBestMimeType`'s `isTypeSupported` probing, `atob` itself and the `Blob` around the bytes.
- The SVG drawings of `getCategoryIcon`, and all rendering, are left out; a badge is its kind and its two colours.
- The sidebar's persistence formats (`String(width)` and `Number`) are abstract through `toNumber`. The mobile menu state, and the redirects after sign-out or failed sign-in, are left out.
- `getUserGroup` returns its supabase client and user object too; the model returns only the groups, the id and the name.
- ExpenseDraftForm.DraftForm.SplitEqually: auto split is only ever switched on. Nothing in the form switches it off, and the model keeps that.
- ExpenseDraftForm.DraftForm.ReceiptChange: only string receipt fields are modelled. The number the route can send as a merchant or date, and the form's `String` of it, are left out.
- StatementImport.NormalizeDate: for a date that `Date` can parse, the result is whatever the `DateLib` parameter's ISO formatting gives. No property of JavaScript's own date parser is stated. The month/day fallback builds local midnight and formats it with `toISOString`, so east of Greenwich it yields the previous day, as the budget form's dates do. That slip lives inside `isoDay` and is not modelled.
- GroupSwitcher.SwitchIsIdempotent: proved only for ids with no `/` and no `$`. Switching twice to an id that holds a replacement pattern such as `$&` need not give the same path; `GroupSwitcher.MatchPatternInId` shows the expansion.
- GroupSwitcher.ReplaceTwice: likewise proved only for ids with no `/` and no `$`.
- Calendar.PeriodKeyOf: `new Date("YYYY-MM-DD")` reads a date-only text as UTC midnight, so west of Greenwich the first of a month gets the previous month's key. This is inside the abstract reader and is not modelled.

## Findings

| source | as written | input that shows it | evidently intended | confidence | as-written member | corrected member |
|---|---|---|---|---|---|---|
| components/groups/SetBudgetForm.tsx:33-45 | the month's first and last days are built at local midnight and written with `toISOString().split('T')[0]`, which gives the UTC date; each date slips a day back whenever its midnight is ahead of UTC | a browser east of Greenwich (UTC+05:30, `getTimezoneOffset()` = −330) in October 2026 writes start "2026-09-30" and end "2026-10-30"; in London in March 2026 summer time starts mid-month and the end alone slips, to "2026-03-30" | start "2026-10-01" and end "2026-10-31": the local first and last days of the month the period key names | not executed | BudgetForm.SubmitBudget (shown by BudgetForm.PeriodSlipsEastOfGreenwich and BudgetForm.SummerTimeSplitsThePeriod) | BudgetForm.SubmitBudgetLocal (proved by BudgetForm.LocalPeriodCoversMonth) |
| components/imports/StatementImportForm.tsx:233-235 | the preview page goes back to 1 only when `rows.length` or `headers.length` changes, though the preview also changes with the column mapping and the category overrides | 25 drafts, the user on page 3, then a date column that leaves 5 drafts: page 3 of 1 shows no row, and the pager that could go back is hidden | the page goes back to 1 whenever the preview's row count changes, so it always shows drafts while there are any | not executed | StatementImport.PageAfterPreviewChange (shown by StatementImport.RemapStrandsPage) | StatementImport.PageForPreview (proved by StatementImport.PreviewPageStaysInRange) |
