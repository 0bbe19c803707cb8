# Cashback calculator: rule engine and spreadsheet ingestion

This project models the two computational parts of a casino-loss cashback
calculator. Both are in Dafny and come with proofs.

* **The rule engine** (`services/cashbackService.ts`, with the tables of
  `constants.ts`). `calculateCashback` is given a player's loss, a cashback
  mode (weekly live casino, daily slots, sports, aviator) and a platform
  (7K, Cassino, Vera). It does the following, in order:
  * picks the tier table and the minimum, maximum and base limit for that
    pair;
  * finds the first tier whose `[min, max]` holds the loss;
  * multiplies `min(loss, baseLimit)` by the tier's percentage;
  * truncates the result to cents;
  * pays nothing below the minimum, and caps the payout at the maximum.
  The engine is module `CashbackService`. Its tables are module `Constants`.
* **The ingestion pipeline** (`services/excelService.ts`, the helpers and
  the `onload` body of `processFile`). It works on every row of a sheet:
  * finds the date, game, bet, win and GGR columns by header alias;
  * turns the date cell into `dd/mm/yyyy` text;
  * classifies the game into a mode;
  * derives the row's loss.
  It then sums the losses in a dictionary keyed by `date-mode`. Weekly and
  sports rows are keyed by the Monday of their week. Each positive total is
  priced with the rule engine. The paying lines are totalled per mode and
  overall, then sorted by date.
  * Modules `ExcelService` (normalising, classification, header lookup,
    number parsing, loss derivation) and `ExcelDates` (date text, serial
    dates, week start) hold the helpers.
  * Module `Ingestion` holds the row loop, the dictionary, pricing, the sort
    and the whole `processFile` body.

Supporting modules:
* `JsText` models the JavaScript string operations the source relies on:
  `toLowerCase`, `trim`, `includes`, `replace`, `split`, `join`, digit text.
* `Calendar` models the proleptic Gregorian calendar and `new Date(y, m, d)`.
* `Types` holds the records of `types.ts`.
* `Outcomes` holds `Option` and `Result`.

Money is exact `real` arithmetic. Day numbers count from 1970-01-01.

The sheet reaches the model as a sequence of rows. Each row is its
(header, cell) pairs in key order, and a cell is a number or a text. The
imperative parts are methods proved against specification functions:
* the row loop (`Ingestion.AggregateLosses`);
* the pricing loop (`Ingestion.BuildReport`);
* the in-place sort of the result array (`Ingestion.SortByDate` with
  `Ingestion.InsertInPlace`);
* the whole body (`Ingestion.ProcessFile`).
The lemmas prove what the report promises about those functions.

In three places the code behaves in ways a reader may not expect. The
model follows the code each time:
* **A numeric game name rejects the whole file.** `normalize` calls
  `toLowerCase` on a non-zero numeric game cell, which throws. The `try`
  around the row loop turns that into a rejection of the whole file, so it
  is not a skipped row (`Ingestion.ReportRejectedIffNumericGame`).
* **Payouts are monotone in the loss only over whole cents.** A loss between
  two tiers (499.995 in the weekly table) is in no tier and pays nothing
  (`CashbackService.WeeklyGapBetweenTiers`).
* **Vera daily payouts keep rising past the base limit.** The Vera daily
  base limit (25000) lies below the start of its top tier (30000). Losses
  from 25000 to 29999.99 pay 15% of 25000, which is 3750, and not the cap.
  The cap is reached only from 30000 on
  (`CashbackService.VeraDailyBaseLimitBeforeTopTier`).

## Model

| member | source | states |
|---|---|---|
| CashbackService.TruncateToTwoDecimals | services/cashbackService.ts:11-16 | the result is a whole number of cents, at most the input and less than one cent below it, and never negative for a non-negative input |
| CashbackService.TruncateIsGreatestCentsBelow | services/cashbackService.ts:11-16 | every whole-cent amount not above the input is at most the truncation, so truncation yields the greatest such amount |
| CashbackService.TruncateKeepsCents | services/cashbackService.ts:11-16 | an amount already in whole cents is returned unchanged |
| CashbackService.TruncateMonotone | services/cashbackService.ts:11-16 | truncation never reverses the order of two amounts |
| CashbackService.FirstTierFrom | services/cashbackService.ts:79 | `tiers.find`: a found index holds the loss and no earlier tier does; no index means no tier holds it |
| CashbackService.SelectRules | services/cashbackService.ts:38-76 | the table, minimum, maximum and base limit chosen for each mode and platform (Vera's weekly minimum of 0.01 and its own daily table and 25000 base); every choice is a well-formed rule set whose cap is its top percentage of its base limit |
| CashbackService.TablesWellFormed | constants.ts:8-69 | each tier table starts above zero, is contiguous at one-cent steps, has strictly rising percentages and ends unbounded |
| CashbackService.Rebate | services/cashbackService.ts:92-97 | the truncated rebate is in whole cents, within one cent below `min(loss, baseLimit) × percent`, and non-negative |
| CashbackService.Clamp | services/cashbackService.ts:99-101 | a rebate within [minimum, maximum] is paid as it is, one above the maximum pays the maximum, one below the minimum pays 0; the payout is zero or at least the minimum, at most the maximum and the rebate, and stays in whole cents |
| CashbackService.ApplyRules | services/cashbackService.ts:26-108 | a non-positive loss or one in no tier pays 0 at 0%; otherwise the applied percent is the first containing tier's, and the payout is the truncated `min(loss, baseLimit) × percent`, 0 when below the minimum and the maximum when above it |
| CashbackService.CalculateCashback | services/cashbackService.ts:18-109 | for the selected rule set: a positive loss in a tier is paid its truncated `min(loss, baseLimit) × percent` when that reaches the minimum and 0 otherwise; the payout is in whole cents between 0 and the cap, at the percent of the tier containing the loss; 0 at 0% when no tier contains it; never more than the untruncated rebate |
| CashbackService.PayoutBounds | services/cashbackService.ts:92-101 | under a well-formed rule set, the payout is in whole cents between 0 and the cap, and zero or at least the minimum |
| CashbackService.AppliedPercentOfContainingTier | services/cashbackService.ts:79-106 | the applied percent is that of the tier containing the loss, whichever it is; with no containing tier, nothing is paid |
| CashbackService.PayoutAtMostRawRebate | services/cashbackService.ts:92-101 | truncation and clamping never pay more than `min(loss, baseLimit) × percent` |
| CashbackService.EndsBeforeLaterStart | constants.ts:8-69 | in a well-formed table every tier ends before any later tier starts |
| CashbackService.TierUnique | services/cashbackService.ts:79 | at most one tier of a well-formed table holds a loss, so `find` returns the only match |
| CashbackService.PercentIncreasing | constants.ts:8-69 | a later tier always pays a strictly higher percentage |
| CashbackService.TierIndexMonotone | services/cashbackService.ts:79 | a larger loss never falls in an earlier tier |
| CashbackService.BelowFirstTierPaysNothing | services/cashbackService.ts:79-88 | a loss below the first tier's minimum pays 0 at 0% |
| CashbackService.GapPaysNothing | services/cashbackService.ts:79-88 | a fractional-cent loss strictly between two tiers pays 0 at 0% |
| CashbackService.CentsCovered | services/cashbackService.ts:79-88 | every whole-cent loss from the first tier's minimum up lies in some tier |
| CashbackService.ClampMonotone | services/cashbackService.ts:99-101 | clamping preserves order |
| CashbackService.CashbackMonotone | services/cashbackService.ts:79-101 | between two losses that both lie in tiers, the larger never pays less |
| CashbackService.PayoutMonotoneInTier | services/cashbackService.ts:92-101 | a larger loss in a tier with a percentage at least as high never pays less |
| CashbackService.CashbackMonotoneOnCents | services/cashbackService.ts:79-101 | over whole-cent losses from the first tier up, the payout is non-decreasing in the loss |
| CashbackService.CapNeverBinds | services/cashbackService.ts:99-101 | with a cap equal to the top percentage of the base limit, the rebate never exceeds the cap, so only the minimum clamp can change it |
| CashbackService.PayoutIsTruncatedRebate | services/cashbackService.ts:90-101 | under a well-formed rule set a positive loss in a tier pays its truncated rebate when that reaches the minimum and 0 otherwise, the cap never lowering it |
| CashbackService.AboveBaseLimitPaysAsLimit | services/cashbackService.ts:91-93 | a loss above the base limit, in the same tier as the limit, pays exactly what the limit pays |
| CashbackService.TopOfTablePaysCap | services/cashbackService.ts:91-101 | a loss past both the base limit and the top tier's start pays exactly the cap at the top percentage |
| CashbackService.WeeklyHundred | services/cashbackService.ts:39-44 | a weekly loss of 100 on 7K pays 1.00 at 1% |
| CashbackService.WeeklyFortyBelowMinimum | services/cashbackService.ts:100 | a weekly loss of 40 on 7K earns 0.40, below the 0.50 minimum, so pays 0 at 1% |
| CashbackService.WeeklyAboveBaseLimit | services/cashbackService.ts:92 | a weekly loss of 200000 pays 5% of the 100000 base, the 5000 cap |
| CashbackService.WeeklyGapBetweenTiers | services/cashbackService.ts:79-88 | 499.99 pays 4.99 but 499.995 pays nothing at 0% |
| CashbackService.VeraWeeklyForty | services/cashbackService.ts:41 | a Vera weekly loss of 40 pays 0.40 because Vera's weekly minimum is 0.01 |
| CashbackService.VeraDailyBaseLimitBeforeTopTier | constants.ts:36-46 | a Vera daily loss of 29000 pays 15% of the 25000 base, which is 3750 |
| CashbackService.SportsFirstTierStartsAtOneCent | constants.ts:56-69 | a sports loss of 0.50 pays 0.01 at 2%, while the same weekly loss pays 0 at 0% |
| JsText.ToLowerChar | services/excelService.ts:11 | an upper-case Basic Latin or Latin-1 letter becomes the code point 32 above it, its lower-case form; every other code point is kept; the result is never upper case, and whitespace stays whitespace |
| JsText.ToLowerAt | services/excelService.ts:11 | lower-casing works code point by code point |
| JsText.Trim | services/excelService.ts:11 | the trimmed text is the untouched middle of the input, everything before it and after it is whitespace, it has no whitespace at either end, and it is empty exactly when the input is all whitespace |
| JsText.IncludesMeans | services/excelService.ts:16 | `includes` holds exactly when the sub-text occurs at some position |
| JsText.RemoveWhere | services/excelService.ts:79 | the result keeps exactly the characters of the input that are not dropped |
| JsText.RemoveWhereConcat | services/excelService.ts:79 | removing characters from a concatenation is removing them from each part and concatenating the results, so kept characters stay in order |
| JsText.RemoveWhereOne | services/excelService.ts:79 | a single character is kept exactly when it is not dropped |
| JsText.RemoveWhereSnoc | services/excelService.ts:79 | appending a character to the input appends it to the result exactly when it is kept |
| JsText.ReplaceFirstAt | services/excelService.ts:82 | replacing a character changes only its first occurrence |
| JsText.Split | services/excelService.ts:91 | `split` yields at least one part, no part holds the separator, and joining the parts gives back the text |
| JsText.SplitJoin | services/excelService.ts:131 | splitting joined separator-free parts returns those parts |
| JsText.NatToDecimal | services/excelService.ts:98 | a number's decimal text is non-empty digits without a leading zero that read back as the number |
| JsText.Pad2 | services/excelService.ts:98 | a two-digit field reads back as its number |
| Calendar.CivilFromDays | services/excelService.ts:126 | the calendar date of a day number is valid and maps back to that day number |
| Calendar.CivilRoundTrip | services/excelService.ts:92 | a valid calendar date converts to a day number and back unchanged |
| Calendar.WeekDay | services/excelService.ts:93 | `getDay` is a weekday from 0 (Sunday) to 6 (Saturday) |
| Calendar.WeekDayNext | services/excelService.ts:93 | the next day is the next weekday, Saturday wrapping to Sunday |
| Calendar.WeekDayAnchors | services/excelService.ts:93 | 1970-01-01 is a Thursday and 2024-01-01 a Monday |
| Calendar.WeekStart | services/excelService.ts:93-97 | the week's start is a Monday at most six days before the date |
| Calendar.WeekStartIsLatestMonday | services/excelService.ts:94-97 | the week's start is the only Monday in the six days up to the date |
| Calendar.WeekStartIdempotent | services/excelService.ts:93-97 | a Monday is its own week start |
| Calendar.SameWeekSameStart | services/excelService.ts:93-97 | every day from a Monday through the next Sunday has that Monday as its week start |
| Calendar.MakeDay | services/excelService.ts:92 | `new Date(y, m - 1, d)` of a valid date is its day number |
| Calendar.JsDate | services/excelService.ts:92 | the date built from text parts is a valid time value; for a valid date in range it is that date's day number, with years 0 to 99 taken as 1900 to 1999 |
| ExcelService.NormalizedShape | services/excelService.ts:11 | a normalised name has no upper-case letter and no whitespace at either end |
| ExcelService.NormalizeIdempotent | services/excelService.ts:11 | normalising twice gives the same as normalising once |
| ExcelService.IsExcluded | services/excelService.ts:14-17 | a game is excluded exactly when its normalised name contains some normalised list entry |
| ExcelService.ContainsAny | services/excelService.ts:37 | a name is a live candidate exactly when it contains one of the keywords |
| ExcelService.IdentifyCategory | services/excelService.ts:20-55 | the checks run in the source's order, each as an if-and-only-if: aviator exactly off 7K for names mentioning aviator; sports exactly on 7K for sport, esport, apostas or odds; weekly exactly for a non-aviator, non-sport live game off the weekly list; daily exactly for a remaining game off the daily list; no category for a non-sport game means it is on the daily list |
| ExcelService.SportsOnlyWhereOffered | services/excelService.ts:29-31 | sports is only ever chosen on the platform whose flag offers sports |
| ExcelService.ExcludedLiveGameFallsToDaily | services/excelService.ts:39-52 | a live game on the weekly list falls through to daily, or to no category when it is also on the daily list |
| ExcelService.CategoryIgnoresCaseAndPadding | services/excelService.ts:21 | the category depends only on the normalised name |
| ExcelService.VeraAviatorDespiteFlag | services/excelService.ts:24 | Vera's flag offers no aviator cashback, yet an aviator game on Vera is classified aviator |
| ExcelService.SportsOffSevenKIsNull | services/excelService.ts:29-32 | off 7K, a sports game that does not mention aviator gets no category |
| ExcelService.FirstIndex | services/excelService.ts:62 | `find`: a found index satisfies the test and no earlier one does; none found means none satisfies it |
| ExcelService.KeyHitsMeans | services/excelService.ts:66 | a key hits a row exactly when some header contains it after normalising |
| ExcelService.LookupKey | services/excelService.ts:61-67 | a key yields a value exactly when some header contains it |
| ExcelService.LookupPrefersFirstExact | services/excelService.ts:62-63 | the first exactly matching header wins, even over earlier containing headers |
| ExcelService.LookupFallsBackToFirstContaining | services/excelService.ts:66-67 | with no exact header, the first containing header wins |
| ExcelService.FindValue | services/excelService.ts:58-70 | the result is `undefined` exactly when no key hits any header |
| ExcelService.FindValueUsesFirstHitKey | services/excelService.ts:60-68 | the value comes from the first alias in list order that hits, whatever the column order |
| ExcelService.LoneColumnFirstMatchingKey | services/excelService.ts:58-70 | a one-column row yields its value as soon as any alias is contained in its header |
| ExcelService.PlayerHeaderMatchesPl | services/excelService.ts:145 | a "Player" column is taken as the GGR column through the alias "PL" |
| ExcelService.ParseDecimalPrefix | services/excelService.ts:84 | `parseFloat` finds no number exactly when neither a digit nor a point followed by a digit comes after the optional sign |
| ExcelService.ParseSignedDecimal | services/excelService.ts:84 | a signed decimal with a point, such as "-20.5", "+.5" or "7.", reads as its value, negated after a minus, whatever non-digit follows |
| ExcelService.ParseSignedInteger | services/excelService.ts:84 | a signed whole number such as "-20" or "+7" reads as its value, negated after a minus, whatever follows that is neither a digit nor a point |
| ExcelService.CleanNumberText | services/excelService.ts:75-83 | the cleaned text has no currency mark or whitespace, and a comma is left only where a point is also present |
| ExcelService.CleanNumberTextOfPlain | services/excelService.ts:75-83 | text without currency marks or whitespace is returned as it is, except that a lone comma with no point becomes a point |
| ExcelService.CleanNumberTextStrips | services/excelService.ts:79 | cleaning text whose marks were already stripped gives the same as cleaning the original |
| ExcelService.ParseNumber | services/excelService.ts:72-87 | numbers pass through; blank text and text with no numeric prefix read as 0 |
| ExcelService.NegativeTextParses | services/excelService.ts:72-87 | the text "-w" of digits w reads as minus their value |
| ExcelService.ParseStopsAtJunk | services/excelService.ts:84 | `parseFloat` reads digits, a point and digits, and ignores what follows |
| ExcelService.DecimalCommaParses | services/excelService.ts:81-84 | "w,f" reads as the decimal w.f |
| ExcelService.ThousandsSeparatorMisread | services/excelService.ts:77-84 | "w.g,f" (a thousands point and a decimal comma) reads as w.g |
| ExcelService.CurrencyTextParses | services/excelService.ts:79-84 | "R$ w,f" reads as w.f |
| ExcelService.CurrencyPrefixDropped | services/excelService.ts:79 | the "R$ " prefix is removed before parsing |
| ExcelService.DeriveLoss | services/excelService.ts:147-166 | bet minus win when both exist; the absolute GGR when there is no bet; the signed GGR when a bet has no win; 0 with no usable column |
| ExcelService.NegativeGgrIsLoss | services/excelService.ts:153-166 | with no bet column, a GGR of "-w" is a loss of w |
| ExcelDates.YearText | services/excelService.ts:98 | the year is written as digits that read back as the year |
| ExcelDates.DigitPartNumber | services/excelService.ts:91 | `Number` of a digit part is its decimal value |
| ExcelDates.SignedPartNumber | services/excelService.ts:91 | `Number` of a sign followed by digits is their value, negated after a minus: "-3" is -3, "+05" is 5 |
| ExcelDates.DateValue | services/excelService.ts:91-92 | a date read from `dd/mm/yyyy` text is a valid time value |
| ExcelDates.GetWeekStart | services/excelService.ts:90-99 | text that is no date gives "Invalid Date" |
| ExcelDates.FormatDateParts | services/excelService.ts:98 | formatted dates split on `/` into their day, month and year texts |
| ExcelDates.FormatDateReadsBack | services/excelService.ts:91-98 | reading a formatted date back gives the same day (years from 100 on) |
| ExcelDates.FormatDateInjective | services/excelService.ts:98 | distinct days are written as distinct texts |
| ExcelDates.InvalidDateIsNoDate | services/excelService.ts:91-92 | "Invalid Date" does not read as a date |
| ExcelDates.WeekStartNamesMonday | services/excelService.ts:90-99 | the week start of a date text names a Monday at most six days earlier |
| ExcelDates.GetWeekStartIdempotent | services/excelService.ts:90-99 | the week start of a week start is itself |
| ExcelDates.SameWeekSameWeekStart | services/excelService.ts:90-99 | dates of one Monday-to-Sunday week give the same week-start text |
| ExcelDates.OtherWeekOtherWeekStart | services/excelService.ts:90-99 | dates of different weeks give different week-start texts |
| ExcelDates.IsoParts | services/excelService.ts:130-131 | an ISO date text splits on `-` into its year, month and day |
| ExcelDates.IsoDateKeepsDay | services/excelService.ts:128-132 | an ISO date cell becomes text that reads back as the same calendar date |
| ExcelDates.SerialMs | services/excelService.ts:125 | the rounded time value of a serial is its day offset from 1970 plus the rounded time of day |
| ExcelDates.SerialDayDate | services/excelService.ts:124-126 | a serial k + f whose time of day rounds to a millisecond within day k is written as the date of day k - 25569 since 1970, the serial's own day |
| ExcelDates.SerialDateInBrasiliaIsDayBefore | services/excelService.ts:125-126 | in UTC-3 a serial in the first three hours of its day is written as the day before, where the UTC reading gives the day itself |
| Types.ModeTotals.Add | services/excelService.ts:206 | adding an amount raises that mode's total by exactly the amount and leaves the other three unchanged |
| Ingestion.ClassifyRow | services/excelService.ts:119-185 | a row rejects exactly when it has a truthy date and a numeric game; sports only on 7K; aviator never on 7K |
| Ingestion.ClassifyRowOutcome | services/excelService.ts:119-185 | a row is skipped exactly when its date or game is missing or falsy, or its game has no category; a counted row carries its own loss under its game's category, dated by its week's Monday when weekly or sports |
| Ingestion.SameWeekSameBucket | services/excelService.ts:173-180 | two weekly (or two sports) rows dated in the same week land on the same key |
| Ingestion.KeyTextInjective | services/excelService.ts:180 | the key text `date-mode` determines both the date and the mode |
| Ingestion.ContributionsStep | services/excelService.ts:118 | each row extends the result of the rows before it |
| Ingestion.ErrorAbsorbs | services/excelService.ts:106-118 | once a row throws, later rows change nothing |
| Ingestion.RejectedIffSomeRowThrows | services/excelService.ts:106-118 | the row loop fails exactly when some row throws |
| Ingestion.AddKeepsValid | services/excelService.ts:181-184 | adding a contribution keeps keys distinct, matched by entries, with each entry under its own key |
| Ingestion.AggregatesValid | services/excelService.ts:116-186 | the dictionary built from any contributions is well formed |
| Ingestion.AggregateMembership | services/excelService.ts:181-183 | a key is in the dictionary exactly when some contribution has it |
| Ingestion.NoKeyNoLoss | services/excelService.ts:181-184 | a key that no contribution has sums to no loss |
| Ingestion.AggregateTotals | services/excelService.ts:184 | each entry's total is the sum of the losses of the contributions under its key |
| Ingestion.ContributionEntry | services/excelService.ts:182 | every contribution's key is present, with that contribution's date and mode |
| Ingestion.KeysInFirstSeenOrder | services/excelService.ts:181-193 | `Object.values` lists the entries in the order their keys first appeared |
| Ingestion.AddConservesLoss | services/excelService.ts:181-184 | adding a contribution raises the summed totals by exactly its loss |
| Ingestion.AggregateConservesLoss | services/excelService.ts:116-186 | the dictionary's totals sum to the total loss of all contributions |
| Ingestion.AddContribution | services/excelService.ts:180-184 | a counted row leaves the keys and entries exactly as `Add` describes: a new key is listed last with its entry started at zero, then the row's loss is added to the entry |
| Ingestion.AggregateLosses | services/excelService.ts:116-186 | the row loop returns the dictionary of all rows' contributions, or the rejection |
| Ingestion.PriceIsPaid | services/excelService.ts:195-205 | a priced line keeps its total's date, mode and loss and carries the engine's payout and percent; a total gets no line exactly when its loss is not positive or its payout is not |
| Ingestion.EntriesArePaid | services/excelService.ts:193-210 | every line is a positive loss paid exactly as the rule engine prices it |
| Ingestion.PricedTotalsListed | services/excelService.ts:193-205 | every total that prices to a line appears in the results |
| Ingestion.TotalIsSumOfModes | services/excelService.ts:206-207 | the grand total is the sum of the four per-mode totals |
| Ingestion.EntriesStep | services/excelService.ts:193-209 | each entry appends its line, if any, to the lines before it |
| Ingestion.BuildReport | services/excelService.ts:189-210 | the pricing loop returns the lines of the paying totals in dictionary order, the per-mode totals of those lines and their grand total |
| Ingestion.InsertPermutes | services/excelService.ts:213-219 | inserting a line adds exactly that line |
| Ingestion.DateSortedPermutes | services/excelService.ts:213-219 | sorting neither loses nor duplicates lines |
| Ingestion.InsertKeepsOrder | services/excelService.ts:213-219 | inserting a dated line into date-ordered dated lines keeps them in date order |
| Ingestion.InsertMember | services/excelService.ts:213-219 | each position after an insertion holds an old line or the inserted one |
| Ingestion.DateSortedMembers | services/excelService.ts:213-219 | every sorted line is one of the lines given to the sort |
| Ingestion.DateSortedInOrder | services/excelService.ts:213-219 | sorting lines that all have readable dates puts them in ascending date order |
| Ingestion.InsertStable | services/excelService.ts:213-219 | an insertion appends the line to the lines of its own date and leaves the lines of every other date in place |
| Ingestion.DateSortedStable | services/excelService.ts:213-219 | the sort is stable: for every date, and for unreadable dates, the lines of that date keep their relative order |
| Ingestion.InsertKeepsSum | services/excelService.ts:213-223 | an insertion adds the line's cashback to the grand total |
| Ingestion.AddCommutes | services/excelService.ts:206 | per-mode totals do not depend on the order amounts are added |
| Ingestion.InsertKeepsTotals | services/excelService.ts:213-224 | an insertion adds the line's cashback to its own mode's total |
| Ingestion.DateSortedKeepsSums | services/excelService.ts:213-224 | sorting changes neither the grand total nor any mode total |
| Ingestion.InsertShift | services/excelService.ts:213-219 | moving a line left past a later-dated one is one step of the insertion |
| Ingestion.InsertInPlace | services/excelService.ts:213-219 | the array's prefix becomes the old prefix with the next line inserted; the rest is untouched |
| Ingestion.SortByDate | services/excelService.ts:213-219 | the array is sorted in place into the date-sorted order of its old contents, and for each date the lines of that date keep their old relative order |
| Ingestion.ProcessFile | services/excelService.ts:116-225 | the whole `onload` body resolves with the report of the rows, or rejects exactly as the row loop does |
| Ingestion.SummaryTotals | services/excelService.ts:189-225 | the reported grand total and per-mode totals are those of the reported lines, and the grand total is the sum of the four modes |
| Ingestion.SummaryLinesArePaid | services/excelService.ts:193-222 | every reported line is a positive loss paid exactly as the rule engine prices it |
| Ingestion.SummaryListsPayingBuckets | services/excelService.ts:181-222 | every bucket that pays appears in the summary, and its loss is the sum of its rows' losses |
| Ingestion.SummaryInDateOrder | services/excelService.ts:213-222 | when every line's date is readable, the summary is in ascending date order |
| Ingestion.ReportRejectedIffNumericGame | services/excelService.ts:11-227 | the file is rejected exactly when some row has a truthy date and a numeric game name |

## Left out

- Reading the file is not modelled: `FileReader`, `XLSX.read` and `sheet_to_json` are outside the model. The rows are its input, each listing its headers in `Object.keys` order, and a cell is a number or a text. Boolean, date-object and empty cells are not modelled.
- Arithmetic is exact. IEEE rounding is not modelled, nor is the `toFixed(10)` pre-rounding in `truncateToTwoDecimals`, which exists only to undo binary floating-point error.
- CashbackService.TruncateToTwoDecimals: the truncation is exact, so it is weaker than the source wherever floating-point error would change the last cent.
- `parseFloat` is modelled only for its decimal forms: optional sign, digits, optional point, digits. Exponents, `Infinity` and hexadecimal text are not.
- ExcelDates.PartNumber: `Number` on a date part is modelled for an optionally signed digit string, the empty text reading as 0. A part with a point, an exponent, `Infinity` or hexadecimal digits reads as no date, where `Number` would give a value.
- `toLowerCase` is modelled for the Basic Latin and Latin-1 letters only. Other scripts are left as they are.
- Dates are read in UTC. The source reads them in the runtime's local zone; `ExcelDates.SerialDateInZone` models that for numeric cells (see Findings). Daylight-saving transitions are not modelled.
- `toLocaleDateString('pt-BR')` is modelled as `dd/mm/yyyy` with the year of the era. Its other locale behaviour is not modelled.
- ExcelDates.FormatDateReadsBack: proved for years from 100 on. `new Date(y, ...)` reads years 0 to 99 as 1900 to 1999, so earlier dates do not read back.
- Ingestion.SummaryInDateOrder: holds only when every line's date is readable. The comparator returns NaN for an unreadable date, and then the order `Array.prototype.sort` produces is implementation-defined. The model sorts by stable insertion: a line moves left only past lines with strictly later readable dates.
- Dictionary keys are (date, mode) pairs rather than the text `${date}-${mode}`. `Ingestion.KeyTextInjective` shows that the two are interchangeable.
- The dictionary lists keys in insertion order, because a key ending in `-mode` is never an array index.
- The `message` strings of `calculateCashback`, and `formatCurrency` and `formatPercent`, are not modelled. They are display text only.
- The `default` branch of the `switch` in `calculateCashback` is not modelled. It cannot be reached, because the mode is one of four values.
- `EXCLUDED_GAMES_AVIATOR` and `EXCLUDED_GAMES_SPORTS` are declared in `Constants`. The source never consults them, so nothing uses them.
- `PLATFORMS` is modelled only for its `hasSports` and `hasAviator` flags. Names, logos, colours and delivery texts are display data.
- `Ingestion.Error` has a single case. It stands for the `TypeError` that a numeric game name raises. Decode failures of the file belong to the unmodelled reader.

## Findings

| source | as written | input that shows it | evidently intended | confidence | as-written member | corrected member |
|---|---|---|---|---|---|---|
| services/excelService.ts:125-126 | a numeric (serial) date is turned into an instant at UTC midnight and formatted with `toLocaleDateString`, which uses the runtime's local zone | serial 45292 (1 January 2024) read in Brasília (UTC-3) is written "31/12/2023", and a weekly row then lands in the previous week's bucket | the serial's own calendar day, "01/01/2024" | not executed | ExcelDates.SerialDateInBrasiliaIsDayBefore | ExcelDates.SerialDayDate |
