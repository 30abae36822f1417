# E-toll acquiring settlement voucher, modelled in Dafny

`EtollVoucherGenerator.generateVoucher` takes the rows of a daily settlement report (DSR) and
builds an accounting voucher from them. Each report row is a map from column header to cell
text.

The engine runs these steps in order:

1. It forward-fills the blank Transaction Cycle and Transaction Type cells from above.
2. It finds the settlement date in the report, falling back to today.
3. It derives the `yyyyMMdd`, `ddMMyy` and `dd.MM.yy` labels and the cycle label `1C`.
4. It adds lower-cased lookup keys `TC`, `TT` and `CH` to every row.
5. It derives the amounts:
   - Cycle-scoped column sums.
   - The Final Net Amt tail scan.
   - The INWARD GST neighbour lookup.
   - The stricter Arbitration Vedict sum.
6. It builds one voucher line per entry of a fixed nineteen-entry template. The amount of each
   line is chosen by the rule table.
7. It derives the Upload sheet's rows.
8. It tallies the debit and credit totals.
9. It decides the status: "ok" or "error", with the file and the message that go with it. The
   file sits in a folder partitioned by the settlement date.

## Modules

Each module lives in its own file.

- `Decimals` models `java.math.BigDecimal` as an unscaled integer and a scale. It covers:
  - `add`.
  - `compareTo` (`SameValue`).
  - Structural `equals`.
  - `setScale(2, HALF_UP)` (`Round2`).
  - The String constructor.
  - The engine's lenient `toDecimal`.
- `Text` models the string helpers:
  - `String.trim`.
  - ASCII `toLowerCase`.
  - `equalsIgnoreCase`.
  - `safeLower`.
  - `String.replace` (every occurrence).
- `Numerals` models decimal digit strings and zero padding.
- `Dates` models `LocalDate` and the three accepted date shapes:
  - `yyyy-MM-dd` is read strictly.
  - `dd-MM-yyyy` and `dd/MM/yyyy` are read with java.time's smart resolution, which clamps a
    day past month end to the last day.
  - It also models the three printed forms.
- `Report` models:
  - The rows.
  - Class `ReportRows`, the row list the engine updates in place. Its methods are
    `ForwardFill` and `AddLookupKeys`, each proved against a specification function.
  - The settlement-date scan.
- `Aggregate` models the column sums, the Final Net tail scan and the INWARD GST lookup. Each
  loop is a method proved against a specification function.
- `Tables` holds the `TEMPLATE` list and the `RULES` map verbatim.
- `Narration` models the four-step placeholder chain. It proves the chain against a reference
  reading of a pattern as literals and placeholders.
- `Voucher` models the build loop and its per-line branches. It has lemmas for what each
  template line holds.
- `Tally` models the Upload rows and the totals.
- `Engine` holds:
  - `GenerateVoucher`, proved equal to the specification function `Generate`.
  - The properties of a whole run.

Two behaviours of the code differ from what a reader would expect. Both are modelled as the
code has them.

- **Zero amounts.** A zero amount is dropped from its slot by `BigDecimal.equals(ZERO)`, which
  also compares scale. So an amount that went through `round2` is kept even when it is zero: it
  is `0.00` at scale 2. This holds for a cycle sum, the Arbitration Vedict sum, and a found Final
  Net or INWARD value. Only values that were never rounded become empty slots:
  - No Final Net Amt cell.
  - No INWARD GST row.
  - The Income values when the INWARD GST row is the first row.

  The Upload filter tests with `compareTo` instead, so no zero reaches the Upload sheet.
  (`Voucher.Slot`, `Voucher.EmptyCycleShowsZero`, `Tally.EntryFor`.)
- **Good Faith Acceptance Debit.** The Good Faith Acceptance Debit rule has no sum column and its side is
  "goodfaith". The build loop has no branch for that side, so the line always debits `0.00`
  (`Voucher.GoodFaithDebitLine`).

## Model

| member | source | states |
|---|---|---|
| Decimals.Add | src/main/java/com/example/etoll/EtollVoucherGenerator.java:270 | `add` is exact and its result carries the larger of the two scales |
| Decimals.AddAssociative | src/main/java/com/example/etoll/EtollVoucherGenerator.java:268-272 | the running `amt.add` sums are associative, value and scale alike |
| Decimals.AddCommutative | src/main/java/com/example/etoll/EtollVoucherGenerator.java:268-272 | `add` is commutative, value and scale alike |
| Decimals.AddZero | src/main/java/com/example/etoll/EtollVoucherGenerator.java:266 | `BigDecimal.ZERO`, where every sum starts, is a two-sided identity of `add` |
| Decimals.AddRespectsValue | src/main/java/com/example/etoll/EtollVoucherGenerator.java:297-298 | numerically equal operands give numerically equal sums, whatever their scales |
| Decimals.AddZeroValue | src/main/java/com/example/etoll/EtollVoucherGenerator.java:297-298 | adding a zero of any scale keeps the value |
| Decimals.SameValueAt | src/main/java/com/example/etoll/EtollVoucherGenerator.java:313 | `compareTo == 0` holds iff the unscaled values agree at any common scale fine enough for both |
| Decimals.SameValueTransitive | src/main/java/com/example/etoll/EtollVoucherGenerator.java:313 | numeric equality is transitive |
| Decimals.SameValueSymmetric | src/main/java/com/example/etoll/EtollVoucherGenerator.java:313 | numeric equality is symmetric |
| Decimals.Round2 | src/main/java/com/example/etoll/EtollVoucherGenerator.java:370-372 | `round2` always gives scale 2 |
| Decimals.Round2HalfUp | src/main/java/com/example/etoll/EtollVoucherGenerator.java:370-372 | `round2` lands within half a cent of its input, sends a tie away from zero, and keeps the sign |
| Decimals.Round2Exact | src/main/java/com/example/etoll/EtollVoucherGenerator.java:370-372 | a value with at most two decimals is not changed numerically |
| Decimals.Round2Idempotent | src/main/java/com/example/etoll/EtollVoucherGenerator.java:370-372 | rounding twice is rounding once |
| Decimals.Round2Negate | src/main/java/com/example/etoll/EtollVoucherGenerator.java:370-372 | HALF_UP is symmetric about zero |
| Decimals.ToDecimalOfCleanText | src/main/java/com/example/etoll/EtollVoucherGenerator.java:359-366 | trimmed, comma-free text that is not "nan" goes straight to the BigDecimal parser; text it rejects is zero |
| Decimals.ToDecimalReadsPlainText | src/main/java/com/example/etoll/EtollVoucherGenerator.java:359-368 | plain decimal text reads back as exactly the number it writes, scale included |
| Decimals.PlainTextParses | src/main/java/com/example/etoll/EtollVoucherGenerator.java:363 | the BigDecimal parser reads plain text back exactly |
| Decimals.ParsesWithFraction | src/main/java/com/example/etoll/EtollVoucherGenerator.java:363 | digits with a fraction parse to the digits' number, with the fraction's length as scale |
| Decimals.ParsesWhole | src/main/java/com/example/etoll/EtollVoucherGenerator.java:363 | a whole number parses at scale 0 |
| Decimals.ParsesNegated | src/main/java/com/example/etoll/EtollVoucherGenerator.java:363 | a leading minus negates the parse of the rest |
| Decimals.ToDecimalOfBlank | src/main/java/com/example/etoll/EtollVoucherGenerator.java:361-362 | empty or all-white-space text reads as `BigDecimal.ZERO` |
| Decimals.ToDecimalOfWord | src/main/java/com/example/etoll/EtollVoucherGenerator.java:362-366 | text starting with a letter ("nan" in any case, "N/A", "total") reads as `BigDecimal.ZERO` |
| Decimals.UnsignedNeedsDigit | src/main/java/com/example/etoll/EtollVoucherGenerator.java:363 | the parser rejects text whose first character is a letter |
| Text.TrimEnds | src/main/java/com/example/etoll/EtollVoucherGenerator.java:418 | trimmed text starts and ends with a non-trimmable character |
| Text.TrimOfTrimmed | src/main/java/com/example/etoll/EtollVoucherGenerator.java:418 | text with no trimmable end is its own trim |
| Text.TrimIdempotent | src/main/java/com/example/etoll/EtollVoucherGenerator.java:418 | trimming twice is trimming once |
| Text.TrimEmptyIffAllTrimmable | src/main/java/com/example/etoll/EtollVoucherGenerator.java:418-419 | a cell is blank iff every character is at most U+0020 |
| Text.ToLower | src/main/java/com/example/etoll/EtollVoucherGenerator.java:356 | lower-casing keeps the length, leaves no A-Z letter, turns each A-Z letter into its own lower-case partner and keeps every other character in place |
| Text.SafeLower | src/main/java/com/example/etoll/EtollVoucherGenerator.java:355-357 | a lookup key has no upper-case letter |
| Text.SafeLowerIdempotent | src/main/java/com/example/etoll/EtollVoucherGenerator.java:355-357 | normalising a key again changes nothing |
| Text.ReplaceDeletesChar | src/main/java/com/example/etoll/EtollVoucherGenerator.java:361 | `replace(",", "")` equals the text with its commas taken out and every other character kept in order; no comma is left |
| Text.ReplaceCharSplits | src/main/java/com/example/etoll/EtollVoucherGenerator.java:361 | replacing a one-character target in joined text replaces it in each piece |
| Text.ReplaceAbsentChar | src/main/java/com/example/etoll/EtollVoucherGenerator.java:361 | replacing a character that does not occur changes nothing |
| Text.ReplaceSkipsPlainPrefix | src/main/java/com/example/etoll/EtollVoucherGenerator.java:215-218 | text free of `{` passes unchanged through a replacement of a `{`-led placeholder |
| Text.ReplaceAtStart | src/main/java/com/example/etoll/EtollVoucherGenerator.java:215-218 | an occurrence at the front is replaced, and the scan resumes after it |
| Numerals.NatToStringValue | src/main/java/com/example/etoll/EtollVoucherGenerator.java:305 | `String.valueOf(year)` reads back as the year |
| Numerals.PadLeftValue | src/main/java/com/example/etoll/EtollVoucherGenerator.java:306-307 | `%02d` and the zero-padded date fields read back as their number |
| Dates.ParseSettlement | src/main/java/com/example/etoll/EtollVoucherGenerator.java:429-431 | any date the three shapes yield is a real calendar date |
| Dates.ParseSettlementReadsIsoText | src/main/java/com/example/etoll/EtollVoucherGenerator.java:429 | a date written `yyyy-MM-dd` is read back as itself |
| Dates.ParseSettlementReadsDayFirst | src/main/java/com/example/etoll/EtollVoucherGenerator.java:430-431 | a date written `dd-MM-yyyy` or `dd/MM/yyyy` is read back as itself |
| Dates.CompactText | src/main/java/com/example/etoll/EtollVoucherGenerator.java:166 | the `yyyyMMdd` label is eight digits |
| Dates.CompactTextFields | src/main/java/com/example/etoll/EtollVoucherGenerator.java:166 | the `yyyyMMdd` label reads back as year of era, month and day |
| Dates.ShortText | src/main/java/com/example/etoll/EtollVoucherGenerator.java:167 | the `ddMMyy` label is six digits |
| Dates.ShortTextFields | src/main/java/com/example/etoll/EtollVoucherGenerator.java:167 | the `ddMMyy` digits read back as day, month and two-digit year of era |
| Dates.DottedText | src/main/java/com/example/etoll/EtollVoucherGenerator.java:168 | the `dd.MM.yy` label is eight characters with dots at 2 and 5 |
| Dates.DottedTextFields | src/main/java/com/example/etoll/EtollVoucherGenerator.java:168 | the `dd.MM.yy` groups read back as day, month and two-digit year of era |
| Report.LastNonBlankIsNearest | src/main/java/com/example/etoll/EtollVoucherGenerator.java:413-422 | the nearest non-blank cell from below: none iff all cells are blank, else a non-blank row with only blanks after it |
| Report.FillFromAt | src/main/java/com/example/etoll/EtollVoucherGenerator.java:413-422 | row `i` of the fill gets the nearest non-blank value above it, or the carried-in value |
| Report.FilledFromNearestAbove | src/main/java/com/example/etoll/EtollVoucherGenerator.java:413-422 | a blank cell becomes the trimmed value of a non-blank cell above it with only blanks in between, or "" when all above are blank |
| Report.FilledBelowFirstValue | src/main/java/com/example/etoll/EtollVoucherGenerator.java:413-422 | below the first non-blank cell, no cell of the column is blank after the fill |
| Report.FillKeepsLastValue | src/main/java/com/example/etoll/EtollVoucherGenerator.java:413-422 | the fill keeps the nearest non-blank value above every row |
| Report.ForwardFillIdempotent | src/main/java/com/example/etoll/EtollVoucherGenerator.java:413-422 | filling a column twice is filling it once |
| Report.ForwardFillChangesOnlyBlanks | src/main/java/com/example/etoll/EtollVoucherGenerator.java:413-422 | non-blank rows are untouched and every other column is as it was; row count is kept |
| Report.ReportRows.constructor | src/main/java/com/example/etoll/EtollVoucherGenerator.java:154 | the row list starts as the rows read |
| Report.ReportRows.ForwardFill | src/main/java/com/example/etoll/EtollVoucherGenerator.java:413-422 | the in-place loop leaves the rows equal to the specified fill of the old rows |
| Report.WithLookupKeys | src/main/java/com/example/etoll/EtollVoucherGenerator.java:172-176 | exactly `TC`, `TT` and `CH` are added, other cells are kept, and the keys are normalised |
| Report.LookupKeysNormalise | src/main/java/com/example/etoll/EtollVoucherGenerator.java:172-176 | each key is the trimmed, lower-cased text of its source column ("" if missing) |
| Report.WithLookupKeysAll | src/main/java/com/example/etoll/EtollVoucherGenerator.java:172-176 | every row gets its keys and the rows stay in place |
| Report.ReportRows.AddLookupKeys | src/main/java/com/example/etoll/EtollVoucherGenerator.java:172-176 | the in-place loop leaves every row with its keys |
| Report.SettlementOf | src/main/java/com/example/etoll/EtollVoucherGenerator.java:424-436 | a date found in the report is a real calendar date |
| Report.FindSettlementDate | src/main/java/com/example/etoll/EtollVoucherGenerator.java:424-436 | the early-return scan yields the specified settlement date |
| Report.SettlementIsFirstParsed | src/main/java/com/example/etoll/EtollVoucherGenerator.java:424-436 | the date is that of the first row whose cell parses, every row above failing; none iff no row parses |
| Report.SettlementIgnoresOtherColumns | src/main/java/com/example/etoll/EtollVoucherGenerator.java:424-436 | the scan depends on the Settlement Date column alone |
| Aggregate.SumSelected | src/main/java/com/example/etoll/EtollVoucherGenerator.java:266-273 | the accumulating loop yields the sum over the selected rows |
| Aggregate.SumColumnAppend | src/main/java/com/example/etoll/EtollVoucherGenerator.java:268-272 | the sum over two stretches is the sum of their sums |
| Aggregate.SumColumnOfOneRow | src/main/java/com/example/etoll/EtollVoucherGenerator.java:269-270 | one row adds its cell when selected, nothing otherwise |
| Aggregate.SumColumnSkipsUnselected | src/main/java/com/example/etoll/EtollVoucherGenerator.java:269 | an unselected row can be removed without changing the sum |
| Aggregate.SumColumnSwap | src/main/java/com/example/etoll/EtollVoucherGenerator.java:268-272 | swapping neighbouring rows leaves the sum unchanged, so row order is irrelevant |
| Aggregate.SumColumnOfNoneSelected | src/main/java/com/example/etoll/EtollVoucherGenerator.java:266-273 | with no selected row the sum stays `BigDecimal.ZERO` |
| Aggregate.FinalNetTotal | src/main/java/com/example/etoll/EtollVoucherGenerator.java:179-186 | the reverse scan with `break` yields the specified Final Net amount, `ZERO` if none |
| Aggregate.FinalNetIsLastValue | src/main/java/com/example/etoll/EtollVoucherGenerator.java:179-186 | the amount is the rounded value of a non-blank cell with only blank cells below it, not a sum; none iff every cell is blank |
| Aggregate.FirstInwardFrom | src/main/java/com/example/etoll/EtollVoucherGenerator.java:191-193 | the first INWARD GST row at or after a position: it matches and none before it does |
| Aggregate.FirstInwardGst | src/main/java/com/example/etoll/EtollVoucherGenerator.java:191-193 | the first INWARD GST row; none iff no row matches |
| Aggregate.Fee | src/main/java/com/example/etoll/EtollVoucherGenerator.java:196-201 | a service-fee amount is rounded to scale 2 |
| Aggregate.InwardAmounts | src/main/java/com/example/etoll/EtollVoucherGenerator.java:190-204 | the first-match loop yields the specified GST amounts (matched row) and Income amounts (row above) |
| Aggregate.InwardFoundOrZero | src/main/java/com/example/etoll/EtollVoucherGenerator.java:190-204 | found amounts have scale 2; without a match all four, and from row 0 the Income pair, stay `ZERO` |
| Tables.RuleFor | src/main/java/com/example/etoll/EtollVoucherGenerator.java:226 | the lookup finds a rule iff the description is in the table |
| Tables.TemplateLayout | src/main/java/com/example/etoll/EtollVoucherGenerator.java:49-74 | nineteen entries, spacers exactly at 1, 5 and 14, every other entry described in the rule table |
| Tables.CycleRule | src/main/java/com/example/etoll/EtollVoucherGenerator.java:78-97 | lines 2-4, 6, 7 and 9-12 have summing rules; side "credit" exactly on lines 2-4 |
| Tables.CycleEntries | src/main/java/com/example/etoll/EtollVoucherGenerator.java:78-97 | those lines are real entries, not Arbitration Vedict, and the lookup returns their rule |
| Tables.RulesAreSummingOrSpecial | src/main/java/com/example/etoll/EtollVoucherGenerator.java:78-97 | a rule has cycles iff it has no special tag; tags are final, inward_dr or inward_cr |
| Tables.TemplateDescriptionsDistinct | src/main/java/com/example/etoll/EtollVoucherGenerator.java:49-74 | no two non-spacer entries share a description |
| Narration.CycleLabel | src/main/java/com/example/etoll/EtollVoucherGenerator.java:169 | the cycle label is "1C" |
| Narration.LabelsArePlain | src/main/java/com/example/etoll/EtollVoucherGenerator.java:166-169 | no label contains `{`, so substituted text is never taken for a placeholder |
| Narration.TokenBraced | src/main/java/com/example/etoll/EtollVoucherGenerator.java:215-218 | each placeholder is `{`, brace-free text, `}` |
| Narration.ReplaceSkipsBraced | src/main/java/com/example/etoll/EtollVoucherGenerator.java:215-218 | a different placeholder at the front is passed over whole |
| Narration.ReplaceAdvances | src/main/java/com/example/etoll/EtollVoucherGenerator.java:215-218 | each `replace` of the chain turns exactly its own placeholder into its label |
| Narration.NarrateFills | src/main/java/com/example/etoll/EtollVoucherGenerator.java:215-218 | with brace-free literals and labels, the chain yields the intended narration |
| Narration.FinalNarration | src/main/java/com/example/etoll/EtollVoucherGenerator.java:215-218 | the Final Net Amt narration is `NPCIR5<yyyyMMdd> <ddMMyy>_<cycle> ETCAC` |
| Narration.AcqNarration | src/main/java/com/example/etoll/EtollVoucherGenerator.java:215-218 | the other narrations are `Etoll acq <dd.MM.yy><tag>_<cycle>` |
| Narration.NarrateLiteral | src/main/java/com/example/etoll/EtollVoucherGenerator.java:215-218 | a pattern without placeholders, including the spacers' empty one, is its own narration |
| Voucher.Slot | src/main/java/com/example/etoll/EtollVoucherGenerator.java:230 | a slot is empty exactly for `BigDecimal.ZERO` at scale 0, and otherwise holds the amount |
| Voucher.VoucherOf | src/main/java/com/example/etoll/EtollVoucherGenerator.java:208-281 | the voucher has one line per template entry |
| Voucher.BuildLine | src/main/java/com/example/etoll/EtollVoucherGenerator.java:210-280 | one pass of the build loop yields the specified line for its entry |
| Voucher.BuildVoucher | src/main/java/com/example/etoll/EtollVoucherGenerator.java:208-281 | the appending loop yields the specified voucher, line for line in template order |
| Voucher.LinesFollowTemplate | src/main/java/com/example/etoll/EtollVoucherGenerator.java:210-218 | each line has its entry's account, its description and its substituted pattern |
| Voucher.NeverBothSlots | src/main/java/com/example/etoll/EtollVoucherGenerator.java:208-281 | no line has both a debit and a credit |
| Voucher.SpacersAreBlank | src/main/java/com/example/etoll/EtollVoucherGenerator.java:220-224 | spacer lines have no account, no amount and an empty narration |
| Voucher.SpecialLine | src/main/java/com/example/etoll/EtollVoucherGenerator.java:228-246 | final and inward_dr rules fill only the debit slot, inward_cr only the credit slot, with the matching amount |
| Voucher.OrdinaryLine | src/main/java/com/example/etoll/EtollVoucherGenerator.java:264-280 | without a special tag, the rounded sum goes to credit for side "credit", else to debit |
| Voucher.InwardSlots | src/main/java/com/example/etoll/EtollVoucherGenerator.java:234-246 | an INWARD amount that was found gives a slot; one that was not gives none |
| Voucher.FinalNetLine | src/main/java/com/example/etoll/EtollVoucherGenerator.java:229-232 | the Final Net Amt line debits the Final Net amount, is empty iff none was found, and never credits |
| Voucher.IncomeDebitLine | src/main/java/com/example/etoll/EtollVoucherGenerator.java:234-239 | Income Debit debits the row above the first INWARD GST row; empty from row 0 or with no match |
| Voucher.IncomeCreditLine | src/main/java/com/example/etoll/EtollVoucherGenerator.java:241-246 | Income Credit credits the row above the first INWARD GST row; empty from row 0 or with no match |
| Voucher.GstDebitLine | src/main/java/com/example/etoll/EtollVoucherGenerator.java:234-239 | GST Debit debits the first INWARD GST row's fee; empty only with no match |
| Voucher.GstCreditLine | src/main/java/com/example/etoll/EtollVoucherGenerator.java:241-246 | GST Credit credits the first INWARD GST row's fee; empty only with no match |
| Voucher.ArbitrationLine | src/main/java/com/example/etoll/EtollVoucherGenerator.java:248-262 | Arbitration Vedict debits the rounded SETAMTDR sum under the stricter filter, never its generic rule |
| Voucher.CycleLine | src/main/java/com/example/etoll/EtollVoucherGenerator.java:264-280 | each ordinary line holds the rounded sum of its rule's column over its cycles, in the rule's slot |
| Voucher.GoodFaithDebitLine | src/main/java/com/example/etoll/EtollVoucherGenerator.java:264-279 | Good Faith Acceptance Debit always debits 0.00 |
| Voucher.EmptyCycleShowsZero | src/main/java/com/example/etoll/EtollVoucherGenerator.java:274-279 | a cycle line that selects no row still holds an explicit 0.00 |
| Voucher.FinalNarrationLine | src/main/java/com/example/etoll/EtollVoucherGenerator.java:215-218 | line 0's narration is the date-stamped NPCIR5 text |
| Voucher.AcqNarrationLine | src/main/java/com/example/etoll/EtollVoucherGenerator.java:215-218 | every "Etoll acq" line's narration carries the dotted date, its tag and the cycle label |
| Voucher.LineAmountsScaled | src/main/java/com/example/etoll/EtollVoucherGenerator.java:229-279 | given rounded or `ZERO` inputs, every amount a line holds has two decimals |
| Voucher.VoucherAmountsScaled | src/main/java/com/example/etoll/EtollVoucherGenerator.java:208-281 | in the built voucher, no line has two slots and every amount has two decimals |
| Tally.EntryFor | src/main/java/com/example/etoll/EtollVoucherGenerator.java:290-291 | a line gives an Upload row iff a slot is numerically non-zero: "D" for the debit first, else "C" |
| Tally.BuildUpload | src/main/java/com/example/etoll/EtollVoucherGenerator.java:284-292 | the Upload loop yields the header and then the entries, in voucher order |
| Tally.EntriesAppend | src/main/java/com/example/etoll/EtollVoucherGenerator.java:287-292 | entries keep voucher order across stretches of lines |
| Tally.EntriesBounded | src/main/java/com/example/etoll/EtollVoucherGenerator.java:287-292 | at most one entry per line, each with a non-zero amount |
| Tally.Totals | src/main/java/com/example/etoll/EtollVoucherGenerator.java:295-301 | the tally loop yields the rounded sums of the present debits and credits |
| Tally.UploadMatchesTotals | src/main/java/com/example/etoll/EtollVoucherGenerator.java:287-299 | with no two-slot line, the "D" and "C" Upload amounts equal the debit and credit sums |
| Tally.TotalsAreExact | src/main/java/com/example/etoll/EtollVoucherGenerator.java:295-301 | when amounts have at most two decimals, rounding the totals loses nothing |
| Engine.TwoDigits | src/main/java/com/example/etoll/EtollVoucherGenerator.java:306-307 | `%02d` writes two digits that read back as the number |
| Engine.SettlementFor | src/main/java/com/example/etoll/EtollVoucherGenerator.java:161-162 | the settlement date, from the report or today, is a real calendar date |
| Engine.GenerateVoucher | src/main/java/com/example/etoll/EtollVoucherGenerator.java:156-333 | the run, with the row list updated in place, produces exactly the specified voucher, Upload rows, folder and result |
| Engine.OkExactlyWhenTallied | src/main/java/com/example/etoll/EtollVoucherGenerator.java:313-333 | "ok" iff the totals are numerically equal, else "error"; a message iff error; the ETOLL or ERROR file accordingly |
| Engine.UploadAgreesWithTotals | src/main/java/com/example/etoll/EtollVoucherGenerator.java:284-301 | the totals equal the unrounded sums, and the Upload "D" and "C" amounts add up to them |
| Engine.SettlementFromReportAsRead | src/main/java/com/example/etoll/EtollVoucherGenerator.java:157-162 | the forward fills do not change the settlement date |
| Engine.FolderOfSettlement | src/main/java/com/example/etoll/EtollVoucherGenerator.java:305-307 | the folder is root, year, two-digit month and two-digit day, each reading back as its number |
| Engine.PathParts | src/main/java/com/example/etoll/EtollVoucherGenerator.java:305-307 | the parts of a resolved path sit at their places between separators |
| Engine.FileNames | src/main/java/com/example/etoll/EtollVoucherGenerator.java:310-311 | the ok file is `ETOLL_ACQUIRING_VOUCHER_<ddMMyy>_N1.xlsx`; the error file is that name with `ERROR_` in front |
| Engine.UploadOfRun | src/main/java/com/example/etoll/EtollVoucherGenerator.java:284-292 | the Upload sheet is its header followed by the voucher's entries, at most one per line |

## Left out

- Workbook I/O is not modelled. This covers reading through Apache POI (`readSheetToMaps`,
  `cellToString`), the two sheet writers, `Files.createDirectories` and the output stream. These
  are foreign library calls. The model starts from the list of row maps, and it returns the two
  sheets' rows and the folder as data.
- `main`, `processFolder`, `setupLogging` and `log` are not modelled: they are directory
  scanning, a shared log file and timestamps.
- `FileWatcherProducer`, `DsrConsumer`, `KafkaConfig` and `AppMain` are not modelled: they are
  Kafka, file watching and thread start-up.
- `LocalDate.now()` is the parameter `today`.
- Engine.GenerateVoucher: requires `today` to have a year in 0..9999. Dates are modelled for
  four-digit years only, and every date read from the report has such a year.
- Decimals.ToDecimal: does not model the `Double.parseDouble` fallback. Text that
  `new BigDecimal` rejects reads as zero. The fallback would accept forms such as "1.5d" or hex
  floats, and text with white space left beside a removed comma: "5 ," becomes "5 ", which
  `new BigDecimal` rejects but `Double.parseDouble` reads as 5.0, so the code gives 5.00 where
  the model gives 0.00. It would also give a binary-rounded value. That is floating point.
  ("Infinity" and "NaN" are not among these: `BigDecimal.valueOf` rejects them and the code
  falls back to zero, as the model does.)
- Decimals.ParseUnsigned: accepts the ASCII digits 0-9 only. `new BigDecimal(String)` also
  accepts every other character `Character.isDigit` admits (Arabic-Indic, full-width and other
  Unicode digits), in the significand and in the exponent; the model reads such text as zero.
- Decimals.ParseUnsigned: an exponent that makes BigDecimal's scale negative ("1.5e2") is
  normalised to scale 0 with the same value. Only rounded values are ever compared with
  `equals`, so this is invisible to the engine. BigDecimal's 32-bit limit on the scale is not
  modelled.
- The `doubleValue()` conversions of the Voucher and Upload amount cells are not modelled: they
  are floating point. The model keeps the amounts as decimals.
- Text.ToLower: folds ASCII letters only. Locale-dependent and non-ASCII case folding of
  `toLowerCase` and `equalsIgnoreCase` is not modelled.
- Report.FindSettlementDate: the last resort `LocalDate.parse(v)` is treated as failing. It
  applies to text of none of the three shapes, and such text yields no date.
- Dates.ParseDayFirst: java.time's smart resolution is modelled concretely. The year of era
  must be at least 1, the day must be 1-31, and the day is clamped to the month's end. Other
  resolver details are not modelled.
- Engine.PathOf: `Path.resolve` is modelled as joining with "/". The `toString` of the path is
  that text.
