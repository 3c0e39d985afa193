# ShelfCash decision intelligence: a verified model

ShelfCash turns a finished procurement decision into text and records that it can defend. This project models, in
Dafny, the code that checks, compares, aggregates and persists those facts, and proves what that code promises of
every input and every run. The decision itself, the FEFO simulator and the optimizer, is not modelled.

`dafny verify dfyconfig.toml` checks everything.

## The parts

- **Numeric grounding guard.** `NumericAuthority` writes the number expressions out as scanners, `Display` and
  `DisplayContract` the printers, `NumberCheck`, `Narrative` and `Guard` the check of a whole answer.
  `NumericRoundTrip`, `MatchReading`, `DisplayProofs` and `MoneyDisplay` relate printers and parser: exactly when a
  printed number reads back as itself. `Endings`, `PrintedMentions` and `NegativeMentions` give all that the scanner
  finds in a sentence whose last number is a printed one, whatever words follow it, and `PrintedVerdicts` the verdict.
  `CostSentences`, `ShownNumbers` and `MeasureSentences` say exactly which displays of costs and of evidence records pass
  the check, alone and with their unit; `ContractFacts` gives the facts of a record with its display contract, and
  `CostRecords` and `RefusedDisplays` instances as the program builds them. `ProtectedOffsets` says when the check looks
  in the right place of the sentence, `ShiftedOffsets` has sentences where it does not.
- **What the guard decides, by the evidence's own fields.** `FieldAuthority` says what each field and each allowed
  mention backs, `CheckLaws` when a sentence passes, `RepairLaws` and `RenderLaws` which fact replaces a number and how
  it is written, `ScopeLaws` and `FragmentLaws` which evidence and which sentences there are, `GuardLaws` what becomes of
  a sentence and of the answer. `NumeralLaws`, `MentionWords` and `UnitWords` give the meaning of numerals and words,
  `DisplayLaws` the display of a record key by key; `OverviewSentences`, `ScopedSentences` and `RepairedSentences` are
  instances.
- **Strategy selection.** `StrategyOutcomes` and `StrategyReasons`: a proof verifies exactly for the least candidate by
  (cost, name), and reason codes are true of the costs. `OutcomeLaws` and `ReasonLaws` tell every outcome and reason by
  the findings and costs.
- **What-if comparison.** `WhatIfDiff` is a patch between two plans, `RaisingSort` a sort whose comparison may raise;
  `WhatIfLaws` ties totals and changes to the rows; `WhatIfNumbers` is the erasure check on its text.
- **Aggregations.** `DemandEvidence`, `RiskProjection` and `Comparator`: conservation, partition and bijection;
  `DemandLaws`, `RiskLaws` and `ComparatorLaws` say field by field what they report. `Grouping` holds what their group-by
  loops have in common.
- **Persistence.** `Ledger` gives every write and every unit of work as a step on tables; `Repositories` has the
  objects that perform those steps, `LedgerLaws` which writes go through and what they add.
- **Canonical forms.** `Provenance` (hash preimages) and `RuleMapper` (column mappings), with `ProvenanceLaws` and
  `RuleLaws` on what is written.
- **Fault isolation.** `Gateway` is the two-attempt request machine; `Synthesis`, `Routing` and `ShownText` are the
  per-ingredient texts with fallback; `GatewayLaws` and `SynthesisLaws` tell results and entries by replies and records.

`Text`, `Records`, `Decimals` and `Ordering` are shared. Classes and loops stand where the program has objects and
loops; each such method is proved equal to a function, and the theorems are about the functions.

Assumptions are explicit. Unicode tables are functions in a `Unicode` value; a theorem that needs facts about them
requires `Valid()` (ASCII and a few Vietnamese letters), `Matching()` (digits, punctuation and the lower-case letters of
the unit words match no other such character without regard to case, and folding or lowering neither makes nor loses a
digit or separator) or `LowersAscii`. Keyword checks of a sentence are functions in a `Policy`; theorems hold for all of
them. Provider replies, schema tables, metadata tables and wordings are parameters.

## What turned out to be otherwise

- From 1000 on, a number with decimals is printed as one number and scanned as two: "1.234,5" is found as 1234 and 5. A
  sentence that repeats such a display verbatim passes exactly when the evidence happens to back the decimals on their
  own (`ShownNumbers.ShownNumberPassesIff`, `RefusedDisplays.QuantityRefused`).
- With its unit a displayed quantity is a quantity to the check, and the fact made from the display is one in five
  evidence types only. In the others "0,13" passes and "0,13 kg" passes only if some quantity is exactly 0.13
  (`MeasureSentences.ShownMeasurePassesIff`, `MeasureSentences.CountMeasuredIff`, `RefusedDisplays.KilogramsRefused`).
  The pattern does not know "lít" and "ml", so with them nothing changes (`MeasureSentences.UnknownUnitPassesIff`).
- A displayed `total_purchase_cost` backs itself: it passes against its own record exactly when it is scanned as one
  number (`CostRecords.TotalCostPassesIff`), so "1.234,57 triệu đồng" never does (`CostRecords.BillionRefused`).
- A cost that the evidence has as a number only, such as a candidate's `purchase_cost`, must also be within 3% after an
  approximating word. Below 16,667 it can miss that; in the thousands branch it passes exactly when the nearest thousand
  is within 3% (`CostSentences.AcceptedIff`, `CostSentences.ThousandsAuthorisedIff`, `CostRecords.SmallAmountRefused`).
- Negative numbers below 1000 without decimals are not checked at all, because the hyphen shields them. From 1000 on the
  number after the first separator is checked in their place: "-1.234" is refused by the record that shows it, because
  234 is found, and a negative cost never passes (`NegativeMentions.NegativeMentionsAre`,
  `RefusedDisplays.NegativeRefused`, `CostSentences.AcceptedIff`).
- A match whose number mixes one point and one comma does not parse, so the guard never compares it with the evidence:
  "1.234,567" passes against any evidence (`MatchReading.MatchUnparsed`, `PrintedVerdicts.FabricatedPasses`).
- Approximating words and the hyphen after a year are looked up in the sentence at offsets of the protected text. The
  offset of a mention is its place if and only if everything blanked before it is one character long
  (`ProtectedOffsets.OffsetIsPlaceIff`). After a date a fabricated number passes against any evidence:
  "2024-01-05, 4321" (`ShiftedOffsets.YearMisplaced`); and a number can get a tolerance it does not have
  (`ShiftedOffsets.ToleranceMisplaced`).
- The display of the horizon is a count to the check, because a mention without a unit word is one outside five evidence
  types: "7 nguyên liệu" passes against the overview of a plan for 7 days (`OverviewSentences.OrderedPassesIff`).
- The list of quantity words decides nothing: a field with a unit is a quantity exactly when it is none of three names,
  and those contain no such word (`FieldAuthority.CountNamesPlain`).
- "day", "liter", "litre" and "ingredient" are taken into a match but normalised to no unit, so "3 day" is a number of
  no kind, which any fact of that value backs (`MentionWords.SingularsAreKindless`, `FieldAuthority.PlainIff`).
- `_vi(n, 0)` strips zeros of the integer itself: what it prints reads back exactly when n is not a multiple of ten,
  and 0 is printed as nothing (`MoneyDisplay.ViWholeRoundTrip`); 20 is printed as "2" (`MoneyDisplay.TwentyReadsAsTwo`). So
  a repair that renders 20,000 dong writes "2 nghìn đồng" (`RenderLaws.SmallMoneyReadsIff`, `RenderLaws.TwentyThousand`).
- The two selection checkers agree only when the persisted eligible names are already in lower case, because only one
  of them lowers those (`StrategyReasons.CheckersAgree`, `StrategyReasons.UpperCaseSeparates`).
- Comparing plans raises TypeError exactly when one ingredient occurs with a unit and without one, and comparing risks
  exactly when two differ only in one having no ingredient, since keys are sorted (`WhatIfDiff.KeySortRaisesIff`,
  `WhatIfDiff.UnitAgainstNone`, `WhatIfDiff.RiskSortRaisesIff`).
- Demand of one ingredient in several units is added up and aligned with orders in the unit of its first row by date
  (`DemandEvidence.MixedUnitsAligned`).
- In `finalize_mapping` both error branches are dead: an invalid field makes the constructor of the result raise
  first (`RuleMapper.FinalizedIff`).
- The canonical form forgets types: decimal 1 and the text "1" share a preimage (`Provenance.DecimalAndTextCollide`).
  That, dates, key order, volatile keys and trailing zeros are all it forgets (`Provenance.PreimageIffIndistinct`).
- An accepted ingredient text is shown as the provider wrote it, although the guard may have dropped or repaired a
  sentence of it. It shows only checked sentences exactly when the guard kept them all unchanged; a concrete answer
  with an unsupported number that is shown is given (`ShownText.ShownTextStandsIff`,
  `ShownText.DroppedSentenceIsShown`).
- Critical codes are built without an ingredient (app/decision_intelligence/semantic_evidence.py:542-590), and the risk
  facts that are bound to one have codes of severity "warning" (lines 222-229 and 517-530). So as the facts are built no
  ingredient is critical and the provider is asked about none (`Routing.NeverAsked`). The concrete answer above supposes
  a fact with a critical code that names an ingredient, which the projection and the synthesis both accept.

## Model

| member | source | states |
|---|---|---|
| NumericRoundTrip.GroupedScan | app/decision_intelligence/numeric_authority.py:105-110 | on a grouped number followed by anything that is no digit, the scanner's first run has one to three digits and its groups reach exactly the number's end, for every number |
| NumericRoundTrip.ParseGrouped | app/decision_intelligence/numeric_authority.py:188-200 | every grouped integer parses back to itself |
| NumericRoundTrip.UnparsedToken | app/decision_intelligence/numeric_authority.py:188-200 | a token fails to parse if and only if it mixes one point with one comma |
| NumeralLaws.SeparatedNumber | app/decision_intelligence/numeric_authority.py:188-200 | with one point or comma, at most three digits before it and exactly three after it read as one grouped integer, anything else as a decimal fraction |
| NumeralLaws.RepeatedSeparators | app/decision_intelligence/numeric_authority.py:188-200 | with a repeated separator all separators are dropped and the digits alone make the number |
| NumericRoundTrip.BareMatchUnparsed | app/decision_intelligence/numeric_authority.py:98-112 | a match without a unit word yields no mention if and only if its token mixes one point with one comma |
| MatchReading.MatchUnparsed | app/decision_intelligence/numeric_authority.py:98-112 | any match, with or without a unit word, yields no mention if and only if its token mixes one point with one comma |
| MatchReading.MentionNotNegative | app/decision_intelligence/numeric_authority.py:105-128 | a mention never reads as a negative number |
| MentionWords.WordReads | app/decision_intelligence/numeric_authority.py:105-128 | what a printed number followed by one word reads as, for every word of lower-case letters: money with its scale, a quantity, days or a count with its unit, or a number of no kind |
| MentionWords.SingularsAreKindless | app/decision_intelligence/numeric_authority.py:203-213 | "day", "liter", "litre" and "ingredient" give the number before them no kind |
| UnitWords.UnitsNormalised | app/decision_intelligence/numeric_authority.py:203-213 | each of the twelve unit words and the unit it stands for |
| PrintedVerdicts.FabricatedPasses | app/decision_intelligence/narrative.py:1013-1035 | "1.234,567" passes the number check against any evidence, none included |
| Endings.MarkTrails | app/decision_intelligence/numeric_authority.py:36 | the final mark of a sentence is no part of a match: the unit words of the displays are taken in and nothing more |
| Endings.UnknownUnits | app/decision_intelligence/numeric_authority.py:36 | a match in front of "lít" or "ml" takes no unit in |
| PrintedMentions.PrintedMentionsAre | app/decision_intelligence/numeric_authority.py:98-128 | everything the scanner finds in a sentence whose last number is a printed one, with any words after it that the pattern does not take in: the number with its unit word below 1000 or without decimals, otherwise the integer part and the decimals as two numbers |
| PrintedVerdicts.PrintedVerdict | app/decision_intelligence/narrative.py:1013-1035 | such a sentence passes if and only if each of these is authorised, the tolerance depending on the words before it |
| NegativeMentions.NegativeMentionsAre | app/decision_intelligence/numeric_authority.py:98-128 | of a negative number below 1000 the scanner finds the decimals, and nothing if there are none; of a larger one the number after the first separator, with its decimals below a million, otherwise both apart |
| NegativeMentions.ParseBelow | app/decision_intelligence/numeric_authority.py:188-200 | what follows the first separator parses as the number without its first block, however many blocks there are |
| PrintedVerdicts.NegativeVerdict | app/decision_intelligence/narrative.py:1013-1035 | a sentence with a negative number passes if and only if each of these is authorised |
| DisplayProofs.ViNumberWhole | app/decision_intelligence/display.py:24-29 | parsing a number printed without decimals gives back its half-up rounded magnitude, for every number |
| DisplayProofs.ViNumberHundredths | app/decision_intelligence/display.py:24-29 | parsing a number printed with two decimals gives the rounded magnitude below 1000 or when integral, otherwise its integer part |
| DisplayProofs.ViNumberRoundTrip | app/decision_intelligence/display.py:19-29 | the two-decimal round trip holds if and only if the rounded number is below 1000 or integral |
| Decimals.HalfUpNearest | app/decision_intelligence/display.py:19-21 | the rounded number of units is within half a unit, a tie going up |
| MoneyDisplay.CostDisplayRead | app/decision_intelligence/display.py:32-40 | every purchase cost display parses as money, with the value its own unit word scales |
| MoneyDisplay.DisplayError | app/decision_intelligence/display.py:32-40 | the displayed amount is within 500 below a million, within 5000 while the rounded million-count is below 1000, within a million and 5000 beyond |
| CostSentences.AcceptedIff | app/decision_intelligence/narrative.py:1013-1035 | against evidence whose only money is a cost, as a number, a sentence that repeats its display passes if and only if the display is scanned as one number (below 1000 million or whole millions) and equals the cost, or after an approximating word is within 3%; for a negative cost if and only if it is shown below 1000 |
| CostSentences.DisplayedPassesIff | app/decision_intelligence/narrative.py:1013-1035 | where the evidence also holds the display, if and only if it is scanned as one number, however far the rounding takes it |
| CostRecords.RecordSupports | app/decision_intelligence/numeric_authority.py:49-95 | a record with its display contract whose only money is a cost under another key than the total's is evidence of the former kind |
| CostRecords.CandidateSupports | app/decision_intelligence/semantic_evidence.py:617-634 | the record of a candidate strategy is such a record, whatever its counts |
| CostRecords.RecordDisplays | app/decision_intelligence/numeric_authority.py:49-95 | a record whose only money is its total cost is evidence of the latter kind |
| CostRecords.TotalCostPassesIff | app/decision_intelligence/display.py:88-93 | against such a record its displayed total cost passes if and only if it is scanned as one number |
| CostRecords.TotalCostPasses | app/decision_intelligence/display.py:88-93 | against any record its displayed total cost passes when it is scanned as one number |
| CostSentences.CostDisplayAuthorised | app/decision_intelligence/numeric_authority.py:131-144 | after an approximating word, from 50000/3 up, the display of a cost that the evidence has as a number passes if and only if it is scanned as one number |
| CostSentences.ThousandsAuthorisedIff | app/decision_intelligence/display.py:38-39 | after an approximating word, between 1000 and a million, such a display passes if and only if the nearest thousand is within 3% |
| CostRecords.SmallAmountRefused | app/decision_intelligence/display.py:38-39 | 1400 is displayed as one thousand; that never passes against a candidate's record of 1400, and always against the overview of a plan with that total cost |
| CostRecords.BillionRefused | app/decision_intelligence/display.py:36-37 | the overview of a plan of 1,234,570,000 allows "1.234,57 triệu đồng", and a sentence that repeats it never passes against that overview |
| MoneyDisplay.ViWholeRoundTrip | app/decision_intelligence/numeric_authority.py:220-222 | what the repair printer prints without decimals reads back as the rounded number if and only if that is not a multiple of ten |
| MoneyDisplay.TwentyReadsAsTwo | app/decision_intelligence/numeric_authority.py:220-222 | 20 is printed as "2" and read back as 2 |
| MoneyDisplay.ViHundredthsRead | app/decision_intelligence/numeric_authority.py:220-222 | with two decimals it reads back like the manager-facing printer, under half-even rounding |
| DisplayContract.AddNumericDisplayContract | app/decision_intelligence/display.py:51-110 | raises exactly for a boolean where a number is printed; otherwise returns the record the effects of all stages produce |
| DisplayContract.ContractIdempotent | app/decision_intelligence/display.py:51-110 | attaching the contract twice is attaching it once, whatever order the set of rate keys is visited in each time |
| DisplayLaws.DisplayIs | app/decision_intelligence/display.py:51-110 | every display value of the result, by the record's own fields: rates, total cost, daily range and utilisation replace what was shown, otherwise what was shown stays, otherwise numbers and dates are shown, and nothing else is |
| DisplayLaws.AllowedAre | app/decision_intelligence/display.py:51-110 | exactly what may be repeated: what was allowed before, each number with a comma or a point and without its sign, each date in full and as day and month, and each replaced display; never the empty text |
| DisplayLaws.RaisesIff | app/decision_intelligence/display.py:51-110 | it raises if and only if a rate, the total cost, the utilisation of a budget status or an end of a range that would be shown is true or false |
| DisplayLaws.OthersStay | app/decision_intelligence/display.py:51-110 | no other field of the record changes |
| DisplayContract.ShownOrKept | app/decision_intelligence/display.py:51-110 | every display value of the result is printed by one of the contract's stages, or was there before and no stage assigns its key: assignments overwrite |
| DisplayContract.ShownIsAllowed | app/decision_intelligence/display.py:51-110 | whatever a stage prints is an allowed mention of the record, and read as a whole it is a fact of the record |
| ShownNumbers.ShownKinds | app/decision_intelligence/display.py:51-110 | what a stage prints is a number with at most two decimals and a unit word, the day of a date, or the demand range |
| ShownNumbers.ShownNumberPassesIff | app/decision_intelligence/narrative.py:1013-1035 | a sentence that repeats a number the contract shows, with any trail after it that the pattern does not take in, passes against the record if and only if the number is below 1000 or integral, or the record also backs its decimals as a number of their own, and with a scaling money word its integer part |
| ShownNumbers.ShownQuantityPassesIff | app/decision_intelligence/narrative.py:1013-1035 | the same for a quantity field, in terms of its rounded value |
| ShownNumbers.ShownNegativePassesIff | app/decision_intelligence/narrative.py:1013-1035 | a repeated negative display passes if and only if, below 1000, it has no decimals or they are backed; from 1000 on, the number after its first separator is backed, with its decimals below a million, otherwise the decimals too |
| MeasureSentences.ShownMeasurePassesIff | app/decision_intelligence/narrative.py:1013-1035 | a repeated quantity with its unit passes if and only if a quantity of the record, in that unit or without one, has exactly the value read with the unit |
| MeasureSentences.LegacyMeasured | app/decision_intelligence/numeric_authority.py:78-94 | in five evidence types the displayed quantity is itself such a quantity, below 1000 or integral |
| MeasureSentences.CountMeasuredIff | app/decision_intelligence/numeric_authority.py:78-94 | in the other types only a numeric field of exactly that value under a quantity key is |
| MeasureSentences.UnknownUnitPassesIff | app/decision_intelligence/numeric_authority.py:36 | followed by "lít" or "ml" it passes if and only if it passes alone |
| ContractFacts.MoneyFactFrom | app/decision_intelligence/numeric_authority.py:49-95 | a money fact of a record with its contract is a number under a money key or the displayed total cost |
| RefusedDisplays.FactValue | app/decision_intelligence/numeric_authority.py:49-95 | every fact of a record without costs has the value of one of its numbers, that as a percentage, or what its display reads as |
| ShownNumbers.ShownDayPasses | app/decision_intelligence/narrative.py:1025 | a sentence that repeats a shown day of a date passes against any evidence |
| ShownNumbers.ShownRangePassesIff | app/decision_intelligence/narrative.py:1026-1028 | a sentence that repeats the shown demand range passes if and only if it does not speak of an average, when no other display value has an en dash |
| RefusedDisplays.QuantityRefused | app/decision_intelligence/display.py:54-69 | the record of a stress shortage of 1234.5 allows "1.234,5", and a sentence that repeats it never passes against the record |
| RefusedDisplays.KilogramsRefused | app/decision_intelligence/numeric_authority.py:78-94 | against the record of a stress shortage of 0.126 kg "0,13" passes and "0,13 kg" does not |
| RefusedDisplays.NegativeRefused | app/decision_intelligence/display.py:54-69 | the record of a gap of -1234 kg allows "-1.234", and a sentence that repeats it never passes against the record |
| ProtectedOffsets.ProtectedLetters | app/decision_intelligence/narrative.py:1020-1025 | blanking that remembers what each character stands for leaves the protected text |
| ProtectedOffsets.ProtectedTiles | app/decision_intelligence/narrative.py:1020-1025 | the remembered stretches tile the sentence: blanks, and characters as they are |
| ProtectedOffsets.OffsetIsPlaceIff | app/decision_intelligence/narrative.py:1029-1033 | the offset of a mention in the protected text is its place in the sentence if and only if everything blanked before it is one character long |
| ProtectedOffsets.LookupsOwn | app/decision_intelligence/narrative.py:1031-1033 | then the hyphen and the approximating words that are looked up are those at the mention's own place |
| ProtectedOffsets.VerdictIsOwn | app/decision_intelligence/narrative.py:1029-1035 | if that holds of all mentions, the verdict is that of the check at their own places |
| ProtectedOffsets.OwnYearStands | app/decision_intelligence/narrative.py:1031 | a year let through at its own place is four digits of the sentence with a hyphen after them |
| ShiftedOffsets.YearMisplaced | app/decision_intelligence/narrative.py:1031 | "2024-01-05, 4321" passes against any evidence, none included |
| ShiftedOffsets.ToleranceMisplaced | app/decision_intelligence/narrative.py:1033 | "gần 01/02 thì tăng 98%" passes against any evidence with an approximable 98.6 percent, although no approximating word stands in the sixteen characters before the number |
| ShiftedOffsets.RiskIsEvidence | app/decision_intelligence/numeric_authority.py:49-95 | the record of an ingredient with a fill rate of 0.986 is such evidence, and does not authorise 98 percent without an approximating word |
| NumberCheck.BuildNumericAuthority | app/decision_intelligence/numeric_authority.py:49-95 | the loops collect the registry; what is in it and what it backs, `FieldAuthority` says by key and text |
| NumberCheck.FactsComeFromItems | app/decision_intelligence/numeric_authority.py:49-95 | every fact of a registry is a fact of one of the evidence items and carries that item's id |
| CheckLaws.FactsIdentified | app/decision_intelligence/numeric_authority.py:52 | every fact carries the evidence id of the item it is made from, "legacy" where the item has none |
| FieldAuthority.FactSources | app/decision_intelligence/numeric_authority.py:49-95 | the registry has the facts of the fields and of the allowed mentions of its items, and no others |
| FieldAuthority.EffectiveIs | app/decision_intelligence/numeric_authority.py:53-55 | an item's values are those of its nested dictionary, and its own where that has none |
| FieldAuthority.FieldFactIs | app/decision_intelligence/numeric_authority.py:172-186 | which number of which kind a field states, by the text of its key: money keys, shares in percent or times a hundred, day keys, quantities with a unit, counts; only money and shares may be approximated |
| FieldAuthority.MentionFactIs | app/decision_intelligence/numeric_authority.py:78-94 | an allowed mention makes one fact when it parses, of the kind it reads as; without a kind it is a quantity in five evidence types and a count in the others |
| FieldAuthority.CountNamesPlain | app/decision_intelligence/numeric_authority.py:182-183 | the three excepted names contain no quantity word, so a key with a unit is a quantity exactly when it is none of the three, and the list of quantity words decides nothing |
| FieldAuthority.AuthorisedIff | app/decision_intelligence/numeric_authority.py:131-144 | a mention is authorised if and only if a numeric field or an allowed mention of some item fits it, told by key, type, unit and distance alone |
| FieldAuthority.ExactKindIff | app/decision_intelligence/numeric_authority.py:131-144 | n days, or a count of n, is authorised if and only if a field of that kind states exactly n or an allowed mention reads as n of it, whatever words come before |
| FieldAuthority.TolerantKindIff | app/decision_intelligence/numeric_authority.py:131-144 | money and percentages: if and only if a field states the number or a mention reads as it, or, after an approximating word, a field's number is within 3% or one point |
| FieldAuthority.QuantityIff | app/decision_intelligence/numeric_authority.py:131-144 | a quantity with a unit: if and only if a quantity field of that unit or of none, or an allowed mention, has exactly the number |
| FieldAuthority.PlainIff | app/decision_intelligence/numeric_authority.py:131-144 | a number without a kind is backed by any number of any kind |
| OverviewSentences.HorizonPassesIff | app/decision_intelligence/semantic_evidence.py:252-273 | a sentence that ends in "n ngày" passes against the overview of a plan if and only if n is its horizon_days |
| OverviewSentences.OrderedPassesIff | app/decision_intelligence/semantic_evidence.py:252-273 | one that ends in "n nguyên liệu" or "n sku" passes if and only if n is the number of ordered ingredients or the horizon |
| NumberCheck.ValidateNumbers | app/decision_intelligence/narrative.py:1013-1035 | the loops compute the verdict, with the offsets taken in the protected text and looked up in the sentence; `CheckLaws` says what it is for every sentence |
| CheckLaws.VerdictIs | app/decision_intelligence/narrative.py:1013-1035 | the verdict on every sentence and every evidence, without the registry: refused when a supplied range is repeated next to a word for average; otherwise it passes if and only if each mention left looks like a year or is backed by a field or an allowed mention of some item |
| CheckLaws.DateIff | app/decision_intelligence/narrative.py:1023-1025 | the dates left out of the check are exactly yyyy-mm-dd and one or two digits, a slash and one or two digits, apart from the word characters around them |
| CheckLaws.FirstDateBlanked | app/decision_intelligence/narrative.py:1025 | what stands before the first date stays, the date becomes one space, and blanking goes on behind it |
| CheckLaws.RangesAre | app/decision_intelligence/narrative.py:1015-1019 | the supplied ranges are exactly the display values that hold an en dash |
| NumberCheck.DigitsMatched | app/decision_intelligence/numeric_authority.py:98-102 | every digit of a text lies in a match or is directly preceded by a word character or a hyphen |
| NumberCheck.NumbersSound | app/decision_intelligence/narrative.py:1013-1035 | when the check passes, each digit left after ranges and dates are blanked is glued, in a match whose token mixes one point with one comma, in a year mention, or in a mention a fact of exactly this evidence authorises |
| NumberCheck.RepairNumericText | app/decision_intelligence/narrative.py:1049-1089 | the loops compute the repair; `RepairLaws` says exactly when there is one and by which fact, `RenderLaws` what is written |
| NumberCheck.RepairIsLocal | app/decision_intelligence/narrative.py:1049-1089 | a repair replaces one span: the sole strictly unauthorised mention, by the rendering of a registry fact of its own kind and, for a quantity, unit, whose value, kind and unit all remaining candidates share |
| RepairLaws.CandidatesAre | app/decision_intelligence/narrative.py:1064-1079 | the facts that may take a number's place: those of its kind and, for a quantity, of its unit or of none; where some of them have a key the sentence hints at, those only |
| RepairLaws.RepairedIff | app/decision_intelligence/narrative.py:1049-1089 | a sentence is repaired if and only if exactly one of its mentions is not strictly authorised and those facts are not empty and agree in value, kind and unit |
| RepairLaws.RepairedIs | app/decision_intelligence/narrative.py:1085-1089 | then that mention alone is replaced, by the rendering of the last such fact |
| RepairLaws.NothingSuits | app/decision_intelligence/narrative.py:1064-1066 | without a fact of its kind and unit a number is never replaced |
| RepairedSentences.PercentStays | app/decision_intelligence/narrative.py:1049-1089 | "60%" against an order of 12 kg is neither repaired nor accepted |
| RepairedSentences.QuantityCorrected | app/decision_intelligence/narrative.py:1049-1089 | "10 kg" against that order becomes "12 kg" |
| RenderLaws.RenderIs | app/decision_intelligence/numeric_authority.py:147-157 | a repair writes the fact's display where it has one, with the unit a quantity's display lacks, and renders the fact itself for money whose display names none |
| RenderLaws.PercentReads | app/decision_intelligence/numeric_authority.py:160-169 | a percentage that is rendered reads back as the percentage rounded to two decimals, below 1000 or in whole percents |
| RenderLaws.QuantityReads | app/decision_intelligence/numeric_authority.py:160-169 | so do quantities and plain numbers, with their unit |
| RenderLaws.MillionsRead | app/decision_intelligence/numeric_authority.py:160-163 | so do millions of money |
| RenderLaws.SmallMoneyReadsIff | app/decision_intelligence/numeric_authority.py:160-166 | a smaller amount reads back if and only if its count of thousands, or of dong, is not a multiple of ten; otherwise the zeros of the count are lost |
| NumberCheck.DisplaySelfAuthorised | app/decision_intelligence/numeric_authority.py:78-94 | a display mention supplied with an item, read as a whole, is strictly authorised by the facts of the item's displays if it parses; what the scanner finds in it is another matter, see ShownNumbers.ShownNumberPassesIff |
| Narrative.FragmentsKeepInk | app/decision_intelligence/narrative.py:907-909 | splitting an answer keeps all its characters other than white space, in order |
| FragmentLaws.FragmentsAre | app/decision_intelligence/narrative.py:907-909 | the sentences are exactly the stretches between line breaks and white space after a mark, stripped, without the blank ones |
| Narrative.ScopeFragment | app/decision_intelligence/narrative.py:934-1010 | the stages that reassign the candidates compute the scope; `ScopeLaws` says which items it has |
| Narrative.ScopeIsSublist | app/decision_intelligence/narrative.py:934-1010 | the evidence of a sentence is an ordered sublist of the selected evidence, not empty unless that is; all of it supports a number of the sentence or none of it does |
| ScopeLaws.ScopeIs | app/decision_intelligence/narrative.py:934-1010 | the scope of every sentence, by the fields of the evidence: what the wording for cause, type, risk, pair of strategies and named ingredients asks for, each unless nothing is left, and then the numbers |
| ScopeLaws.ScopeAllOrNone | app/decision_intelligence/narrative.py:934-1010 | for each of them, either every scoped item has what is asked for, such as one of the named ingredients, or no item left by the ones before has it |
| ScopedSentences.FlourOnly | app/decision_intelligence/narrative.py:991-1000 | "Bột mì cần 12 kg" against 10 kg of flour and 12 kg of sugar is scoped to flour alone |
| ScopedSentences.FlourRefused | app/decision_intelligence/narrative.py:991-1000 | so its number is refused, though sugar's evidence has it |
| Narrative.ValidateOrRepairFragment | app/decision_intelligence/narrative.py:911-932 | the outcome of one sentence: accepted, dropped for its numbers, or aborting the answer |
| Narrative.JudgeSound | app/decision_intelligence/narrative.py:911-932 | whatever is accepted passed the number check with its items: the sentence itself, or its one-span repair when it did not pass |
| GuardLaws.JudgedIs | app/decision_intelligence/narrative.py:911-932 | a sentence is accepted if and only if it is public text and it, or its repair where its numbers are unsupported, passes the number check and is grounded; it is dropped if and only if no repair cures its numbers; otherwise it refuses the answer with the first failing check's reason |
| Guard.GuardAnswer | app/decision_intelligence/narrative.py:844-905 | the accumulating loop over sentences computes the guard function: text, kept sentences, claims and citations, or the reason of the refusal |
| GuardLaws.GuardedIs | app/decision_intelligence/narrative.py:844-905 | for every draft the reason of the first failing check, or the kept sentences with one claim for each that has sources, in order, typed as the first record it was checked against |
| GuardLaws.WalkIs | app/decision_intelligence/narrative.py:877-902 | the kept sentences are exactly the accepted ones, and the first sentence that must refuse the answer does |
| GuardLaws.ItemsForIs | app/decision_intelligence/narrative.py:878 | a sentence is checked against the evidence of the last claim of the retired shape with its text, and against its scope without one |
| GuardLaws.ClaimItemsAre | app/decision_intelligence/narrative.py:864-873 | a claim of the retired shape needs ids of selected records, one of them of the claimed type; otherwise the answer is refused for the first thing that is wrong |
| GuardLaws.LegacyScopesAre | app/decision_intelligence/narrative.py:861-875 | either all such claims stand, or the first that does not refuses the answer |
| GuardLaws.SourceIdsAre | app/decision_intelligence/narrative.py:892 | an item answers to the ids of its list of sources, or to its own id without such a list |
| Guard.GuardSound | app/decision_intelligence/narrative.py:844-905 | if the guard answers, the kept sentences are fragments of the draft in order, at least one, each grounded in selected evidence, and every other fragment was dropped for its numbers alone |
| Guard.KeptDigitsStand | app/decision_intelligence/narrative.py:844-905 | every digit of a kept sentence stands for one of the four reasons against the evidence that sentence is kept with |
| Guard.ClaimCitesItsEvidence | app/decision_intelligence/narrative.py:892-899 | the claim of a kept sentence cites exactly the sorted sources of its evidence, and there is none exactly when there are no sources |
| Guard.CitationsAreSources | app/decision_intelligence/narrative.py:900-905 | the citations are, in order, the evidence items that some kept sentence was checked against |
| WhatIfNumbers.ValidateNumbers | app/decision_intelligence/what_if_evidence.py:393-401 | the erasing loop accepts if and only if no number is found in what remains |
| WhatIfNumbers.NoNumberIff | app/decision_intelligence/what_if_evidence.py:393-401 | no number is found if and only if every run of digits is directly preceded by a word character |
| WhatIfNumbers.EraseAllLetters | app/decision_intelligence/what_if_evidence.py:393-401 | erasing while tracking where characters come from leaves the same text |
| WhatIfNumbers.ErasureSound | app/decision_intelligence/what_if_evidence.py:393-401 | if the text is accepted, each of its digits was erased within an allowed mention at that mention's longest-first step or survives in a run directly preceded by a word character |
| StrategyOutcomes.ProjectStrategyOutcomes | app/decision_intelligence/strategy_outcomes.py:27-56 | the loop over sorted candidates with its branch cascade computes the outcomes, or raises; `OutcomeLaws` says what they are |
| StrategyOutcomes.VerifiedIsArgmin | app/decision_intelligence/strategy_outcomes.py:59-65 | a proof verifies if and only if rule, name and eligible list match and the selected name is the least eligible candidate by (cost, name) |
| StrategyOutcomes.ProjectionRaisesIff | app/decision_intelligence/strategy_outcomes.py:27-76 | the projection raises if and only if the proof verifies and a feasible, technically sound candidate has no numeric cost |
| StrategyOutcomes.OutcomesAreAll | app/decision_intelligence/strategy_outcomes.py:35-56 | one outcome per candidate, in name order, each the one of its own candidate |
| OutcomeLaws.ProjectionIs | app/decision_intelligence/strategy_outcomes.py:27-56 | every outcome by the candidate's findings and feasibility alone, for verified and unverified packages: a technical failure if and only if an error code is one of the named or prefixed ones, rejected if and only if otherwise infeasible with an error code, not evaluated if and only if infeasible with none; the reasons are exactly the sorted distinct codes |
| OutcomeLaws.FindingsDecide | app/decision_intelligence/strategy_outcomes.py:35-48 | which findings make a technical failure and which a rejection |
| OutcomeLaws.OutcomeIs | app/decision_intelligence/strategy_outcomes.py:35-56 | the same of one candidate |
| OutcomeLaws.OverBudgetRejected | app/decision_intelligence/strategy_outcomes.py:47-48 | an infeasible candidate over its budget is rejected for that |
| StrategyOutcomes.ReasonsAreTrue | app/decision_intelligence/strategy_outcomes.py:68-76 | under a verified proof, "higher cost" is given exactly for a larger cost and "tiebreak" exactly for an equal cost, and then the name is larger |
| StrategyOutcomes.ExactlyOneSelected | app/decision_intelligence/strategy_outcomes.py:45-55 | under a verified proof exactly one candidate is selected, none if the winner carries a technical code |
| StrategyOutcomes.OrderIrrelevant | app/decision_intelligence/strategy_outcomes.py:27-56 | the same records under distinct names in another order have the same outcomes |
| StrategyReasons.ProjectSelectionReasons | app/decision_intelligence/strategy_reason_evidence.py:28-49 | the loop over outcomes computes the selection reasons, and raises exactly when the outcomes do |
| ReasonLaws.SelectionReasonsAre | app/decision_intelligence/strategy_reason_evidence.py:28-49 | exactly the selected and feasible strategies get a reason, in order, each the one its outcome and the costs call for |
| StrategyReasons.ReasonCostsAreTrue | app/decision_intelligence/strategy_reason_evidence.py:38-47 | in a verified package a dearer alternative carries the positive difference to the winner's cost, a tie-broken one the winner's own cost and a later name, the selected one the least cost |
| StrategyReasons.UnverifiedGivesNoReason | app/decision_intelligence/strategy_reason_evidence.py:38-49 | without a verified proof the only reason given is that it is unavailable |
| StrategyReasons.CheckersAgree | app/decision_intelligence/semantic_evidence.py:753-774 | each given its own rule, the outcome checker accepts if and only if the semantic checker does and the persisted eligible names are already in lower case |
| StrategyReasons.UpperCaseSeparates | app/decision_intelligence/semantic_evidence.py:753-774 | a persisted list that says "Balanced" passes the semantic checker and not the outcome checker |
| StrategyReasons.NoPackagePassesBoth | app/decision_intelligence/semantic_evidence.py:753-774 | no package passes both checkers as they are, since their rule names differ |
| WhatIfDiff.Grouped | app/decision_intelligence/what_if_evidence.py:141-147 | the dictionary filled by the loop holds exactly the rows of each (ingredient, unit), in order |
| WhatIfDiff.CompareOrders | app/decision_intelligence/what_if_evidence.py:141-172 | the grouping loops, a sort whose comparison may raise and the loop over sorted keys compute the changes, or raise; `WhatIfLaws` says what totals and changes are by the rows |
| WhatIfDiff.KeySortRaisesIff | app/decision_intelligence/what_if_evidence.py:150 | sorting the keys raises if and only if one ingredient occurs with a unit and without one, in whatever order the set lists its keys; otherwise the result is their increasing enumeration |
| WhatIfDiff.AnswersDoNotDecide | app/decision_intelligence/what_if_evidence.py:150 | every comparison that does not raise has the answer of the order with None first and of the order with None last, and these two put clashing keys in opposite order |
| WhatIfDiff.UnitAgainstNone | app/decision_intelligence/what_if_evidence.py:141-172 | one line in kg against one line of the same ingredient without a unit: the comparison raises |
| RaisingSort.SortRaisesIff | app/decision_intelligence/what_if_evidence.py:150 | sorting with a comparison that raises on clashing elements raises if and only if two elements clash, and otherwise sorts |
| WhatIfDiff.ChangesPatch | app/decision_intelligence/what_if_evidence.py:141-172 | applying the changes from a to b to a's totals gives exactly b's totals |
| WhatIfLaws.TotalsAddUp | app/decision_intelligence/what_if_evidence.py:141-157 | the totals of all keys add up to the quantities of all rows |
| WhatIfLaws.TotalsAppend | app/decision_intelligence/what_if_evidence.py:141-157 | one more row adds its quantity to the total of its own key and changes no other |
| WhatIfLaws.TotalsSingle | app/decision_intelligence/what_if_evidence.py:141-157 | the total of a single row is its quantity |
| WhatIfLaws.ChangesAre | app/decision_intelligence/what_if_evidence.py:150-172 | a key has a change if and only if its totals differ; kind, quantities and delta are what the rows say |
| WhatIfLaws.TwoLinesAgainstOne | app/decision_intelligence/what_if_evidence.py:141-172 | lines of 3 kg and 2 kg against one of 3 kg: decreased from 5 to 3, delta -2 |
| WhatIfDiff.ChangesSortedAndMinimal | app/decision_intelligence/what_if_evidence.py:141-172 | each key at most once, in increasing order; no changes if and only if the totals agree |
| WhatIfDiff.SwapMirrors | app/decision_intelligence/what_if_evidence.py:141-172 | swapping the plans swaps added with removed and increased with decreased, negates deltas, and raises in the same cases |
| WhatIfDiff.RiskSortRaisesIff | app/decision_intelligence/what_if_evidence.py:182-184 | sorting changed risks raises if and only if two differ only in one having no ingredient |
| WhatIfDiff.RiskChangesPatch | app/decision_intelligence/what_if_evidence.py:175-184 | baseline risks minus the resolved plus the new ones are the hypothetical risks, and no risk is both |
| WhatIfLaws.RiskChangesAre | app/decision_intelligence/what_if_evidence.py:175-184 | the changed risks are exactly the ones on the one side only, in order; it raises if and only if two of them differ only in one having no ingredient |
| DemandEvidence.Peak | app/decision_intelligence/semantic_evidence.py:290 | returns a row that no other row comes after by (p50, date) |
| DemandEvidence.Summarise | app/decision_intelligence/semantic_evidence.py:280-304 | skips an ingredient if and only if none of its rows has a p50; otherwise period, totals, extremes, peak and sources are those of its rows |
| DemandEvidence.DemandFacts | app/decision_intelligence/semantic_evidence.py:275-322 | one summary per ingredient with a p50, by increasing id, each about all its rows |
| DemandLaws.SummaryIs | app/decision_intelligence/semantic_evidence.py:280-304 | every field of a summary by the ingredient's rows |
| DemandLaws.SummariesAre | app/decision_intelligence/semantic_evidence.py:275-322 | one summary for exactly the ingredients with a p50, in the order of ids |
| DemandEvidence.DemandConserved | app/decision_intelligence/semantic_evidence.py:275-322 | the p50 totals of the facts add up to all p50 values present in the rows |
| DemandEvidence.SummaryCoherent | app/decision_intelligence/semantic_evidence.py:286-304 | peak equals daily maximum, on a date inside the period; the total lies between count times minimum and count times maximum; ordered daily quantiles give ordered totals |
| DemandEvidence.AlignmentFacts | app/decision_intelligence/semantic_evidence.py:355-408 | the loop over ordered ingredients computes the alignments, skipping those without summary or with other units |
| DemandLaws.AlignmentsAre | app/decision_intelligence/semantic_evidence.py:355-408 | an ingredient is aligned if and only if it is ordered, has a p50 and all its lines have the unit of its earliest row; the direction follows the sign of the gap |
| DemandEvidence.GapIsOrderMinusDemand | app/decision_intelligence/semantic_evidence.py:365-395 | each gap is the ingredient's ordered quantity minus its p50 demand over all its lines and rows; the lines are in the reported unit, the rows if and only if they share one; the relative gap is absent exactly for zero demand |
| DemandEvidence.MixedUnitsAligned | app/decision_intelligence/semantic_evidence.py:291-297 | a kilogram and a gram of demand against two ordered kilograms give a gap of 0 kg |
| RiskProjection.ProjectRiskDetails | app/decision_intelligence/risk_metadata.py:66-124 | the grouping and appending loops compute the sorted details |
| RiskLaws.CardIff | app/decision_intelligence/risk_metadata.py:71-99 | two facts share a detail if and only if code, public class, scope, ingredient, supplier and strategy agree |
| RiskLaws.DetailsStand | app/decision_intelligence/risk_metadata.py:66-124 | every fact that is shown has a detail that stands for it, with the table's texts and its own entities and scope, and every detail stands for one |
| RiskLaws.DetailsInOrder | app/decision_intelligence/risk_metadata.py:117-124 | details are ordered by class, severity, category, code and ingredient |
| RiskProjection.DetailsPartition | app/decision_intelligence/risk_metadata.py:66-124 | one detail per distinct key, in the stated order, with source counts adding up to the risk, limitation and unknown facts |
| RiskProjection.EvidenceIsUnion | app/decision_intelligence/risk_metadata.py:101-115 | a detail's evidence ids are the sorted, repetition-free union of what the facts of its key cite, and its count is positive exactly for keys that occur |
| RiskProjection.OrderIrrelevant | app/decision_intelligence/risk_metadata.py:66-124 | the same facts in another order give the same multiset of details |
| RiskProjection.ShownAsUnknownIff | app/decision_intelligence/risk_metadata.py:92-98 | a risk or limitation is shown as unknown if and only if the table lacks its code with that classification |
| Comparator.CompareForecasts | app/forecasting/comparator.py:50-94 | the loop over common keys computes the report |
| ComparatorLaws.ReportIs | app/forecasting/comparator.py:50-94 | missing, extra and repeated keys, disordered and non-finite predictions, each list exactly what the two sides hold |
| ComparatorLaws.DifferencesCompare | app/forecasting/comparator.py:55-71 | every difference compares the last predictions under its key, quantile by quantile |
| ComparatorLaws.MeanIs | app/forecasting/comparator.py:91-93 | a mean is the sum over the number, infinite with an infinite drift, NaN with a NaN |
| Comparator.CompatibleIff | app/forecasting/comparator.py:72-81 | compatible if and only if both sides are duplicate-free, finite and quantile-ordered and have equal key sets |
| Comparator.OneDifferencePerKey | app/forecasting/comparator.py:55-71 | one difference per common key, in key order; for compatible forecasts both lists and the differences have equal length |
| Comparator.RelativeIsRatio | app/forecasting/comparator.py:21-24 | a relative drift is missing if and only if production is zero and the shadow is not; otherwise times the production value it is the absolute drift |
| Comparator.ViolationsAre | app/forecasting/comparator.py:27-32 | the reported violations are exactly the predictions whose quantiles are not ordered |
| Comparator.SwapMirrors | app/forecasting/comparator.py:50-94 | swapping sides swaps missing, extra and duplicate keys and keeps compatibility, absolute drifts and means |
| Comparator.MeanDriftZeroIff | app/forecasting/comparator.py:91-93 | a mean exists if and only if a key is common, and is zero if and only if all paired values are finite and equal |
| Ledger.StepConsistent | app/repositories/business.py:43-173 | every write keeps each lot's ingredient and supplier, each movement's lot and all other references within their store |
| LedgerLaws.WriteAcceptedIff | app/repositories/business.py:43-212 | a write goes through if and only if it refers to rows of its own store, is readable and its key is free; otherwise which error it raises |
| LedgerLaws.WriteAdds | app/repositories/business.py:43-212 | an accepted write changes its own table, by its own row, and nothing else |
| LedgerLaws.RunsStaySeparate | app/db/unit_of_work.py:25-56 | from the empty database no run leaves a row, pending or committed, that refers outside its store |
| Ledger.MovementChangesOneBalance | app/repositories/business.py:134-146 | a recorded movement changes the balance of its own lot by its delta and nothing else |
| Ledger.BalancesConserve | app/repositories/business.py:142-146 | all balances add up to all deltas |
| Ledger.WritesStayInTheirStore | app/repositories/business.py:24-212 | a write of one store leaves everything another store sees as it was |
| Ledger.RunsStayConsistent | app/db/unit_of_work.py:25-56 | references stay within their stores in every state of every run of writes, commits, rollbacks and exits |
| Ledger.RunsConserve | app/repositories/business.py:134-146 | from an empty database, in every state of every run, balances add up to deltas, pending and committed |
| Ledger.RunIsReplay | app/db/unit_of_work.py:36-44 | the database is the entry state with exactly the committed writes replayed in order; the transaction sees the pending ones too |
| Ledger.UnitEndsAtLastCommit | app/db/unit_of_work.py:46-56 | however a unit of work is left, the database is as seen at the last commit, or as on entry, and nothing stays pending |
| Repositories.CatalogRepository.AddIngredient | app/repositories/business.py:43-48 | performs the catalog write, or raises and changes nothing |
| Repositories.CatalogRepository.GetOrCreateIngredient | app/repositories/business.py:50-51 | changes nothing when the store has the name, adds the ingredient otherwise |
| Repositories.CatalogRepository.AddProduct | app/repositories/business.py:77-81 | performs the catalog write, or raises and changes nothing |
| Repositories.CatalogRepository.AddSupplier | app/repositories/business.py:92-96 | performs the catalog write, or raises and changes nothing |
| Repositories.SupplierTermRepository.Add | app/repositories/business.py:107-114 | adds the term if supplier and ingredient are in the store, or raises and changes nothing |
| Repositories.InventoryRepository.AddLot | app/repositories/business.py:125-132 | adds the lot if its ingredient and supplier are in the store, or raises and changes nothing |
| Repositories.InventoryRepository.AddMovement | app/repositories/business.py:134-140 | adds the movement if its lot is in the store, or raises and changes nothing |
| Repositories.InventoryRepository.CalculateLotBalance | app/repositories/business.py:142-147 | the sum of the lot's deltas, or not found |
| Repositories.InventoryRepository.ListLots | app/repositories/business.py:149-150 | exactly the lots of the store, in order |
| Repositories.HistoryRepository.AddSales | app/repositories/business.py:160-163 | adds the sale if its product is in the store, or raises and changes nothing |
| Repositories.HistoryRepository.AddUsage | app/repositories/business.py:165-168 | adds the usage if its ingredient is in the store, or raises and changes nothing |
| Repositories.HistoryRepository.AddReceipt | app/repositories/business.py:170-173 | adds the receipt if its ingredient and supplier are in the store, or raises and changes nothing |
| Repositories.StoreConfigurationRepository.UpsertSettings | app/repositories/business.py:192-200 | inserts settings, or overwrites four fields and increments the version |
| Repositories.StoreConfigurationRepository.UpsertCalendar | app/repositories/business.py:205-212 | inserts or overwrites the day's features |
| Repositories.UnitOfWork.Enter | app/db/unit_of_work.py:25-34 | opens a fresh session on the database; the committed flag is not reset |
| Repositories.UnitOfWork.Commit | app/db/unit_of_work.py:36-40 | performs the commit step and sets the flag, or reports that the unit was not entered and changes nothing |
| Repositories.UnitOfWork.Rollback | app/db/unit_of_work.py:42-44 | performs the rollback step when entered |
| Repositories.UnitOfWork.Exit | app/db/unit_of_work.py:46-56 | rolls back on an exception or without a commit, and closes |
| Provenance.PaddingNormalised | app/core/provenance.py:9-10 | writing a decimal with more trailing zeros does not change its normal form |
| Provenance.StableIsStable | app/core/provenance.py:8-17 | the canonical form has sorted distinct keys, no volatile ones, no decimals and no dates, at any depth |
| Provenance.StableIdempotent | app/core/provenance.py:8-17 | canonicalising twice is canonicalising once |
| Provenance.AlikeSameStable | app/core/provenance.py:8-17 | key order, volatile keys and trailing zeros of decimals do not reach the canonical form, at any depth |
| Provenance.JsonSplit | app/core/provenance.py:20-22 | the compact sorted JSON text is a prefix code on canonical trees: text and what follows determine the tree |
| Provenance.PreimageIff | app/core/provenance.py:20-22 | two inputs are hashed from the same text if and only if their canonical trees are equal |
| Provenance.AlikeSamePreimage | app/core/provenance.py:20-22 | inputs alike up to key order, volatile keys and trailing zeros are hashed from the same text |
| Provenance.DecimalTextIff | app/core/provenance.py:9-10 | two decimals are written alike if and only if one is the other with more trailing zeros |
| Provenance.PreimageIffIndistinct | app/core/provenance.py:8-22 | two inputs are hashed from the same text if and only if they differ at most in key order, volatile keys, trailing zeros and whether a leaf is a text, a decimal printed as it or a date written as it, at any depth |
| Provenance.PlainPreimageIff | app/core/provenance.py:8-22 | without decimals and dates, if and only if they differ at most in key order and volatile keys |
| Provenance.DecimalAndTextCollide | app/core/provenance.py:8-22 | decimal 1, decimal 1.0 and the text "1" are hashed from the same text |
| ProvenanceLaws.JsonIs | app/core/provenance.py:20-22 | the hashed text of lists and dictionaries: items and members joined by commas alone, keys and values by a colon |
| ProvenanceLaws.PointText | app/core/provenance.py:9-10 | a decimal is written as its integer part, a point and its decimals |
| Provenance.ExternalIdentityIff | app/core/provenance.py:46-53 | with non-blank external ids, identities are equal if and only if store, trimmed source and trimmed id are |
| ProvenanceLaws.BusinessIdentityIff | app/core/provenance.py:46-58 | without an external id two receipts have one identity if and only if store, ingredient, unit and trimmed batch code are equal and dates, supplier, quantity and unit cost are indistinct |
| RuleMapper.ValidateMapping | app/core/rule_mapper.py:164-188 | the checks and the duplicate-collecting loop compute warnings and errors |
| RuleMapper.NoErrorsIff | app/core/rule_mapper.py:164-174 | no errors if and only if the sheet type is known and every entry has a known column and a schema field |
| RuleMapper.NoDuplicatesIff | app/core/rule_mapper.py:175-181 | no duplicate report if and only if no two columns share a field |
| RuleLaws.ErrorsAre | app/core/rule_mapper.py:164-174 | the errors word by word: the unknown sheet type alone, or the sorted unknown columns and then the sorted fields outside the schema |
| RuleLaws.WarningsAre | app/core/rule_mapper.py:175-188 | the warnings word by word: shared fields, the sorted open core fields, a purchase history's missing date |
| RuleLaws.DuplicatesAre | app/core/rule_mapper.py:175-179 | the report of shared fields has exactly the fields with two or more columns, each with those columns in order |
| RuleLaws.StructuralIff | app/core/rule_mapper.py:155-193 | which messages are regenerated: the five phrases they start with |
| RuleMapper.WarningsAreStructural | app/core/rule_mapper.py:180-193 | every warning of the validation is structural; one says that core fields are missing if and only if one is, or a purchase history has no date |
| RuleMapper.SemanticNeverMissing | app/core/rule_mapper.py:191-212 | a warning that says core fields are missing is structural, although the one test strips and the other does not |
| RuleMapper.DomainIsColumns | app/core/rule_mapper.py:203 | the final mapping has exactly the profile's columns, each once, with the suggested field |
| RuleMapper.WarningsTwice | app/core/rule_mapper.py:207-210 | structural warnings are dropped and regenerated, semantic ones kept once each in order |
| RuleMapper.FinalizeIdempotent | app/core/rule_mapper.py:196-223 | finalising a final mapping changes nothing; a manual confirmation also survives an automatic run with any threshold up to 1 |
| RuleMapper.FinalizedIff | app/core/rule_mapper.py:196-223 | a result is constructed if and only if the columns' fields are in the schema, and then its errors are empty |
| RuleMapper.NoReviewIff | app/core/rule_mapper.py:206-221 | no review is required if and only if all core fields are mapped, a purchase history has a purchase or receipt date, and confidence suffices or a person confirmed |
| RuleLaws.FinalIs | app/core/rule_mapper.py:196-223 | what finalising keeps and sets, and that its warnings are the kept semantic and the regenerated ones |
| Gateway.GenerateJson | app/llm/openrouter_qwen.py:436-506 | two POSTs exactly after a retryable first outcome, else one; the response is there after the loop; the result and the context are those of the deciding outcome |
| Gateway.ReadReply | app/llm/openrouter_qwen.py:508-633 | an object exactly for a reply below 400 with content that is not blank, not token-limited and parses to an object; otherwise one error of the stage the reply determines |
| GatewayLaws.AnswersIff | app/llm/openrouter_qwen.py:508-633 | a reply answers if and only if it is below 400, not cut short, and its content, without fences, parses to an object |
| GatewayLaws.TriedAgainIff | app/llm/openrouter_qwen.py:478-503 | which outcomes are tried again |
| GatewayLaws.StatusIs | app/llm/openrouter_qwen.py:523-532 | the status that is reported for each status of the provider |
| GatewayLaws.StageIs | app/llm/openrouter_qwen.py:533-540 | the stage of an error reply, by its status and the words of its text |
| GatewayLaws.ResultComes | app/llm/openrouter_qwen.py:436-633 | what the gateway returns is what the deciding outcome comes to, told by the reply alone |
| Gateway.OneConclusion | app/llm/openrouter_qwen.py:436-633 | the deciding outcome admits only one result |
| Gateway.EmptyOnlyAfterRetry | app/llm/openrouter_qwen.py:486-503 | errors about missing content or a bad envelope only come after a second attempt |
| Gateway.FencesRemoved | app/llm/openrouter_qwen.py:601-604 | a body in Markdown fences is read as that body, whatever it contains |
| GatewayLaws.UnfencedIs | app/llm/openrouter_qwen.py:601-604 | content in fences is what stands between the first line and the last fence; other content is all of it, stripped |
| Synthesis.CommunicationPlan | app/decision_intelligence/ingredient_synthesis.py:298-347 | the loops compute the plan |
| Synthesis.PlanAuthorisesOwn | app/decision_intelligence/ingredient_synthesis.py:298-347 | a plan authorises at most four ids, each once, all of the ingredient's own records; none if and only if no record has the type of a critical detail's code |
| Synthesis.PrimaryIsFirstBacked | app/decision_intelligence/ingredient_synthesis.py:304-325 | the primary fact backs the least critical detail, in ranking order, that has a record of its own code; the framing is that record's |
| SynthesisLaws.PlanIs | app/decision_intelligence/ingredient_synthesis.py:298-347 | every field of a plan by the records and critical details of its ingredient |
| Synthesis.Prepare | app/decision_intelligence/ingredient_synthesis.py:94-127 | the preparing loop gives every ingredient its deterministic entry and collects the eligible ones and the counts |
| Synthesis.Provider.Synthesize | app/decision_intelligence/ingredient_synthesis.py:72-145 | returns the entries and leaves the diagnostics of the run |
| Synthesis.Provider.PerItemOrFallback | app/decision_intelligence/ingredient_synthesis.py:383-439 | the loop over eligible items fills results and diagnostics, one call per item |
| Synthesis.OneEntryPerIngredient | app/decision_intelligence/ingredient_synthesis.py:81-98 | exactly one entry per ingredient of demand, orders or evidence, sorted by id, with the importance the backend's own details give |
| SynthesisLaws.EntriesShow | app/decision_intelligence/ingredient_synthesis.py:72-145 | one entry for every ingredient, and what it shows: importance and its reason by the details, texts, origin and ids by plan and reply |
| Synthesis.LlmOnlyIfVetted | app/decision_intelligence/ingredient_synthesis.py:408-420 | the provider's wording is shown if and only if a call was made for a critical item and every check passed; then it cites within its plan and the guard answered |
| SynthesisLaws.NarratedIs | app/decision_intelligence/ingredient_synthesis.py:408-420 | which reply is used, and that its texts and citations are what the entry then shows |
| SynthesisLaws.PresentableIff | app/decision_intelligence/ingredient_synthesis.py:452-461 | which texts pass the presentation check: lengths, number of sentences and one wrong term |
| SynthesisLaws.OwnsUpIff | app/decision_intelligence/ingredient_synthesis.py:463-477 | the words a baseline or a stress run must own up to, and the ones the selected plan must not use |
| Synthesis.FailuresAreIsolated | app/decision_intelligence/ingredient_synthesis.py:388-439 | what the provider answers for one ingredient changes no other entry |
| Synthesis.CountsFit | app/decision_intelligence/ingredient_synthesis.py:407-438 | once called, successes and fallbacks add up to the eligible items and the calls, and successes are the entries with the provider's wording |
| SynthesisLaws.DiagnosticsCount | app/decision_intelligence/ingredient_synthesis.py:94-145 | the counts of a run are those of the ingredients by importance, and of the entries by origin |
| SynthesisLaws.UncalledReports | app/decision_intelligence/ingredient_synthesis.py:128-145 | what a run without a call reports: its status, why there was none, and a fallback for each critical ingredient unless the rules alone were asked for |
| Synthesis.LlmCitesItsPlan | app/decision_intelligence/ingredient_synthesis.py:414-419 | an entry with the provider's wording cites only ids its plan authorises, of records of the same ingredient |
| ShownText.DraftStandsIff | app/decision_intelligence/narrative.py:877-902 | when the guard answers, every sentence of the draft passes as written if and only if the guard kept them all unchanged |
| ShownText.ShownTextStandsIff | app/decision_intelligence/ingredient_synthesis.py:418-419 | a shown text has only passing sentences if and only if the guard's answer consists of all its sentences |
| ShownText.RecordIsProduced | app/decision_intelligence/ingredient_synthesis.py:178-194 | the record of the concrete case is what the display contract makes of the fields of its fact |
| ShownText.DroppedSentenceIsShown | app/decision_intelligence/ingredient_synthesis.py:418-419 | a concrete answer whose unsupported second sentence the guard drops and the entry shows; the critical detail is what the projection makes of a fact with a critical code bound to the ingredient |
| Routing.EligibleIff | app/decision_intelligence/ingredient_synthesis.py:195-207 | an ingredient is eligible for the provider if and only if some risk or limitation fact bound to it has a code the table calls critical under the fact's own class |
| Routing.NeverAsked | app/decision_intelligence/ingredient_synthesis.py:135-137 | if the risk facts bound to ingredients have the codes they are built with, and none of those is critical in the table, the provider is asked about no ingredient and every entry is the rules' |

## Left out

- Unicode: casing is one character at a time (no final sigma), and digit, word and space classes are abstract.
- Floats and decimals: numbers are exact reals; NaN and infinities occur only in `Comparator`, and negative zero,
  context precision and rounding to 12 digits nowhere.
- The keyword checks of the narrative (entities, causality, risk, strategy wording) are functions of a `Policy`.
- Fact fields that no check reads: provenance text, scenario ids, entity tuples; of the guard's response the fixed
  texts, entities and warnings.
- Critic findings and warnings in `project_strategy_reason_evidence` and its de-duplication by hash; the comparison
  facts of `_strategy_facts` and `_strategy_delta_values`.
- Of the what-if evidence, metrics, narration and wording checks.
- Catalog aliases, lookups by SKU, get-or-create of products and suppliers, queries by date range and provenance.
- SQL: flushing, locking, concurrent sessions, and constraints other than primary keys. Units of movements are not
  related to the unit of their lot, as in the code.
- SHA-256: identities are stated on the hashed text. Dictionary keys are texts.
- `map_sheet_rules` and menu details; the schema table and Python's text of lists and dictionaries are parameters.
- Retry delays, headers, logging, cost metadata and request building of the gateway.
- Prompts, style examples, rule wording, routing log and error categories of the ingredient texts.
- Synthesis.RuleEntry: the wording of the rules is a parameter, because it is fixed copy.
- Gateway.GenerateJson: a context object is always passed, and decoding a body fails only with ValueError, because other
  cases differ in diagnostics alone.
- Guard.LegacyScopes: claims are texts with lists of text ids; other JSON shapes count as malformed.
- DisplayContract.Opening: entries of an existing list of mentions that are not texts are ignored.
- CostSentences.AcceptedIff: and the theorems of `ShownNumbers` and `MeasureSentences` are about sentences with no other
  digits, slashes or en dashes around the display; other numbers of a sentence are found and judged on their own.
- Records.Show: values other than texts, None and booleans are spelled "", as none of them names a unit or a type.
- StrategyOutcomes.Verified: persisted eligible names are texts.
- FEFO simulation, optimizer, forecasting pipelines, HTTP routes and Excel reading.
