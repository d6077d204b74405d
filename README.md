# Cake order configurator — verified model

This project models the rule engine behind a bakery's online cake-order
form. A customer goes through a five-step wizard:

1. Upload up to five reference photos and pick a shape, a tier count (1 to 3)
   and one size per tier. Sizes come from a fixed vocabulary for each shape,
   largest first.
2. Choose a filling, a sponge and a surface finish. Each finish has its own
   attributes: colour, drip style, shavings, an edible-print image, or the
   free-text note of the finish "Jiné".
3. Add an inscription, further specifications and the quantity.
4. Choose a pickup date at least seven days ahead that is not a public
   holiday, and a pickup location.
5. Review the summary, enter contact details and submit. Submitting composes
   an e-mail once the contact fields are filled in.

The model covers:

- the size vocabularies and the tier engine: shape change, tier-count change,
  per-tier size change with its repair loop, and the dropdown options of each
  tier;
- the step gate, and the wizard's forward and back navigation;
- the bounded order fields: the photo cap, removing a photo by id, the edible
  print, and the quantity buttons;
- the shallow partial update that every input goes through, and the initial
  order;
- the surface line of the order e-mail, the colour-swatch lookup and the
  contact gate in front of the e-mail;
- the pickup calendar: the earliest date, the holiday test on zero-padded
  "DD-MM" keys, the disabled rule, month lengths and the day buttons of one
  month.

Modules, one per file:

| file | module | contents |
|---|---|---|
| wrappers.dfy | `Wrappers` | `Option` |
| decimal.dfy | `Decimal` | `String(n)`, `padStart(2, '0')`, `parseInt` on leading digits |
| size_tokens.dfy | `SizeTokens` | a size token `Cm(n)`, `Dims(w, h)` or `Jine`, its string, and its `parseInt` value |
| dates.dfy | `Dates` | local civil date-times as `Date`'s getters see them, with day arithmetic |
| types.dfy | `Types` | enums, the `CakeOrder` record, the holiday keys |
| constants.dfy | `Constants` | locations, colours, drip and shavings options, size vocabularies |
| tiers.dfy | `Tiers` | the tier engine |
| surface.dfy | `Surface` | the step gate, the surface line, colour lookup, the submission gate |
| order.dfy | `Order` | the initial order, partial updates, photos, quantity |
| calendar.dfy | `Calendar` | the pickup-date calendar |
| app.dfy | `AppState` | class `App` holding `step` and `order`, one method per event handler |

The handlers that rebuild a list step by step are methods with loops, each
proved equal to a specification function:

- `NewTierSizes`: the filled array rewritten for a shape change.
- `AddTiers`: the copied list grown by a `while` loop.
- `RepairAbove`: the array repaired in place for a size change.
- `DayButtons`: the day-button loop.

Lemmas then state what those functions guarantee. The app state is a class
whose methods change `step` and `order` and keep `Valid()`. `Valid()` means the
step is 1..5, the tier count matches the size list, there are at most five
photos and the quantity is 1..10.

Behaviour of the program that the model keeps as it is:

- The finish "Jiné" (Other) is never rejected at step 2, even with no note:
  App.tsx:228-232 has no rule for it.
- The drip finish gets one combined alert when its cream colour, its drip
  style or both are missing (App.tsx:230).
- A shape change first fills every tier with the largest size (App.tsx:141-142).
  It writes descending defaults only for several tiers of a shape other than
  the rectangle (App.tsx:146-151). So a three-tier rectangle becomes `60x40`
  three times.
- The size repair leaves a tier alone when the tier below it is already the
  smallest size (App.tsx:199). So a heart cake can end as [24, 16, 16], with
  two equal tiers.
- Dates are civil (year, month, day, time of day), as `Date`'s getters read
  them. The holiday test reads the day and the month
  (components/Calendar.tsx:31-32). Adding seven days is `setDate` overflow
  across month and year ends (components/Calendar.tsx:21).

## Model

| member | source | states |
|---|---|---|
| `Types.LabelsDistinct` | types.ts:1-35 | distinct shapes print distinct labels and distinct finishes print distinct labels |
| `SizeTokens.Render` | constants.ts:58-67 | the definition of a token's string; its properties are stated by `SizeTokens.RenderRoundTrip` and `SizeTokens.RenderInjective` |
| `SizeTokens.Value` | App.tsx:193-194 | the definition of a token's `parseInt` value; its meaning is stated by `SizeTokens.ValueIsParseInt` |
| `SizeTokens.ValueIsParseInt` | App.tsx:193-194 | a token's numeric value is exactly what `parseInt` reads from its string: the leading number, none for "Jiné" |
| `SizeTokens.RenderRoundTrip` | constants.ts:58-67 | every size token is read back from the string the dropdown stores |
| `SizeTokens.RenderInjective` | App.tsx:171 | distinct tokens have distinct strings, so `indexOf` on strings agrees with token equality |
| `Decimal.DigitChar` | components/Calendar.tsx:31-32 | the character printed for a digit is a digit with that value |
| `Decimal.NatToString` | components/Calendar.tsx:31-32 | `String(n)` is a non-empty digit string denoting `n`, without a leading zero, one character exactly below 10 and two exactly from 10 to 99 |
| `Decimal.NatToStringTwoDigit` | components/Calendar.tsx:31-32 | a number from 10 to 99 prints as its tens digit then its units digit |
| `Decimal.PadStart2` | components/Calendar.tsx:31-32 | `padStart(2, '0')` leaves strings of length two or more alone; it pads shorter ones on the left with zeros to length two, keeping the original at the end |
| `Decimal.TwoDigits` | components/Calendar.tsx:31-32 | the padded form of a number below 100 is two digits denoting that number |
| `Decimal.TwoDigitsChars` | components/Calendar.tsx:31-32 | the two characters are the tens and the units digit |
| `Decimal.DigitPrefixLength` | App.tsx:193-194 | the digit prefix `parseInt` reads is all digits and is followed by a non-digit or the end |
| `Decimal.ParseInt` | App.tsx:193-194 | `parseInt` gives NaN exactly when the string does not start with a digit |
| `Decimal.DigitPrefixOfDigits` | App.tsx:193-194 | the digit prefix of a numeral followed by a non-digit is the whole numeral |
| `Decimal.ParseIntOfString` | App.tsx:193-194 | `parseInt` reads back `String(n)` when a non-digit or nothing follows it |
| `Dates.YearLength` | components/Calendar.tsx:26-28 | the twelve month lengths add up to 366 in leap years and 365 otherwise |
| `Dates.NextDay` | components/Calendar.tsx:21 | one day later is a valid date with the same time of day, on a later calendar day with no valid day in between |
| `Dates.PreviousDay` | components/Calendar.tsx:27 | one day earlier, day 0 being the last day of the month before, is a valid date with the same time of day, on an earlier calendar day with no valid day in between |
| `Dates.NextPreviousInverse` | components/Calendar.tsx:21 | stepping one day forward and one back, in either order, returns the same date |
| `Dates.AddDays` | components/Calendar.tsx:21 | adding `n` days gives a valid date with the same time of day |
| `Dates.DayBeforeTransitive` | components/Calendar.tsx:38 | the day order is transitive |
| `Dates.AddDaysStep` | components/Calendar.tsx:21 | adding `n + 1` days is adding `n` days and then one more |
| `Dates.AddDaysIncreasing` | components/Calendar.tsx:21 | adding more days gives a strictly later calendar day |
| `Constants.RenderAll` | constants.ts:58-67 | the rendered list has one string per token, in order |
| `Constants.RoundSizeStrings` | constants.ts:58 | the round vocabulary is exactly "26", "24", "22", "18", "16", "14" |
| `Constants.SquareSizeStrings` | constants.ts:61 | the square vocabulary is exactly "28", "24", "20", "16" |
| `Constants.RectangleSizeStrings` | constants.ts:64 | the rectangle vocabulary is exactly "60x40", "40x30", "Jiné" |
| `Constants.HeartSizeStrings` | constants.ts:67 | the heart vocabulary is exactly "24", "18", "16" |
| `Constants.NumericVocabulariesDescend` | constants.ts:57-67 | the round, square and heart vocabularies strictly decrease by `parseInt`, so no entry repeats; they have 6, 4 and 3 entries |
| `Constants.AdjacentDescending` | constants.ts:57-67 | a list where each entry is smaller than the one before is strictly descending throughout |
| `Constants.RectangleVocabularyShape` | constants.ts:64 | only the rectangle vocabulary has tokens that are not plain numbers; only "Jiné" has no value; "60x40" reads 60 and "40x30" reads 40 |
| `Constants.ColorNamesDistinct` | constants.ts:39-51 | the palette has 11 colours with pairwise distinct names |
| `Constants.ColorEntriesNonEmpty` | constants.ts:39-51 | every colour name is non-empty and no hex code is "transparent" |
| `Constants.OptionCounts` | constants.ts:53-54 | there are 3 shavings options and 2 drip options |
| `Constants.LocationsTable` | constants.ts:3-32 | there are 4 locations with distinct ids; the first is "petrvald"; exactly the last is the factory |
| `Tiers.SizesForShape` | App.tsx:129-137 | the definition: each shape's vocabulary; its properties are stated by `Tiers.SizesForShapeSpec` |
| `Tiers.SizesForShapeSpec` | App.tsx:129-137 | every vocabulary has at least three entries; those of the round, square and heart shapes are numeric and strictly descending; "Jiné" is offered only for the rectangle |
| `Tiers.IndexOf` | App.tsx:171 | `indexOf` is -1 exactly when the token is absent; otherwise it is the first position holding the token |
| `Tiers.IndexOfDescending` | App.tsx:198 | in a strictly descending vocabulary each entry is found at its own position |
| `Tiers.ShapeDefaults` | App.tsx:141-151 | the definition of the new tier sizes after a shape change; its properties are stated by `Tiers.ShapeDefaultsSpec` |
| `Tiers.ShapeDefaultsSpec` | App.tsx:140-159 | after a shape change there are exactly `tiers` sizes from the new vocabulary: its first `tiers` entries for several tiers of a shape other than the rectangle, otherwise the largest entry in every tier |
| `Tiers.NewTierSizes` | App.tsx:141-152 | the filled array rewritten by the loop equals those defaults |
| `Tiers.NextTierSize` | App.tsx:170-175 | the definition of an added tier's size; its properties are stated by `Tiers.NextTierSizeIsNextSmaller` |
| `Tiers.NextTierSizeIsNextSmaller` | App.tsx:170-175 | an added tier gets the largest vocabulary size strictly below the last tier, or the smallest size when there is none |
| `Tiers.Grow` | App.tsx:169-177 | growing keeps the existing tiers and ends with `count` tiers; each added tier is the successor of the one below it |
| `Tiers.TierCountResult` | App.tsx:163-180 | the definition of the tier sizes after a count change; its properties are stated by `Tiers.TierCountSpec` and `Tiers.GrowthDescends` |
| `Tiers.TierCountSpec` | App.tsx:162-181 | a tier-count change yields exactly `count` sizes; growing keeps the old ones and appends successors (the smallest size for an empty list); shrinking keeps the first `count`; vocabulary sizes stay in the vocabulary |
| `Tiers.GrowMembers` | App.tsx:169-177 | growing a list of vocabulary sizes adds only vocabulary sizes |
| `Tiers.GrowthDescends` | App.tsx:169-177 | each added tier is strictly smaller than the tier below it, unless that one is already the smallest size |
| `Tiers.ResizeTiers` | App.tsx:163-180 | the grown-or-truncated copy equals the tier-count result |
| `Tiers.AddTiers` | App.tsx:169-177 | the `while` loop that pushes tiers produces the grown list |
| `Tiers.GrowStep` | App.tsx:169-177 | growing by one more tier appends the successor of the current last tier |
| `Tiers.Repair` | App.tsx:193-201 | the definition of one repair step; its properties are stated by `Tiers.RepairStepIdempotent` and `Tiers.RepairDescends` |
| `Tiers.RepairFrom` | App.tsx:192-203 | the repair keeps the length and the tiers up to `k`; each later tier is repaired against the already repaired tier below it |
| `Tiers.SizeChangeResult` | App.tsx:184-206 | the definition of the tier sizes after a size change; its properties are stated by `Tiers.SizeChangeFrame` and `Tiers.SizeChangeIdempotent` |
| `Tiers.SizeChangeFrame` | App.tsx:184-206 | a size change keeps the length, leaves the tiers below `k` alone and puts `newVal` at `k` unchecked; for the rectangle nothing else changes |
| `Tiers.RepairDescends` | App.tsx:190-203 | after a repair over vocabulary sizes, each tier above `k` is strictly smaller than the one below it or that one is the smallest size; all tiers stay vocabulary sizes |
| `Tiers.RepairKeepsDescending` | App.tsx:196 | a list already strictly descending above `k` passes through the repair unchanged |
| `Tiers.RepairPrefix` | App.tsx:192-203 | repairing a prefix gives the prefix of the repair |
| `Tiers.RepairStepIdempotent` | App.tsx:196-201 | repairing one tier twice against the same tier below changes nothing more |
| `Tiers.RepairIdempotent` | App.tsx:192-203 | running the repair a second time from the same tier changes nothing |
| `Tiers.RepairTwiceAt` | App.tsx:192-203 | the same, tier by tier |
| `Tiers.SizeChangeIdempotent` | App.tsx:184-206 | applying the same size change twice gives the same tiers as applying it once |
| `Tiers.ChangeTierSize` | App.tsx:185-204 | copying the list, setting tier `tierIndex` and repairing in place gives the size-change result |
| `Tiers.RepairAbove` | App.tsx:192-203 | the in-place loop leaves the array equal to the repair of its old contents |
| `Tiers.SmallerThan` | App.tsx:219 | the filter keeps exactly the tokens with a value below the bound |
| `Tiers.SmallerThanIsSuffix` | App.tsx:219 | in a strictly descending vocabulary the kept tokens form a suffix of it |
| `Tiers.SmallerThanAll` | App.tsx:219 | when every entry is below the bound the filter keeps them all |
| `Tiers.AvailableOptions` | App.tsx:209-220 | the definition of a tier's dropdown options; its properties are stated by `Tiers.AvailableOptionsSpec` |
| `Tiers.AvailableOptionsSpec` | App.tsx:209-220 | the whole vocabulary is offered for the bottom tier, for the rectangle, or when the tier below has no number; otherwise exactly the vocabulary sizes strictly below it, as an ordered and possibly empty suffix |
| `Tiers.RepairedTiersAreOffered` | App.tsx:190-220 | every tier the repair leaves above `k` is one of its own dropdown's options, unless the tier below is the smallest size |
| `Tiers.RepairedAreSmaller` | App.tsx:190-220 | the vocabulary-level form of the same fact |
| `Tiers.RoundGrowthScenario` | App.tsx:162-181 | a round cake with one "24" tier grown to three tiers gives [24, 22, 18] |
| `Tiers.RoundRepairScenario` | App.tsx:184-207 | round [24, 22, 18] with the bottom set to "18" becomes [18, 16, 14] |
| `Tiers.RoundRepairSteps` | App.tsx:196-201 | "22" on "18" is repaired to "16", and "18" on "16" to "14" |
| `Tiers.HeartScenario` | App.tsx:162-207 | heart [24, 18, 16] with tier 1 set to "16" stays [24, 16, 16]; heart [16] grown to two tiers is [16, 16] |
| `Surface.ValidateStep` | App.tsx:222-237 | passes exactly when step 2 has every attribute its finish needs and step 4 has a pickup date; a block at step 2 carries that finish's alert and never concerns "Jiné"; at step 4 the block carries the date alert; alerts are non-empty |
| `Surface.OtherAlwaysPasses` | App.tsx:222-237 | the finish "Jiné" passes step 2 whatever its note |
| `Surface.MissingMessagesDistinct` | App.tsx:228-232 | different finishes block with different alerts |
| `Surface.OrUnspecified` | App.tsx:266-269 | the definition of `value \|\| 'Neuvedeno'`; its consequences for the surface line are stated by `Surface.UnfilledDetails`, `Surface.UnfilledDripDetails` and `Surface.ValidatedDetailsQuoteValues` |
| `Surface.Interpolated` | App.tsx:271 | the definition of interpolating an optional note into a template literal; its consequences for the surface line are stated by `Surface.UnfilledDetails` |
| `Surface.DetailNote` | App.tsx:266-271 | the definition of the note in parentheses; its properties are stated by `Surface.UnfilledDetails`, `Surface.UnfilledDripDetails` and `Surface.ValidatedDetailsQuoteValues` |
| `Surface.SurfaceDetails` | App.tsx:265-271 | the surface line is the finish's label, then " (", one note, then ")" |
| `Surface.DetailsSignature` | App.tsx:265-271 | characters 0, 1 and 8 of the surface line are fixed by the finish |
| `Surface.DetailsDetermineSurface` | App.tsx:265-271 | equal surface lines come from the same finish |
| `Surface.ValidatedDetailsQuoteValues` | App.tsx:228-269 | once step 2 passes, the note quotes the order's own colour, drip and shavings values |
| `Surface.UnfilledDetails` | App.tsx:266-271 | a missing marzipan colour, cream colour or shavings value prints as "Neuvedeno"; the "Jiné" note prints as it is, "undefined" when missing |
| `Surface.UnfilledDripDetails` | App.tsx:268 | for the drip finish a missing cream colour and a missing drip style each print as "Neuvedeno", on their own or together |
| `Surface.FindColor` | App.tsx:255 | the lookup finds nothing exactly when no colour has that name; otherwise it finds a palette colour with that name |
| `Surface.GetColorHex` | App.tsx:253-257 | an unset, empty or unknown name gives "transparent" |
| `Surface.ColorHexOfPalette` | App.tsx:253-257 | every palette name leads back to that colour's own hex, which is never "transparent" |
| `Surface.FindDistinct` | App.tsx:255 | with distinct names, looking up entry `i`'s name finds entry `i` |
| `Surface.SubmitOrder` | App.tsx:259-273 | an e-mail is composed exactly when name, phone and e-mail are all filled in; otherwise the contact alert is raised; the subject names the customer and the surface line is the surface details |
| `Order.InitialOrder` | App.tsx:9-25 | the start order is well formed: one round tier "24", cream finish, quantity 1, no date, no photos, the first location, empty contact fields |
| `Order.Merge` | App.tsx:124-126 | the definition of the shallow spread; its properties are stated by `Order.MergeLaws` and `Order.MergeKeepsWellFormed` |
| `Order.MergeLaws` | App.tsx:124-126 | the empty update changes nothing; an update applied twice is applied once; two updates in a row are one update with the later spread over the earlier |
| `Order.TiersPatchFrame` | App.tsx:181 | the tier-count update sets the two tier fields and nothing else |
| `Order.MergeKeepsWellFormed` | App.tsx:124-126 | an update that keeps the tier list, photos and quantity within bounds keeps the order well formed |
| `Order.AddImages` | App.tsx:37-50 | with no free slot nothing changes; otherwise the list keeps its photos in order and appends the first `5 - count` chosen files, so it ends with `min(5, count + files)` photos |
| `Order.AddImagesBounded` | App.tsx:37-50 | a list of at most five photos never grows past five; it grows when there is a free slot and a file was chosen |
| `Order.RemoveImage` | App.tsx:107-117 | removal keeps exactly the photos with another id and never lengthens the list |
| `Order.RemoveImageAt` | App.tsx:107-117 | with distinct ids, removing the id of photo `k` removes exactly that photo and keeps the order |
| `Order.RemoveImageAbsent` | App.tsx:115 | removing an id no photo has changes nothing |
| `Order.DecrementQuantity` | App.tsx:705 | the "-" button never goes below 1, never leaves 1..10, and otherwise subtracts one |
| `Order.IncrementQuantity` | App.tsx:710 | the "+" button never goes above 10, never leaves 1..10, and otherwise adds one |
| `Order.QuantityButtons` | App.tsx:705-710 | inside 1..10 the two buttons undo each other, and they saturate at 1 and 10 |
| `Calendar.MinDate` | components/Calendar.tsx:19-24 | the earliest date is midnight of the calendar day seven days after the mount instant |
| `Calendar.GetDaysInMonth` | components/Calendar.tsx:26-28 | day 0 of the next month is the month's Gregorian length, between 28 and 31, and 29 exactly for February of a leap year |
| `Calendar.HolidayKey` | components/Calendar.tsx:31-33 | a key is five characters with a dash in the middle |
| `Calendar.KeyRoundTrip` | components/Calendar.tsx:31-33 | a key reads back to its day and month |
| `Calendar.KeyInjective` | components/Calendar.tsx:31-33 | two keys are equal exactly when their day and month are |
| `Calendar.KeyChars` | components/Calendar.tsx:31-33 | a key is the day's two digits, a dash, and the month's two digits |
| `Calendar.HolidayKeyAt` | types.ts:81-83 | the 11 listed keys are those of 1 Jan, 1 May, 8 May, 5 Jul, 6 Jul, 28 Sep, 28 Oct, 17 Nov, 24 Dec, 25 Dec and 26 Dec |
| `Calendar.IsHoliday` | components/Calendar.tsx:30-34 | the definition of the holiday test; its meaning is stated by `Calendar.IsHolidayIff` |
| `Calendar.IsHolidayIff` | components/Calendar.tsx:30-34 | a date is a holiday exactly when its day and month are one of the eleven, in every year |
| `Calendar.HolidaysWellFormed` | types.ts:81-83 | the eleven holidays are distinct and each is a real day of its month in every year |
| `Calendar.IsDisabled` | components/Calendar.tsx:36-42 | the definition of the disabled rule; its consequences are stated by `Calendar.FirstWeekDisabled` and `Calendar.LaterDaysOnlyHolidays` |
| `Calendar.FirstWeekDisabled` | components/Calendar.tsx:36-42 | every moment of the mount day and of the six days after it is disabled |
| `Calendar.LaterDaysOnlyHolidays` | components/Calendar.tsx:36-42 | from the seventh day on, a date is disabled exactly when it is a holiday |
| `Calendar.DayButtons` | components/Calendar.tsx:57-69 | the loop makes one button per day of the month, each for local midnight of that day, disabled, selected and titled as the calendar rules say |
| `Calendar.Click` | components/Calendar.tsx:68-69 | the definition of a click: a disabled button does not select; its meaning is stated by `Calendar.GridSelectsOnlyAllowedDays` |
| `Calendar.GridSelectsOnlyAllowedDays` | components/Calendar.tsx:57-69 | a click selects a day only when it is not before the earliest date and not a holiday, and then selects that day's date |
| `AppState.App.constructor` | App.tsx:28-29 | the form opens on step 1 with the initial order |
| `AppState.App.UpdateOrder` | App.tsx:124-126 | the order becomes the merge of the old order with the update |
| `AppState.App.HandleShapeChange` | App.tsx:140-160 | sets the shape, resets the sizes to the shape defaults and clears the custom size note; every size is in the new vocabulary; keeps `Valid()` |
| `AppState.App.HandleTierCountChange` | App.tsx:162-182 | stores the count and the tier-count result, with exactly `count` sizes; keeps `Valid()` |
| `AppState.App.HandleSizeChange` | App.tsx:184-207 | stores the size-change result and keeps `Valid()` |
| `AppState.App.HandleFileChange` | App.tsx:33-50 | appends the chosen photos up to the cap and keeps `Valid()` |
| `AppState.App.RemoveImageById` | App.tsx:107-117 | drops the photos with that id and keeps `Valid()` |
| `AppState.App.HandleEdiblePrintUpload` | App.tsx:86-98 | the chosen image becomes the print image |
| `AppState.App.RemoveEdiblePrint` | App.tsx:100-105 | clears the print image |
| `AppState.App.DecreaseQuantity` | App.tsx:705 | applies the "-" button through an update and keeps `Valid()` |
| `AppState.App.IncreaseQuantity` | App.tsx:710 | applies the "+" button through an update and keeps `Valid()` |
| `AppState.App.NextStep` | App.tsx:239-246 | on a pass it moves to `min(step + 1, 5)` without an alert; on a block it stays and returns the alert; the summary is reached from step 4 only with a pickup date; the order is unchanged |
| `AppState.App.PrevStep` | App.tsx:248 | moves to `max(step - 1, 1)` and keeps the order |
| `AppState.App.HandleSubmitOrder` | App.tsx:259-263 | returns the submission outcome, which is an e-mail exactly when the contact fields are filled in |

## Left out

- The image-analysis branch of `handleFileChange` (App.tsx:52-75) is not modelled. It calls an external AI service asynchronously, and its `isAnalyzing` and `aiAnalysisResult` state goes with it. So `RemoveImageById` does not reset the analysis text either.
- The error path of `handleFileChange` (its `catch` alert) is not modelled. It only guards browser calls.
- `File` objects, `URL.createObjectURL` and `revokeObjectURL` are not modelled. A photo is its id and preview URL.
- The random photo ids are not modelled. Ids are given values, and the removal lemma assumes they are distinct.
- The mail body is not modelled: the `mailto:` URI, `encodeURIComponent` and `toLocaleDateString('cs-CZ')` are formatting and I/O. Submission is modelled as the contact gate, the subject and the surface line.
- `validateStep`'s checks for a missing filling, sponge or surface are not modelled. They cannot fire, because the enums are closed and their values are non-empty strings.
- The calendar's blank cells before day 1, the month paging and the weekday headers are not modelled. They are layout.
- Time zones and daylight-saving shifts are not modelled: a day always has 86,400,000 ms.
- `minDate` is computed once at mount in the source. The model takes the mount instant as the `now` parameter.
- React's deferred state updates are not modelled. Each handler is one synchronous update of the step and the order.
- `parseInt`'s handling of leading blanks, signs and a `0x`/`0X` hexadecimal prefix is not modelled. No size token starts with any of them.
- The JSX rendering, the on-screen summary and the image-analysis service are not part of this model.
- `Surface.GetColorHex`: its own contract states only the "transparent" cases. The found case is stated for every palette colour by `Surface.ColorHexOfPalette`.
