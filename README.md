# Bartesian barcode scanner, modelled in Dafny

The app reads the Code 128 barcode printed on a Bartesian cocktail pod with the
phone camera, unpacks the 32-bit number it carries into a drink recipe (which
liquors, how much of each, how much water, which glass, which drink), lets the
user change the recipe on a details screen, and prints a new barcode for the
changed recipe. This project models that core:

- `code128_table.dfy` (`Code128Table`): the 106-entry table of bar/space
  width patterns and its inverse lookup.
- `code128.dfy` (`Code128`): `tryParse`, which turns a sequence of module
  widths into a number, and `toIntervals`, which draws a number as module
  widths (five base-100 data symbols, the checksum symbol, then a final
  width 2).
- `analyzer.dfy` (`Code128Analyzer`): one camera frame's scan lines —
  histogram threshold, light/dark runs, normalisation to module widths,
  `isValid`, `analyzeLine` and `findBarcode`.
- `int32.dfy`, `int32_bits.dfy` (`Int32Math`, `Int32Bits`): Kotlin's 32-bit
  `Int`, as a number and as a word of 32 bits (least significant first) with
  `or`, `and`, `shl`, field extraction and `ifHasBit`.
- `details.dfy` (`Details`): the recipe layout of the barcode number — the
  decoder (the view model's initialisers) and the `barcode` getter's encoder,
  both as written and corrected.
- `amounts.dfy` (`Amounts`): the liquor and water amount tables, the
  library binary search, and the slider lookups `setAlcoholAmount` and
  `waterForAmount` use.
- `view_model.dfy` (`ViewModel`): the details view model as a class whose
  fields the setters update; its liquor setter and its `barcode` getter are
  the code's own, so the level stored for an amount between table entries is
  one short and the getter lays the liquors out in the enum's order.
- `drinks.dfy` (`Drinks`): `parseCsv`, the drink-name list reader.

Amounts are integer hundredths of an ounce (0.55 oz is 55). Kotlin `Int`
arithmetic that can overflow is wrapped explicitly (`Int32Math.Wrap`).

Three behaviours of the code that the model keeps:

- The decoder reads the level fields in the order Tequila, Vodka, Gin, Rum,
  Whiskey, with presence bits 11, 10, 8, 9, 12, which is not presence-bit
  order.
- A liquor slider amount maps to a level through `binarySearch` on the amount
  table. `waterForAmount` takes the largest table amount that is at most the
  slider amount, and among equal amounts the highest index.
- `normalizeSegments` drops the end runs shorter than the second-largest run
  (the quiet zones), then divides the runs between them by the shortest of
  those runs.

## Model

| member | source | states |
|---|---|---|
| Code128Table.RowOk | app/src/main/java/us/romkal/barcode/Code128.kt:52-159 | every one of the 106 table entries is six digits 1..4 summing to 11, and looking it up gives back its own index |
| Code128Table.CodeToValueSpec | app/src/main/java/us/romkal/barcode/Code128.kt:160 | the inverse lookup finds `v` for a pattern exactly when `v` is below 106 and the table's entry `v` is that pattern |
| Code128Table.CodeToValueInverts | app/src/main/java/us/romkal/barcode/Code128.kt:160 | looking up table entry `v` gives `v` |
| Code128Table.CodeIndexOnlyEntries | app/src/main/java/us/romkal/barcode/Code128.kt:160 | the inverse lookup finds nothing for a pattern that is not in the table |
| Code128Table.LegalCodesDistinct | app/src/main/java/us/romkal/barcode/Code128.kt:52-160 | no two table entries are equal, so the inverse map is well defined |
| Code128.DigitsLsbValue | app/src/main/java/us/romkal/barcode/Code128.kt:27-33 | the base-100 digits `toIntervals` extracts are each below the base and add back up to the number |
| Code128.FoldReverse | app/src/main/java/us/romkal/barcode/Code128.kt:21-23 | folding the reversed digits, most significant first, gives the number the digits stand for |
| Code128.FoldIntExact | app/src/main/java/us/romkal/barcode/Code128.kt:21-23 | the `Int` fold equals the exact fold whenever the exact value fits in an `Int` |
| Code128.WidthsFold | app/src/main/java/us/romkal/barcode/Code128.kt:39-47 | reading a table entry's decimal digits from the top and folding them in base 10 gives the entry back |
| Code128.EntryWidths | app/src/main/java/us/romkal/barcode/Code128.kt:39-47 | each drawn symbol is 6 widths of 1..4 modules covering 11 modules |
| Code128.BarsShape | app/src/main/java/us/romkal/barcode/Code128.kt:39-47 | the six widths drawn for code point `v` decode back to `v` through the table |
| Code128.Windows | app/src/main/java/us/romkal/barcode/Code128.kt:6-8 | `windowed(6, 6)` gives the complete groups of six widths in order and drops a shorter tail |
| Code128.LookupAll | app/src/main/java/us/romkal/barcode/Code128.kt:9-10 | the lookup succeeds exactly when every group is a table entry, and then gives each group's code point |
| Code128.TryParse | app/src/main/java/us/romkal/barcode/Code128.kt:5-24 | a parse succeeds exactly when every complete group of six widths is a table entry, there are six groups and the sixth code point is the checksum of the first five; the result is then the first five read as a base-100 number, and a successful parse had 36 to 41 widths |
| Code128.Checksum | app/src/main/java/us/romkal/barcode/Code128.kt:16 | the check symbol over the data symbols is one of the 103 values 0 to 102 |
| Code128.ChangedSymbolRejected | app/src/main/java/us/romkal/barcode/Code128.kt:14-20 | drawn code points with one data symbol replaced by another code point that differs by other than a multiple of 103 fail to parse, with fewer than six widths after them |
| Code128.CodePointsInTable | app/src/main/java/us/romkal/barcode/Code128.kt:34-37 | the data code points are below 100 and the checksum below 103, so every code point drawn has a table entry |
| Code128.BaseHundredDigits | app/src/main/java/us/romkal/barcode/Code128.kt:27-33 | the digit loop yields the base-100 digits of the code, least significant first |
| Code128.SymbolWidths | app/src/main/java/us/romkal/barcode/Code128.kt:41-46 | the inner digit loop yields a table entry's decimal digits, most significant first |
| Code128.ToIntervals | app/src/main/java/us/romkal/barcode/Code128.kt:26-50 | `toIntervals` returns the widths of five data symbols and of the checksum symbol, then a final width 2; there is no start symbol |
| Code128.IntervalsShape | app/src/main/java/us/romkal/barcode/Code128.kt:26-50 | a drawn code is 37 widths of 1..4 modules ending in the stop width 2 and covering 68 modules |
| Code128.ParseCodePoints | app/src/main/java/us/romkal/barcode/Code128.kt:5-24 | parsing drawn code points (first five below 100, the sixth their checksum) gives the base-100 number of the first five |
| Code128.DataSymbolsValue | app/src/main/java/us/romkal/barcode/Code128.kt:27-36 | the five data symbols are base-100 digits, most significant first, of any non-negative code |
| Code128.RoundTrip | app/src/main/java/us/romkal/barcode/Code128.kt:5-50 | `tryParse(toIntervals(code)) == code` for every non-negative `Int` |
| Code128.NegativeDrawsZero | app/src/main/java/us/romkal/barcode/Code128.kt:27-33 | a negative code draws the same bars as 0 and reads back as 0 |
| Code128.TryParseIgnoresTail | app/src/main/java/us/romkal/barcode/Code128.kt:6-8 | widths after the last complete group of six (the stop bar) do not change the result |
| Code128.ChecksumDetectsSingleChange | app/src/main/java/us/romkal/barcode/Code128.kt:14-20 | two five-symbol data sequences that differ in one symbol, by an amount that is not a multiple of 103, have different checksums |
| Code128Analyzer.BucketOf | app/src/main/java/us/romkal/barcode/Code128Analyzer.kt:66-71 | a luminance sample falls in the bucket of 8 levels containing it, one of 32 |
| Code128Analyzer.HistogramTotal | app/src/main/java/us/romkal/barcode/Code128Analyzer.kt:66-71 | the histogram counts every sample exactly once |
| Code128Analyzer.MaxBy | app/src/main/java/us/romkal/barcode/Code128Analyzer.kt:74-77 | `maxBy` picks the first bucket with the highest count among the eligible ones, or none when none is eligible |
| Code128Analyzer.MinBy | app/src/main/java/us/romkal/barcode/Code128Analyzer.kt:78-83 | `minBy` picks the first bucket with the lowest count among the eligible ones, or none when none is eligible |
| Code128Analyzer.PeakIsFullest | app/src/main/java/us/romkal/barcode/Code128Analyzer.kt:74 | no bucket holds more samples than the peak bucket |
| Code128Analyzer.SecondPeakFar | app/src/main/java/us/romkal/barcode/Code128Analyzer.kt:75-77 | the second peak is more than two buckets from the peak and holds no more samples than it |
| Code128Analyzer.ValleyBetween | app/src/main/java/us/romkal/barcode/Code128Analyzer.kt:78-83 | the valley bucket lies between the two peaks, both included, and holds no more samples than the second peak |
| Code128Analyzer.Threshold | app/src/main/java/us/romkal/barcode/Code128Analyzer.kt:84 | the threshold is the lowest luminance of one of the 32 buckets, a multiple of 8 below 256 |
| Code128Analyzer.FindThreshold | app/src/main/java/us/romkal/barcode/Code128Analyzer.kt:64-85 | the histogram loop and the peak/valley choice return the threshold the specification function defines |
| Code128Analyzer.ThresholdBetweenPeaks | app/src/main/java/us/romkal/barcode/Code128Analyzer.kt:74-84 | the threshold is the floor of a bucket between the two peaks, which are more than two buckets apart, and no fuller than the lower peak |
| Code128Analyzer.Segment | app/src/main/java/us/romkal/barcode/Code128Analyzer.kt:38-53 | the segment loop returns the run lengths of the classified scan line, starting with a (possibly empty) light run |
| Code128Analyzer.RunsExpand | app/src/main/java/us/romkal/barcode/Code128Analyzer.kt:38-53 | expanding the runs of a line's prefix gives that prefix back |
| Code128Analyzer.RunsUnique | app/src/main/java/us/romkal/barcode/Code128Analyzer.kt:38-53 | segmenting an expanded run list gives the run list back |
| Code128Analyzer.SegmentsCoverLine | app/src/main/java/us/romkal/barcode/Code128Analyzer.kt:38-53 | the runs add up to the length of the scan line |
| Code128Analyzer.TopTwoSpec | app/src/main/java/us/romkal/barcode/Code128Analyzer.kt:91 | the largest run has nothing above it, and the second largest has at most one run above it and two at or above it |
| Code128Analyzer.SecondLargestUnique | app/src/main/java/us/romkal/barcode/Code128Analyzer.kt:91 | the second element of the descending sort is the only value with that property |
| Code128Analyzer.InnerRunsSlice | app/src/main/java/us/romkal/barcode/Code128Analyzer.kt:92-93 | dropping the short runs at both ends keeps the runs strictly between the outermost long runs |
| Code128Analyzer.MinOf | app/src/main/java/us/romkal/barcode/Code128Analyzer.kt:94 | the shortest run is one of the runs and no run is shorter |
| Code128Analyzer.RoundedRatio | app/src/main/java/us/romkal/barcode/Code128Analyzer.kt:95 | a run's width in modules is its length divided by the shortest run, rounded to nearest with halves up |
| Code128Analyzer.Normalize | app/src/main/java/us/romkal/barcode/Code128Analyzer.kt:90-97 | a normalised line has at least one width, and at least two fewer widths than runs, because the two outer long runs are dropped |
| Code128Analyzer.NormalizeUnits | app/src/main/java/us/romkal/barcode/Code128Analyzer.kt:90-97 | every normalised width is at least 1 module, and some width is exactly 1 |
| Code128Analyzer.NormalizeScale | app/src/main/java/us/romkal/barcode/Code128Analyzer.kt:90-97 | normalisation does not change when every run is stretched by the same factor |
| Code128Analyzer.AnalyzeLine | app/src/main/java/us/romkal/barcode/Code128Analyzer.kt:27-62 | `analyzeLine` on row `y` returns what the decoding pipeline gives for that row's samples |
| Code128Analyzer.DecodeRow | app/src/main/java/us/romkal/barcode/Code128Analyzer.kt:27-62 | a scan line decodes only to the number `tryParse` gives for 36 to 41 widths that pass `isValid` |
| Code128Analyzer.ScanEnd | app/src/main/java/us/romkal/barcode/Code128Analyzer.kt:19-25 | the last scan line is inside the frame |
| Code128Analyzer.FindBarcode | app/src/main/java/us/romkal/barcode/Code128Analyzer.kt:19-25 | the result is the first scan line in the range that decodes, or none when no line in the range decodes |
| Code128Analyzer.PaintThreshold | app/src/main/java/us/romkal/barcode/Code128Analyzer.kt:64-85 | a line of pure black and pure white samples holding both gets threshold 8 |
| Code128Analyzer.ThresholdExample | app/src/main/java/us/romkal/barcode/Code128Analyzer.kt:64-85 | `n` samples at 30 then `n` at 220 give threshold 32: on the tie the first bucket (3) is the peak, 27 the second peak, and the first emptiest bucket between them (4) the valley |
| Code128Analyzer.PaintClassify | app/src/main/java/us/romkal/barcode/Code128Analyzer.kt:45 | at threshold 8 the black samples are dark and the white ones light |
| Code128Analyzer.NormalizeClean | app/src/main/java/us/romkal/barcode/Code128Analyzer.kt:90-97 | bars drawn `k` samples per module between quiet zones wider than four modules normalise to their module widths |
| Code128Analyzer.IntervalsValid | app/src/main/java/us/romkal/barcode/Code128Analyzer.kt:87-88 | every barcode `toIntervals` draws passes `isValid` |
| Code128Analyzer.IsValid | app/src/main/java/us/romkal/barcode/Code128Analyzer.kt:87-88 | a line that passes `isValid` has at least 17 widths, since 68 modules in widths of at most 4 need that many |
| Code128Analyzer.PrintedRowDecodes | app/src/main/java/us/romkal/barcode/Code128Analyzer.kt:27-97 | a clean scan line across a drawn non-negative code decodes to that code at any scale |
| Int32Math.Wrap | app/src/main/java/us/romkal/barcode/Code128.kt:21-23 | a Kotlin `Int` result equals the exact result modulo 2^32, and is the exact result when that fits |
| Int32Bits.IntOfWordOf | app/src/main/java/us/romkal/barcode/DetailsViewModel.kt:110-127 | reading the bits of an `Int` back as an `Int` gives it back |
| Int32Bits.WordOfIntOf | app/src/main/java/us/romkal/barcode/DetailsViewModel.kt:110-127 | the bits of the `Int` built from a word are that word |
| Int32Bits.SignAndParity | app/src/main/java/us/romkal/barcode/DetailsViewModel.kt:118 | an `Int` is negative exactly when bit 31 is set, and odd exactly when bit 0 is set |
| Int32Bits.FieldOf | app/src/main/java/us/romkal/barcode/DetailsViewModel.kt:69 | `ushr lo and (2^len - 1)` gives the value stored in bits `lo` to `lo + len - 1` |
| Int32Bits.HasBitMeans | app/src/main/java/us/romkal/barcode/DetailsViewModel.kt:183-185 | `this and (1 shl bit) > 0` holds exactly when the bit is set, for the bits below 31 |
| Details.Flagged | app/src/main/java/us/romkal/barcode/DetailsViewModel.kt:32-38 | the liquors listed are exactly those whose presence bit is set, in the decoder's order |
| Details.IndexOf | app/src/main/java/us/romkal/barcode/DetailsViewModel.kt:65 | `indexOf` gives the first position of the liquor, or -1 when it is absent |
| Details.EncodeAsWritten | app/src/main/java/us/romkal/barcode/DetailsViewModel.kt:110-127 | the getter as written always sets bit 0, so the number is odd, and for an enum of at most six liquors bits 1 and 2 hold the glass |
| Details.Encode | app/src/main/java/us/romkal/barcode/DetailsViewModel.kt:110-127 | the corrected getter always sets bit 0 and puts the glass in bits 1 and 2 |
| Details.DecodeGlass | app/src/main/java/us/romkal/barcode/DetailsViewModel.kt:95-102 | glass bits `010` are a highball, `100` a shaker, `000` a lowball and `110` an error |
| Details.Decode | app/src/main/java/us/romkal/barcode/DetailsViewModel.kt:64-104 | decoding fails only for glass bits `110`, and otherwise gives every liquor a level and a nine-bit drink id |
| Details.DecodeEncode | app/src/main/java/us/romkal/barcode/DetailsViewModel.kt:64-127 | with the corrected getter, decoding its word gives back any recipe with at most three liquors and a nine-bit drink id |
| Details.BarcodeRoundTrip | app/src/main/java/us/romkal/barcode/DetailsViewModel.kt:110-127 | with the corrected getter, the number is odd and non-negative, and unpacking it gives back the recipe |
| Details.PrintScanRoundTrip | app/src/main/java/us/romkal/barcode/BarcodePrinter.kt:101 | the number the getter as written gives for a screen recipe, printed and scanned cleanly at any scale, comes back as the same number, and it decodes to the recipe's glass, water level and drink id |
| Details.PrintScanRoundTripCorrected | app/src/main/java/us/romkal/barcode/DetailsViewModel.kt:110-127 | with the corrected getter, a screen recipe printed and scanned cleanly at any scale comes back unchanged |
| Details.AsWrittenCarries | app/src/main/java/us/romkal/barcode/DetailsViewModel.kt:110-127 | for every enum order and a non-negative drink id, the getter as written gives an odd number that decodes to the recipe's glass and water level; with at most three liquors it carries the drink id's low nine bits; for a screen recipe it is non-negative |
| Details.PresentLength | app/src/main/java/us/romkal/barcode/DetailsViewModel.kt:106-117 | for every enum order, the getter lays out as many level fields as `alcoholCount` counts |
| Details.SliderKeepsCap | app/src/main/java/us/romkal/barcode/DetailsScreen.kt:236 | with the slider enabled only for a present liquor or fewer than three liquors, at most three liquors stay present |
| Details.CountZero | app/src/main/java/us/romkal/barcode/DetailsViewModel.kt:106-107 | the liquor count is 0 exactly when no liquor has a level |
| Details.EncodeAsWrittenLoses | app/src/main/java/us/romkal/barcode/DetailsViewModel.kt:110-127 | for every declaration order of the liquors, some screen recipe does not survive the getter as written |
| Details.LostSingle | app/src/main/java/us/romkal/barcode/DetailsViewModel.kt:112-114 | a single liquor whose map position does not match its presence bit disappears on decoding |
| Details.LostPair | app/src/main/java/us/romkal/barcode/DetailsViewModel.kt:115-117 | Gin 1 with Vodka 2 in an order that places both presence bits right decodes Vodka as 1 |
| Details.DrinkIdBeyondNineBits | app/src/main/java/us/romkal/barcode/DetailsScreen.kt:289 | a drink id of 512 to 1023 decodes 512 lower, makes the number negative, and draws the barcode of 0 |
| Amounts.AlcoholAmountsIncreasing | app/src/main/java/us/romkal/barcode/DetailsViewModel.kt:170-179 | the liquor table has 8 strictly increasing amounts, as `binarySearch` needs |
| Amounts.BinarySearch | app/src/main/java/us/romkal/barcode/DetailsViewModel.kt:80 | `binarySearch` gives the index of a present amount, otherwise minus one minus the insertion point |
| Amounts.AmountOf | app/src/main/java/us/romkal/barcode/DetailsViewModel.kt:74-77 | level 0 shows no amount; any other level shows its table amount |
| Amounts.LevelFor | app/src/main/java/us/romkal/barcode/DetailsViewModel.kt:79-83 | the intended level for a slider amount: the highest whose amount does not exceed it, and 0 below the table |
| Amounts.LevelForAmount | app/src/main/java/us/romkal/barcode/DetailsViewModel.kt:74-83 | with the intended level, setting the amount a level shows stores that level again |
| Amounts.LevelForMonotone | app/src/main/java/us/romkal/barcode/DetailsViewModel.kt:79-83 | with the intended level, a larger slider amount never stores a lower level |
| Amounts.LevelForIsFloor | app/src/main/java/us/romkal/barcode/DetailsViewModel.kt:79-83 | with the intended level, no level above the stored one has an amount within the slider amount |
| Amounts.LevelAsWritten | app/src/main/java/us/romkal/barcode/DetailsViewModel.kt:80-81 | the setter as written stores a table amount's own level and 0 below the table, and the level it stores never shows more than the slider amount |
| Amounts.LevelAsWrittenAmount | app/src/main/java/us/romkal/barcode/DetailsViewModel.kt:74-83 | setting the amount a level shows stores that level again, also as written |
| Amounts.LevelAsWrittenOffByOne | app/src/main/java/us/romkal/barcode/DetailsViewModel.kt:80-81 | the setter as written agrees on table amounts and below the first entry, and is one level short for every other amount |
| Amounts.LevelAsWrittenDropsLiquor | app/src/main/java/us/romkal/barcode/DetailsViewModel.kt:80-81 | 0.60 oz stores level 0 as written, where level 1 is intended |
| Amounts.LevelAsWrittenNotMonotone | app/src/main/java/us/romkal/barcode/DetailsViewModel.kt:80-81 | as written, 2.35 oz stores level 7 but 2.36 oz stores level 6 |
| Amounts.LastWithin | app/src/main/java/us/romkal/barcode/DetailsViewModel.kt:130-133 | a stable sort by amount followed by `findLast` picks the largest amount within the bound, the highest index among equals, or none |
| Amounts.WaterForAmount | app/src/main/java/us/romkal/barcode/DetailsViewModel.kt:130-133 | the water level stored shows the largest table amount within the slider amount, the highest index among equals, and 0 below the table |
| Amounts.WaterForShownAmount | app/src/main/java/us/romkal/barcode/DetailsViewModel.kt:87-133 | setting the water amount a level shows keeps that amount shown |
| Amounts.WaterMonotone | app/src/main/java/us/romkal/barcode/DetailsViewModel.kt:130-133 | a larger slider amount never shows less water |
| Amounts.WaterAmountsRepeatOnce | app/src/main/java/us/romkal/barcode/DetailsViewModel.kt:135-168 | the only repeated water amount is 0.25 oz, at levels 1 and 4 |
| Amounts.WaterForLevelAmount | app/src/main/java/us/romkal/barcode/DetailsViewModel.kt:130-168 | setting a level's water amount gives that level back, except level 1, which comes back as level 4 |
| ViewModel.DetailsViewModel.constructor | app/src/main/java/us/romkal/barcode/DetailsViewModel.kt:64-104 | for a given enum order, the view model's initial state is the recipe the scanned number decodes to |
| ViewModel.DetailsViewModel.AlcoholAmount | app/src/main/java/us/romkal/barcode/DetailsViewModel.kt:74-77 | the amount shown is 0 exactly for an absent liquor, and setting it again stores the same level |
| ViewModel.DetailsViewModel.SetAlcoholAmount | app/src/main/java/us/romkal/barcode/DetailsViewModel.kt:79-83 | only that liquor's level changes, to the level the setter as written computes; the amount then shown is never above the slider amount; the three-liquor cap is kept |
| ViewModel.DetailsViewModel.WaterAmount | app/src/main/java/us/romkal/barcode/DetailsViewModel.kt:87-89 | the water amount shown is a table amount, and setting it shows it again |
| ViewModel.DetailsViewModel.SetWater | app/src/main/java/us/romkal/barcode/DetailsViewModel.kt:91-93 | only the water level changes, to the slider amount's level, the view model stays valid, and the water shown never exceeds the slider amount |
| ViewModel.DetailsViewModel.SetGlass | app/src/main/java/us/romkal/barcode/DetailsViewModel.kt:95 | only the glass changes, and the view model stays valid |
| ViewModel.DetailsViewModel.SetDrinkId | app/src/main/java/us/romkal/barcode/DetailsViewModel.kt:104 | only the drink id changes, and the view model stays valid |
| ViewModel.DetailsViewModel.AlcoholCount | app/src/main/java/us/romkal/barcode/DetailsViewModel.kt:106-107 | at most five liquors are counted, and none exactly when every level is 0 |
| ViewModel.DetailsViewModel.Barcode | app/src/main/java/us/romkal/barcode/DetailsViewModel.kt:110-127 | the getter as written: for a non-negative drink id the number is odd and decodes to the state's glass and water level; with at most three liquors it carries the drink id's low nine bits; for a screen state it is non-negative |
| ViewModel.ScanPrinted | app/src/main/java/us/romkal/barcode/DetailsViewModel.kt:64-127 | a view model built from another's barcode has the same glass, water level and drink id, and the same enum order |
| Drinks.Lines | app/src/main/java/us/romkal/barcode/DrinksViewModel.kt:45 | `lines()` gives at least one line, none holding a line break; splitting at `\n`, `\r\n` and `\r` is stated by `Drinks.LinesOfJoinWith` |
| Drinks.LinesOfJoinWith | app/src/main/java/us/romkal/barcode/DrinksViewModel.kt:45 | splitting break-free lines joined by `\n`, by `\r\n` (one break) or by a lone `\r` gives the lines back |
| Drinks.EndsWithEmptyLine | app/src/main/java/us/romkal/barcode/DrinksViewModel.kt:45 | text ending in a line break (`\n` or `\r`) has an empty last line |
| Drinks.SplitFirstComma | app/src/main/java/us/romkal/barcode/DrinksViewModel.kt:46 | `split(',', limit = 2)` has two parts exactly when the line holds a comma, split at the first comma |
| Drinks.ParseShowInt | app/src/main/java/us/romkal/barcode/DrinksViewModel.kt:47 | `toInt` reads back the decimal form of every `Int` |
| Drinks.ParseInt | app/src/main/java/us/romkal/barcode/DrinksViewModel.kt:47 | a text `toInt` accepts is non-empty, holds no comma or line break and starts with a minus sign when the value is negative; a digit string up to the largest `Int` reads as its decimal value, and a sign followed by digits as its signed value when it fits; any other text (a letter, a space, a bare sign, the empty text) and any value out of range give no number |
| Drinks.EntryOf | app/src/main/java/us/romkal/barcode/DrinksViewModel.kt:46-47 | a line gives an entry exactly when the text before its first comma reads as an `Int`; the entry is that `Int` and everything after the first comma |
| Drinks.AssociateFails | app/src/main/java/us/romkal/barcode/DrinksViewModel.kt:45-48 | parsing fails exactly when some line fails |
| Drinks.ParseCsv | app/src/main/java/us/romkal/barcode/DrinksViewModel.kt:44-49 | `parseCsv` fails exactly when some line of the text gives no entry |
| Drinks.AssociateKeys | app/src/main/java/us/romkal/barcode/DrinksViewModel.kt:45-48 | the map's keys are exactly the codes of the lines |
| Drinks.AssociateLastWins | app/src/main/java/us/romkal/barcode/DrinksViewModel.kt:45-48 | for a repeated code the last line's name wins |
| Drinks.TrailingBreakFails | app/src/main/java/us/romkal/barcode/DrinksViewModel.kt:44-49 | a text ending in a line break (`\n` or `\r`) makes parsing fail |
| Drinks.ParseRendered | app/src/main/java/us/romkal/barcode/DrinksViewModel.kt:44-49 | parsing one `code,name` line per entry, separated by any of the three line breaks, gives the map of the entries, later entries winning |

## Left out

- Camera frames: `ImageProxy`, the plane buffer and the frame's orientation are a value `Image` whose luminance plane is a sequence; `ValidImage` states the size the buffer reads need.
- Camera, printing, sharing and e-mail (`Camera.kt`, `CameraScreen.kt`, `BarcodePrinter.kt` apart from its call to `toIntervals`, `shareImageIntent`) are platform I/O and are not modelled.
- Loading the drink list from the assets, the `drinkMap` flow and the exception logging around `parseCsv` are I/O; `parseCsv` is modelled on the text.
- Compose state, `derivedStateOf`, recomposition and concurrency are not modelled; the view model's state is plain fields.
- The screens' layout and navigation (`MainActivity.kt`, `Menu.kt`, `Destinations.kt`, `DetailsScreen.kt` apart from the slider rule and the drink-id check) are user interface and are not modelled.
- The debug `println` in `Code128.tryParse` (Code128.kt:18, printed on a checksum mismatch) is output only and is left out.
- Floating-point amounts are integer hundredths of an ounce; `roundToInt` in `normalizeSegments` is exact rounding to nearest, halves up.
- Amounts.BinarySearch: modelled by the library's documented result on a table without repeats, not by its probing loop.
- Amounts.LastWithin: `sortedBy { … }.findLast { … }` is modelled by what the stable sort and the search from the end pick, not by sorting.
- Details.EncodeAsWritten: the liquor enum's declaration is not part of this model, so the map order the getter follows is a parameter: the view model's constructor takes it, and the finding is proved for every order.
- ViewModel.DetailsViewModel.Barcode: does not promise that the liquor levels come back, because the getter as written loses them for some recipes (see Findings).
- ViewModel.ScanPrinted: promises the glass, water level and drink id only, for the same reason.
- Details.PrintScanRoundTrip: promises the number round trip and the glass, water level and drink id, not the liquor levels, for the same reason; Details.PrintScanRoundTripCorrected promises the whole recipe with the corrected getter.
- ViewModel.DetailsViewModel.constructor: the `IllegalArgumentException` for glass bits `110` is a precondition; `Details.Decode` models that error path as a result.
- Int32Bits.HasBitMeans: stated for bits 0 to 30; the source tests bits 8 to 12 only.
- Drinks.ParseInt: `toInt` accepts only ASCII digits here; Kotlin also accepts other Unicode decimal digits.
- The drink-id text field's parsing on the details screen is not modelled; only its range check is.

## Findings

| source | as written | input that shows it | evidently intended | confidence | as-written member | corrected member |
|---|---|---|---|---|---|---|
| app/src/main/java/us/romkal/barcode/DetailsViewModel.kt:112-117 | the `barcode` getter sets presence bit `8 + index` and lays out the level fields in the liquor map's order, while the decoder expects Tequila, Vodka, Gin, Rum, Whiskey at bits 11, 10, 8, 9, 12 | a single liquor whose map position differs from its presence bit (it decodes as absent), or Gin 1 with Vodka 2 (Vodka decodes as 1) | set each liquor's own presence bit and lay the fields out in the decoder's order, so that decoding gives the recipe back | not executed | Details.EncodeAsWrittenLoses | Details.DecodeEncode |
| app/src/main/java/us/romkal/barcode/DetailsViewModel.kt:80-81 | an amount not in the table and above its first entry stores `-(−ip−1+1)−1 = ip−1`, one level below the insertion point's floor (below the first entry, `ip = 0` stores 0) | 0.60 oz stores level 0, which drops the liquor; 2.36 oz stores 6 while 2.35 oz stores 7 | store the highest level whose amount does not exceed the slider amount | not executed | Amounts.LevelAsWrittenOffByOne | Amounts.LevelFor |
| app/src/main/java/us/romkal/barcode/DetailsScreen.kt:289 | the drink-id field accepts 0..1023 (ten bits), but the number holds nine bits for it | drink id 512 decodes as 0, sets bit 31 and makes the number negative, which `toIntervals` draws as code 0 | accept 0..511 | not executed | Details.DrinkIdBeyondNineBits | Details.BarcodeRoundTrip |
