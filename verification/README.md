# FreeSMS: verified models

Models in Dafny of the parts of FreeSMS, a workshop's shop management system, where a mistake is costly and hard to
see, with proofs of what those parts promise. `dafny verify dfyconfig.toml` checks everything.

**Payment codes (`Gf256` to `QrFigure`).** The QR encoder of invoices, byte mode, level M, versions 1 to 20 (ISO/IEC
18004:2015). Multiplication in GF(256) is proved a field product; the generator and the remainder computed in place
are proved to give the Reed-Solomon code, with its distance; the bit stream, the interleaving, the zigzag placement
and the search over the masks are proved step by step, in place on arrays. A reader without error correction is
written independently as functions from a grid of modules to a message, and the encoder is proved to be undone by it
for every input it accepts. What a reader that shares a definition cannot see is fixed against the standard's tables
and figures: capacities and blocks, format and version words, the tile of each mask, and the finished symbol module by
module. The penalty score is an arbitrary function of the grid: it only chooses among valid codes.

**Rental prices (`Calendar`, `RentalPricing`, `RentalSeasons`).** What a rental costs is specified over every
combination of months, weeks, days and hours that reaches the time to be paid for; the bounded four-deep search is
proved to miss none that is cheaper. On top of that: grace, minimum, the weekend, and the split over seasons. Moments
are wall-clock nanoseconds from Monday 1 January of year 1, with the Gregorian calendar spelled out for adding months.

**Money (`Money`, `Totals`).** Rounding half away from zero, VAT and back, the margin scheme, and the totals of an
invoice with the int64 bound that really holds.

**Payment references (`Luhn`, `PayRef`) and part labels (`Code128`).** What the check digits catch, and that what is
written is read back.

**Machines (`LiveHub`, `LiveRuns`, `Owners` to `OwnersQuiet`, `ModuleCache`, `Migrate`).** Each is a set of steps, and
the main results hold for every sequence of steps, so for every interleaving: the live hub with its bounded, lossy
channels; the transactions that switch users off and change their roles under row locks; the cache of a shop's modules
guarded by a generation count; and the migration runner over many runs and releases. `LiveHub`, `Owners`,
`ModuleCache` and `Migrate` also hold the operations themselves as methods on a class with the source's fields.

**Contract checks (`CallGraph`).** The fixed point that finds which functions check a module.

`Wrappers`, `Arithmetic`, `Sequences`, `Sets` and `Runs` hold what the others share.

Where the source's comments and its code disagree, or a promise holds only in part, the code is modelled:

- A comment says a hundred thousand lines at the limits fit in an int64 (internal/money/money.go:56-60). The net
  amounts of 92,233 such lines do, and net with VAT at 100 per cent of 46,116; `Totals.LimitExact` proves both limits
  exact.
- A comment says a weekend rental starts on a Friday (internal/money/rental.go:313-314). The code also accepts starts
  on the Saturday and Sunday (lines 323-326); `Calendar.WeekendBounds` states the interval it accepts, and
  `Calendar.SaturdayStart` is a rental it takes.
- A typed price with VAT comes back within one minor unit, whatever the price, exactly at rates up to 200 per cent:
  `Money.TypedGrossExact`. Plans are refused above 100 per cent (internal/workshop/rental_rates.go:123-124), so no
  price that is shown again is at a rate where it fails.
- A comment says two owners who switch each other off or take each other's role away at once cannot leave nobody
  (internal/auth/session.go:319-322). With roles that stay as they are that holds
  (`Owners.AlwaysAnOwnerWithFixedRoles`). With roles changed meanwhile (internal/workshop/staff.go:182-247) it holds
  while every role change commits at a quiet moment, one that misleads no transaction under way
  (`Owners.AlwaysAnOwner`); after the first that does not, quiet steps alone can leave nobody
  (`OwnersQuiet.QuietExactly`). `OwnersQuiet.GrantedMeanwhile`, `GrantedAfterSnapshot`, `TakenMeanwhile` and
  `TakenTwice` are runs that do. A row is looked at again once its lock is got, but the roles a person has besides
  their main one are in another table and stay as the statement's snapshot had them.

## Model

| member | source | states |
|---|---|---|
| Gf256.QrMul | internal/barcode/qr.go:136-143 | Eight rounds of shift, reduce and add on a wide register give the field product of the two bytes. |
| Gf256.XtimeAdditive | internal/barcode/qr.go:139 | Shifting and reducing by 0x11D is linear over XOR. |
| Gf256.MulDistributes | internal/barcode/qr.go:136-143 | The product distributes over XOR on both sides. |
| Gf256.MulCommutes | internal/barcode/qr.go:136-143 | The product is commutative. |
| Gf256.MulAssociates | internal/barcode/qr.go:136-143 | The product is associative. |
| Gf256.MulOne | internal/barcode/qr.go:136-143 | 1 is the product's unit. |
| Gf256Field.OrderOfTwo | internal/barcode/qr.go:150-158 | 2 has order exactly 255: its first 254 powers after the zeroth are all different from 1. |
| Gf256Field.PowersDistinct | internal/barcode/qr.go:150-158 | The roots 2^0 to 2^254 the generators are built from are pairwise different. |
| Gf256Field.Logarithm | internal/barcode/qr.go:136-143 | Every byte but 0 is a power of 2. |
| Gf256Field.NoZeroDivisors | internal/barcode/qr.go:136-143 | A product is 0 only if a factor is. |
| Gf256Field.Modulus | internal/barcode/qr.go:135-143 | 2 satisfies the field's defining equation, x^8 = x^4 + x^3 + x^2 + 1. |
| ReedSolomon.QrDivisor | internal/barcode/qr.go:146-160 | The in-place loops fill the array with the product of (x - 2^i) for i below n, its leading 1 left out. |
| ReedSolomon.GeneratorRoots | internal/barcode/qr.go:145-160 | That product is zero at 2^0 .. 2^(n-1). |
| ReedSolomon.GeneratorMonic | internal/barcode/qr.go:145-150 | It has degree n and leading coefficient 1, so leaving that out loses nothing. |
| ReedSolomon.Divide | internal/barcode/qr.go:165-172 | One codeword's round shifts the register in place and adds the divisor scaled by the leading sum. |
| ReedSolomon.QrRemainder | internal/barcode/qr.go:163-174 | The register ends as the remainder of the block times x^n, for any block and divisor; the divisor is untouched. |
| ReedSolomon.RemainderRoot | internal/barcode/qr.go:163-174 | At every root of the divisor, the remainder equals the block times x^n. |
| ReedSolomon.CodewordRoots | internal/barcode/qr.go:146-174 | Every block followed by its remainder is zero at 2^0 .. 2^(n-1). |
| ReedSolomonDistance.FewNonzeros | internal/barcode/qr.go:146-174 | A word of at most 255 symbols with n such roots and at most n symbols other than 0 is all 0. |
| ReedSolomonDistance.RootsFarApart | internal/barcode/qr.go:146-174 | Two different words with the same n roots differ in more than n positions. |
| ReedSolomonDistance.CodewordsFarApart | internal/barcode/qr.go:162-174 | Two different blocks of one length get codewords that differ in more than n positions, up to 255 symbols. |
| ReedSolomonDistance.RemainderUnique | internal/barcode/qr.go:162-174 | The remainder is the only tail of n symbols that makes the block a codeword. |
| QrTables.BlocksFillSymbol | internal/barcode/qr.go:27-33 | For every version the block table accounts for the codewords the geometry gives, and no block with its correction exceeds 255. |
| QrTables.BlocksDetermined | internal/barcode/qr.go:24-33 | The standard's capacity and number of blocks determine every row of the table: the data spread evenly, longer blocks last, the correction what the geometry leaves. |
| QrTables.AlignmentCentres | internal/barcode/qr.go:36-40 | The alignment centres are as many as the geometry's formula counts, start on the timing pattern and lie at least 12 apart. |
| QrTables.AlignmentSteps | internal/barcode/qr.go:35-40 | Counted back from the far edge, the centres lie in equal even steps, only the first one on the timing pattern. |
| QrStream.Put | internal/barcode/qr.go:102-106 | Appends exactly the n lowest bits of the value, highest first. |
| QrStream.PutHeader | internal/barcode/qr.go:107-115 | Designator if there is one, mode, count and bytes, in that order. |
| QrStream.PackBits | internal/barcode/qr.go:119-128 | Packs the bits eight to a byte, first bit highest. |
| QrStream.BitsOfByte | internal/barcode/qr.go:113-115 | Putting a byte as an eight-bit number puts its bits. |
| QrStream.UnpackPacked | internal/barcode/qr.go:119-128 | Packed bits unpack to themselves. |
| QrStream.PackUnpacked | internal/barcode/qr.go:119-128 | Unpacked codewords pack to themselves. |
| QrStream.PutEnd | internal/barcode/qr.go:116-118 | Up to four terminator bits and light bits to the end of a byte, never past the capacity. |
| QrStream.QrStream | internal/barcode/qr.go:100-133 | The data codewords are the packed header and terminator, filled up with 0xEC and 0x11 in turn. |
| QrStream.StreamBits | internal/barcode/qr.go:100-133 | The codewords' bits start with the header and go on as section 7.4 says a reader may expect. |
| QrStream.StreamParsed | internal/barcode/qr.go:100-133 | Parsing the stream gives back exactly the data and the designator. |
| QrStream.LightAfterData | internal/barcode/qr.go:116-118 | After the data come light bits only, up to where the pads begin. |
| QrStream.PadsToTheEnd | internal/barcode/qr.go:130-132 | From there to the end the codewords are 236 and 17 in turn. |
| QrInterleave.SplitBlocks | internal/barcode/qr.go:181-187 | The data is cut into consecutive blocks of the table's lengths, both groups. |
| QrInterleave.WeaveBlocks | internal/barcode/qr.go:188-204 | The nested loops take one codeword of each block in turn, where the block has one. |
| QrInterleave.CorrectBlocks | internal/barcode/qr.go:196-199 | Every block gets its own remainder, with one divisor for all. |
| QrInterleave.QrInterleave | internal/barcode/qr.go:178-206 | The placed codewords are the data blocks woven, then their corrections woven. |
| QrInterleave.FlattenSplit | internal/barcode/qr.go:181-187 | The blocks put together again are the data. |
| QrInterleave.UnweaveWeave | internal/barcode/qr.go:188-204 | From any column and block on, handing codewords to blocks in turn rebuilds blocks of any lengths. |
| QrInterleave.WeaveLength | internal/barcode/qr.go:188-204 | Weaving places every codeword once. |
| QrInterleave.DeinterleaveInverse | internal/barcode/qr.go:178-206 | Reading the placed codewords back gives the data, in blocks each of which is a codeword with its correction. |
| QrInterleave.CodewordPlaced | internal/barcode/qr.go:181-195 | The i-th data codeword of block k stands at a closed-form place, for both lengths of blocks. |
| QrInterleave.CorrectionPlaced | internal/barcode/qr.go:196-204 | After the data, column by column, comes each block's correction. |
| QrPath.PathVisitsAll | internal/barcode/qr.go:260-276 | The zigzag visits every module outside column 6 exactly once, and no other. |
| QrPath.PathAt | internal/barcode/qr.go:260-276 | The zigzag in closed form: pair after pair of columns from the right, column 6 left out, the first pair upwards and then in turn, right module before left. |
| QrPath.PathIsZigzag | internal/barcode/qr.go:260-276 | It starts in the lower right corner and moves to the left neighbour, then to the next row of the pair, and takes up the next pair in the row the last was left in. |
| QrGeometry.FunctionCellsAtMost | internal/barcode/qr.go:61-75 | The function modules are at most those the geometry's formula leaves out. |
| QrGeometry.FreeModules | internal/barcode/qr.go:61-75 | For every version the zigzag passes at least as many free modules as the formula says, so every codeword finds its place. |
| QrPatterns.FunctionModules | internal/barcode/qr.go:215-256 | A module is a function module if and only if it lies in one of the standard's regions. |
| QrPatterns.FormatCarriesMask | internal/barcode/qr.go:295-301 | The mask can be read off three bits of its format word. |
| QrPatterns.FormatWords | internal/barcode/qr.go:294-301 | The format information computed is the standard's table, mask by mask. |
| QrPatterns.VersionWords | internal/barcode/qr.go:244-251 | The version information computed is the standard's table, version by version. |
| QrPatterns.MaskIsTiled | internal/barcode/qr.go:322-349 | Each mask repeats a tile of six columns and at most six rows, given as a figure. |
| QrPatterns.NearIsCentre | internal/barcode/qr.go:231-243 | A module belongs to at most one alignment pattern. |
| QrSymbol.QR.Set | internal/barcode/qr.go:211-214 | Colours one module, reserves it, and changes no other. |
| QrSymbol.QR.DrawTiming | internal/barcode/qr.go:215-218 | Exactly the timing modules are drawn, dark and light in turn. |
| QrSymbol.QR.DrawRings | internal/barcode/qr.go:220-230 | Exactly the modules within r of the centre and inside the symbol are drawn, coloured by their ring. |
| QrSymbol.QR.DrawFinders | internal/barcode/qr.go:219-230 | The three finders with their separators, and nothing else. |
| QrSymbol.QR.DrawAlignments | internal/barcode/qr.go:231-243 | Every alignment pattern but the three under finders, and nothing else. |
| QrSymbol.QR.Format | internal/barcode/qr.go:294-319 | Both copies of a mask's format information and the dark module, whatever was drawn there before. |
| QrSymbol.QR.FirstCopy | internal/barcode/qr.go:303-311 | The first copy's fifteen modules show the format word's bits. |
| QrSymbol.QR.SecondCopy | internal/barcode/qr.go:312-318 | The second copy's fifteen modules do too, and the dark module is dark. |
| QrSymbol.QR.DrawVersion | internal/barcode/qr.go:245-256 | From version 7 on both copies of the version information, below that nothing. |
| QrSymbol.QR.DrawFunction | internal/barcode/qr.go:215-256 | After all drawing exactly the function modules are reserved, each as the last pattern over it says. |
| QrSymbol.QR.PlaceAt | internal/barcode/qr.go:271-274 | One module of the zigzag: a free one takes the next bit while there is one, a reserved one is left alone. |
| QrSymbol.QR.PlacePair | internal/barcode/qr.go:264-276 | One pair of columns carries the placement on along the zigzag. |
| QrSymbol.QR.Place | internal/barcode/qr.go:258-277 | The codewords' bits stand on the free modules in zigzag order, none elsewhere, and no function module has changed. |
| QrSymbol.QR.Mask | internal/barcode/qr.go:322-349 | Turns over exactly the modules the mask selects that are not reserved. |
| QrSymbol.QR.Show | internal/barcode/qr.go:281-282 | A mask tried shows the placed bits under it and its own format information. |
| QrSymbol.QR.Unmask | internal/barcode/qr.go:286 | Taking the mask off again leaves every placed bit and function module as it was. |
| QrEncoder.ChooseMask | internal/barcode/qr.go:279-290 | The finished symbol is the placed bits under the first mask of least penalty, whatever the penalty function. |
| QrEncoder.FirstBestExactly | internal/barcode/qr.go:279-288 | No other mask has less penalty, and no other is the first of the least. |
| QrEncoder.QrBuild | internal/barcode/qr.go:208-291 | A symbol of the version's size that shows the interleaved codewords under the chosen mask. |
| QrEncoder.MaskRead | internal/barcode/qr.go:294-319 | A reader that compares both format copies finds the mask that was used, and no other. |
| QrEncoder.BitsRead | internal/barcode/qr.go:258-277 | Unmasking the free modules in zigzag order gives back the placed bits. |
| QrEncoder.DecodeSymbol | internal/barcode/qr.go:100-349 | Whatever mask is used, the symbol reads back as the data and the designator. |
| QrFigure.FindersShown | internal/barcode/qr.go:219-230 | Every finished symbol shows the finder with its separator in three corners, each as seen from its corner. |
| QrFigure.TimingShown | internal/barcode/qr.go:215-218 | Between them both timing lines are dark at even places, also where alignment patterns cross them. |
| QrFigure.AlignmentShown | internal/barcode/qr.go:231-243 | Every alignment pattern not under a finder is there, module by module. |
| QrFigure.FormatShown | internal/barcode/qr.go:294-319 | Both copies show the mask's word from the standard's table, and the dark module is dark. |
| QrFigure.VersionShown | internal/barcode/qr.go:245-256 | From version 7 on both blocks show the version's word from the standard's table. |
| QrFigure.DataShown | internal/barcode/qr.go:258-349 | Bit k stands on the k-th free module of the zigzag, turned over where the mask's tile is dark. |
| QrEncoder.FitsCapacity | internal/barcode/qr.go:81-94 | A version holds the standard's number of bytes, and one less with a designator. |
| QrEncoder.EncodeQR | internal/barcode/qr.go:78-97 | Refuses exactly bad designators and data no version holds; otherwise the rows are those of the smallest version that holds it, under the first mask of least penalty, and read back as the data. |
| Calendar.AddMonthsIncreases | internal/money/rental.go:260-267 | Adding more whole months to a moment always gives a later one, day overflow included. |
| Calendar.SaturdayStart | internal/money/rental.go:313-332 | A rental that starts on a Saturday and ends with the Sunday is within one weekend; ending at one on the Monday afternoon it is not. |
| Calendar.WeekendBounds | internal/money/rental.go:313-332 | A rental is within one weekend exactly from Friday noon to Monday noon of its week. |
| Calendar.MonthBegins | internal/money/rental.go:266-268 | Every month of every year begins where a closed count of days says, leap years included. |
| Calendar.MonthsOn | internal/money/rental.go:159-171 | Any number of months on from a day and time is the same day number and time, counted from that month's first day, so a day past its end runs over. |
| Calendar.NamedDay | internal/money/rental.go:311-332 | The days of the week are named right: 1 March 2000 is a Wednesday. |
| RentalPricing.SearchSuffices | internal/money/rental.go:260-304 | For every cover whatever there is one within the search's bounds that costs no more. |
| RentalPricing.TriedCovers | internal/money/rental.go:266-303 | Everything the search tries covers the period with priced units. |
| RentalPricing.NetOfLines | internal/money/rental.go:67-68 | The lines' rounded amounts add up to exactly the units times their prices. |
| RentalPricing.LinesNamed | internal/money/rental.go:289-301 | A cover's lines are one for each kind of unit it has, with its number and price, largest first. |
| RentalPricing.CoverEnds | internal/money/rental.go:266-281 | A cover ends so many weeks, days and hours, counted in nanoseconds, after its months do. |
| RentalPricing.Consider | internal/money/rental.go:246-256 | Keeps the cheaper of what was found and what is offered. |
| RentalPricing.CountMonths | internal/money/rental.go:260-265 | The fewest months that reach the needed moment. |
| RentalPricing.SearchMonths | internal/money/rental.go:260-304 | The four loops find lines that pay, no dearer than any combination they try. |
| RentalPricing.PriceWall | internal/money/rental.go:228-309 | Lines that cover the needed period, no dearer than any cover at all or the weekend where it fits; no price only when nothing covers it. |
| RentalPricing.PriceMeans | internal/money/rental.go:228-309 | An answer in full: to before from, or more than 60 months, is refused; otherwise the cheapest of all lines that reach past the start, up to the minimum, and up to the end less the grace, or no price when there are none. |
| RentalPricing.PriceUnique | internal/money/rental.go:228-309 | The amount is determined by the rental and its terms, whichever lines are chosen. |
| RentalPricing.LaterNeverCheaper | internal/money/rental.go:228-309 | Ending later never costs less, and every earlier end is priced too. |
| RentalPricing.WithinGraceCostsNoMore | internal/money/rental.go:235-244 | An end up to the grace past what is paid for costs no more. |
| RentalSeasons.AddUnit | internal/money/rental.go:184-188 | A unit joins the last line if it is alike and starts a new one otherwise; expanded, the lines are those units. |
| RentalSeasons.FindSeason | internal/money/rental.go:173-179 | The last season begun at a moment, or the first. |
| RentalSeasons.SplitUnits | internal/money/rental.go:158-196 | Expanded, the lines are the chosen units in order, each priced by the season at its own start, and no two neighbours are alike. |
| RentalSeasons.FindInside | internal/money/rental.go:124-136 | The season a rental starts in and those starting before it ends. |
| RentalSeasons.PriceRentalSeasons | internal/money/rental.go:117-197 | Wholly by the season it starts in, or the cheapest units under that season split over the seasons; its errors in the source's order. |
| RentalSeasons.SeasonPriceMeans | internal/money/rental.go:117-197 | Which season chooses, whether the weekend may, and whether units are split, for every rental and list of seasons. |
| RentalSeasons.UnitsTile | internal/money/rental.go:158-194 | Every unit starts where the ones before it end: months counted from the start, then weeks, days and hours from where the months end. |
| RentalSeasons.SplitMeans | internal/money/rental.go:171-194 | Every unit is sold once, in order, under the last season begun when it starts, at that season's price or else the first's. |
| RentalSeasons.SplitUnique | internal/money/rental.go:171-196 | A split rental's lines are determined: the units fix them, since neighbours that could be one line are one. |
| RentalSeasons.SplitHasNoWeekend | internal/money/rental.go:144-149 | A split rental never has the weekend's line. |
| RentalSeasons.SplitKeepsCounts | internal/money/rental.go:144-196 | A split neither adds nor drops a unit of any kind. |
| RentalSeasons.SplitSeasonsAscend | internal/money/rental.go:144-196 | Season numbers never go down along the lines of a split rental. |
| Money.DivRoundIsNearest | internal/money/money.go:46-54 | The quotient is a nearest integer, the one further from zero where two are. |
| Money.NearestIsDivRound | internal/money/money.go:46-54 | And it is the only such integer. |
| Money.AmountsAreNearest | internal/money/money.go:76-116 | A line's net, its VAT, the gross, the VAT in a gross and the net of a gross are each the nearest whole minor unit. |
| Money.NothingNearer | internal/money/money.go:46-54 | No whole number is nearer than the rounded one. |
| Money.HalvesAwayFromZero | internal/money/money.go:23-27 | A half goes up above zero, and both sides of zero are rounded alike. |
| Money.WholeUnits | internal/money/money.go:76-78 | Whole units cost exactly their number times the price. |
| Money.VatRoundTrip | internal/money/money.go:81-116 | The VAT in net plus VAT is exactly that VAT, and converting that gross back gives exactly that net, either sign, any rate. |
| Money.TypedGross | internal/server/handlers_rental.go:132-144 | A typed gross stored net and shown again moves by at most 1 + rate/20000, so by at most one below 200 per cent. |
| Money.TypedGrossMovesByTwo | internal/server/handlers_rental.go:500-513 | At every rate above 200 per cent some typed price moves by two. |
| Money.TypedGrossExact | internal/server/handlers_rental.go:132-144 | Every typed price comes back within one if and only if the rate is at most 200 per cent. |
| Money.MarginSchemeParts | internal/money/money.go:103-160 | Accepts exactly amounts up to a thousand million and rates up to 100 per cent, none below nothing; VAT and base make up a margin above nothing and are nothing otherwise, the base's own VAT is that VAT to within one, and no product leaves int64. |
| Totals.AddLine | internal/money/money.go:215-233 | One line is added to its rate's band and to the totals, or to nothing if it is not charged. |
| Totals.SortRates | internal/money/money.go:236-241 | The in-place insertion sort leaves the same rates in ascending order. |
| Totals.Compute | internal/money/money.go:210-246 | Totals are the sums of each line's rounded amounts, with one band for each rate in use, strictly ascending. |
| Totals.OneMoreLine | internal/money/money.go:210-246 | A line not charged changes nothing; a charged one adds its rounded net, and the VAT of that, to the totals and to the band of its rate alone. |
| Totals.BandsAddUp | internal/money/money.go:221-246 | The bands' amounts add up to the totals. |
| Totals.OrderDoesNotMatter | internal/money/money.go:210-246 | Any reordering of the lines has the same totals and the same bands in the same order. |
| Totals.TotalsFit | internal/money/money.go:56-70 | For up to 46,116 ordinary lines no product, no rounding and no running total leaves int64. |
| Totals.OrdinaryExactly | internal/money/money.go:61-70 | The lines a form accepts: up to 100,000 units and ten million a unit, nothing negative, up to 100 per cent VAT. |
| Totals.LimitExact | internal/money/money.go:56-64 | With lines at the limits and VAT at 100 per cent the gross fits exactly up to 46,116 lines, the net alone up to 92,233. |
| Luhn.CheckDigit | internal/payref/payref.go:51-64 | The loop computes the digit that takes the weighed sum to the next ten. |
| Luhn.WeighedIsDigitSum | internal/payref/payref.go:51-64 | Every other digit from the right counts as the digits of its double, the others once. |
| Luhn.PublishedExample | internal/payref/payref.go:51-64 | Bankgirot's own example: 1234568 has the check digit 2. |
| Luhn.PassesIsMultipleOfTen | internal/payref/payref.go:51-64 | A string passes exactly when its weighed sum, check digit included, is a multiple of ten. |
| Luhn.OneDigitChanged | internal/payref/payref.go:51-64 | Changing any one digit of a string that passes makes it fail. |
| Luhn.NeighboursSwapped | internal/payref/payref.go:51-64 | After swapping two neighbours it still passes if and only if they are equal or are 0 and 9. |
| Luhn.LeadingZerosIgnored | internal/payref/payref.go:51-64 | Leading zeros never change the verdict. |
| PayRef.Ocr | internal/payref/payref.go:68-81 | The default series' reference, or why there is none. |
| PayRef.OcrFor | internal/payref/payref.go:94-122 | The reference of a number in any series, or why there is none. |
| PayRef.ReferenceRefuses | internal/payref/payref.go:68-122 | Each refusal exactly when it applies, and the length of a reference otherwise. |
| PayRef.ReferenceNamesInvoice | internal/payref/payref.go:68-122 | The invoice's series and number can be read off its reference. |
| PayRef.ReferencesDiffer | internal/payref/payref.go:85-122 | Two different invoices never share a reference. |
| PayRef.CheckOcr | internal/payref/payref.go:134-159 | Reads what somebody typed, with the source's errors in the source's order. |
| PayRef.OneLengthFits | internal/payref/payref.go:152-157 | The length digit never fits both with and without a leading 0. |
| PayRef.IssuedIsCanonical | internal/payref/payref.go:128-133 | Every issued reference passes, its length digit fits, and it starts with at most one 0. |
| PayRef.ReadExactly | internal/payref/payref.go:134-159 | What is typed reads as a canonical reference if and only if, squeezed, it is that reference with leading zeros lost or added, within 25 digits. |
| PayRef.ReadIsCanonical | internal/payref/payref.go:134-159 | Whatever is accepted is read as a canonical reference. |
| PayRef.ReadRefuses | internal/payref/payref.go:134-159 | Each refusal and the acceptance exactly when, on the squeezed text: not 2 to 25 digits, a failing check digit, passing but no reference up to leading zeros, or one. |
| PayRef.TrimSpaceIs | internal/payref/payref.go:135-140 | Space around what is typed is dropped, and nothing else. |
| PayRef.WhiteSpace | internal/payref/payref.go:135-140 | Which characters count as space around it. |
| PayRef.IssuedReferenceRead | internal/payref/payref.go:134-159 | An issued reference is read back as itself through any spaces, hyphens and leading zeros lost or added. |
| Code128.Modules | internal/barcode/code128.go:58-81 | Refuses exactly the empty text and anything but space to tilde; otherwise start symbol, text, check symbol and stop as widths. |
| Code128.PatternRead | internal/barcode/code128.go:28-40 | Every symbol's six widths are found again as that symbol: the table has no two alike. |
| Code128.SymbolsShaped | internal/barcode/code128.go:20-40 | Every symbol has widths of 1 to 4, eleven in all, its bars an even width; the stop symbol has two more. |
| Code128.SymbolsRead | internal/barcode/code128.go:74-80 | Any symbols' widths and the stop read back as those symbols. |
| Code128.TextRead | internal/barcode/code128.go:58-81 | A reader that weighs the symbols it sees decodes the widths of an accepted text to that text. |
| Code128.OneCharacterChanged | internal/barcode/code128.go:63-72 | Replacing one character changes the check symbol if and only if its position is not a multiple of 103. |
| Code128.NeighboursSwapped | internal/barcode/code128.go:63-72 | Swapping two different neighbours anywhere always changes the check symbol. |
| LiveHub.Hub.constructor | internal/live/hub.go:50-52 | A hub with nobody on it. |
| LiveHub.Hub.Subscribe | internal/live/hub.go:56-69 | Refused exactly when full or stopped, changing nothing; otherwise one new open channel and one more in the count. |
| LiveHub.Hub.Unsubscribe | internal/live/hub.go:72-84 | The subscription goes, its channel is closed, an emptied shop is dropped; one already gone changes nothing. |
| LiveHub.Hub.Offer | internal/live/hub.go:97-110 | A channel with room gets the topic; a full one loses its oldest and gets "everything". |
| LiveHub.Hub.Publish | internal/live/hub.go:89-113 | Exactly the shop's channels, or all for shop "", are offered the topic, whatever the iteration order. |
| LiveHub.Hub.Stop | internal/live/hub.go:164-175 | Every live channel is closed once and no subscription is left, whatever the iteration order. |
| LiveHub.SubscribedConsistent | internal/live/hub.go:56-69 | The count, the maps and the open channels still agree after subscribing. |
| LiveHub.UnsubscribedConsistent | internal/live/hub.go:72-84 | And after unsubscribing; the channel closed was open. |
| LiveHub.PublishedConsistent | internal/live/hub.go:89-113 | And after publishing. |
| LiveHub.StoppedConsistent | internal/live/hub.go:164-175 | And after stopping. |
| LiveHub.RefusesExactly | internal/live/hub.go:56-61 | A subscription is refused if and only if the hub is stopped or as many channels are open as it may have. |
| LiveHub.PublishedExactly | internal/live/hub.go:86-113 | Exactly the open channels of the shop, or of every shop for "", get the topic at the end of up to 32, or "*" in place of their oldest. |
| LiveHub.StoppedExactly | internal/live/hub.go:164-175 | Every channel is closed with what is queued in it left to be received. |
| LiveRuns.RoomForEverything | internal/live/hub.go:106-109 | The third select always finds room on an open channel, however clients receive meanwhile. |
| LiveRuns.StepKeepsInv | internal/live/hub.go:56-175 | Every step of every operation, select by select, keeps the machine's invariant. |
| LiveRuns.EveryRun | internal/live/hub.go:56-175 | The invariant holds after every interleaving. |
| LiveRuns.NothingMissed | internal/live/hub.go:86-113 | Every topic offered to a subscription's channel is received or queued, or an "everything" enqueued at or after it is. |
| LiveRuns.CoveredMeans | internal/live/hub.go:86-88 | That is: the client has received the topic of that publication or a "*" of it or a later one, or its queue holds one of them. |
| LiveRuns.ReceivedInOrder | internal/live/hub.go:43-47 | What a client receives is what was published or "everything", in the order of the publications, none twice. |
| LiveRuns.BoundsHold | internal/live/hub.go:29-69 | Queues never exceed 32, the count is the number of subscriptions and at most max, and no closed channel is sent to or closed again. |
| LiveRuns.ClosedPanics | internal/live/hub.go:97-110 | A step that sends on a closed channel or closes one again panics, and no step undoes it, so that none panics says something. |
| LiveRuns.PublicationReaches | internal/live/hub.go:86-113 | A publication begun in any reachable state and ended, whatever else happens meanwhile, is published to every subscription of its shop, and is received, queued or made up for there. |
| LiveRuns.UninterruptedPublication | internal/live/hub.go:89-113 | In any order of the channels, a publication nothing interrupts amounts to the method's one step once it ends. |
| LiveRuns.PublicationCanFinish | internal/live/hub.go:89-113 | From every state a publication can be in, its own steps can end it. |
| Owners.Accounts.OtherOwnersCount | internal/auth/session.go:323-335 | The number of active owners other than the user. |
| Owners.Accounts.Deactivate | internal/auth/session.go:342-384 | Each refusal exactly when it applies and changing nothing; otherwise the user is off and all their sessions, and only theirs, are gone. |
| Owners.StepKeepsInv | internal/auth/session.go:319-384 | Every statement of a transaction, every snapshot, lock, wait, commit and abort keeps what the others have counted and read true, role changes included at quiet moments. |
| Owners.EveryQuietRun | internal/workshop/staff.go:182-247 | The invariant holds after every interleaving of switching off and changing roles whose role changes commit at quiet moments. |
| Owners.AlwaysAnOwner | internal/auth/session.go:319-384 | A shop that starts with an active owner always has one, through every such interleaving. |
| Owners.AlwaysAnOwnerWithFixedRoles | internal/auth/session.go:319-384 | While nobody's roles are changed that holds through every interleaving. |
| Owners.RefusedIsLast | internal/auth/session.go:364-374 | While nobody is switched on, hired or made an owner, whoever is refused as the last owner is exactly the one active owner. |
| Owners.AddedOwners | internal/auth/session.go:319-322 | Switching somebody on and hiring make exactly the active owners they should. |
| OwnersAlone.AloneMeetsVerdict | internal/auth/session.go:352-384 | Any run in which one transaction alone moves, and ends without an abort, has refused it exactly for an unknown user or the last active owner, and otherwise has done its job and nothing else. |
| OwnersAlone.AloneCanEnd | internal/auth/session.go:352-384 | From every state a transaction alone can be in, its own steps can end it if nobody else holds a row it needs. |
| OwnersQuiet.MisledLoses | internal/workshop/staff.go:182-247 | Once any transaction is misled, by an old snapshot, an old reading of a role or a list with somebody who is no owner, quiet steps alone can take the last owner away. |
| OwnersQuiet.QuietExactly | internal/workshop/staff.go:182-247 | After a quiet run, a step is quiet if and only if no quiet steps after it can leave a shop without an active owner. |
| OwnersQuiet.GrantedMeanwhile | internal/auth/session.go:352-384 | A run that leaves nobody: somebody read as no owner is made one before they are switched off, and the other owner's role is taken. |
| OwnersQuiet.GrantedAfterSnapshot | internal/workshop/staff.go:197-225 | A run that leaves nobody: a role change takes the role of somebody made an owner, by another role than their main one, after its snapshot. |
| OwnersQuiet.TakenMeanwhile | internal/auth/session.go:323-335 | A run that leaves nobody: a switch-off has listed somebody whose role is taken before their row is locked. |
| OwnersQuiet.TakenTwice | internal/workshop/staff.go:213-225 | A run that leaves nobody: of two role changes that count, each has listed only somebody whose role is taken before their row is locked. |
| ModuleCache.ModuleCache.Lookup | internal/server/guards.go:307-313 | The entry if it is there and younger than five seconds, and the count of forgets. |
| ModuleCache.ModuleCache.Store | internal/server/guards.go:326-333 | Stores only if nothing was forgotten since the lookup. |
| ModuleCache.ModuleCache.Forget | internal/server/guards.go:339-344 | Drops everything and counts. |
| ModuleCache.ModuleCache.Runs | internal/server/guards.go:303-335 | The answer of one request: no shop, a hit, a failed read or a read, and the whole cache each leaves. |
| ModuleCache.EveryRun | internal/server/guards.go:303-344 | In every interleaving a shop unchanged since the last forget is cached right, and so is what a current reader found. |
| ModuleCache.ChangesWait | internal/server/guards.go:284-290 | A shop changed by a switch since the last forget has a switch still waiting for its own. |
| ModuleCache.SwitchAndForget | internal/server/guards.go:337-344 | A switch and its forget leave nothing waiting that did not wait before. |
| ModuleCache.CacheIsRight | internal/server/guards.go:284-344 | A shop no committed switch of which still waits for its forget is cached as the database has it. |
| ModuleCache.HitIsRight | internal/server/guards.go:307-313 | An answer from the cache is the database's unless the shop changed after the last forget. |
| ModuleCache.HitIsRecent | internal/server/guards.go:274-279 | Whoever changes the database, an answer from the cache is what it held at or before a moment less than five seconds ago at which it was stored. |
| ModuleCache.AllWasHeld | internal/server/guards.go:303-335 | Every answer given, from the cache or not, is what the database held for that shop at some moment of the run. |
| ModuleCache.KeptForFiveSeconds | internal/server/guards.go:311-344 | What is stored answers for five seconds and no longer, and nothing answers after a forget. |
| ModuleCache.NothingOldStored | internal/server/guards.go:287-290 | A read begun before a forget never stores after it. |
| MigrationFiles.Load | internal/database/migrate.go:204-263 | Accepts exactly file sets in order, says what is wrong with the first file that is not, and otherwise gives one migration a file by ascending version. |
| MigrationFiles.NameRead | internal/database/migrate.go:26-27 | Four digits, an underscore and a name in lower snake case are accepted and read as that version and name. |
| MigrationFiles.OnlyNames | internal/database/migrate.go:26-27 | No other file name is. |
| MigrationFiles.NamesInOrder | internal/database/migrate.go:24-27 | Files in the order of their names are in the order of their versions. |
| MigrationFiles.TextsAccepted | internal/database/migrate.go:234-246 | A readable text is accepted if and only if it says "safe" or "restore", or nothing below version 24, and is refused for the right one of two reasons. |
| MigrationFiles.AcceptedExactly | internal/database/migrate.go:211-249 | Files are accepted if and only if each is named and readable, says "safe", "restore" or, below version 24, nothing, and no two share a version. |
| MigrationFiles.SaysWhy | internal/database/migrate.go:211-249 | What is said of a misfit is true of it, in the source's order. |
| Migrate.Judge | internal/database/migrate.go:160-201 | Lists deleted, ahead and unsafe versions ascending, and refuses in the source's order. |
| Migrate.Database.ApplyOne | internal/database/migrate.go:139-157 | A migration's effect and record are kept both or neither, whichever statement fails. |
| Migrate.Database.ApplyMissing | internal/database/migrate.go:127-158 | The missing migrations are applied in order up to the first that fails or whose text has changed. |
| Migrate.Database.MigrateWith | internal/database/migrate.go:80-202 | A run ends as specified, for every set of files and every failure. |
| Migrate.EndsAtPrefix | internal/database/migrate.go:127-158 | However a run ends, the old rows are unaltered and what is new is a version-ordered prefix of the missing migrations. |
| Migrate.FinishedRecordsAll | internal/database/migrate.go:127-158 | A run that is not stopped on the way has every file recorded with its checksum, and nothing else new. |
| Migrate.RecordedRunsNothing | internal/database/migrate.go:127-137 | With every file recorded a run changes nothing, whatever might fail. |
| Migrate.StoppedOrNot | internal/database/migrate.go:127-158 | A run is stopped on the way if and only if some migration is recorded with another text or its transaction fails. |
| Migrate.StoppedAt | internal/database/migrate.go:127-158 | It names the first such, has recorded what was missing before it, and nothing from it on unless only the answer of its commit was lost. |
| Migrate.FinishedExactly | internal/database/migrate.go:160-201 | Otherwise it refuses if and only if a recorded version has no file and lies below one of the release's, else if and only if one ahead is not "safe", and lists exactly those; else it starts and lists the versions ahead. |
| Migrate.FilesRecorded | internal/database/migrate.go:127-158 | Each file is then recorded under its version with its checksum, and a new one with its rollback. |
| Migrate.RerunSaysTheSame | internal/database/migrate.go:80-202 | A rerun applies nothing and has the same outcome. |
| Migrate.InterruptionIsHarmless | internal/database/migrate.go:139-141 | A run broken off anywhere and a clean one after it leave the database and the outcome of one clean run. |
| Migrate.OlderReleaseStarts | internal/database/migrate.go:71-79 | A release whose versions lie below all others recorded, and which is not stopped applying its own, starts if and only if each of those others was recorded "safe", and lists them. |
| Migrate.RollbackStarts | internal/database/migrate.go:71-79 | After a newer release has run, the one before starts if and only if every migration the newer one added says "safe". |
| Migrate.ManyRuns | internal/database/migrate.go:80-202 | Over any number of runs of any releases no migration runs twice, every recorded one has run, and no row is altered. |
| CallGraph.CollectCalls | internal/testsupport/contract.go:297-304 | The callees of each function, itself left out. |
| CallGraph.Pass | internal/testsupport/contract.go:312-324 | Whatever one pass marks calls a marked function, and it reports no growth only when nothing is left to mark. |
| CallGraph.ClosedHasChain | internal/testsupport/contract.go:285-291 | A set closed under the pass has every function with a chain of calls to a check, cycles included. |
| CallGraph.ReachesExactly | internal/testsupport/contract.go:281-304 | Leaving out that a function mentions itself loses nothing: a check is reached if and only if any mentions lead to it. |
| CallGraph.ModuleChecker | internal/testsupport/contract.go:292-326 | The loop ends and marks exactly the functions from which a body with a module check can be reached, in any iteration order. |

## Left out

- The QR penalty score: an arbitrary function of the grid, since it only chooses among valid codes.
- SVG rendering of both barcodes, `Dark`, and the quiet zones: output formatting.
- The flat slices of the QR symbol: a grid of rows and columns instead of index y*Size+x.
- QrEncoder.DecodeSymbol: the reader corrects no errors and refuses what is not a codeword; the distance that correction rests on is proved. The error-correcting strength of the format and version bits is not.
- Instants, time zones and daylight saving (`wall`, `wallEnd`): rentals are priced on wall-clock moments.
- RentalPricing.PriceWall: prices are at least nothing, as the forms that store them require, and amounts and durations do not wrap around.
- The widths of integers elsewhere: unbounded, except where int64 is the result (`Totals.TotalsFit`, `Totals.LimitExact`, `Money.MarginSchemeParts`).
- `PriceExtension`: its comment promises the starting season's grace where the code takes each season's own.
- Swish and UsingQR payloads, `GiroOf`, number and text formatting, cash rounding, `Share` and `WithMarkup`: easy beside what is here.
- LiveHub.Hub.Subscribe: subscriptions and their channels are known by fresh numbers instead of addresses. Receiving from the database, reconnecting and the HTTP streams are not modelled.
- Postgres appears only as the lock behaviour the code relies on: a row's lock is held to the end of the transaction, a locked row is looked at again once its lock is got, while other tables are read in the statement's snapshot, and a deadlock aborts a transaction.
- Owners.AlwaysAnOwner: of a person's roles only the owner's is modelled, as their main role or another, and of the refusals only the last owner's and the unknown user's. A refusal for another reason is an abort.
- Owners.Accounts.Deactivate: sessions appear in this operation and not in the interleavings, so signing in while being switched off is not covered.
- ModuleCache.NothingOldStored: the 64-bit count of forgets does not wrap around here. The counter of reads and the hook kept for the source's tests are left out.
- ModuleCache.CacheIsRight: a change made another way, such as a restore, is not a switch of this process; `ModuleCache.HitIsRight` covers it by saying which shops have changed.
- The rollback line's pattern, blank texts and SHA-256 in migration files: each file comes with what they make of it. Sorting by library call is an insertion into a sorted list.
- Migrate.ManyRuns: runs follow one another; the advisory lock that keeps two from running at once is relied on.
- The text searches of the contract check: two arbitrary predicates on bodies and names.
- HTTP handlers, templates, the rest of the workshop, cryptography, mail and SMS.
