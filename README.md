# Gamma exposure of an option chain — a Dafny model of gamma.py

`gamma.py` downloads the delayed option chain of one underlying from the
CBOE. It computes each option's dollar gamma exposure (GEX) per 1% move,
aggregates it by strike, re-prices gamma over a range of hypothetical spot
prices to draw a gamma profile, and locates the "gamma flip": the spot
level where the aggregate exposure changes sign.

This project models that computation as it is written in the script:

- `Calendar` (calendar.dfy): proleptic Gregorian dates as day numbers and
  Python's weekday rule. It holds NumPy's `busday_count` with the default
  Monday–Friday week, `isThirdFriday`, and the minimum of a date column.
- `OptionSymbol` (symbol.dfy): the option-identifier decoder, which
  1. slices the identifier with negative indices in Python's way;
  2. strips leading zeros with `str.lstrip('0')`;
  3. parses the expiry with strptime's `%y%m%d`, using its century pivot;
  4. treats pandas' missing-value words as NaT;
  5. converts the strike to a number.
  It also holds an encoder, with the round trip proved.
- `Chain` (chain.dfy): decodes every quote and splits calls from puts. It
  then pairs them by position and runs the `check` column that stops the
  script, and converts the strikes. The resulting table carries an error
  datatype for every way the script can stop.
- `Exposure` (exposure.dfy): `calcGammaEx` with its zero guard and final
  scaling, over an abstract Black–Scholes gamma kernel. It also holds the
  per-row spot exposures and the group-by-strike sum.
- `Profile` (profile.dfy): the 30 levels of `np.linspace`, the
  days-till-expiry rule, the next expiry and the next monthly expiry. The
  profile sweep is a method with a loop and accumulator lists, proved
  against a specification function of net gamma.
- `Flip` (flip.dfy): `np.where(np.diff(np.sign(g)))` and the chord
  interpolation at its first index.
- `Script` (script.dfy): the whole run, from quotes to the report the charts
  would show, or to the error that stops it.

Numbers are exact `real`s. Dates are values of a subtype `Date` of
`Ymd(year, month, day)` restricted to valid calendar dates of years
1..9999. Every failure that ends the script is a `Result` error:

- a `KeyError` at `data_df['option']` when the quote list is empty
  (gamma.py:58);
- a `ValueError` from the date conversion (gamma.py:60);
- `exit()` after the merge check (gamma.py:77-79);
- a `ValueError` from the float conversion of a strike (gamma.py:91);
- an `IndexError` at `zeroGamma[0]` (gamma.py:196).

Behaviour of the code that the model keeps as written:

- Time to expiry divides by 262 business days per year (gamma.py:152-153).
- `np.busday_count` counts business days over the half-open interval
  [today, expiry): Monday to Friday is 4, Friday to Monday is 1.
- The `%y` directive maps 00–68 to 2000–2068 and 69–99 to 1969–1999, as
  Python does.
- The strike is the integer part of the strike field: the last three digits
  are sliced away (gamma.py:61).
- One bad identifier stops the whole script (gamma.py:60).
- `np.sign(0)` is 0, so a step from a positive value to zero is a sign change
  (`Flip.TouchZeroExample`).
- Only `vol == 0` (or `T == 0`) zeroes an option's contribution outright
  (gamma.py:17-18); zero open interest gives zero through the product.
- A negative time to expiry, which a contract gets when its business-day
  count to expiry is negative, makes `np.sqrt(T)` NaN, and `.sum()` skips NaN
  cells, so such an option adds nothing to the profile sums
  (gamma.py:20-28, 173-179).
- Not every expired contract has a negative count. A contract that expired on
  a Friday and is seen at the weekend spans no business day, so its count is 0
  and it counts as 1/262 of a year, with full exposure
  (`Profile.ExpiredAtWeekend`).

## Model

| member | source | states |
|---|---|---|
| Calendar.DaysInMonth | gamma.py:60 | a month of a parsed date has 28 to 31 days |
| Calendar.WeekdayOf | gamma.py:31 | a weekday is one of 0 (Monday) .. 6 (Sunday) |
| Calendar.IsThirdFriday | gamma.py:30-31 | a date is accepted exactly when it is a Friday of days 15..21, the third week of its month (what that means is `Calendar.ThirdFridayIsThird`) |
| Calendar.SameWeekdayIff | gamma.py:30-31 | two day numbers share a weekday exactly when they are a whole number of weeks apart |
| Calendar.FridaysApart | gamma.py:30-31 | in the month of a Friday, the Fridays are exactly the days a whole number of weeks from it |
| Calendar.ThirdFridayIsThird | gamma.py:30-31 | a date is accepted exactly when it is a Friday, days d - 7 and d - 14 of its month are Fridays, and no other day of the month before it is a Friday: exactly two Fridays of its month precede it |
| Calendar.ThirdFridayOf | gamma.py:30-31 | every month of every year has exactly one date that `isThirdFriday` accepts |
| Calendar.OctoberMonthly | gamma.py:30-31 | the third Friday of October 2025 is the 17th; 31 October 2025 is a Friday but not a third Friday |
| Calendar.Earliest | gamma.py:155 | the minimum of a date column is missing (NaT) exactly when the column is empty; otherwise it is one of its dates and no date is before it |
| Calendar.BeforeTransitive | gamma.py:155 | date order is transitive |
| Calendar.OrdinalOrder | gamma.py:152-153 | day numbers preserve date order both ways, and two dates have the same day number exactly when they are equal |
| Calendar.OrdinalStrict | gamma.py:152-153 | a date before another has a smaller day number |
| Calendar.CountBusinessDays | gamma.py:152-153 | a half-open span of n days holds at most n business days |
| Calendar.CountBusinessDaysSplit | gamma.py:152-153 | business-day counts of adjacent half-open spans add up |
| Calendar.BusinessDaysPerWeek | gamma.py:152-153 | any 7 consecutive days hold exactly 5 business days |
| Calendar.BusinessDaysPerWeeks | gamma.py:152-153 | any 7k consecutive days hold exactly 5k business days |
| Calendar.BusdayCount | gamma.py:152-153 | `busday_count` forwards lies between 0 and the span's length in days, backwards between minus that length and 0, so it is 0 on an empty span |
| Calendar.MondayToFriday | gamma.py:152-153 | from Monday 27 October 2025 to Friday 31 October 2025 the count is 4 |
| Calendar.FridayToMonday | gamma.py:152-153 | from Friday 31 October 2025 to Monday 3 November 2025 the count is 1 |
| OptionSymbol.SliceFromEnd | gamma.py:58-61 | `str.slice(start=-a, stop=-b)` is the text between a and b characters from the end, and empty for an identifier of b characters or fewer |
| OptionSymbol.LStripZeros | gamma.py:62 | `lstrip('0')` never lengthens the text and leaves no leading zero |
| OptionSymbol.LStripZerosSuffix | gamma.py:62 | the stripped text is a suffix of the field, and every character removed before it is a '0' |
| OptionSymbol.LStripZerosValue | gamma.py:62 | stripping keeps a digit string's value, and leaves nothing exactly when the value is 0 |
| OptionSymbol.PivotYear | gamma.py:60 | the `%y` rule maps a two-digit year 00..99 to a year of 1969..2068 whose last two digits it is |
| OptionSymbol.PivotOfCentury | gamma.py:60 | every year of 1969..2068 is the pivot of its last two digits |
| OptionSymbol.DayMatch | gamma.py:60 | strptime's `%d` group takes one or two characters and gives a day 1..31 |
| OptionSymbol.MatchMonthDay | gamma.py:60 | strptime's `%m%d` groups, tried with backtracking, give a month 1..12 and a day 1..31 within the text |
| OptionSymbol.ParseYymmdd | gamma.py:60 | a text that strptime's `%y%m%d` accepts has 4 to 6 characters, begins with two digits, and its year is their value under the 69 pivot, in 1969..2068 |
| OptionSymbol.ParseExpiry | gamma.py:60 | the conversion gives NaT exactly for the missing-value texts; otherwise it succeeds exactly when `%y%m%d` parses, with that date |
| OptionSymbol.TwoDigitDay | gamma.py:60 | a two-digit day 01..31 is taken whole by `%d` |
| OptionSymbol.TwoDigitMonthDay | gamma.py:60 | a two-digit month 01..12 followed by a two-digit day 01..31 is taken whole by `%m%d` |
| OptionSymbol.FourDigitMonthDay | gamma.py:60 | when `%m%d` takes all of four digits, the month is the first two and the day the last two |
| OptionSymbol.SixDigitParse | gamma.py:60 | a text of six digits parses exactly when its two-digit month and day make a calendar date with the pivoted year, and then gives that date |
| OptionSymbol.OneDigitDayExample | gamma.py:60 | "25111" is 2025-11-01 |
| OptionSymbol.BacktrackExample | gamma.py:60 | "25120" is 2025-01-20: the month backtracks to one digit when no day follows "12" |
| OptionSymbol.NoDayExample | gamma.py:60 | "2510" raises: no day follows either month reading |
| OptionSymbol.ShortIdentifierExample | gamma.py:58-60 | the 14-character identifier `25111C00016000` has expiry text "25111", which decodes to 2025-11-01 |
| OptionSymbol.ParseFormatted | gamma.py:60 | every date of 1969..2068 written as YYMMDD parses back to itself |
| OptionSymbol.FormattedParse | gamma.py:60 | a six-digit text that parses to a date is that date's YYMMDD |
| OptionSymbol.ParseStrike | gamma.py:91 | a converted strike is a non-negative number |
| OptionSymbol.DecodeSymbol | gamma.py:58-62 | decoding fails exactly when the expiry text fails; the expiry is that conversion's result, and the right and the stripped strike are the sliced texts, with no leading zero |
| OptionSymbol.EncodeSymbol | gamma.py:58-62 | an encoded identifier is the root plus 15 characters |
| OptionSymbol.DecodeEncode | gamma.py:58-62 | decoding an encoded identifier gives back the right, the expiry date and the integer strike, whatever the three thousandths digits; a strike below 1 gives a strike text that fails to convert |
| OptionSymbol.ShortSymbolHasNoRight | gamma.py:58-60 | an identifier of 8 characters or fewer has an empty right and a NaT expiry |
| OptionSymbol.DecodeExample | gamma.py:58-62 | `CMG251031C00016000` is a call expiring 2025-10-31 at strike 16 |
| Chain.DecodeQuotes | gamma.py:58-62 | the column conversion fails with a bad expiry exactly when one identifier fails; otherwise it decodes every quote in order |
| Chain.Calls | gamma.py:64 | the calls are exactly the decoded rows whose right is "C" |
| Chain.Puts | gamma.py:65 | the puts are exactly the decoded rows whose right is "P" |
| Chain.Select | gamma.py:64-67 | the rows of one right are exactly the quotes with that right |
| Chain.SelectAppend | gamma.py:64-67 | selecting by right distributes over concatenation, so order is kept |
| Chain.CheckColumn | gamma.py:73-75 | the side-by-side frame is as long as the longer side |
| Chain.CheckColumnZero | gamma.py:75-77 | the `check` column sums to zero exactly when calls and puts are equally many and every i-th pair has the same (non-NaT) expiry and strike text |
| Chain.SumOfFlagsIsZero | gamma.py:75-77 | a sum of 0/1 flags is zero exactly when every flag is zero |
| Chain.PairQuotes | gamma.py:64-81 | the merge passes exactly when calls and puts are equally many and every i-th pair has the same (non-NaT) expiry and strike text; then row i is that pair merged, otherwise the script stops |
| Chain.ConvertStrikes | gamma.py:91 | the float conversion fails exactly when some strike text is not a number; otherwise every row keeps its place and gets its number |
| Chain.Tabulate | gamma.py:56-91 | an empty quote list, and only it, stops the run with the missing `option` column; one undecodable identifier stops it with a bad expiry; no table error is a missing flip |
| Chain.TabulateRowsFromQuotes | gamma.py:64-81 | each table row has its call columns from a call quote and its put columns from a put quote of the input, both of the row's expiry and strike |
| Chain.ZeroStrikeStops | gamma.py:91 | a paired row whose strike field was all zeros makes the float conversion stop the script |
| Exposure.CalcGammaEx | gamma.py:16-28 | exactly 0 when T or vol is 0, whatever the other inputs; NaN when T is negative; otherwise OI x S^2 x the kernel's gamma (100 x 0.01 = 1) |
| Exposure.CalcGammaExAdditive | gamma.py:25-28 | exposure, as the sums count it, is additive in open interest |
| Exposure.SpotGex | gamma.py:103-104 | the exposure of a non-negative gamma and open interest is non-negative |
| Exposure.CallGex | gamma.py:103 | a call's exposure is the spot exposure of its gamma and open interest, non-negative for non-negative inputs |
| Exposure.PutGex | gamma.py:104 | a put's exposure is the same formula on the put's gamma and open interest, negated, so non-positive for non-negative inputs |
| Exposure.TotalGamma | gamma.py:106 | a row's total is its call exposure minus its put exposure, in billions |
| Exposure.GroupByStrike | gamma.py:107-108 | the groups are in strictly ascending strike order, so there is one per strike |
| Exposure.GroupsComeFromRows | gamma.py:107-108 | every group's strike is the strike of some row |
| Exposure.RowsHaveGroups | gamma.py:107-108 | every row's strike has a group |
| Exposure.GroupByStrikeSums | gamma.py:107 | a strike's group holds the column sums of exactly the rows at that strike |
| Exposure.GroupTotals | gamma.py:107 | the groups' sums add up to the sums over all rows, so the grouped total gamma equals the table's |
| Profile.Linspace | gamma.py:149 | `np.linspace` gives num points, the first being start and, for two or more, the last being stop |
| Profile.Levels | gamma.py:149 | 30 levels, the first 0.8 x spot (gamma.py:49) and the last 1.2 x spot (gamma.py:50) |
| Profile.LevelsShape | gamma.py:149 | for a positive spot there are 30 levels, from 0.8 x spot to 1.2 x spot, evenly spaced and strictly increasing |
| Profile.LinspaceStep | gamma.py:149 | consecutive linspace points are (stop - start) / (num - 1) apart |
| Profile.LinspaceOrder | gamma.py:149 | for start < stop, a later linspace point is greater |
| Profile.DaysTillExp | gamma.py:152-153 | a time to expiry is never 0, negative exactly when the business-day count is, and at least 1/262 otherwise |
| Profile.DaysTillExpFloor | gamma.py:152-153 | an expiry on or after today is at least 1/262 of a year away, and busday_count / 262 when that count is positive; the time is never 0 |
| Profile.ZeroDaysToExpiry | gamma.py:151-153 | an expiry today counts as one business day, 1/262 |
| Profile.ThirdFridayExpiries | gamma.py:157-158 | the third-Friday rows' expiries are exactly the table's expiries that are third Fridays |
| Profile.NextExpiry | gamma.py:155 | the next expiry is an expiry of the table that no expiry of the table comes before, missing exactly for an empty table |
| Profile.NextMonthlyExpiry | gamma.py:157-159 | the next monthly expiry is a third Friday of the table with no third Friday of the table before it, missing exactly when the table has none |
| Profile.NetGamma | gamma.py:166-179 | a selection that keeps no row sums to zero net gamma |
| Profile.Curve | gamma.py:166-183 | a curve has one point per level, all zero when the selection keeps no row |
| Profile.Excluding | gamma.py:175-179 | the `!=` filter keeps a row exactly when the value is NaT or the row's expiry differs from it |
| Profile.CallGammaAt | gamma.py:167-168 | the `callGammaEx` lambda; no contract of its own, its cells are stated by `Profile.GammaCells` |
| Profile.PutGammaAt | gamma.py:170-171 | the `putGammaEx` lambda; no contract of its own, its cells are stated by `Profile.GammaCells` |
| Profile.GammaCells | gamma.py:167-171 | each lambda is `calcGammaEx` on the level, the row's strike, its time to expiry and r = q = 0, with the call IV, branch and open interest on the call side and the put ones on the put side: 0 at zero IV, NaN for a negative time, OI x level^2 x the kernel's gamma otherwise |
| Profile.CallColumn | gamma.py:167-168 | the `callGammaEx` column has one cell per row, that row's call exposure at the level |
| Profile.PutColumn | gamma.py:170-171 | the `putGammaEx` column has one cell per row, that row's put exposure at the level |
| Profile.DaysColumn | gamma.py:152-153 | the days-till-expiry column has one entry per row, the time from today to that row's expiry |
| Profile.ColumnSums | gamma.py:167-179 | the filtered call column sum minus the filtered put column sum is the net gamma of the kept rows |
| Profile.InBillionsCurve | gamma.py:181-183 | the list of per-level sums divided by 10^9 is the curve in billions |
| Profile.LevelSums | gamma.py:167-179 | at one level, the three appended sums are the net gamma over all rows and over the rows each of the two filters keeps |
| Profile.SweepLevels | gamma.py:161-183 | for any days-till-expiry column, the three lists are the curves in billions over all rows and over the rows each filter keeps, level by level |
| Profile.ProfileSweep | gamma.py:152-183 | the three lists are the net-gamma curves, with times to expiry from today, over all rows, over rows not at the next expiry, and over rows not at the next monthly expiry (all rows when it is NaT) |
| Profile.NetGammaSplit | gamma.py:173-176 | net gamma over all rows is that of the rows not at a date plus that of the rows at it |
| Profile.ExNextGap | gamma.py:173-176 | at every level, totalGamma minus totalGammaExNext is the net contribution of the rows at the next expiry |
| Profile.NoMonthlyExpiry | gamma.py:178-179 | without a third-Friday expiry, totalGammaExFri equals totalGamma |
| Profile.AbsentExpiry | gamma.py:175-179 | excluding a date that no row has changes nothing |
| Profile.ZeroVolChain | gamma.py:17-18 | a chain quoted at zero volatility throughout has zero net gamma at every level |
| Profile.ZeroVolRow | gamma.py:17-18 | a row at zero volatility on both sides adds nothing |
| Profile.PastExpiryRow | gamma.py:20-28 | a row whose business-day count to expiry is negative has NaN exposure on each side not at zero volatility, and adds nothing to a sum |
| Profile.PastExpiryChain | gamma.py:173-179 | a table whose every row has a negative business-day count to expiry has zero net gamma at every level |
| Profile.ExpiredAtWeekend | gamma.py:152-153 | a contract that expired on Friday 2025-10-31, seen on Saturday 2025-11-01, has a business-day count of 0 and so a time to expiry of 1/262 |
| Flip.Sign | gamma.py:186 | `np.sign` is 1, -1 or 0 exactly for positive, negative and zero input |
| Flip.CrossingsFrom | gamma.py:186 | the crossings from an index on are ascending, each is a sign change, every sign change is listed, and none comes before the first |
| Flip.ZeroCrossIdx | gamma.py:186 | `np.where(np.diff(np.sign(g)))[0]` lists exactly the sign changes, ascending, the first being the least |
| Flip.ZeroGamma | gamma.py:186-196 | the flip fails (NoGammaFlip) exactly when no neighbouring pair changes sign |
| Flip.FirstCrossing | gamma.py:186-196 | when a sign change exists, the interpolation index is the first one |
| Flip.Chord | gamma.py:195 | the interpolated level is the level of an end where the profile is exactly 0 |
| Flip.ChordZero | gamma.py:195 | across a sign change the denominator is nonzero; the result is the zero of the chord through the two points and lies between them |
| Flip.ZeroGammaAt | gamma.py:186-196 | the flip point is the chord value at the first sign change |
| Flip.ZeroGammaSpec | gamma.py:186-196 | the flip point sits at the first sign change, is the zero of the chord there, and lies between the two levels when they ascend |
| Flip.FlipExample | gamma.py:186-196 | from -5 at 100 to 3 at 110 the flip is 106.25 |
| Flip.TouchZeroExample | gamma.py:186-196 | a curve falling from 2 to 0 flips where it reaches 0 |
| Flip.NoFlipExample | gamma.py:186-196 | a curve of one sign has no flip point |
| Script.RunScript | gamma.py:56-196 | the run stops with the table's error if there is one, otherwise with NoGammaFlip when the total curve never changes sign; else the report holds the table, the strike groups, the total spot gamma, the levels, the three curves and the flip point |
| Script.FlatProfileHasNoFlip | gamma.py:186-196 | a profile that is zero everywhere has no flip point |
| Script.ZeroVolChainHasNoFlip | gamma.py:161-196 | a table at zero volatility throughout, the empty table among them, ends in NoGammaFlip |

## Left out

- The HTTP request and the JSON-file fallback (gamma.py:34-44): network and
  file I/O. The model starts from the decoded `options` list, as `Quote`
  records holding only the fields the computation reads (identifier, `iv`,
  `gamma`, `open_interest`), and from the spot price.
- `date.today()` (gamma.py:53) is the parameter `today`.
- All charts (gamma.py:110-146, 198-216) and display settings (gamma.py:13,
  48, 83). The report keeps the values the charts plot.
- The Black–Scholes gamma body (gamma.py:20-27). Logarithm, exponential,
  square root and the normal density are floating-point transcendentals, so
  the per-contract gamma is the abstract `GammaKernel`. Whether the call and
  put formulas agree is not modelled.
- The second `to_datetime` pass and the 16-hour shift (gamma.py:89-90).
  Expiries are calendar dates. The shift moves every expiry by the same
  amount, so it changes neither order, nor equality, nor `.date()`.
- Columns the computation never reads (last price, bid, ask, volume, delta,
  and others, gamma.py:69-71 and 85-87), and the sums pandas forms for them in
  the group-by (gamma.py:107). `Exposure.Columns` keeps the summed columns
  the charts use.
- The group-by key in pandas is the float strike. Two strike texts with the
  same number merge into one group here as well, since grouping is on the
  `real` value.
- OptionSymbol.ParseStrike: accepts only non-empty ASCII digit strings. The
  slice of a well-formed identifier holds nothing else. Texts like `1e3`,
  `1_0`, signs, spaces or other Unicode digits, which Python's `float` also
  accepts, are treated as failures.
- OptionSymbol.ParseExpiry: `now` and `today`, which pandas reads as the
  current clock time, are failures here; the clock is not modelled.
- OptionSymbol.ParseYymmdd: digits are ASCII digits only. Python's `\d` and
  `int` also accept other Unicode decimal digits.
- Profile.NetGamma: NaN comes only from a negative time to expiry. Null `iv`,
  `gamma` or `open_interest` fields of a quote, which would become NaN at
  gamma.py:91-97 and be skipped by the sums at gamma.py:107, 114 and 173-179,
  are not modelled: the quote fields are numbers.
- Exposure.CalcGammaEx: the kernel returns a number; NaN or infinities its
  body would give for a zero or negative strike, spot or volatility are not
  modelled.
- Calendar.BusdayCount: counts back-to-front spans with NumPy's rule, the
  negated count of (end, begin], and uses no holiday calendar. The script
  only reaches that branch for expiries before today.
- Floating-point rounding: `0.8 * spot`, the linspace step, the division by
  10^9 and the sums are exact real arithmetic. IEEE-754 rounding and the
  order of pandas' summation are not modelled. Rounding could in principle
  move a result across zero.
- Profile.ProfileSweep: recomputes the two exposure columns per level (in
  `Profile.LevelSums`) as fresh sequences rather than overwriting DataFrame
  columns in place; only the three appended lists are the method's result.
- The script's side effects before a late failure: the spot-gamma charts are
  shown before a missing flip point raises. Here the run returns only the
  error.
