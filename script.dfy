/**
 * The script of gamma.py as one run: decode and pair the quotes, group the
 * spot exposure by strike, sweep the gamma profile and locate the flip
 * point. Fetching the quotes, the clock and the charts are outside the model:
 * the quotes, the spot price and today's date are parameters, and the report
 * holds what the charts would show.
 */
module Script {
  import opened Common
  import opened Failures
  import opened Calendar
  import opened Chain
  import opened Exposure
  import opened Profile
  import opened Flip

  /** What the script computes before plotting. */
  datatype Report = Report(
    rows: seq<Row>,                  // the paired call/put table (gamma.py:83)
    byStrike: seq<StrikeGroup>,      // dfAgg (gamma.py:107)
    totalGammaNow: real,             // df['TotalGamma'].sum() (gamma.py:114)
    levels: seq<real>,               // gamma.py:149
    totalGamma: seq<real>,           // gamma.py:181
    totalGammaExNext: seq<real>,     // gamma.py:182
    totalGammaExFri: seq<real>,      // gamma.py:183
    zeroGamma: real)                 // gamma.py:196

  /**
   * gamma.py:56-196 on a decoded quote list: the first failure stops the run
   * with its error, otherwise the report holds the table, the strike groups,
   * the three profile curves and the flip point.
   */
  method RunScript(kernel: GammaKernel, quotes: seq<Quote>, spot: real, today: Date)
    returns (r: Result<Report, ScriptError>)
    ensures Tabulate(quotes).Err? ==> r == Err(Tabulate(quotes).error)
    ensures Tabulate(quotes).Ok? ==>
      var rows := Tabulate(quotes).value;
      var levels := Levels(spot);
      var days := DaysColumn(today, rows);
      var total := Curve(kernel, levels, rows, days, All);
      match ZeroGamma(levels, total)
      case Err(e) => r == Err(e)
      case Ok(z) => r == Ok(Report(rows, GroupByStrike(rows, spot), SumRows(rows, spot).totalGamma, levels, total,
                                   Curve(kernel, levels, rows, days, Excluding(NextExpiry(rows))),
                                   Curve(kernel, levels, rows, days, Excluding(NextMonthlyExpiry(rows))), z))
  {
    var table := Tabulate(quotes);
    if table.Err? {
      return Err(table.error);
    }
    var rows := table.value;
    var byStrike := GroupByStrike(rows, spot);
    var levels := Levels(spot);
    var totalGamma, totalGammaExNext, totalGammaExFri := ProfileSweep(kernel, levels, today, rows);
    var zeroGamma := ZeroGamma(levels, totalGamma);
    if zeroGamma.Err? {
      return Err(zeroGamma.error);
    }
    r := Ok(Report(rows, byStrike, SumRows(rows, spot).totalGamma, levels,
                   totalGamma, totalGammaExNext, totalGammaExFri, zeroGamma.value));
  }

  /** A profile that is zero at every level never changes sign, so the run ends in NoGammaFlip. */
  lemma FlatProfileHasNoFlip(levels: seq<real>, g: seq<real>)
    requires |levels| == |g|
    requires forall i :: 0 <= i < |g| ==> g[i] == 0.0
    ensures ZeroGamma(levels, g) == Err(NoGammaFlip)
  {
  }

  /**
   * A table whose rows all carry zero implied volatility (an empty table
   * among them) has a flat profile and therefore no flip point.
   */
  lemma ZeroVolChainHasNoFlip(kernel: GammaKernel, spot: real, today: Date, rows: seq<Row>)
    requires forall row :: row in rows ==> row.callIV == 0.0 && row.putIV == 0.0
    ensures ZeroGamma(Levels(spot), Curve(kernel, Levels(spot), rows, DaysColumn(today, rows), All)) == Err(NoGammaFlip)
  {
    var levels := Levels(spot);
    var total := Curve(kernel, levels, rows, DaysColumn(today, rows), All);
    forall i | 0 <= i < |total| ensures total[i] == 0.0 {
      ZeroVolChain(kernel, levels[i], rows, DaysColumn(today, rows), All);
    }
    FlatProfileHasNoFlip(levels, total);
  }
}
