/**
 * The gamma profile of gamma.py:148-183: 30 evenly spaced spot levels
 * between 80% and 120% of spot, a time to expiry per row in business years,
 * the next expiry and the next monthly (third-Friday) expiry, and for every
 * level three sums of call-minus-put exposure: over all rows, over the rows
 * not at the next expiry and over the rows not at the next monthly expiry.
 */
module Profile {
  import opened Common
  import opened Calendar
  import opened Chain
  import opened Exposure

  const LevelCount: nat := 30

  /** gamma.py:152-153 divides business days by 262. */
  const BusinessDaysPerYear: real := 262.0

  // ---- Levels (gamma.py:49-50, 149) ----

  /** `np.linspace(start, stop, num)`: num points from start to stop, both included, evenly spaced. */
  function Linspace(start: real, stop: real, num: nat): (r: seq<real>)
    ensures |r| == num
    ensures num >= 1 ==> r[0] == start
    ensures num >= 2 ==> r[num - 1] == stop
  {
    if num < 2 then seq(num, i => start)
    else
      var step := (stop - start) / ((num - 1) as real);
      seq(num, i requires 0 <= i < num => if i == num - 1 then stop else start + (i as real) * step)
  }

  /** gamma.py:49-50, 149: 30 levels from 80% to 120% of spot. */
  function Levels(spot: real): (l: seq<real>)
    ensures |l| == LevelCount && l[0] == 0.8 * spot && l[LevelCount - 1] == 1.2 * spot
  {
    Linspace(0.8 * spot, 1.2 * spot, LevelCount)
  }

  /** Every point but the last is start plus i steps; the last is stop, which is start plus num - 1 steps. */
  lemma LinspacePoint(start: real, stop: real, num: nat, i: nat)
    requires 2 <= num && i < num
    ensures Linspace(start, stop, num)[i] == start + (i as real) * ((stop - start) / ((num - 1) as real))
  {
    var step := (stop - start) / ((num - 1) as real);
    if i == num - 1 {
      assert ((num - 1) as real) * step == stop - start;
    }
  }

  lemma PositiveProduct(x: real, y: real)
    requires x > 0.0 && y > 0.0
    ensures x * y > 0.0
  {
  }

  lemma PositiveQuotient(x: real, y: real)
    requires x > 0.0 && y > 0.0
    ensures x / y > 0.0
  {
  }

  /** Consecutive points of a linspace are one step apart. */
  lemma LinspaceStep(start: real, stop: real, num: nat, i: nat)
    requires 2 <= num && i < num - 1
    ensures Linspace(start, stop, num)[i + 1] - Linspace(start, stop, num)[i] == (stop - start) / ((num - 1) as real)
  {
    var step := (stop - start) / ((num - 1) as real);
    LinspacePoint(start, stop, num, i);
    LinspacePoint(start, stop, num, i + 1);
    assert ((i + 1) as real) * step == (i as real) * step + step;
  }

  /** From start to stop with start < stop, a later point is strictly greater. */
  lemma LinspaceOrder(start: real, stop: real, num: nat, i: nat, j: nat)
    requires 2 <= num && start < stop && i < j < num
    ensures Linspace(start, stop, num)[i] < Linspace(start, stop, num)[j]
  {
    var step := (stop - start) / ((num - 1) as real);
    LinspacePoint(start, stop, num, i);
    LinspacePoint(start, stop, num, j);
    assert step > 0.0 by {
      PositiveQuotient(stop - start, (num - 1) as real);
    }
    assert (j as real) * step == (i as real) * step + ((j - i) as real) * step;
    PositiveProduct((j - i) as real, step);
  }

  /**
   * For a positive spot: 30 levels, from 0.8 x spot to 1.2 x spot, a constant
   * step of 0.4 x spot / 29 apart, hence strictly increasing.
   */
  lemma LevelsShape(spot: real)
    requires spot > 0.0
    ensures |Levels(spot)| == 30
    ensures Levels(spot)[0] == 0.8 * spot && Levels(spot)[29] == 1.2 * spot
    ensures forall i :: 0 <= i < 29 ==> Levels(spot)[i + 1] - Levels(spot)[i] == 0.4 * spot / 29.0
    ensures forall i, j :: 0 <= i < j < 30 ==> Levels(spot)[i] < Levels(spot)[j]
  {
    assert 1.2 * spot - 0.8 * spot == 0.4 * spot;
    forall i | 0 <= i < 29 ensures Levels(spot)[i + 1] - Levels(spot)[i] == 0.4 * spot / 29.0 {
      LinspaceStep(0.8 * spot, 1.2 * spot, 30, i);
    }
    forall i, j | 0 <= i < j < 30 ensures Levels(spot)[i] < Levels(spot)[j] {
      LinspaceOrder(0.8 * spot, 1.2 * spot, 30, i, j);
    }
  }

  // ---- Time to expiry (gamma.py:152-153) ----

  /**
   * Business days from today to the expiry, in years of 262 business days;
   * a same-day (or weekend-only) expiry counts as one business day.
   */
  function DaysTillExp(today: Date, expiry: Date): (t: real)
    ensures t != 0.0
    ensures t < 0.0 <==> BusdayCount(Ordinal(today), Ordinal(expiry)) < 0
    ensures BusdayCount(Ordinal(today), Ordinal(expiry)) >= 0 ==> t >= 1.0 / BusinessDaysPerYear
  {
    var c := BusdayCount(Ordinal(today), Ordinal(expiry));
    if c == 0 then 1.0 / BusinessDaysPerYear else (c as real) / BusinessDaysPerYear
  }

  /**
   * An expiry on or after today is at least one business day away, and
   * exactly busday_count / 262 when that count is positive; the time is never
   * zero, so the T == 0 guard of calcGammaEx never fires in the sweep.
   */
  lemma DaysTillExpFloor(today: Date, expiry: Date)
    ensures !Before(expiry, today) ==> DaysTillExp(today, expiry) >= 1.0 / BusinessDaysPerYear
    ensures !Before(expiry, today) && BusdayCount(Ordinal(today), Ordinal(expiry)) > 0 ==>
      DaysTillExp(today, expiry) == (BusdayCount(Ordinal(today), Ordinal(expiry)) as real) / BusinessDaysPerYear
    ensures DaysTillExp(today, expiry) != 0.0
  {
    OrdinalOrder(expiry, today);
  }

  /** A contract expiring today is treated as one business day from expiry. */
  lemma ZeroDaysToExpiry(today: Date)
    ensures DaysTillExp(today, today) == 1.0 / 262.0
  {
  }

  // ---- The next expiry and the next monthly expiry (gamma.py:155-159) ----

  function Expiries(rows: seq<Row>): (e: seq<Date>)
    ensures |e| == |rows| && forall i :: 0 <= i < |rows| ==> e[i] == rows[i].expiry
  {
    seq(|rows|, i requires 0 <= i < |rows| => rows[i].expiry)
  }

  /** The expiries of the rows that fall on a third Friday, in row order. */
  function ThirdFridayExpiries(rows: seq<Row>): (e: seq<Date>)
    ensures forall d :: d in e <==> exists row :: row in rows && row.expiry == d && IsThirdFriday(d)
  {
    if rows == [] then []
    else
      var rest := ThirdFridayExpiries(rows[1..]);
      assert forall row :: row in rows <==> row == rows[0] || row in rows[1..];
      if IsThirdFriday(rows[0].expiry) then [rows[0].expiry] + rest else rest
  }

  /**
   * `df['ExpirationDate'].min()`: the earliest expiry of the table, one that
   * some row has; None is the NaT of an empty frame.
   */
  function NextExpiry(rows: seq<Row>): (r: Option<Date>)
    ensures r.None? <==> rows == []
    ensures r.Some? ==>
      && (exists row :: row in rows && row.expiry == r.value)
      && forall row :: row in rows ==> !Before(row.expiry, r.value)
  {
    var e := Expiries(rows);
    assert forall row :: row in rows ==> row.expiry in e by {
      forall row | row in rows ensures row.expiry in e {
        var j :| 0 <= j < |rows| && rows[j] == row;
        assert e[j] == row.expiry;
      }
    }
    assert forall d :: d in e ==> exists row :: row in rows && row.expiry == d by {
      forall d | d in e ensures exists row :: row in rows && row.expiry == d {
        var j :| 0 <= j < |e| && e[j] == d;
        assert rows[j] in rows;
      }
    }
    Earliest(e)
  }

  /**
   * The earliest third-Friday expiry of the table, one that some row has; None
   * is the NaT of a chain without a third Friday.
   */
  function NextMonthlyExpiry(rows: seq<Row>): (r: Option<Date>)
    ensures r.None? <==> forall row :: row in rows ==> !IsThirdFriday(row.expiry)
    ensures r.Some? ==>
      && IsThirdFriday(r.value)
      && (exists row :: row in rows && row.expiry == r.value)
      && forall row :: row in rows && IsThirdFriday(row.expiry) ==> !Before(row.expiry, r.value)
  {
    var e := ThirdFridayExpiries(rows);
    assert e != [] ==> e[0] in e;
    assert forall row :: row in rows && IsThirdFriday(row.expiry) ==> row.expiry in e;
    Earliest(e)
  }

  // ---- Gamma at a level (gamma.py:166-179) ----

  /** Which rows a sum runs over: all, all but one expiry, or one expiry only. */
  datatype Selection = All | Except(date: Date) | Only(date: Date)

  predicate Keeps(s: Selection, d: Date) {
    match s
    case All => true
    case Except(e) => d != e
    case Only(e) => d == e
  }

  /** `df.loc[df['ExpirationDate'] != x]`: a NaT x is unequal to every date, so it keeps all rows. */
  function Excluding(x: Option<Date>): (s: Selection)
    ensures forall d: Date :: Keeps(s, d) <==> x.None? || d != x.value
  {
    match x
    case None => All
    case Some(d) => Except(d)
  }

  /** `df['daysTillExp']`: every row's time to expiry from today (gamma.py:152-153). */
  function DaysColumn(today: Date, rows: seq<Row>): (d: seq<real>)
    ensures |d| == |rows| && forall j :: 0 <= j < |rows| ==> d[j] == DaysTillExp(today, rows[j].expiry)
  {
    seq(|rows|, j requires 0 <= j < |rows| => DaysTillExp(today, rows[j].expiry))
  }

  /** `calcGammaEx` for the call side of a row at a level, T being the row's time to expiry (gamma.py:167-168). */
  function CallGammaAt(kernel: GammaKernel, level: real, row: Row, T: real): Cell {
    CalcGammaEx(kernel, level, row.strike, row.callIV, T, 0.0, 0.0, Call, row.callOI)
  }

  /** `calcGammaEx` for the put side of a row at a level (gamma.py:170-171). */
  function PutGammaAt(kernel: GammaKernel, level: real, row: Row, T: real): Cell {
    CalcGammaEx(kernel, level, row.strike, row.putIV, T, 0.0, 0.0, Put, row.putOI)
  }

  /**
   * The cells of the two `apply` lambdas of a row: `calcGammaEx` on the
   * level, the row's strike, r = q = 0, and the call IV, branch and open
   * interest for the call side, the put ones for the put side.
   */
  lemma GammaCells(kernel: GammaKernel, level: real, row: Row, T: real)
    ensures row.callIV == 0.0 ==> CallGammaAt(kernel, level, row, T) == Num(0.0)
    ensures T < 0.0 && row.callIV != 0.0 ==> CallGammaAt(kernel, level, row, T) == NaN
    ensures T > 0.0 && row.callIV != 0.0 ==>
      CallGammaAt(kernel, level, row, T) == Num(row.callOI * level * level * kernel(level, row.strike, row.callIV, T, 0.0, 0.0, Call))
    ensures row.putIV == 0.0 ==> PutGammaAt(kernel, level, row, T) == Num(0.0)
    ensures T < 0.0 && row.putIV != 0.0 ==> PutGammaAt(kernel, level, row, T) == NaN
    ensures T > 0.0 && row.putIV != 0.0 ==>
      PutGammaAt(kernel, level, row, T) == Num(row.putOI * level * level * kernel(level, row.strike, row.putIV, T, 0.0, 0.0, Put))
  {
  }

  /**
   * Call minus put exposure at a level, summed over the selected rows, the
   * j-th row taking the j-th time to expiry; NaN cells add nothing. A
   * selection that keeps no row sums to zero.
   */
  function NetGamma(kernel: GammaKernel, level: real, rows: seq<Row>, days: seq<real>, s: Selection): (g: real)
    requires |days| == |rows|
    ensures (forall j :: 0 <= j < |rows| ==> !Keeps(s, rows[j].expiry)) ==> g == 0.0
  {
    if rows == [] then 0.0
    else
      var n := |rows| - 1;
      assert forall j :: 0 <= j < n ==> rows[..n][j] == rows[j];
      NetGamma(kernel, level, rows[..n], days[..n], s)
        + (if Keeps(s, rows[n].expiry)
           then SumTerm(CallGammaAt(kernel, level, rows[n], days[n])) - SumTerm(PutGammaAt(kernel, level, rows[n], days[n]))
           else 0.0)
  }

  /**
   * One profile curve in billions: the selected net gamma at every level,
   * flat zero when the selection keeps no row.
   */
  function Curve(kernel: GammaKernel, levels: seq<real>, rows: seq<Row>, days: seq<real>, s: Selection): (c: seq<real>)
    requires |days| == |rows|
    ensures |c| == |levels|
    ensures (forall j :: 0 <= j < |rows| ==> !Keeps(s, rows[j].expiry)) ==> forall i :: 0 <= i < |c| ==> c[i] == 0.0
  {
    seq(|levels|, i requires 0 <= i < |levels| => NetGamma(kernel, levels[i], rows, days, s) / Billion)
  }

  // ---- The sweep, column by column as pandas computes it ----

  /** `np.array(xs) / 10**9`. */
  function InBillions(xs: seq<real>): (b: seq<real>)
    ensures |b| == |xs| && forall k :: 0 <= k < |xs| ==> b[k] == xs[k] / Billion
  {
    seq(|xs|, k requires 0 <= k < |xs| => xs[k] / Billion)
  }

  /** A list holding the selected net gamma of every level becomes, in billions, that curve. */
  lemma InBillionsCurve(sums: seq<real>, kernel: GammaKernel, levels: seq<real>, rows: seq<Row>, days: seq<real>, s: Selection)
    requires |sums| == |levels| && |days| == |rows|
    requires forall k :: 0 <= k < |levels| ==> sums[k] == NetGamma(kernel, levels[k], rows, days, s)
    ensures InBillions(sums) == Curve(kernel, levels, rows, days, s)
  {
  }

  /** `.sum()` of the cells of a column that a row filter keeps, NaN cells skipped. */
  function MaskedSum(col: seq<Cell>, mask: seq<bool>): real
    requires |mask| == |col|
  {
    if col == [] then 0.0
    else MaskedSum(col[..|col| - 1], mask[..|mask| - 1]) + (if mask[|mask| - 1] then SumTerm(col[|col| - 1]) else 0.0)
  }

  /** `df['ExpirationDate'] != x` and the like, as a row filter. */
  function KeepMask(rows: seq<Row>, s: Selection): (m: seq<bool>)
    ensures |m| == |rows| && forall j :: 0 <= j < |rows| ==> m[j] == Keeps(s, rows[j].expiry)
  {
    seq(|rows|, j requires 0 <= j < |rows| => Keeps(s, rows[j].expiry))
  }

  /** `df['callGammaEx']` at one level (gamma.py:167-168). */
  function CallColumn(kernel: GammaKernel, level: real, rows: seq<Row>, days: seq<real>): (c: seq<Cell>)
    requires |days| == |rows|
    ensures |c| == |rows| && forall j :: 0 <= j < |rows| ==> c[j] == CallGammaAt(kernel, level, rows[j], days[j])
  {
    seq(|rows|, j requires 0 <= j < |rows| => CallGammaAt(kernel, level, rows[j], days[j]))
  }

  /** `df['putGammaEx']` at one level (gamma.py:170-171). */
  function PutColumn(kernel: GammaKernel, level: real, rows: seq<Row>, days: seq<real>): (c: seq<Cell>)
    requires |days| == |rows|
    ensures |c| == |rows| && forall j :: 0 <= j < |rows| ==> c[j] == PutGammaAt(kernel, level, rows[j], days[j])
  {
    seq(|rows|, j requires 0 <= j < |rows| => PutGammaAt(kernel, level, rows[j], days[j]))
  }

  /**
   * The column form agrees with the row form: the kept call cells minus the
   * kept put cells is the selected net gamma.
   */
  lemma {:induction false} ColumnSums(kernel: GammaKernel, level: real, rows: seq<Row>, days: seq<real>, s: Selection)
    requires |days| == |rows|
    ensures MaskedSum(CallColumn(kernel, level, rows, days), KeepMask(rows, s))
          - MaskedSum(PutColumn(kernel, level, rows, days), KeepMask(rows, s))
         == NetGamma(kernel, level, rows, days, s)
  {
    if rows != [] {
      var n := |rows| - 1;
      assert KeepMask(rows, s)[..n] == KeepMask(rows[..n], s);
      assert CallColumn(kernel, level, rows, days)[..n] == CallColumn(kernel, level, rows[..n], days[..n]);
      assert PutColumn(kernel, level, rows, days)[..n] == PutColumn(kernel, level, rows[..n], days[..n]);
      ColumnSums(kernel, level, rows[..n], days[..n], s);
    }
  }

  /**
   * The body of the loop of gamma.py:167-179 at one level: the call and put
   * exposure columns, and their difference summed over all rows, over the
   * rows exNextRows keeps and over the rows exFriRows keeps.
   */
  method LevelSums(kernel: GammaKernel, level: real, rows: seq<Row>, daysTillExp: seq<real>,
                   exNextRows: Selection, exFriRows: Selection)
    returns (total: real, exNext: real, exFri: real)
    requires |daysTillExp| == |rows|
    ensures total == NetGamma(kernel, level, rows, daysTillExp, All)
    ensures exNext == NetGamma(kernel, level, rows, daysTillExp, exNextRows)
    ensures exFri == NetGamma(kernel, level, rows, daysTillExp, exFriRows)
  {
    var callGammaEx := CallColumn(kernel, level, rows, daysTillExp);
    var putGammaEx := PutColumn(kernel, level, rows, daysTillExp);
    ColumnSums(kernel, level, rows, daysTillExp, All);
    ColumnSums(kernel, level, rows, daysTillExp, exNextRows);
    ColumnSums(kernel, level, rows, daysTillExp, exFriRows);
    total := MaskedSum(callGammaEx, KeepMask(rows, All)) - MaskedSum(putGammaEx, KeepMask(rows, All));
    exNext := MaskedSum(callGammaEx, KeepMask(rows, exNextRows)) - MaskedSum(putGammaEx, KeepMask(rows, exNextRows));
    exFri := MaskedSum(callGammaEx, KeepMask(rows, exFriRows)) - MaskedSum(putGammaEx, KeepMask(rows, exFriRows));
  }

  /**
   * gamma.py:161-183 on a table whose j-th row has time to expiry days[j].
   * For every level the loop recomputes the call and put exposure columns and
   * appends three filtered sums: over all rows, over the rows exNextRows
   * keeps, over the rows exFriRows keeps; the lists are then scaled to
   * billions.
   */
  method SweepLevels(kernel: GammaKernel, levels: seq<real>, rows: seq<Row>, daysTillExp: seq<real>,
                     exNextRows: Selection, exFriRows: Selection)
    returns (totalGamma: seq<real>, totalGammaExNext: seq<real>, totalGammaExFri: seq<real>)
    requires |daysTillExp| == |rows|
    ensures totalGamma == Curve(kernel, levels, rows, daysTillExp, All)
    ensures totalGammaExNext == Curve(kernel, levels, rows, daysTillExp, exNextRows)
    ensures totalGammaExFri == Curve(kernel, levels, rows, daysTillExp, exFriRows)
  {
    var total: seq<real> := [];
    var exNext: seq<real> := [];
    var exFri: seq<real> := [];
    for i := 0 to |levels|
      invariant |total| == i && |exNext| == i && |exFri| == i
      invariant forall k :: 0 <= k < i ==> total[k] == NetGamma(kernel, levels[k], rows, daysTillExp, All)
      invariant forall k :: 0 <= k < i ==> exNext[k] == NetGamma(kernel, levels[k], rows, daysTillExp, exNextRows)
      invariant forall k :: 0 <= k < i ==> exFri[k] == NetGamma(kernel, levels[k], rows, daysTillExp, exFriRows)
    {
      var t, n, f := LevelSums(kernel, levels[i], rows, daysTillExp, exNextRows, exFriRows);
      total := total + [t];
      exNext := exNext + [n];
      exFri := exFri + [f];
    }
    InBillionsCurve(total, kernel, levels, rows, daysTillExp, All);
    InBillionsCurve(exNext, kernel, levels, rows, daysTillExp, exNextRows);
    InBillionsCurve(exFri, kernel, levels, rows, daysTillExp, exFriRows);
    totalGamma := InBillions(total);
    totalGammaExNext := InBillions(exNext);
    totalGammaExFri := InBillions(exFri);
  }

  /**
   * gamma.py:152-183: the days-till-expiry column from today, the next expiry
   * and the next monthly expiry, then the sweep. The result is the three
   * curves: all rows, the rows not at the next expiry, the rows not at the
   * next monthly expiry (each filter keeping every row when its date is NaT).
   */
  method ProfileSweep(kernel: GammaKernel, levels: seq<real>, today: Date, rows: seq<Row>)
    returns (totalGamma: seq<real>, totalGammaExNext: seq<real>, totalGammaExFri: seq<real>)
    ensures totalGamma == Curve(kernel, levels, rows, DaysColumn(today, rows), All)
    ensures totalGammaExNext == Curve(kernel, levels, rows, DaysColumn(today, rows), Excluding(NextExpiry(rows)))
    ensures totalGammaExFri == Curve(kernel, levels, rows, DaysColumn(today, rows), Excluding(NextMonthlyExpiry(rows)))
  {
    var daysTillExp := DaysColumn(today, rows);
    var nextExpiry := NextExpiry(rows);
    var nextMonthlyExp := NextMonthlyExpiry(rows);
    totalGamma, totalGammaExNext, totalGammaExFri :=
      SweepLevels(kernel, levels, rows, daysTillExp, Excluding(nextExpiry), Excluding(nextMonthlyExp));
  }

  // ---- What the three curves say about each other ----

  /** Every row is either at date e or not: the full sum splits into the two. */
  lemma {:induction false} NetGammaSplit(kernel: GammaKernel, level: real, rows: seq<Row>, days: seq<real>, e: Date)
    requires |days| == |rows|
    ensures NetGamma(kernel, level, rows, days, All)
         == NetGamma(kernel, level, rows, days, Except(e)) + NetGamma(kernel, level, rows, days, Only(e))
  {
    if rows != [] {
      NetGammaSplit(kernel, level, rows[..|rows| - 1], days[..|rows| - 1], e);
    }
  }

  /**
   * At every level, the all-expiries curve minus the ex-next-expiry curve is
   * the net call-minus-put exposure of the rows at the next expiry.
   */
  lemma ExNextGap(kernel: GammaKernel, levels: seq<real>, rows: seq<Row>, days: seq<real>, i: nat)
    requires |days| == |rows| && rows != [] && i < |levels|
    ensures NextExpiry(rows).Some?
    ensures Curve(kernel, levels, rows, days, All)[i] - Curve(kernel, levels, rows, days, Excluding(NextExpiry(rows)))[i]
         == NetGamma(kernel, levels[i], rows, days, Only(NextExpiry(rows).value)) / Billion
  {
    NetGammaSplit(kernel, levels[i], rows, days, NextExpiry(rows).value);
  }

  /** A chain without any third-Friday expiry has an ex-monthly curve equal to the full curve. */
  lemma NoMonthlyExpiry(kernel: GammaKernel, levels: seq<real>, rows: seq<Row>, days: seq<real>)
    requires |days| == |rows|
    requires forall row :: row in rows ==> !IsThirdFriday(row.expiry)
    ensures Curve(kernel, levels, rows, days, Excluding(NextMonthlyExpiry(rows))) == Curve(kernel, levels, rows, days, All)
  {
  }

  /** A date no row expires on contributes nothing: excluding it leaves the sum as it was. */
  lemma {:induction false} AbsentExpiry(kernel: GammaKernel, level: real, rows: seq<Row>, days: seq<real>, e: Date)
    requires |days| == |rows|
    requires forall row :: row in rows ==> row.expiry != e
    ensures NetGamma(kernel, level, rows, days, Only(e)) == 0.0
    ensures NetGamma(kernel, level, rows, days, Except(e)) == NetGamma(kernel, level, rows, days, All)
  {
    if rows != [] {
      var n := |rows| - 1;
      assert rows[n] in rows;
      assert forall row :: row in rows[..n] ==> row in rows;
      AbsentExpiry(kernel, level, rows[..n], days[..n], e);
    }
  }

  /** A chain quoted with zero implied volatility throughout has zero net gamma at every level. */
  lemma {:induction false} ZeroVolChain(kernel: GammaKernel, level: real, rows: seq<Row>, days: seq<real>, s: Selection)
    requires |days| == |rows|
    requires forall row :: row in rows ==> row.callIV == 0.0 && row.putIV == 0.0
    ensures NetGamma(kernel, level, rows, days, s) == 0.0
  {
    if rows != [] {
      var n := |rows| - 1;
      assert rows[n] in rows;
      assert forall row :: row in rows[..n] ==> row in rows;
      ZeroVolChain(kernel, level, rows[..n], days[..n], s);
    }
  }

  /** A row quoted with zero implied volatility on both sides adds nothing at any level or time to expiry. */
  lemma ZeroVolRow(kernel: GammaKernel, level: real, row: Row, T: real)
    requires row.callIV == 0.0 && row.putIV == 0.0
    ensures SumTerm(CallGammaAt(kernel, level, row, T)) - SumTerm(PutGammaAt(kernel, level, row, T)) == 0.0
  {
  }

  /**
   * A contract that expired on Friday 2025-10-31, seen on Saturday 2025-11-01:
   * the reversed span holds no business day, so the count is 0 and the
   * contract still counts as 1/262 of a year from expiry.
   */
  lemma ExpiredAtWeekend()
    ensures Before(Ymd(2025, 10, 31), Ymd(2025, 11, 1))
    ensures BusdayCount(Ordinal(Ymd(2025, 11, 1)), Ordinal(Ymd(2025, 10, 31))) == 0
    ensures DaysTillExp(Ymd(2025, 11, 1), Ymd(2025, 10, 31)) == 1.0 / 262.0
  {
    var o := Ordinal(Ymd(2025, 10, 31));
    assert o == 739555;
    assert Ordinal(Ymd(2025, 11, 1)) == o + 1;
    assert CountBusinessDays(o + 1, o + 2) == 0;
  }

  /**
   * A row whose expiry lies a negative number of business days ahead has NaN
   * exposure on both sides at every level, which the sums skip.
   */
  lemma PastExpiryRow(kernel: GammaKernel, level: real, today: Date, row: Row)
    requires BusdayCount(Ordinal(today), Ordinal(row.expiry)) < 0
    ensures CallGammaAt(kernel, level, row, DaysTillExp(today, row.expiry)) == NaN || row.callIV == 0.0
    ensures PutGammaAt(kernel, level, row, DaysTillExp(today, row.expiry)) == NaN || row.putIV == 0.0
    ensures SumTerm(CallGammaAt(kernel, level, row, DaysTillExp(today, row.expiry)))
          - SumTerm(PutGammaAt(kernel, level, row, DaysTillExp(today, row.expiry))) == 0.0
  {
  }

  /**
   * A table whose every row has a negative business-day count to expiry adds
   * up to zero net gamma at every level.
   */
  lemma {:induction false} PastExpiryChain(kernel: GammaKernel, level: real, today: Date, rows: seq<Row>, s: Selection)
    requires forall row :: row in rows ==> BusdayCount(Ordinal(today), Ordinal(row.expiry)) < 0
    ensures NetGamma(kernel, level, rows, DaysColumn(today, rows), s) == 0.0
  {
    if rows != [] {
      var n := |rows| - 1;
      assert rows[n] in rows;
      assert forall row :: row in rows[..n] ==> row in rows;
      assert DaysColumn(today, rows)[..n] == DaysColumn(today, rows[..n]);
      PastExpiryChain(kernel, level, today, rows[..n], s);
      PastExpiryRow(kernel, level, today, rows[n]);
    }
  }
}
