/**
 * Gamma exposure: `calcGammaEx` with its zero guard and final scaling
 * (gamma.py:16-28), the spot exposure of every row (gamma.py:103-106) and
 * the per-strike totals `groupby('StrikePrice').sum()` (gamma.py:107-108).
 */
module Exposure {
  import opened Chain

  datatype OptType = Call | Put

  /**
   * The Black-Scholes gamma of gamma.py:20-27 as a function of
   * (S, K, vol, T, r, q, branch); its floating-point body is not modelled.
   */
  type GammaKernel = (real, real, real, real, real, real, OptType) -> real

  /** A float cell of a DataFrame column: a number, or NaN, which `.sum()` skips. */
  datatype Cell = Num(x: real) | NaN

  /** What `.sum()` adds for a cell. */
  function SumTerm(c: Cell): real {
    match c
    case Num(x) => x
    case NaN => 0.0
  }

  /**
   * `calcGammaEx`: no exposure at all when T or vol is zero, whatever the
   * other inputs; NaN when T is negative, `np.sqrt(T)` being NaN in every
   * branch (gamma.py:20-27); otherwise OI * 100 * S^2 * 0.01 times the
   * branch's gamma.
   */
  function CalcGammaEx(kernel: GammaKernel, S: real, K: real, vol: real, T: real, r: real, q: real,
                       optType: OptType, OI: real): (g: Cell)
    ensures T == 0.0 || vol == 0.0 ==> g == Num(0.0)
    ensures T < 0.0 && vol != 0.0 ==> g == NaN
    ensures T > 0.0 && vol != 0.0 ==> g == Num(OI * S * S * kernel(S, K, vol, T, r, q, optType))
  {
    if T == 0.0 || vol == 0.0 then Num(0.0)
    else if T < 0.0 then NaN
    else Num(OI * 100.0 * S * S * 0.01 * kernel(S, K, vol, T, r, q, optType))
  }

  /** Open interest adds up: two contracts' summed exposures are that of their joint open interest. */
  lemma CalcGammaExAdditive(kernel: GammaKernel, S: real, K: real, vol: real, T: real, r: real, q: real,
                            optType: OptType, OI1: real, OI2: real)
    ensures SumTerm(CalcGammaEx(kernel, S, K, vol, T, r, q, optType, OI1 + OI2))
         == SumTerm(CalcGammaEx(kernel, S, K, vol, T, r, q, optType, OI1))
          + SumTerm(CalcGammaEx(kernel, S, K, vol, T, r, q, optType, OI2))
  {
    if T > 0.0 && vol != 0.0 {
      var c := S * S * kernel(S, K, vol, T, r, q, optType);
      assert (OI1 + OI2) * c == OI1 * c + OI2 * c;
    }
  }

  // ---- Spot gamma exposure (gamma.py:103-106) ----

  const Billion: real := 1_000_000_000.0

  /** Unit gamma x open interest x contract size 100 x spot x 1% of spot. */
  function SpotGex(gamma: real, oi: real, spot: real): (g: real)
    ensures gamma >= 0.0 && oi >= 0.0 ==> g >= 0.0
  {
    NonNegativeFactors(gamma, oi, spot);
    gamma * oi * 100.0 * spot * spot * 0.01
  }

  lemma NonNegativeFactors(gamma: real, oi: real, spot: real)
    ensures gamma >= 0.0 && oi >= 0.0 ==> gamma * oi * 100.0 * spot * spot * 0.01 >= 0.0
  {
    if gamma >= 0.0 && oi >= 0.0 {
      assert spot * spot >= 0.0;
      assert gamma * oi >= 0.0;
      assert gamma * oi * 100.0 >= 0.0;
      assert gamma * oi * 100.0 * spot * spot == (gamma * oi * 100.0) * (spot * spot);
    }
  }

  /** gamma.py:103: a call's exposure is the spot exposure of its gamma and open interest, never negative. */
  function CallGex(row: Row, spot: real): (c: real)
    ensures c == SpotGex(row.callGamma, row.callOI, spot)
    ensures row.callGamma >= 0.0 && row.callOI >= 0.0 ==> c >= 0.0
  {
    row.callGamma * row.callOI * 100.0 * spot * spot * 0.01
  }

  /** gamma.py:104: a put's exposure is the same formula on the put's columns, negated. */
  function PutGex(row: Row, spot: real): (p: real)
    ensures p == -SpotGex(row.putGamma, row.putOI, spot)
    ensures row.putGamma >= 0.0 && row.putOI >= 0.0 ==> p <= 0.0
  {
    row.putGamma * row.putOI * 100.0 * spot * spot * 0.01 * -1.0
  }

  /** gamma.py:106: the row's net exposure, calls minus puts, in billions. */
  function TotalGamma(row: Row, spot: real): (t: real)
    ensures t == (SpotGex(row.callGamma, row.callOI, spot) - SpotGex(row.putGamma, row.putOI, spot)) / Billion
  {
    (CallGex(row, spot) + PutGex(row, spot)) / Billion
  }

  // ---- Per-strike totals (gamma.py:107-108) ----

  /** The summed columns of `dfAgg` that the charts read. */
  datatype Columns = Columns(callOI: real, putOI: real, callGex: real, putGex: real, totalGamma: real)

  const NoColumns := Columns(0.0, 0.0, 0.0, 0.0, 0.0)

  function Plus(a: Columns, b: Columns): Columns {
    Columns(a.callOI + b.callOI, a.putOI + b.putOI, a.callGex + b.callGex, a.putGex + b.putGex,
            a.totalGamma + b.totalGamma)
  }

  function RowColumns(row: Row, spot: real): Columns {
    Columns(row.callOI, row.putOI, CallGex(row, spot), PutGex(row, spot), TotalGamma(row, spot))
  }

  /** The column sums of a block of rows. */
  function SumRows(rows: seq<Row>, spot: real): Columns {
    if rows == [] then NoColumns
    else Plus(SumRows(rows[..|rows| - 1], spot), RowColumns(rows[|rows| - 1], spot))
  }

  /** The rows at one strike, in their order. */
  function RowsAt(rows: seq<Row>, k: real): seq<Row> {
    if rows == [] then []
    else RowsAt(rows[..|rows| - 1], k) + (if rows[|rows| - 1].strike == k then [rows[|rows| - 1]] else [])
  }

  /** One row of `dfAgg`: a strike and the sums over its rows. */
  datatype StrikeGroup = StrikeGroup(strike: real, sums: Columns)

  predicate StrictlyAscending(g: seq<StrikeGroup>) {
    forall i, j :: 0 <= i < j < |g| ==> g[i].strike < g[j].strike
  }

  /** The sums of a strike's group, or nothing when the strike has none. */
  function Lookup(g: seq<StrikeGroup>, k: real): Columns {
    if g == [] then NoColumns
    else if g[0].strike == k then g[0].sums
    else Lookup(g[1..], k)
  }

  function SumGroups(g: seq<StrikeGroup>): Columns {
    if g == [] then NoColumns else Plus(g[0].sums, SumGroups(g[1..]))
  }

  /** Adds one row's columns to the group of strike k, creating it in order if needed. */
  function Insert(g: seq<StrikeGroup>, k: real, c: Columns): seq<StrikeGroup> {
    if g == [] then [StrikeGroup(k, c)]
    else if k < g[0].strike then [StrikeGroup(k, c)] + g
    else if k == g[0].strike then [StrikeGroup(k, Plus(g[0].sums, c))] + g[1..]
    else [g[0]] + Insert(g[1..], k, c)
  }

  lemma {:induction false} InsertAscending(g: seq<StrikeGroup>, k: real, c: Columns)
    requires StrictlyAscending(g)
    ensures StrictlyAscending(Insert(g, k, c))
    ensures forall x :: x in Insert(g, k, c) ==> x.strike == k || x in g
  {
    if g != [] && k > g[0].strike {
      var t := g[1..];
      InsertAscending(t, k, c);
      AscendingTail(g);
      ConsAscending(g[0], Insert(t, k, c));
    }
  }

  /** Every strike after the first group exceeds the first. */
  lemma AscendingTail(g: seq<StrikeGroup>)
    requires StrictlyAscending(g) && g != []
    ensures StrictlyAscending(g[1..])
    ensures forall x :: x in g[1..] ==> g[0].strike < x.strike
  {
    forall x | x in g[1..] ensures g[0].strike < x.strike {
      var m :| 0 <= m < |g[1..]| && g[1..][m] == x;
      assert g[m + 1] == x;
    }
  }

  lemma ConsAscending(h: StrikeGroup, t: seq<StrikeGroup>)
    requires StrictlyAscending(t)
    requires forall x :: x in t ==> h.strike < x.strike
    ensures StrictlyAscending([h] + t)
  {
    var r := [h] + t;
    forall i, j | 0 <= i < j < |r| ensures r[i].strike < r[j].strike {
      assert r[j] == t[j - 1];
      if i > 0 {
        assert r[i] == t[i - 1];
      } else {
        assert t[j - 1] in t;
      }
    }
  }

  lemma {:induction false} InsertKeys(g: seq<StrikeGroup>, k: real, c: Columns)
    ensures forall x :: x in g ==> exists y :: y in Insert(g, k, c) && y.strike == x.strike
    ensures exists y :: y in Insert(g, k, c) && y.strike == k
  {
    var r := Insert(g, k, c);
    if g == [] || k <= g[0].strike {
      assert r[0] in r && r[0].strike == k;
      assert forall x :: x in g && x != g[0] ==> x in r;
      assert g != [] ==> g[0].strike == k || g[0] in r;
    } else {
      var t := g[1..];
      InsertKeys(t, k, c);
      assert r == [g[0]] + Insert(t, k, c);
      forall x | x in g ensures exists y :: y in r && y.strike == x.strike {
        if x == g[0] {
          assert r[0] in r;
        } else {
          assert x in t;
          var y :| y in Insert(t, k, c) && y.strike == x.strike;
          assert y in r;
        }
      }
      var y :| y in Insert(t, k, c) && y.strike == k;
      assert y in r;
    }
  }

  lemma {:induction false} InsertLookup(g: seq<StrikeGroup>, k: real, c: Columns, j: real)
    requires StrictlyAscending(g)
    ensures Lookup(Insert(g, k, c), j) == if j == k then Plus(Lookup(g, k), c) else Lookup(g, j)
  {
    if g == [] {
    } else if k < g[0].strike {
      if j == k { LookupBelow(g, k); }
    } else if k == g[0].strike {
      assert Insert(g, k, c)[1..] == g[1..];
    } else {
      assert StrictlyAscending(g[1..]);
      InsertLookup(g[1..], k, c, j);
      assert Insert(g, k, c)[1..] == Insert(g[1..], k, c);
    }
  }

  lemma {:induction false} InsertTotal(g: seq<StrikeGroup>, k: real, c: Columns)
    ensures SumGroups(Insert(g, k, c)) == Plus(SumGroups(g), c)
  {
    if g == [] {
    } else if k < g[0].strike {
    } else if k == g[0].strike {
      assert Insert(g, k, c)[1..] == g[1..];
    } else {
      InsertTotal(g[1..], k, c);
      assert Insert(g, k, c)[1..] == Insert(g[1..], k, c);
    }
  }

  /** A strike below every group has no group. */
  lemma {:induction false} LookupBelow(g: seq<StrikeGroup>, k: real)
    requires StrictlyAscending(g) && g != [] && k < g[0].strike
    ensures Lookup(g, k) == NoColumns
  {
    if |g| > 1 {
      assert StrictlyAscending(g[1..]);
      assert g[0].strike < g[1].strike;
      LookupBelow(g[1..], k);
    }
  }

  /** A strike with no group has no sums. */
  lemma {:induction false} LookupMissing(g: seq<StrikeGroup>, k: real)
    requires forall x :: x in g ==> x.strike != k
    ensures Lookup(g, k) == NoColumns
  {
    if g != [] {
      assert forall x :: x in g[1..] ==> x in g;
      LookupMissing(g[1..], k);
    }
  }

  /** `df.groupby(['StrikePrice']).sum()`, folding the rows in one at a time. */
  function GroupByStrike(rows: seq<Row>, spot: real): (g: seq<StrikeGroup>)
    ensures StrictlyAscending(g)
  {
    if rows == [] then []
    else
      var g0 := GroupByStrike(rows[..|rows| - 1], spot);
      var last := rows[|rows| - 1];
      InsertAscending(g0, last.strike, RowColumns(last, spot));
      Insert(g0, last.strike, RowColumns(last, spot))
  }

  /** Every group is the strike of some row. */
  lemma {:induction false} GroupsComeFromRows(rows: seq<Row>, spot: real)
    ensures forall x :: x in GroupByStrike(rows, spot) ==> exists row :: row in rows && row.strike == x.strike
  {
    if rows != [] {
      var init := rows[..|rows| - 1];
      var last := rows[|rows| - 1];
      var c := RowColumns(last, spot);
      var g0 := GroupByStrike(init, spot);
      GroupsComeFromRows(init, spot);
      InsertAscending(g0, last.strike, c);
      assert GroupByStrike(rows, spot) == Insert(g0, last.strike, c);
      forall x | x in GroupByStrike(rows, spot) ensures exists row :: row in rows && row.strike == x.strike {
        if x.strike == last.strike {
          assert last in rows;
        } else {
          assert x in g0;
          var row :| row in init && row.strike == x.strike;
          assert row in rows;
        }
      }
    }
  }

  /** Every row's strike has its group. */
  lemma {:induction false} RowsHaveGroups(rows: seq<Row>, spot: real)
    ensures forall row :: row in rows ==> exists x :: x in GroupByStrike(rows, spot) && x.strike == row.strike
  {
    if rows != [] {
      var init := rows[..|rows| - 1];
      var last := rows[|rows| - 1];
      var c := RowColumns(last, spot);
      var g0 := GroupByStrike(init, spot);
      RowsHaveGroups(init, spot);
      InsertKeys(g0, last.strike, c);
      assert GroupByStrike(rows, spot) == Insert(g0, last.strike, c);
      forall row | row in rows ensures exists x :: x in GroupByStrike(rows, spot) && x.strike == row.strike {
        if row != last {
          assert row in init;
          var x0 :| x0 in g0 && x0.strike == row.strike;
        }
      }
    }
  }

  /** Each strike's group holds the column sums over exactly the rows at that strike. */
  lemma {:induction false} GroupByStrikeSums(rows: seq<Row>, spot: real, k: real)
    ensures Lookup(GroupByStrike(rows, spot), k) == SumRows(RowsAt(rows, k), spot)
  {
    if rows != [] {
      var init := rows[..|rows| - 1];
      var last := rows[|rows| - 1];
      var c := RowColumns(last, spot);
      var g0 := GroupByStrike(init, spot);
      GroupByStrikeSums(init, spot, k);
      GroupByStrikeSums(init, spot, last.strike);
      assert GroupByStrike(rows, spot) == Insert(g0, last.strike, c);
      InsertLookup(g0, last.strike, c, k);
      var at := RowsAt(rows, k);
      if k == last.strike {
        assert at == RowsAt(init, k) + [last];
        assert at[..|at| - 1] == RowsAt(init, k);
      } else {
        assert at == RowsAt(init, k) + [];
        assert at == RowsAt(init, k);
        assert Lookup(GroupByStrike(rows, spot), k) == Lookup(g0, k);
      }
    }
  }

  /** Grouping loses nothing: the group sums add up to the column sums of all rows. */
  lemma {:induction false} GroupTotals(rows: seq<Row>, spot: real)
    ensures SumGroups(GroupByStrike(rows, spot)) == SumRows(rows, spot)
  {
    if rows != [] {
      var last := rows[|rows| - 1];
      GroupTotals(rows[..|rows| - 1], spot);
      InsertTotal(GroupByStrike(rows[..|rows| - 1], spot), last.strike, RowColumns(last, spot));
    }
  }
}
