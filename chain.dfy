/**
 * The option chain as gamma.py tabulates it: decoding every identifier
 * (gamma.py:58-62), splitting calls from puts and pairing them row by row
 * (gamma.py:64-81), and converting strikes to numbers (gamma.py:91).
 */
module Chain {
  import opened Common
  import opened Failures
  import opened Calendar
  import opened OptionSymbol

  /** One entry of the quote's `options` list, as far as the computation uses it. */
  datatype Quote = Quote(option: string, iv: real, gamma: real, openInterest: real)

  /** A row of `data_df` once its identifier has been cut into columns. */
  datatype DecodedQuote = DecodedQuote(right: string, expiry: Stamp, strike: string, iv: real, gamma: real, openInterest: real)

  /** A row of the merged frame `df`: a call and the put beside it (gamma.py:73-81). */
  datatype PairedQuote = PairedQuote(
    expiry: Date, strike: string,
    callIV: real, callGamma: real, callOI: real,
    putIV: real, putGamma: real, putOI: real)

  /** A row of `df` once the strike is a number (gamma.py:85-97). */
  datatype Row = Row(
    expiry: Date, strike: real,
    callIV: real, callGamma: real, callOI: real,
    putIV: real, putGamma: real, putOI: real)

  function DecodeQuote(q: Quote): DecodedQuote
    requires DecodeSymbol(q.option).Some?
  {
    var f := DecodeSymbol(q.option).value;
    DecodedQuote(f.right, f.expiry, f.strike, q.iv, q.gamma, q.openInterest)
  }

  /**
   * gamma.py:58-62 over the whole column: the conversion to dates raises,
   * stopping the script, as soon as one expiry text is not a date.
   */
  function DecodeQuotes(qs: seq<Quote>): (r: Result<seq<DecodedQuote>, ScriptError>)
    ensures r.Err? <==> exists i :: 0 <= i < |qs| && DecodeSymbol(qs[i].option).None?
    ensures r.Err? ==> r.error == BadExpiry
    ensures r.Ok? ==> |r.value| == |qs| && forall i :: 0 <= i < |qs| ==> r.value[i] == DecodeQuote(qs[i])
  {
    if qs == [] then Ok([])
    else if DecodeSymbol(qs[0].option).None? then Err(BadExpiry)
    else
      match DecodeQuotes(qs[1..])
      case Err(e) =>
        ghost var i :| 0 <= i < |qs[1..]| && DecodeSymbol(qs[1..][i].option).None?;
        assert qs[i + 1] == qs[1..][i];
        Err(e)
      case Ok(rest) =>
        assert forall i :: 0 < i < |qs| ==> qs[i] == qs[1..][i - 1];
        Ok([DecodeQuote(qs[0])] + rest)
  }

  /** `data_df.loc[data_df['CallPut'] == letter]`: the rows of one right, in their order. */
  function Select(qs: seq<DecodedQuote>, letter: string): (r: seq<DecodedQuote>)
    ensures |r| <= |qs|
    ensures forall x :: x in r ==> x in qs && x.right == letter
    ensures forall x :: x in qs && x.right == letter ==> x in r
  {
    if qs == [] then []
    else (if qs[0].right == letter then [qs[0]] else []) + Select(qs[1..], letter)
  }

  lemma {:induction false} SelectAppend(a: seq<DecodedQuote>, b: seq<DecodedQuote>, letter: string)
    ensures Select(a + b, letter) == Select(a, letter) + Select(b, letter)
  {
    if a != [] {
      assert (a + b)[0] == a[0] && (a + b)[1..] == a[1..] + b;
      SelectAppend(a[1..], b, letter);
      var h := if a[0].right == letter then [a[0]] else [];
      assert Select(a + b, letter) == h + Select(a[1..] + b, letter);
      assert Select(a, letter) == h + Select(a[1..], letter);
    } else {
      assert a + b == b;
    }
  }

  /** gamma.py:64: the rows whose right is "C". */
  function Calls(qs: seq<DecodedQuote>): (r: seq<DecodedQuote>)
    ensures |r| <= |qs|
    ensures forall x :: x in r <==> x in qs && x.right == "C"
  {
    Select(qs, "C")
  }

  /** gamma.py:65: the rows whose right is "P". */
  function Puts(qs: seq<DecodedQuote>): (r: seq<DecodedQuote>)
    ensures |r| <= |qs|
    ensures forall x :: x in r <==> x in qs && x.right == "P"
  {
    Select(qs, "P")
  }

  /** Cell equality of pandas: NaT equals nothing, not even NaT. */
  predicate Matches(c: DecodedQuote, p: DecodedQuote) {
    c.expiry.At? && p.expiry == c.expiry && p.strike == c.strike
  }

  /**
   * The `check` column of gamma.py:75 over the side-by-side frame: the frame
   * has as many rows as the longer side, and a row lacking a call or a put
   * compares unequal.
   */
  function CheckColumn(calls: seq<DecodedQuote>, puts: seq<DecodedQuote>): (c: seq<int>)
    ensures |c| == if |calls| >= |puts| then |calls| else |puts|
  {
    var n := if |calls| >= |puts| then |calls| else |puts|;
    seq(n, i requires 0 <= i < n =>
      if i < |calls| && i < |puts| && Matches(calls[i], puts[i]) then 0 else 1)
  }

  function SumInts(s: seq<int>): int {
    if s == [] then 0 else s[0] + SumInts(s[1..])
  }

  lemma {:induction false} SumOfFlagsIsZero(s: seq<int>)
    requires forall i :: 0 <= i < |s| ==> s[i] == 0 || s[i] == 1
    ensures SumInts(s) == 0 <==> forall i :: 0 <= i < |s| ==> s[i] == 0
  {
    if s != [] {
      SumOfFlagsIsZero(s[1..]);
      assert forall i :: 0 < i < |s| ==> s[i] == s[1..][i - 1];
      if SumInts(s) == 0 {
        assert SumInts(s[1..]) >= 0 by { SumOfFlagsNonNegative(s[1..]); }
      }
    }
  }

  lemma {:induction false} SumOfFlagsNonNegative(s: seq<int>)
    requires forall i :: 0 <= i < |s| ==> s[i] == 0 || s[i] == 1
    ensures SumInts(s) >= 0
  {
    if s != [] {
      SumOfFlagsNonNegative(s[1..]);
    }
  }

  function Merge(c: DecodedQuote, p: DecodedQuote): PairedQuote
    requires Matches(c, p)
  {
    PairedQuote(c.expiry.date, c.strike, c.iv, c.gamma, c.openInterest, p.iv, p.gamma, p.openInterest)
  }

  /**
   * gamma.py:64-81: the i-th call beside the i-th put; the script stops
   * unless both sides are equally long and every pair agrees on expiry and
   * strike text.
   */
  function PairQuotes(qs: seq<DecodedQuote>): (r: Result<seq<PairedQuote>, ScriptError>)
    ensures r.Ok? <==> |Calls(qs)| == |Puts(qs)| && forall i :: 0 <= i < |Calls(qs)| ==> Matches(Calls(qs)[i], Puts(qs)[i])
    ensures r.Err? ==> r.error == MergeMismatch
    ensures r.Ok? ==>
      && |r.value| == |Calls(qs)|
      && forall i :: 0 <= i < |r.value| ==> Matches(Calls(qs)[i], Puts(qs)[i]) && r.value[i] == Merge(Calls(qs)[i], Puts(qs)[i])
  {
    var calls := Calls(qs);
    var puts := Puts(qs);
    CheckColumnZero(calls, puts);
    if SumInts(CheckColumn(calls, puts)) != 0 then
      Err(MergeMismatch)
    else
      Ok(seq(|calls|, i requires 0 <= i < |calls| => Merge(calls[i], puts[i])))
  }

  /** The `check` column sums to zero exactly when the sides are equally long and every pair matches. */
  lemma CheckColumnZero(calls: seq<DecodedQuote>, puts: seq<DecodedQuote>)
    ensures SumInts(CheckColumn(calls, puts)) == 0 <==>
      |calls| == |puts| && forall i :: 0 <= i < |calls| ==> Matches(calls[i], puts[i])
  {
    var check := CheckColumn(calls, puts);
    SumOfFlagsIsZero(check);
    if SumInts(check) == 0 {
      assert |calls| == |puts| by {
        if |check| > 0 {
          assert check[|check| - 1] == 0;
        }
      }
      forall i | 0 <= i < |calls|
        ensures Matches(calls[i], puts[i])
      {
        assert check[i] == 0;
      }
    } else {
      var i :| 0 <= i < |check| && check[i] != 0;
    }
  }

  function ToRow(p: PairedQuote): Row
    requires ParseStrike(p.strike).Some?
  {
    Row(p.expiry, ParseStrike(p.strike).value, p.callIV, p.callGamma, p.callOI, p.putIV, p.putGamma, p.putOI)
  }

  /** gamma.py:91: `astype(float)` on the strike column raises if one cell is not a number. */
  function ConvertStrikes(ps: seq<PairedQuote>): (r: Result<seq<Row>, ScriptError>)
    ensures r.Err? <==> exists i :: 0 <= i < |ps| && ParseStrike(ps[i].strike).None?
    ensures r.Err? ==> r.error == BadStrike
    ensures r.Ok? ==> |r.value| == |ps| && forall i :: 0 <= i < |ps| ==> r.value[i] == ToRow(ps[i])
  {
    if ps == [] then Ok([])
    else if ParseStrike(ps[0].strike).None? then Err(BadStrike)
    else
      match ConvertStrikes(ps[1..])
      case Err(e) =>
        ghost var i :| 0 <= i < |ps[1..]| && ParseStrike(ps[1..][i].strike).None?;
        assert ParseStrike(ps[i + 1].strike).None?;
        Err(e)
      case Ok(rest) =>
        assert forall i :: 0 < i < |ps| ==> ps[i] == ps[1..][i - 1];
        Ok([ToRow(ps[0])] + rest)
  }

  /**
   * The merged table of the whole chain, or the error that stops the script on
   * its way: a frame built from an empty list has no `option` column at all.
   */
  function Tabulate(qs: seq<Quote>): (r: Result<seq<Row>, ScriptError>)
    ensures r == Err(NoOptionColumn) <==> qs == []
    ensures (exists i :: 0 <= i < |qs| && DecodeSymbol(qs[i].option).None?) ==> r == Err(BadExpiry)
    ensures r.Err? ==> r.error != NoGammaFlip
  {
    if qs == [] then Err(NoOptionColumn)
    else
      match DecodeQuotes(qs)
      case Err(e) => Err(e)
      case Ok(decoded) =>
        match PairQuotes(decoded)
        case Err(e) => Err(e)
        case Ok(paired) => ConvertStrikes(paired)
  }

  /** Quote q is of the given right, on the given expiry date, at the given strike. */
  predicate QuoteFor(q: Quote, right: string, expiry: Date, strike: real) {
    && DecodeSymbol(q.option).Some?
    && DecodeSymbol(q.option).value.right == right
    && DecodeSymbol(q.option).value.expiry == At(expiry)
    && ParseStrike(DecodeSymbol(q.option).value.strike) == Some(strike)
  }

  /** A decoded quote taken from one of the quotes. */
  lemma DecodedFrom(qs: seq<Quote>, x: DecodedQuote)
    requires DecodeQuotes(qs).Ok? && x in DecodeQuotes(qs).value
    ensures exists q :: q in qs && DecodeSymbol(q.option).Some? && DecodeQuote(q) == x
  {
    var d := DecodeQuotes(qs).value;
    var j :| 0 <= j < |d| && d[j] == x;
    assert qs[j] in qs;
  }

  /**
   * Every row of the table has its call columns from a call quote and its put
   * columns from a put quote of the input, both of the row's expiry and strike.
   */
  lemma TabulateRowsFromQuotes(qs: seq<Quote>, i: nat)
    requires Tabulate(qs).Ok? && i < |Tabulate(qs).value|
    ensures var row := Tabulate(qs).value[i];
      && (exists c :: c in qs && QuoteFor(c, "C", row.expiry, row.strike)
                     && c.iv == row.callIV && c.gamma == row.callGamma && c.openInterest == row.callOI)
      && (exists p :: p in qs && QuoteFor(p, "P", row.expiry, row.strike)
                     && p.iv == row.putIV && p.gamma == row.putGamma && p.openInterest == row.putOI)
  {
    var decoded := DecodeQuotes(qs).value;
    var paired := PairQuotes(decoded).value;
    var row := Tabulate(qs).value[i];
    assert row == ToRow(paired[i]);
    var call, put := Calls(decoded)[i], Puts(decoded)[i];
    assert call in Calls(decoded) && put in Puts(decoded);
    assert paired[i] == Merge(call, put);
    DecodedFrom(qs, call);
    DecodedFrom(qs, put);
    var c :| c in qs && DecodeSymbol(c.option).Some? && DecodeQuote(c) == call;
    var p :| p in qs && DecodeSymbol(p.option).Some? && DecodeQuote(p) == put;
    assert QuoteFor(c, "C", row.expiry, row.strike);
    assert QuoteFor(p, "P", row.expiry, row.strike);
  }

  /**
   * A call whose strike field is all zeros has an empty strike text; once it is
   * paired, the float conversion stops the script.
   */
  lemma ZeroStrikeStops(ps: seq<PairedQuote>, i: nat)
    requires i < |ps| && ps[i].strike == []
    ensures ConvertStrikes(ps) == Err(BadStrike)
  {
  }
}
