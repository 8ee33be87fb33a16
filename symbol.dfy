/**
 * Decoding an OCC-style option identifier, as gamma.py does with pandas
 * string slices (gamma.py:58-62): the trailing 15 characters are the
 * `YYMMDD` expiry, the `C`/`P` right and the 8-digit strike x 1000 field,
 * of which only the five integer digits are kept, leading zeros stripped.
 */
module OptionSymbol {
  import opened Common
  import opened Calendar

  // ---- Python slicing and str.lstrip ----

  /** Python's `s[-start:-stop]` for 0 < stop <= start: positions before the front clamp to 0. */
  function SliceFromEnd(s: string, start: nat, stop: nat): (r: string)
    requires stop <= start
    ensures |s| >= start ==> r == s[|s| - start .. |s| - stop]
    ensures |s| <= stop ==> r == []
  {
    var lo := if |s| >= start then |s| - start else 0;
    var hi := if |s| >= stop then |s| - stop else 0;
    s[lo..hi]
  }

  /** `str.lstrip('0')`: the longest suffix that does not start with '0'. */
  function LStripZeros(s: string): (r: string)
    ensures |r| <= |s|
    ensures r == [] || r[0] != '0'
  {
    if s != [] && s[0] == '0' then LStripZeros(s[1..]) else s
  }

  // ---- Decimal digits ----

  predicate IsDigit(c: char) {
    '0' <= c <= '9'
  }

  predicate AllDigits(s: string) {
    forall i :: 0 <= i < |s| ==> IsDigit(s[i])
  }

  function DigitValue(c: char): int
    requires IsDigit(c)
  {
    c as int - '0' as int
  }

  function DigitChar(d: int): (c: char)
    requires 0 <= d < 10
    ensures IsDigit(c) && DigitValue(c) == d
  {
    ('0' as int + d) as char
  }

  /** The number a string of decimal digits denotes ("" denotes 0). */
  function DigitsValue(s: string): nat
    requires AllDigits(s)
  {
    if s == [] then 0 else DigitsValue(s[..|s| - 1]) * 10 + DigitValue(s[|s| - 1])
  }

  function Pow10(n: nat): (p: nat)
    ensures p >= 1
  {
    if n == 0 then 1 else 10 * Pow10(n - 1)
  }

  /** The n lowest decimal digits of k, zero-padded on the left (`%0nd`). */
  function PadDigits(k: nat, n: nat): (r: string)
    ensures |r| == n && AllDigits(r)
  {
    if n == 0 then [] else PadDigits(k / 10, n - 1) + [DigitChar(k % 10)]
  }

  // ---- The expiry field ----

  /** A cell of pandas' datetime column: a date or the missing value NaT. */
  datatype Stamp = NaT | At(date: Date)

  /** `%y` of strptime: 00..68 are years 2000..2068, 69..99 are 1969..1999. */
  function PivotYear(yy: int): (y: int)
    ensures 0 <= yy < 100 ==> 1969 <= y <= 2068 && y % 100 == yy
  {
    if yy <= 68 then 2000 + yy else 1900 + yy
  }

  /** Every year the pivot can express is the pivot of its last two digits. */
  lemma PivotOfCentury(y: int)
    requires 1969 <= y <= 2068
    ensures PivotYear(y % 100) == y
  {
    if y < 2000 {
      RemainderOf100(y, 19, y - 1900);
    } else {
      RemainderOf100(y, 20, y - 2000);
    }
  }

  /** Texts that `pandas.to_datetime` reads as NaT instead of parsing them. */
  predicate IsMissingText(t: string) {
    t == [] || t in ["NaT", "nat", "NAT", "nan", "NaN", "NAN"]
  }

  /** What a group of the `%y%m%d` pattern matched: how many characters, and the number they denote. */
  datatype Field = Field(len: nat, value: int)

  datatype MonthDay = MonthDay(month: Field, day: Field)

  /**
   * The `%d` group `3[01]|[12]\d|0[1-9]|[1-9]| [1-9]` at the front of u: the
   * first alternative that matches. Nothing follows it in the pattern, so the
   * matcher never comes back to try a later one.
   */
  function DayMatch(u: string): (r: Option<Field>)
    ensures r.Some? ==> 1 <= r.value.len <= 2 && r.value.len <= |u| && 1 <= r.value.value <= 31
  {
    if |u| >= 2 && u[0] == '3' && '0' <= u[1] <= '1' then Some(Field(2, 30 + DigitValue(u[1])))
    else if |u| >= 2 && '1' <= u[0] <= '2' && IsDigit(u[1]) then Some(Field(2, 10 * DigitValue(u[0]) + DigitValue(u[1])))
    else if |u| >= 2 && u[0] == '0' && '1' <= u[1] <= '9' then Some(Field(2, DigitValue(u[1])))
    else if |u| >= 1 && '1' <= u[0] <= '9' then Some(Field(1, DigitValue(u[0])))
    else if |u| >= 2 && u[0] == ' ' && '1' <= u[1] <= '9' then Some(Field(2, DigitValue(u[1])))
    else None
  }

  /**
   * The `%m` group `1[0-2]|0[1-9]|[1-9]` followed by the `%d` group, at the
   * front of u, as a backtracking matcher tries them: a two-character month
   * first, and the one-character month only when no day follows the former.
   */
  function MatchMonthDay(u: string): (r: Option<MonthDay>)
    ensures r.Some? ==>
      && 1 <= r.value.month.len <= 2 && 1 <= r.value.month.value <= 12
      && 1 <= r.value.day.len <= 2 && 1 <= r.value.day.value <= 31
      && r.value.month.len + r.value.day.len <= |u|
  {
    var twoDigitMonth := |u| >= 2 && ((u[0] == '1' && '0' <= u[1] <= '2') || (u[0] == '0' && '1' <= u[1] <= '9'));
    if twoDigitMonth && DayMatch(u[2..]).Some? then
      Some(MonthDay(Field(2, 10 * DigitValue(u[0]) + DigitValue(u[1])), DayMatch(u[2..]).value))
    else if |u| >= 1 && '1' <= u[0] <= '9' && DayMatch(u[1..]).Some? then
      Some(MonthDay(Field(1, DigitValue(u[0])), DayMatch(u[1..]).value))
    else None
  }

  /**
   * strptime's `%y%m%d`: the pattern `\d\d` then the month and day groups is
   * matched at the front of the text, the match must reach the end of the text
   * ("unconverted data remains" otherwise), and the fields must make a
   * calendar date; None where it raises. Texts of four or five characters
   * parse too: "25111" is 2025-11-01, "25120" is 2025-01-20.
   */
  function ParseYymmdd(t: string): (r: Option<Date>)
    ensures r.Some? ==> 4 <= |t| <= 6 && 1969 <= r.value.year <= 2068
    ensures r.Some? ==> AllDigits(t[..2]) && r.value.year == PivotYear(DigitsValue(t[..2]))
  {
    if |t| < 2 || !AllDigits(t[..2]) then None
    else
      match MatchMonthDay(t[2..])
      case None => None
      case Some(md) =>
        DigitsValueBound(t[..2]);
        var y := PivotYear(DigitsValue(t[..2]));
        if 2 + md.month.len + md.day.len != |t| || md.day.value > DaysInMonth(y, md.month.value) then None
        else
          var date: Date := Ymd(y, md.month.value, md.day.value);
          Some(date)
  }

  /** `pd.to_datetime(text, format='%y%m%d')` on one cell; None where it raises. */
  function ParseExpiry(t: string): (r: Option<Stamp>)
    ensures r == Some(NaT) <==> IsMissingText(t)
    ensures !IsMissingText(t) ==> (r.Some? <==> ParseYymmdd(t).Some?)
    ensures r.Some? && r.value.At? ==> ParseYymmdd(t) == Some(r.value.date)
  {
    if IsMissingText(t) then Some(NaT)
    else
      match ParseYymmdd(t)
      case Some(d) => Some(At(d))
      case None => None
  }

  /** The `YYMMDD` text of a date whose year the `%y` pivot can express. */
  function FormatYymmdd(d: Date): string
    requires 1969 <= d.year <= 2068
  {
    PadDigits(d.year % 100, 2) + PadDigits(d.month, 2) + PadDigits(d.day, 2)
  }

  // ---- The strike field ----

  /**
   * `astype(float)` of a strike cell, on the strings of decimal digits that
   * the five-character field holds; None where the conversion raises.
   */
  function ParseStrike(t: string): (r: Option<real>)
    ensures r.Some? ==> r.value >= 0.0
  {
    if t != [] && AllDigits(t) then Some(DigitsValue(t) as real) else None
  }

  // ---- The identifier ----

  /** The three columns gamma.py cuts out of an identifier. */
  datatype SymbolFields = SymbolFields(right: string, expiry: Stamp, strike: string)

  function RightText(s: string): string {
    SliceFromEnd(s, 9, 8)
  }

  function ExpiryText(s: string): string {
    SliceFromEnd(s, 15, 9)
  }

  function StrikeText(s: string): string {
    LStripZeros(SliceFromEnd(s, 8, 3))
  }

  /** gamma.py:58-62 on one identifier; None where the expiry text raises. */
  function DecodeSymbol(s: string): (r: Option<SymbolFields>)
    ensures r.Some? <==> ParseExpiry(ExpiryText(s)).Some?
    ensures r.Some? ==> r.value.right == RightText(s) && r.value.strike == StrikeText(s)
    ensures r.Some? ==> r.value.strike == [] || r.value.strike[0] != '0'
    ensures r.Some? ==> r.value.expiry == ParseExpiry(ExpiryText(s)).value
  {
    match ParseExpiry(ExpiryText(s))
    case Some(e) => Some(SymbolFields(RightText(s), e, StrikeText(s)))
    case None => None
  }

  /** The identifier of a contract: root, `YYMMDD`, right, strike x 1000 in eight digits. */
  function EncodeSymbol(root: string, d: Date, right: char, strikeMilli: nat): (s: string)
    requires 1969 <= d.year <= 2068
    ensures |s| == |root| + 15
  {
    root + FormatYymmdd(d) + [right] + PadDigits(strikeMilli, 8)
  }

  // ---- Lemmas ----

  lemma {:induction false} PadDigitsValue(k: nat, n: nat)
    requires k < Pow10(n)
    ensures DigitsValue(PadDigits(k, n)) == k
  {
    if n > 0 {
      var p := PadDigits(k, n);
      assert p[..n - 1] == PadDigits(k / 10, n - 1);
      assert k / 10 < Pow10(n - 1);
      PadDigitsValue(k / 10, n - 1);
      assert DigitValue(p[n - 1]) == k % 10;
      assert DigitsValue(p) == (k / 10) * 10 + k % 10;
    }
  }

  lemma {:induction false} DigitsValueBound(s: string)
    requires AllDigits(s)
    ensures DigitsValue(s) < Pow10(|s|)
  {
    if s != [] {
      DigitsValueBound(s[..|s| - 1]);
    }
  }

  /** Re-padding the value of a digit string gives the string back. */
  lemma {:induction false} PadDigitsOfValue(s: string)
    requires AllDigits(s)
    ensures PadDigits(DigitsValue(s), |s|) == s
  {
    if s != [] {
      var init := s[..|s| - 1];
      var v := DigitsValue(s);
      assert v / 10 == DigitsValue(init) && v % 10 == DigitValue(s[|s| - 1]);
      PadDigitsOfValue(init);
      assert s == init + [s[|s| - 1]];
    }
  }

  /** The first n of n + 3 padded digits are the padded digits of k / 1000. */
  lemma PadDigitsDropThree(k: nat, n: nat)
    ensures PadDigits(k, n + 3)[..n] == PadDigits(k / 1000, n)
  {
    assert (k / 10) / 10 == k / 100;
    assert (k / 100) / 10 == k / 1000;
    assert PadDigits(k, n + 3) == PadDigits(k / 10, n + 2) + [DigitChar(k % 10)];
    assert PadDigits(k / 10, n + 2) == PadDigits(k / 100, n + 1) + [DigitChar((k / 10) % 10)];
    assert PadDigits(k / 100, n + 1) == PadDigits(k / 1000, n) + [DigitChar((k / 100) % 10)];
  }

  lemma {:induction false} LeadingZeroValue(t: string)
    requires AllDigits(t)
    ensures AllDigits(['0'] + t) && DigitsValue(['0'] + t) == DigitsValue(t)
  {
    var z := ['0'] + t;
    if t != [] {
      assert z[..|z| - 1] == ['0'] + t[..|t| - 1];
      LeadingZeroValue(t[..|t| - 1]);
    }
  }

  /** `lstrip('0')` removes a prefix made of zeros only and keeps the rest as it is. */
  lemma {:induction false} LStripZerosSuffix(s: string)
    ensures var r := LStripZeros(s);
      && r == s[|s| - |r|..]
      && forall i :: 0 <= i < |s| - |r| ==> s[i] == '0'
  {
    if s != [] && s[0] == '0' {
      LStripZerosSuffix(s[1..]);
      var r := LStripZeros(s);
      assert r == s[1..][|s| - 1 - |r|..];
      assert forall i :: 1 <= i < |s| - |r| ==> s[i] == s[1..][i - 1];
    }
  }

  /** Stripping leading zeros keeps the value, and leaves "" exactly for an all-zero field. */
  lemma {:induction false} LStripZerosValue(s: string)
    requires AllDigits(s)
    ensures AllDigits(LStripZeros(s))
    ensures DigitsValue(LStripZeros(s)) == DigitsValue(s)
    ensures LStripZeros(s) == [] <==> DigitsValue(s) == 0
  {
    if s != [] && s[0] == '0' {
      LStripZerosValue(s[1..]);
      assert s == ['0'] + s[1..];
      LeadingZeroValue(s[1..]);
    } else if s != [] {
      NonZeroLead(s);
    }
  }

  lemma NonZeroLead(s: string)
    requires AllDigits(s) && s != [] && s[0] != '0'
    ensures DigitsValue(s) > 0
  {
    if |s| > 1 {
      assert s[..|s| - 1][0] == s[0];
      NonZeroLead(s[..|s| - 1]);
    }
  }

  /** Reading back a formatted `YYMMDD` text gives the date. */
  lemma ParseFormatted(d: Date)
    requires 1969 <= d.year <= 2068
    ensures ParseYymmdd(FormatYymmdd(d)) == Some(d)
    ensures ParseExpiry(FormatYymmdd(d)) == Some(At(d))
  {
    FormattedFields(d);
    ParseFields(FormatYymmdd(d), d);
  }

  /** Six digits whose two-digit fields are a date's year (mod 100), month and day parse to that date. */
  lemma ParseFields(t: string, d: Date)
    requires 1969 <= d.year <= 2068
    requires |t| == 6 && AllDigits(t)
    requires DigitsValue(t[..2]) == d.year % 100 && DigitsValue(t[2..4]) == d.month && DigitsValue(t[4..]) == d.day
    ensures ParseYymmdd(t) == Some(d)
    ensures ParseExpiry(t) == Some(At(d))
  {
    SixDigitParse(t);
    PivotOfCentury(d.year);
    assert !IsMissingText(t) by {
      assert |t| == 6;
    }
  }

  /**
   * On a text of six digits `%y%m%d` reads the fields two digits each: it
   * succeeds exactly when they make a calendar date, and gives that date.
   */
  lemma SixDigitParse(t: string)
    requires |t| == 6 && AllDigits(t)
    ensures AllDigits(t[..2]) && AllDigits(t[2..4]) && AllDigits(t[4..])
    ensures var y, m, d := PivotYear(DigitsValue(t[..2])), DigitsValue(t[2..4]), DigitsValue(t[4..]);
      && (ParseYymmdd(t).Some? <==> 1 <= m <= 12 && 1 <= d <= DaysInMonth(y, m))
      && (ParseYymmdd(t).Some? ==> ParseYymmdd(t).value == Ymd(y, m, d))
  {
    var u := t[2..];
    assert AllDigits(u) by {
      assert forall i :: 0 <= i < 4 ==> u[i] == t[2 + i];
    }
    assert u[..2] == t[2..4] && u[2..] == t[4..];
    assert AllDigits(t[..2]) by {
      assert forall i :: 0 <= i < 2 ==> t[..2][i] == t[i];
    }
    var m, d := DigitsValue(t[2..4]), DigitsValue(t[4..]);
    if 1 <= m <= 12 && 1 <= d <= 31 {
      TwoDigitMonthDay(u);
    } else if MatchMonthDay(u).Some? && MatchMonthDay(u).value.month.len + MatchMonthDay(u).value.day.len == 4 {
      FourDigitMonthDay(u);
    }
  }

  /** A two-digit day 01..31 is taken whole by the `%d` group. */
  lemma TwoDigitDay(v: string)
    requires |v| == 2 && AllDigits(v) && 1 <= DigitsValue(v) <= 31
    ensures DayMatch(v) == Some(Field(2, DigitsValue(v)))
  {
    TwoDigits(v);
  }

  /** A month 01..12 and a day 01..31, both written with two digits, are taken whole by `%m%d`. */
  lemma TwoDigitMonthDay(u: string)
    requires |u| == 4 && AllDigits(u)
    requires AllDigits(u[..2]) && 1 <= DigitsValue(u[..2]) <= 12
    requires AllDigits(u[2..]) && 1 <= DigitsValue(u[2..]) <= 31
    ensures MatchMonthDay(u) == Some(MonthDay(Field(2, DigitsValue(u[..2])), Field(2, DigitsValue(u[2..]))))
  {
    TwoDigits(u[..2]);
    assert u[..2][0] == u[0] && u[..2][1] == u[1];
    TwoDigitDay(u[2..]);
  }

  /**
   * When `%m%d` takes all four characters of a text of four digits, the month
   * is the first two and the day the last two.
   */
  lemma FourDigitMonthDay(u: string)
    requires |u| == 4 && AllDigits(u)
    requires MatchMonthDay(u).Some? && MatchMonthDay(u).value.month.len + MatchMonthDay(u).value.day.len == 4
    ensures AllDigits(u[..2]) && AllDigits(u[2..])
    ensures MatchMonthDay(u).value.month.value == DigitsValue(u[..2])
    ensures MatchMonthDay(u).value.day.value == DigitsValue(u[2..])
  {
    var v := u[2..];
    assert v[0] == u[2] && v[1] == u[3];
    assert AllDigits(u[..2]) by {
      assert u[..2][0] == u[0] && u[..2][1] == u[1];
    }
    TwoDigits(u[..2]);
    assert u[..2][0] == u[0] && u[..2][1] == u[1];
    assert MatchMonthDay(u).value.day == DayMatch(v).value;
    TwoDigits(v);
  }

  /** The three two-digit fields of a formatted date and their values. */
  lemma FormattedFields(d: Date)
    requires 1969 <= d.year <= 2068
    ensures var t := FormatYymmdd(d);
      && |t| == 6 && AllDigits(t)
      && DigitsValue(t[..2]) == d.year % 100
      && DigitsValue(t[2..4]) == d.month
      && DigitsValue(t[4..]) == d.day
  {
    var t := FormatYymmdd(d);
    assert t[..2] == PadDigits(d.year % 100, 2);
    assert t[2..4] == PadDigits(d.month, 2);
    assert t[4..] == PadDigits(d.day, 2);
    PadDigitsValue(d.year % 100, 2);
    PadDigitsValue(d.month, 2);
    PadDigitsValue(d.day, 2);
  }

  /** A text of six digits that parses is the formatted text of the date it denotes. */
  lemma FormattedParse(t: string, d: Date)
    requires |t| == 6 && AllDigits(t) && ParseYymmdd(t) == Some(d)
    ensures FormatYymmdd(d) == t
  {
    SixDigitParse(t);
    var yy, mm, dd := t[..2], t[2..4], t[4..];
    DigitsValueBound(yy);
    assert Pow10(2) == 100;
    assert d.year % 100 == DigitsValue(yy) && d.month == DigitsValue(mm) && d.day == DigitsValue(dd);
    PadDigitsOfValue(yy);
    PadDigitsOfValue(mm);
    PadDigitsOfValue(dd);
    assert FormatYymmdd(d) == yy + mm + dd;
    assert t == yy + mm + dd;
  }

  /**
   * Round trip: decoding an encoded identifier gives back the right, the
   * expiry and the integer part of the strike; the thousandths are dropped,
   * and a strike below 1 leaves an empty field that float conversion rejects.
   */
  lemma DecodeEncode(root: string, d: Date, right: char, strikeMilli: nat)
    requires 1969 <= d.year <= 2068 && strikeMilli < 100_000_000
    ensures var f := DecodeSymbol(EncodeSymbol(root, d, right, strikeMilli));
      && f.Some?
      && f.value.right == [right]
      && f.value.expiry == At(d)
      && ParseStrike(f.value.strike) == if strikeMilli / 1000 == 0 then None else Some((strikeMilli / 1000) as real)
  {
    var s := EncodeSymbol(root, d, right, strikeMilli);
    var n := |root|;
    var p := PadDigits(strikeMilli, 8);
    assert s[n + 6] == right;
    assert ExpiryText(s) == FormatYymmdd(d) by {
      assert s[n .. n + 6] == FormatYymmdd(d);
    }
    ParseFormatted(d);
    assert SliceFromEnd(s, 8, 3) == p[..5] by {
      assert s[n + 7 .. n + 12] == p[..5];
    }
    PadDigitsDropThree(strikeMilli, 5);
    var k := strikeMilli / 1000;
    assert k < Pow10(5);
    PadDigitsValue(k, 5);
    LStripZerosValue(PadDigits(k, 5));
  }

  /** An identifier of fewer than nine characters has an empty right, neither "C" nor "P". */
  lemma ShortSymbolHasNoRight(s: string)
    requires |s| <= 8
    ensures RightText(s) == [] && ExpiryText(s) == [] && DecodeSymbol(s).Some?
    ensures DecodeSymbol(s).value.expiry == NaT
  {
  }

  /** A CMG call expiring 2025-10-31 at strike 16. */
  lemma DecodeExample()
    ensures DecodeSymbol("CMG251031C00016000") == Some(SymbolFields("C", At(Ymd(2025, 10, 31)), "16"))
    ensures ParseStrike("16") == Some(16.0)
  {
    var s := "CMG251031C00016000";
    ExampleFields();
    ExampleExpiry();
    ExampleStrike();
  }

  lemma ExampleFields()
    ensures ExpiryText("CMG251031C00016000") == "251031"
    ensures RightText("CMG251031C00016000") == "C"
    ensures SliceFromEnd("CMG251031C00016000", 8, 3) == "00016"
  {
  }

  lemma ExampleExpiry()
    ensures ParseExpiry("251031") == Some(At(Ymd(2025, 10, 31)))
  {
    var t := "251031";
    assert t[..2] == "25" && t[2..] == "1031" && "1031"[2..] == "31";
    TwoDigits("25");
  }

  /** A five-character text with a one-digit day: "25111" is 2025-11-01. */
  lemma OneDigitDayExample()
    ensures ParseExpiry("25111") == Some(At(Ymd(2025, 11, 1)))
  {
    assert "25111"[..2] == "25" && "25111"[2..] == "111" && "111"[2..] == "1";
    TwoDigits("25");
  }

  /** strptime backtracks into `%m`: "25120" is month 1, day 20, since no day is "0" alone. */
  lemma BacktrackExample()
    ensures ParseExpiry("25120") == Some(At(Ymd(2025, 1, 20)))
  {
    assert "25120"[..2] == "25" && "25120"[2..] == "120" && "120"[2..] == "0" && "120"[1..] == "20";
    TwoDigits("25");
  }

  /** "2510" has no day after month 10 and none after month 1: the conversion raises. */
  lemma NoDayExample()
    ensures ParseExpiry("2510") == None
  {
    assert "2510"[..2] == "25" && "2510"[2..] == "10" && "10"[2..] == [] && "10"[1..] == "0";
  }

  /** A root-less identifier of 14 characters leaves 5 for the expiry, which still parses. */
  lemma ShortIdentifierExample()
    ensures ExpiryText("25111C00016000") == "25111"
    ensures DecodeSymbol("25111C00016000").Some?
    ensures DecodeSymbol("25111C00016000").value.expiry == At(Ymd(2025, 11, 1))
  {
    OneDigitDayExample();
  }

  lemma TwoDigits(s: string)
    requires |s| == 2 && AllDigits(s)
    ensures DigitsValue(s) == 10 * DigitValue(s[0]) + DigitValue(s[1])
  {
    assert s[..1][..0] == [] && s[..1][0] == s[0];
    assert DigitsValue(s[..1]) == DigitValue(s[0]);
  }

  lemma ExampleStrike()
    ensures LStripZeros("00016") == "16"
    ensures ParseStrike("16") == Some(16.0)
  {
    ExampleStripped();
    ExampleStrikeValue();
  }

  lemma ExampleStripped()
    ensures LStripZeros("00016") == "16"
  {
    assert "00016"[1..] == "0016" && "0016"[1..] == "016" && "016"[1..] == "16";
  }

  lemma ExampleStrikeValue()
    ensures ParseStrike("16") == Some(16.0)
  {
    assert "16"[..1] == "1";
    assert DigitsValue("16") == 16;
  }
}
