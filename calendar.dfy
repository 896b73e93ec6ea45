/** Calendar dates as Python's `datetime.date` treats them: validation, the day
    number `toordinal`, `isoformat`, and `strptime` for the three formats the
    importers and the sorter use ('%Y-%m-%d', '%m/%d/%Y' and '%Y%m%d'). */
module Calendar {
  import opened Wrappers
  import opened Strings
  import opened Arith

  datatype Date = Date(year: int, month: int, day: int)

  predicate IsLeap(y: int) { y % 4 == 0 && (y % 100 != 0 || y % 400 == 0) }

  function DaysInMonth(y: int, m: int): (n: int)
    requires 1 <= m <= 12
    ensures 28 <= n <= 31
  {
    if m == 2 then (if IsLeap(y) then 29 else 28)
    else if m == 4 || m == 6 || m == 9 || m == 11 then 30
    else 31
  }

  /** The dates `datetime.date` accepts: years 1 to 9999, a real day of a real month. */
  predicate ValidDate(d: Date)
  {
    1 <= d.year <= 9999 && 1 <= d.month <= 12 && 1 <= d.day <= DaysInMonth(d.year, d.month)
  }

  function DaysBeforeYear(y: int): int
    requires y >= 1
  {
    (y - 1) * 365 + (y - 1) / 4 - (y - 1) / 100 + (y - 1) / 400
  }

  function DaysBeforeMonth(y: int, m: int): int
    requires 1 <= m <= 12
  {
    [0, 31, 59, 90, 120, 151, 181, 212, 243, 273, 304, 334][m - 1]
      + (if m > 2 && IsLeap(y) then 1 else 0)
  }

  /** `date.toordinal()`: 1 January of year 1 is day 1. */
  function Ordinal(d: Date): int
    requires ValidDate(d)
  {
    DaysBeforeYear(d.year) + DaysBeforeMonth(d.year, d.month) + d.day
  }

  /** The order of `date` objects: by year, then month, then day. */
  predicate DateLess(a: Date, b: Date)
  {
    a.year < b.year
    || (a.year == b.year && (a.month < b.month || (a.month == b.month && a.day < b.day)))
  }

  lemma YearLength(y: int)
    requires y >= 1
    ensures DaysBeforeYear(y + 1) - DaysBeforeYear(y) == if IsLeap(y) then 366 else 365
  {
    var n := y - 1;
    DivSucc(n, 4);
    DivSucc(n, 100);
    DivSucc(n, 400);
    MultipleOf(y, 100, 4);
    MultipleOf(y, 400, 100);
    var leap := y % 4 == 0 && (y % 100 != 0 || y % 400 == 0);
    assert IsLeap(y) == leap;
    var step := (y / 4 - n / 4) - (y / 100 - n / 100) + (y / 400 - n / 400);
    assert DaysBeforeYear(y + 1) - DaysBeforeYear(y) == 365 + step;
    assert step == if leap then 1 else 0;
  }

  /** A multiple of `big` is a multiple of `small` when `small` divides `big`. */
  lemma MultipleOf(y: nat, big: nat, small: nat)
    requires small > 0 && big > 0 && big % small == 0
    ensures y % big == 0 ==> y % small == 0
  {
    if y % big == 0 {
      var f := big / small;
      DivUnique(big, small, f, 0);
      var k := y / big;
      assert y == k * big;
      assert y == (k * f) * small;
      DivUnique(y, small, k * f, 0);
    }
  }

  lemma {:induction false} DaysBeforeYearGrows(a: int, b: int)
    requires 1 <= a <= b
    ensures DaysBeforeYear(a) + 365 * (b - a) <= DaysBeforeYear(b)
    decreases b - a
  {
    if a < b {
      YearLength(a);
      DaysBeforeYearGrows(a + 1, b);
    }
  }

  lemma MonthsFit(y: int, m: int)
    requires 1 <= m <= 12
    ensures m < 12 ==> DaysBeforeMonth(y, m) + DaysInMonth(y, m) == DaysBeforeMonth(y, m + 1)
    ensures m == 12 ==> DaysBeforeMonth(y, m) + DaysInMonth(y, m) == if IsLeap(y) then 366 else 365
  {
  }

  lemma {:induction false} DaysBeforeMonthGrows(y: int, a: int, b: int)
    requires 1 <= a <= b <= 12
    ensures DaysBeforeMonth(y, a) + DaysInMonth(y, a) <= DaysBeforeMonth(y, b) || a == b
    decreases b - a
  {
    if a < b {
      MonthsFit(y, a);
      if a + 1 < b {
        DaysBeforeMonthGrows(y, a + 1, b);
      }
    }
  }

  /** Day numbers follow the calendar: an earlier date has a smaller ordinal,
      so `(today - order).days` is positive exactly for orders before today. */
  lemma OrdinalOrder(a: Date, b: Date)
    requires ValidDate(a) && ValidDate(b)
    ensures DateLess(a, b) <==> Ordinal(a) < Ordinal(b)
    ensures a == b <==> Ordinal(a) == Ordinal(b)
  {
    if DateLess(a, b) {
      OrdinalBelow(a, b);
    } else if DateLess(b, a) {
      OrdinalBelow(b, a);
    } else {
      assert a == b;
    }
  }

  lemma OrdinalBelow(a: Date, b: Date)
    requires ValidDate(a) && ValidDate(b) && DateLess(a, b)
    ensures Ordinal(a) < Ordinal(b)
  {
    if a.year < b.year {
      MonthsFit(a.year, 12);
      DaysBeforeMonthGrows(a.year, a.month, 12);
      YearLength(a.year);
      DaysBeforeYearGrows(a.year + 1, b.year);
      assert Ordinal(a) <= DaysBeforeYear(a.year) + DaysBeforeMonth(a.year, a.month) + DaysInMonth(a.year, a.month);
      assert Ordinal(a) <= DaysBeforeYear(a.year + 1);
    } else if a.month < b.month {
      DaysBeforeMonthGrows(a.year, a.month, b.month);
    }
  }

  /** The key 'YYYYMMDD' read as a number; it orders valid dates as `date` does. */
  function DateKey(d: Date): int
  {
    d.year * 10000 + d.month * 100 + d.day
  }

  lemma DateKeyOrder(a: Date, b: Date)
    requires ValidDate(a) && ValidDate(b)
    ensures DateLess(a, b) <==> DateKey(a) < DateKey(b)
    ensures a == b <==> DateKey(a) == DateKey(b)
  {
    var ta, tb := a.month * 100 + a.day, b.month * 100 + b.day;
    assert 101 <= ta <= 1231 && 101 <= tb <= 1231;
    if a.year < b.year {
      assert a.year * 10000 + 10000 <= b.year * 10000;
    } else if b.year < a.year {
      assert b.year * 10000 + 10000 <= a.year * 10000;
    } else if a.month < b.month {
      assert ta < tb;
    } else if b.month < a.month {
      assert tb < ta;
    }
  }

  // ----- isoformat -----

  function Pad2(v: int): (s: string)
    requires 0 <= v <= 99
    ensures |s| == 2 && AllDigits(s)
  {
    [DigitChar(v / 10), DigitChar(v % 10)]
  }

  function Pad4(v: int): (s: string)
    requires 0 <= v <= 9999
    ensures |s| == 4 && AllDigits(s)
  {
    [DigitChar(v / 1000), DigitChar(v / 100 % 10), DigitChar(v / 10 % 10), DigitChar(v % 10)]
  }

  /** `date.isoformat()`: 'YYYY-MM-DD' with zero padding. */
  function FormatIso(d: Date): (s: string)
    requires ValidDate(d)
    ensures |s| == 10
  {
    Pad4(d.year) + ("-" + (Pad2(d.month) + ("-" + Pad2(d.day))))
  }

  // ----- strptime -----

  /** The pieces of a format: '%Y', '%m', '%d' and literal characters. */
  datatype Directive = Year | Month | Day | Lit(c: char)

  const ISO_FORMAT: seq<Directive> := [Year, Lit('-'), Month, Lit('-'), Day]
  const US_FORMAT: seq<Directive> := [Month, Lit('/'), Day, Lit('/'), Year]
  const COMPACT_FORMAT: seq<Directive> := [Year, Month, Day]

  /** The ways one directive can match at the start of `s`, in the order in which
      the regular expression of `_strptime` tries them: (characters taken, value).
      '%Y' is four digits; '%m' is 1[0-2]|0[1-9]|[1-9];
      '%d' is 3[01]|[12]\d|0[1-9]|[1-9]| [1-9]. */
  function Alternatives(d: Directive, s: string): (alts: seq<(nat, int)>)
    ensures forall k :: 0 <= k < |alts| ==> 0 < alts[k].0 <= |s|
  {
    match d
    case Year =>
      if |s| >= 4 && AllDigits(s[..4]) then [(4, DigitsValue(s[..4]))] else []
    case Month =>
      (if |s| >= 2 && s[0] == '1' && '0' <= s[1] <= '2' then [(2, 10 + DigitValue(s[1]))] else [])
      + (if |s| >= 2 && s[0] == '0' && '1' <= s[1] <= '9' then [(2, DigitValue(s[1]))] else [])
      + (if |s| >= 1 && '1' <= s[0] <= '9' then [(1, DigitValue(s[0]))] else [])
    case Day =>
      (if |s| >= 2 && s[0] == '3' && '0' <= s[1] <= '1' then [(2, 30 + DigitValue(s[1]))] else [])
      + (if |s| >= 2 && '1' <= s[0] <= '2' && IsDigit(s[1]) then [(2, DigitValue(s[0]) * 10 + DigitValue(s[1]))] else [])
      + (if |s| >= 2 && s[0] == '0' && '1' <= s[1] <= '9' then [(2, DigitValue(s[1]))] else [])
      + (if |s| >= 1 && '1' <= s[0] <= '9' then [(1, DigitValue(s[0]))] else [])
      + (if |s| >= 2 && s[0] == ' ' && '1' <= s[1] <= '9' then [(2, DigitValue(s[1]))] else [])
    case Lit(c) =>
      if |s| >= 1 && s[0] == c then [(1, 0)] else []
  }

  /** The first match of the whole format against a prefix of `s`, trying the
      alternatives of each directive in order and backtracking when the rest fails:
      one value per directive and the number of characters consumed. */
  function MatchFrom(fmt: seq<Directive>, s: string): (r: Option<(seq<int>, nat)>)
    ensures r.Some? ==> |r.value.0| == |fmt| && r.value.1 <= |s|
    decreases |fmt|, 1, 0
  {
    if fmt == [] then Some(([], 0)) else TryAlternatives(fmt, s, Alternatives(fmt[0], s))
  }

  function TryAlternatives(fmt: seq<Directive>, s: string, alts: seq<(nat, int)>): (r: Option<(seq<int>, nat)>)
    requires fmt != []
    requires forall k :: 0 <= k < |alts| ==> alts[k].0 <= |s|
    ensures r.Some? ==> |r.value.0| == |fmt| && r.value.1 <= |s|
    decreases |fmt|, 0, |alts|
  {
    if alts == [] then None
    else match MatchFrom(fmt[1..], s[alts[0].0..])
      case Some(rest) => Some(([alts[0].1] + rest.0, alts[0].0 + rest.1))
      case None => TryAlternatives(fmt, s, alts[1..])
  }

  /** `datetime.strptime(s, fmt).date()`: no match, or unconverted data left over,
      or a day the calendar does not have, all raise ValueError (here: None). */
  function Strptime(s: string, fmt: seq<Directive>, yi: nat, mi: nat, di: nat): (r: Option<Date>)
    requires yi < |fmt| && mi < |fmt| && di < |fmt|
    ensures r.Some? ==> ValidDate(r.value)
  {
    match MatchFrom(fmt, s)
    case None => None
    case Some(m) =>
      if m.1 != |s| then None
      else
        var d := Date(m.0[yi], m.0[mi], m.0[di]);
        if ValidDate(d) then Some(d) else None
  }

  function ParseIso(s: string): (r: Option<Date>)
    ensures r.Some? ==> ValidDate(r.value)
  {
    Strptime(s, ISO_FORMAT, 0, 2, 4)
  }

  function ParseUs(s: string): (r: Option<Date>)
    ensures r.Some? ==> ValidDate(r.value)
  {
    Strptime(s, US_FORMAT, 4, 0, 2)
  }

  function ParseCompact(s: string): (r: Option<Date>)
    ensures r.Some? ==> ValidDate(r.value)
  {
    Strptime(s, COMPACT_FORMAT, 0, 1, 2)
  }

  // ----- the round trip isoformat -> strptime('%Y-%m-%d') -----

  /** When the first alternative of the first directive leads to a match of the
      rest, that is the match. */
  lemma TryFirst(fmt: seq<Directive>, s: string, alts: seq<(nat, int)>, vs: seq<int>, k: nat)
    requires fmt != [] && |alts| > 0
    requires forall j :: 0 <= j < |alts| ==> alts[j].0 <= |s|
    requires MatchFrom(fmt[1..], s[alts[0].0..]) == Some((vs, k))
    ensures TryAlternatives(fmt, s, alts) == Some(([alts[0].1] + vs, alts[0].0 + k))
  {
  }

  lemma Pad2Value(v: int)
    requires 0 <= v <= 99
    ensures DigitValue(Pad2(v)[0]) == v / 10 && DigitValue(Pad2(v)[1]) == v % 10
    ensures v == 10 * (v / 10) + v % 10
  {
  }

  lemma Pad4Value(v: int)
    requires 0 <= v <= 9999
    ensures DigitsValue(Pad4(v)) == v
  {
    var s := Pad4(v);
    assert s[..3][..2][..1][..0] == [];
    assert DigitsValue(s[..1]) == v / 1000 by {
      assert s[..1][..0] == [];
    }
    assert DigitsValue(s[..2]) == v / 100 by {
      assert s[..2][..1] == s[..1];
    }
    assert DigitsValue(s[..3]) == v / 10 by {
      assert s[..3][..2] == s[..2];
    }
    assert s[..4] == s && s[..3] == s[..|s| - 1];
  }

  lemma MatchDayField(d: int, rest: string)
    requires 1 <= d <= 31
    ensures MatchFrom([Day], Pad2(d) + rest) == Some(([d], 2))
  {
    var s := Pad2(d) + rest;
    Pad2Value(d);
    var alts := Alternatives(Day, s);
    assert alts[0] == (2, d);
    assert MatchFrom([Day][1..], s[2..]) == Some(([], 0));
    assert MatchFrom([Day], s) == TryAlternatives([Day], s, alts);
    TryFirst([Day], s, alts, [], 0);
    assert [alts[0].1] + [] == [d];
  }

  lemma MatchLit(c: char, tail: seq<Directive>, rest: string, vs: seq<int>, k: nat)
    requires MatchFrom(tail, rest) == Some((vs, k))
    ensures MatchFrom([Lit(c)] + tail, [c] + rest) == Some(([0] + vs, 1 + k))
  {
    var s := [c] + rest;
    var fmt := [Lit(c)] + tail;
    var alts := Alternatives(Lit(c), s);
    assert fmt[1..] == tail && s[1..] == rest && alts == [(1, 0)];
    assert MatchFrom(fmt, s) == TryAlternatives(fmt, s, alts);
    TryFirst(fmt, s, alts, vs, k);
  }

  lemma MatchMonthField(m: int, tail: seq<Directive>, rest: string, vs: seq<int>, k: nat)
    requires 1 <= m <= 12
    requires MatchFrom(tail, rest) == Some((vs, k))
    ensures MatchFrom([Month] + tail, Pad2(m) + rest) == Some(([m] + vs, 2 + k))
  {
    var s := Pad2(m) + rest;
    Pad2Value(m);
    var fmt := [Month] + tail;
    var alts := Alternatives(Month, s);
    assert alts[0] == (2, m);
    assert fmt[1..] == tail && s[2..] == rest;
    assert MatchFrom(fmt, s) == TryAlternatives(fmt, s, alts);
    TryFirst(fmt, s, alts, vs, k);
  }

  lemma MatchYearField(y: int, tail: seq<Directive>, rest: string, vs: seq<int>, k: nat)
    requires 0 <= y <= 9999
    requires MatchFrom(tail, rest) == Some((vs, k))
    ensures MatchFrom([Year] + tail, Pad4(y) + rest) == Some(([y] + vs, 4 + k))
  {
    var s := Pad4(y) + rest;
    assert s[..4] == Pad4(y);
    Pad4Value(y);
    var fmt := [Year] + tail;
    var alts := Alternatives(Year, s);
    assert alts[0] == (4, y);
    assert fmt[1..] == tail && s[4..] == rest;
    assert MatchFrom(fmt, s) == TryAlternatives(fmt, s, alts);
    TryFirst(fmt, s, alts, vs, k);
  }

  /** '-%d' against '-DD'. */
  lemma DashDayMatch(day: int)
    requires 1 <= day <= 31
    ensures MatchFrom([Lit('-'), Day], "-" + Pad2(day)) == Some(([0, day], 3))
  {
    MatchDayField(day, []);
    assert Pad2(day) + [] == Pad2(day);
    MatchLit('-', [Day], Pad2(day), [day], 2);
    assert [Lit('-')] + [Day] == [Lit('-'), Day] && [0] + [day] == [0, day];
  }

  /** '%m-%d' against 'MM-DD'. */
  lemma MonthDayMatch(d: Date)
    requires ValidDate(d)
    ensures MatchFrom([Month, Lit('-'), Day], Pad2(d.month) + ("-" + Pad2(d.day)))
         == Some(([d.month, 0, d.day], 5))
  {
    DashDayMatch(d.day);
    MatchMonthField(d.month, [Lit('-'), Day], "-" + Pad2(d.day), [0, d.day], 3);
    assert [Month] + [Lit('-'), Day] == [Month, Lit('-'), Day] && [d.month] + [0, d.day] == [d.month, 0, d.day];
  }

  /** The part after the year: '-%m-%d' against '-MM-DD'. */
  lemma IsoTailMatch(d: Date)
    requires ValidDate(d)
    ensures MatchFrom([Lit('-'), Month, Lit('-'), Day], "-" + (Pad2(d.month) + ("-" + Pad2(d.day))))
         == Some(([0, d.month, 0, d.day], 6))
  {
    MonthDayMatch(d);
    MatchLit('-', [Month, Lit('-'), Day], Pad2(d.month) + ("-" + Pad2(d.day)), [d.month, 0, d.day], 5);
    assert [Lit('-')] + [Month, Lit('-'), Day] == [Lit('-'), Month, Lit('-'), Day];
    assert [0] + [d.month, 0, d.day] == [0, d.month, 0, d.day];
  }

  /** `isoformat`'s text matches '%Y-%m-%d' in full, field by field. */
  lemma IsoMatch(d: Date)
    requires ValidDate(d)
    ensures MatchFrom(ISO_FORMAT, FormatIso(d)) == Some(([d.year, 0, d.month, 0, d.day], 10))
  {
    IsoTailMatch(d);
    MatchYearField(d.year, [Lit('-'), Month, Lit('-'), Day], "-" + (Pad2(d.month) + ("-" + Pad2(d.day))),
                   [0, d.month, 0, d.day], 6);
    assert [Year] + [Lit('-'), Month, Lit('-'), Day] == ISO_FORMAT;
    assert [d.year] + [0, d.month, 0, d.day] == [d.year, 0, d.month, 0, d.day];
  }

  /** What `isoformat` writes, `strptime(..., '%Y-%m-%d')` reads back unchanged. */
  lemma IsoRoundTrip(d: Date)
    requires ValidDate(d)
    ensures ParseIso(FormatIso(d)) == Some(d)
  {
    IsoMatch(d);
  }

  // ----- '%m/%d/%Y', the other format the CSV importer accepts -----

  /** A date written month/day/year with two-digit month and day. */
  function FormatUs(d: Date): (s: string)
    requires ValidDate(d)
    ensures |s| == 10
  {
    Pad2(d.month) + ("/" + (Pad2(d.day) + ("/" + Pad4(d.year))))
  }

  lemma MatchDayThen(d: int, tail: seq<Directive>, rest: string, vs: seq<int>, k: nat)
    requires 1 <= d <= 31
    requires MatchFrom(tail, rest) == Some((vs, k))
    ensures MatchFrom([Day] + tail, Pad2(d) + rest) == Some(([d] + vs, 2 + k))
  {
    var s := Pad2(d) + rest;
    Pad2Value(d);
    var fmt := [Day] + tail;
    var alts := Alternatives(Day, s);
    assert alts[0] == (2, d);
    assert fmt[1..] == tail && s[2..] == rest;
    assert MatchFrom(fmt, s) == TryAlternatives(fmt, s, alts);
    TryFirst(fmt, s, alts, vs, k);
  }

  /** The year at the end of the text: '%Y' against 'YYYY'. */
  lemma YearAtEnd(y: int)
    requires 0 <= y <= 9999
    ensures MatchFrom([Year], Pad4(y)) == Some(([y], 4))
  {
    var ys := Pad4(y);
    assert MatchFrom([Year][1..], ys[4..]) == Some(([], 0));
    assert ys[..4] == ys;
    Pad4Value(y);
    var alts := Alternatives(Year, ys);
    assert alts[0] == (4, y);
    assert MatchFrom([Year], ys) == TryAlternatives([Year], ys, alts);
    TryFirst([Year], ys, alts, [], 0);
    assert [y] + [] == [y];
  }

  /** '/%Y' against '/YYYY'. */
  lemma SlashYearMatch(y: int)
    requires 0 <= y <= 9999
    ensures MatchFrom([Lit('/'), Year], "/" + Pad4(y)) == Some(([0, y], 5))
  {
    YearAtEnd(y);
    MatchLit('/', [Year], Pad4(y), [y], 4);
    assert [Lit('/')] + [Year] == [Lit('/'), Year] && [0] + [y] == [0, y];
  }

  /** '%d/%Y' against 'DD/YYYY'. */
  lemma DayYearMatch(d: Date)
    requires ValidDate(d)
    ensures MatchFrom([Day, Lit('/'), Year], Pad2(d.day) + ("/" + Pad4(d.year)))
         == Some(([d.day, 0, d.year], 7))
  {
    SlashYearMatch(d.year);
    MatchDayThen(d.day, [Lit('/'), Year], "/" + Pad4(d.year), [0, d.year], 5);
    assert [Day] + [Lit('/'), Year] == [Day, Lit('/'), Year] && [d.day] + [0, d.year] == [d.day, 0, d.year];
  }

  /** The part after the month: '/%d/%Y' against '/DD/YYYY'. */
  lemma UsTailMatch(d: Date)
    requires ValidDate(d)
    ensures MatchFrom([Lit('/'), Day, Lit('/'), Year], "/" + (Pad2(d.day) + ("/" + Pad4(d.year))))
         == Some(([0, d.day, 0, d.year], 8))
  {
    DayYearMatch(d);
    MatchLit('/', [Day, Lit('/'), Year], Pad2(d.day) + ("/" + Pad4(d.year)), [d.day, 0, d.year], 7);
    assert [Lit('/')] + [Day, Lit('/'), Year] == [Lit('/'), Day, Lit('/'), Year];
    assert [0] + [d.day, 0, d.year] == [0, d.day, 0, d.year];
  }

  /** Text written month/day/year matches '%m/%d/%Y' in full. */
  lemma UsMatch(d: Date)
    requires ValidDate(d)
    ensures MatchFrom(US_FORMAT, FormatUs(d)) == Some(([d.month, 0, d.day, 0, d.year], 10))
  {
    UsTailMatch(d);
    MatchMonthField(d.month, [Lit('/'), Day, Lit('/'), Year], "/" + (Pad2(d.day) + ("/" + Pad4(d.year))),
                    [0, d.day, 0, d.year], 8);
    assert [Month] + [Lit('/'), Day, Lit('/'), Year] == US_FORMAT;
    assert [d.month] + [0, d.day, 0, d.year] == [d.month, 0, d.day, 0, d.year];
  }

  /** What is written month/day/year, `strptime(..., '%m/%d/%Y')` reads back. */
  lemma UsRoundTrip(d: Date)
    requires ValidDate(d)
    ensures ParseUs(FormatUs(d)) == Some(d)
  {
    UsMatch(d);
  }

  // ----- '%Y%m%d', the date in the names of the CSV files -----

  /** A date written as eight digits, year, month, day. */
  function FormatCompact(d: Date): (s: string)
    requires ValidDate(d)
    ensures |s| == 8 && AllDigits(s)
  {
    Pad4(d.year) + (Pad2(d.month) + Pad2(d.day))
  }

  /** Eight digits written from a date match '%Y%m%d' field by field. */
  lemma CompactMatch(d: Date)
    requires ValidDate(d)
    ensures MatchFrom(COMPACT_FORMAT, FormatCompact(d)) == Some(([d.year, d.month, d.day], 8))
  {
    MatchDayField(d.day, []);
    assert Pad2(d.day) + [] == Pad2(d.day);
    MatchMonthField(d.month, [Day], Pad2(d.day), [d.day], 2);
    assert [Month] + [Day] == [Month, Day] && [d.month] + [d.day] == [d.month, d.day];
    MatchYearField(d.year, [Month, Day], Pad2(d.month) + Pad2(d.day), [d.month, d.day], 4);
    assert [Year] + [Month, Day] == COMPACT_FORMAT;
    assert [d.year] + [d.month, d.day] == [d.year, d.month, d.day];
  }

  /** What is written as eight digits, `strptime(..., '%Y%m%d')` reads back. */
  lemma CompactRoundTrip(d: Date)
    requires ValidDate(d)
    ensures ParseCompact(FormatCompact(d)) == Some(d)
  {
    CompactMatch(d);
  }

  /** When no alternative lets the rest of the format match, nothing matches. */
  lemma {:induction false} NoAlternativeFits(fmt: seq<Directive>, s: string, alts: seq<(nat, int)>)
    requires fmt != []
    requires forall k :: 0 <= k < |alts| ==> alts[k].0 <= |s|
    requires forall k :: 0 <= k < |alts| ==> MatchFrom(fmt[1..], s[alts[k].0..]).None?
    ensures TryAlternatives(fmt, s, alts).None?
    decreases |alts|
  {
    if alts != [] {
      NoAlternativeFits(fmt, s, alts[1..]);
    }
  }

  /** ISO text is never read as month/day/year: after the month's one or two
      digits comes another digit of the year, not '/'. */
  lemma UsRejectsIso(d: Date)
    requires ValidDate(d)
    ensures ParseUs(FormatIso(d)) == None
  {
    var s := FormatIso(d);
    assert s[..4] == Pad4(d.year);
    var alts := Alternatives(Month, s);
    forall k | 0 <= k < |alts|
      ensures MatchFrom(US_FORMAT[1..], s[alts[k].0..]).None?
    {
      var rest := s[alts[k].0..];
      assert IsDigit(rest[0]);
      assert Alternatives(US_FORMAT[1], rest) == [];
    }
    NoAlternativeFits(US_FORMAT, s, alts);
  }
}
