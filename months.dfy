/** Calendar months and the monthly archive file names: parsing a date with
    `strptime('%Y-%m')` or `strptime('%Y-%m-%d')`, formatting with
    `strftime`, and `_generate_filenames`, which walks the months of a date
    range. */
module Months {
  import opened Base
  import opened StrOrder
  import opened Ranges

  datatype YearMonth = YearMonth(year: int, month: int)

  /** The months a Python `datetime` can represent. */
  predicate Valid(ym: YearMonth)
  {
    1 <= ym.year <= 9999 && 1 <= ym.month <= 12
  }

  /** Months counted from January of year 0. */
  function Index(ym: YearMonth): int
  {
    ym.year * 12 + ym.month - 1
  }

  /** Index of December 9999, the last month a `datetime` can hold. */
  const LastIndex: int := 9999 * 12 + 11

  function FromIndex(k: int): (ym: YearMonth)
    requires 12 <= k <= LastIndex
    ensures Valid(ym) && Index(ym) == k
  {
    YearMonth(k / 12, k % 12 + 1)
  }

  lemma IndexInjective(a: YearMonth, b: YearMonth)
    requires Valid(a) && Valid(b) && Index(a) == Index(b)
    ensures a == b
  {
  }

  /** The month after `ym`, as the source computes it: December rolls over
      to January of the next year. */
  function Next(ym: YearMonth): (r: YearMonth)
    requires 1 <= ym.month <= 12
    ensures Index(r) == Index(ym) + 1
    ensures 1 <= r.month <= 12
  {
    var nextYear := ym.year;
    var nextMonth := ym.month + 1;
    if nextMonth > 12 then YearMonth(nextYear + 1, 1) else YearMonth(nextYear, nextMonth)
  }

  // ---------------------------------------------------------------------
  // Digits and zero padding

  predicate IsDigit(c: char)
  {
    '0' <= c <= '9'
  }

  function DigitValue(c: char): int
    requires IsDigit(c)
  {
    c as int - '0' as int
  }

  function Digit(d: int): (c: char)
    requires 0 <= d <= 9
    ensures IsDigit(c) && DigitValue(c) == d
  {
    ('0' as int + d) as char
  }

  function Pad2(n: int): (s: string)
    requires 0 <= n <= 99
    ensures |s| == 2
  {
    [Digit(n / 10), Digit(n % 10)]
  }

  function Pad4(n: int): (s: string)
    requires 0 <= n <= 9999
    ensures |s| == 4
  {
    Pad2(n / 100) + Pad2(n % 100)
  }

  /** `strftime('%Y-%m')`. */
  function Key(ym: YearMonth): (s: string)
    requires Valid(ym)
    ensures |s| == 7 && s[4] == '-'
    ensures YearField(s) == Some(ym.year) && MonthField(s[5..]) == Some((ym.month, 2))
  {
    var s := Pad4(ym.year) + "-" + Pad2(ym.month);
    Pad4Digits(ym.year);
    Pad2Month(ym.month);
    assert s[5..] == Pad2(ym.month);
    s
  }

  /** `strftime('%Y/RC_%Y-%m.bz2')`: the archive file of one month, in the
      directory of its year and named after its key. */
  function FileName(ym: YearMonth): (s: string)
    requires Valid(ym)
    ensures |s| == 19 && s[..4] == Key(ym)[..4] && s[8..15] == Key(ym)
  {
    Pad4(ym.year) + "/RC_" + Key(ym) + ".bz2"
  }

  // ---------------------------------------------------------------------
  // strptime

  /** `%Y`: exactly four digits. */
  function YearField(s: string): (r: Option<int>)
    ensures r.Some? ==> 0 <= r.value <= 9999
  {
    if |s| >= 4 && IsDigit(s[0]) && IsDigit(s[1]) && IsDigit(s[2]) && IsDigit(s[3]) then
      Some(1000 * DigitValue(s[0]) + 100 * DigitValue(s[1]) + 10 * DigitValue(s[2]) + DigitValue(s[3]))
    else None
  }

  /** `%m`: the first alternative of `1[0-2]|0[1-9]|[1-9]` that matches at
      the start of `s`, as the month and the number of characters taken. */
  function MonthField(s: string): (r: Option<(int, nat)>)
    ensures r.Some? ==> 1 <= r.value.0 <= 12 && 1 <= r.value.1 <= 2 && r.value.1 <= |s|
  {
    if |s| >= 2 && s[0] == '1' && '0' <= s[1] <= '2' then Some((10 + DigitValue(s[1]), 2))
    else if |s| >= 2 && s[0] == '0' && '1' <= s[1] <= '9' then Some((DigitValue(s[1]), 2))
    else if |s| >= 1 && '1' <= s[0] <= '9' then Some((DigitValue(s[0]), 1))
    else None
  }

  /** `%d`: the first alternative of `3[01]|[12]\d|0[1-9]|[1-9]| [1-9]` that
      matches at the start of `s`. */
  function DayField(s: string): (r: Option<(int, nat)>)
    ensures r.Some? ==> 1 <= r.value.0 <= 31 && 1 <= r.value.1 <= 2 && r.value.1 <= |s|
  {
    if |s| >= 2 && s[0] == '3' && '0' <= s[1] <= '1' then Some((30 + DigitValue(s[1]), 2))
    else if |s| >= 2 && '1' <= s[0] <= '2' && IsDigit(s[1]) then Some((10 * DigitValue(s[0]) + DigitValue(s[1]), 2))
    else if |s| >= 2 && s[0] == '0' && '1' <= s[1] <= '9' then Some((DigitValue(s[1]), 2))
    else if |s| >= 1 && '1' <= s[0] <= '9' then Some((DigitValue(s[0]), 1))
    else if |s| >= 2 && s[0] == ' ' && '1' <= s[1] <= '9' then Some((DigitValue(s[1]), 2))
    else None
  }

  predicate IsLeapYear(y: int)
  {
    y % 4 == 0 && (y % 100 != 0 || y % 400 == 0)
  }

  function DaysInMonth(y: int, m: int): int
  {
    if m == 2 then (if IsLeapYear(y) then 29 else 28)
    else if m == 4 || m == 6 || m == 9 || m == 11 then 30
    else 31
  }

  /** `strptime(s, '%Y-%m')`: the whole string must be matched, and year 0
      is out of a `datetime`'s range. */
  function ParseYearMonth(s: string): (r: Option<YearMonth>)
    ensures r.Some? ==> Valid(r.value)
    ensures r.Some? ==> s == Key(r.value) || (r.value.month <= 9 && s == Pad4(r.value.year) + "-" + [Digit(r.value.month)])
  {
    match YearField(s)
    case None => None
    case Some(y) =>
      if |s| < 5 || s[4] != '-' then None
      else match MonthField(s[5..])
        case None => None
        case Some((m, k)) =>
          if 5 + k != |s| || y < 1 then None
          else
            KeyYearPrefix(s, y, m);
            DigitsPad4(s);
            assert s == s[..5] + s[5..];
            assert s[..5] == Pad4(y) + "-";
            Some(YearMonth(y, m))
  }

  /** `strptime(s, '%Y-%m-%d')`, of which only the month is kept; the day
      must exist in that month. */
  function ParseYearMonthDay(s: string): (r: Option<YearMonth>)
    ensures r.Some? ==> Valid(r.value)
    ensures r.Some? ==> 8 <= |s| <= 10 && s[..4] == Pad4(r.value.year) && s[4] == '-'
  {
    match YearField(s)
    case None => None
    case Some(y) =>
      if |s| < 5 || s[4] != '-' then None
      else match MonthField(s[5..])
        case None => None
        case Some((m, k)) =>
          if |s| <= 5 + k || s[5 + k] != '-' then None
          else match DayField(s[6 + k..])
            case None => None
            case Some((d, k2)) =>
              if 6 + k + k2 != |s| || y < 1 || d > DaysInMonth(y, m) then None
              else
                DigitsPad4(s);
                Some(YearMonth(y, m))
  }

  /** The month of `s`, read as `YYYY-MM` and failing that as `YYYY-MM-DD`;
      `None` where the source raises `ValueError`. */
  function ParseMonth(s: string): (r: Option<YearMonth>)
    ensures r.Some? ==> Valid(r.value)
    ensures r.Some? ==> 6 <= |s| <= 10 && s[..4] == Pad4(r.value.year) && s[4] == '-'
  {
    if ParseYearMonth(s).Some? then ParseYearMonth(s) else ParseYearMonthDay(s)
  }

  // ---------------------------------------------------------------------
  // Round trips between parsing and formatting

  lemma Pad4Digits(y: int)
    requires 0 <= y <= 9999
    ensures YearField(Pad4(y)) == Some(y)
  {
    var s := Pad4(y);
    assert DigitValue(s[0]) == y / 100 / 10;
    assert DigitValue(s[1]) == y / 100 % 10;
    assert DigitValue(s[2]) == y % 100 / 10;
    assert DigitValue(s[3]) == y % 100 % 10;
  }

  lemma DigitsPad4(s: string)
    requires YearField(s).Some?
    ensures Pad4(YearField(s).value) == s[..4]
  {
    var y := YearField(s).value;
    var p := Pad4(y);
    assert p[0] == s[0] by { assert y / 100 / 10 == DigitValue(s[0]); }
    assert p[1] == s[1] by { assert y / 100 % 10 == DigitValue(s[1]); }
    assert p[2] == s[2] by { assert y % 100 / 10 == DigitValue(s[2]); }
    assert p[3] == s[3] by { assert y % 100 % 10 == DigitValue(s[3]); }
  }

  lemma Pad2Month(m: int)
    requires 1 <= m <= 12
    ensures MonthField(Pad2(m)) == Some((m, 2))
  {
  }

  lemma Pad2Day(d: int)
    requires 1 <= d <= 31
    ensures DayField(Pad2(d)) == Some((d, 2))
  {
  }

  /** Formatting a month with `%Y-%m` and parsing it back gives the same
      month: the loop can re-parse the key it has just produced. */
  lemma KeyRoundTrip(ym: YearMonth)
    requires Valid(ym)
    ensures ParseMonth(Key(ym)) == Some(ym)
  {
    var s := Key(ym);
    Pad4Digits(ym.year);
    assert s[..4] == Pad4(ym.year);
    assert YearField(s) == YearField(Pad4(ym.year));
    assert s[5..] == Pad2(ym.month);
    Pad2Month(ym.month);
  }

  /** A full date `YYYY-MM-DD` of an existing day parses to its month. */
  lemma DayKeyParses(ym: YearMonth, d: int)
    requires Valid(ym) && 1 <= d <= DaysInMonth(ym.year, ym.month)
    ensures ParseMonth(Key(ym) + "-" + Pad2(d)) == Some(ym)
  {
    var s := Key(ym) + "-" + Pad2(d);
    Pad4Digits(ym.year);
    assert s[..4] == Pad4(ym.year);
    assert YearField(s) == YearField(Pad4(ym.year));
    assert s[5..] == Pad2(ym.month) + "-" + Pad2(d);
    Pad2Month(ym.month);
    assert MonthField(s[5..]) == Some((ym.month, 2));
    assert ParseYearMonth(s) == None;
    assert s[8..] == Pad2(d);
    Pad2Day(d);
  }

  /** A date with a time of day, `YYYY-MM-DDT...`, matches neither format:
      the source raises `ValueError` on it. */
  lemma TimeOfDayRejected(ym: YearMonth, d: int, time: string)
    requires Valid(ym) && 1 <= d <= DaysInMonth(ym.year, ym.month)
    ensures ParseMonth(Key(ym) + "-" + Pad2(d) + "T" + time) == None
  {
    var s := Key(ym) + "-" + Pad2(d) + "T" + time;
    Pad4Digits(ym.year);
    assert s[..4] == Pad4(ym.year);
    assert YearField(s) == YearField(Pad4(ym.year));
    assert s[5..][..2] == Pad2(ym.month);
    Pad2Month(ym.month);
    assert MonthField(s[5..]) == MonthField(Pad2(ym.month));
    assert s[8..][..2] == Pad2(d);
    Pad2Day(d);
    assert DayField(s[8..]) == DayField(Pad2(d));
  }

  /** The key of a month read from the fields of `s` is never above `s`:
      it is the first seven characters of `s`, or (for a one-digit month)
      it has a `0` where `s` has that digit. */
  lemma KeyAtMostFields(s: string, y: int, m: int, k: nat)
    requires YearField(s) == Some(y) && 1 <= y && |s| >= 5 && s[4] == '-'
    requires MonthField(s[5..]) == Some((m, k))
    ensures Less(Key(YearMonth(y, m)), s) || (|s| >= 7 && Key(YearMonth(y, m)) == s[..7])
  {
    KeyYearPrefix(s, y, m);
    var t := s[5..];
    if k == 2 {
      TwoDigitMonth(t, m);
      assert s[..5] + t[..2] == s[..7];
    } else {
      OneDigitMonth(s[..5], t, m);
      assert s == s[..5] + t;
    }
  }

  lemma KeyYearPrefix(s: string, y: int, m: int)
    requires YearField(s) == Some(y) && |s| >= 5 && s[4] == '-'
    requires 1 <= y && 1 <= m <= 12
    ensures Key(YearMonth(y, m)) == s[..5] + Pad2(m)
  {
    DigitsPad4(s);
    assert s[..5] == s[..4] + "-";
  }

  lemma TwoDigitMonth(t: string, m: int)
    requires MonthField(t) == Some((m, 2))
    ensures Pad2(m) == t[..2]
  {
  }

  lemma OneDigitMonth(p: string, t: string, m: int)
    requires MonthField(t) == Some((m, 1))
    ensures Less(p + Pad2(m), p + t)
  {
    assert Pad2(m) == ['0', t[0]];
    assert Less(['0', t[0]], t);
    LessCommonPrefix(p, Pad2(m), t);
  }

  lemma KeyAtMostText(s: string)
    requires ParseMonth(s).Some?
    ensures var k := Key(ParseMonth(s).value); Less(k, s) || (|s| >= 7 && k == s[..7])
  {
    var ym := ParseMonth(s).value;
    var k := MonthField(s[5..]).value.1;
    KeyAtMostFields(s, ym.year, ym.month, k);
  }

  /** When `start < end`, the key of the month of `start` is below `end`. */
  lemma FirstKeyBelowEnd(start: string, end: string)
    requires Less(start, end) && ParseMonth(start).Some?
    ensures Less(Key(ParseMonth(start).value), end)
  {
    var k := Key(ParseMonth(start).value);
    KeyAtMostText(start);
    if Less(k, start) {
      LessTransitive(k, start, end);
    } else {
      PrefixLess(start, 7, end);
    }
  }

  // ---------------------------------------------------------------------
  // Zero padding makes string order chronological

  lemma Pad2Order(a: int, b: int)
    requires 0 <= a <= 99 && 0 <= b <= 99
    ensures Less(Pad2(a), Pad2(b)) <==> a < b
  {
    var x, y := Pad2(a), Pad2(b);
    if a / 10 != b / 10 {
      assert x[0] != y[0];
      LessSameLength([x[0]], [y[0]], [x[1]], [y[1]]);
      assert [x[0]] + [x[1]] == x && [y[0]] + [y[1]] == y;
    } else {
      LessCommonPrefix([x[0]], [x[1]], [y[1]]);
      assert [x[0]] + [x[1]] == x && [y[0]] + [y[1]] == y;
    }
  }

  lemma Pad4Order(a: int, b: int)
    requires 0 <= a <= 9999 && 0 <= b <= 9999
    ensures Less(Pad4(a), Pad4(b)) <==> a < b
  {
    Pad2Order(a / 100, b / 100);
    Pad2Order(a % 100, b % 100);
    if a / 100 != b / 100 {
      LessSameLength(Pad2(a / 100), Pad2(b / 100), Pad2(a % 100), Pad2(b % 100));
    } else {
      LessCommonPrefix(Pad2(a / 100), Pad2(a % 100), Pad2(b % 100));
    }
  }

  /** `YYYY-MM` keys sort in calendar order. */
  lemma KeyOrder(a: YearMonth, b: YearMonth)
    requires Valid(a) && Valid(b)
    ensures Less(Key(a), Key(b)) <==> Index(a) < Index(b)
  {
    Pad4Order(a.year, b.year);
    Pad2Order(a.month, b.month);
    var ta, tb := "-" + Pad2(a.month), "-" + Pad2(b.month);
    assert Key(a) == Pad4(a.year) + ta && Key(b) == Pad4(b.year) + tb;
    if a.year != b.year {
      LessSameLength(Pad4(a.year), Pad4(b.year), ta, tb);
    } else {
      LessCommonPrefix(Pad4(a.year), ta, tb);
      LessCommonPrefix("-", Pad2(a.month), Pad2(b.month));
    }
  }

  /** Archive file names sort in calendar order. */
  lemma FileNameOrder(a: YearMonth, b: YearMonth)
    requires Valid(a) && Valid(b)
    ensures Less(FileName(a), FileName(b)) <==> Index(a) < Index(b)
  {
    var ra, rb := "/RC_" + Key(a) + ".bz2", "/RC_" + Key(b) + ".bz2";
    assert FileName(a) == Pad4(a.year) + ra && FileName(b) == Pad4(b.year) + rb;
    if a.year != b.year {
      Pad4Order(a.year, b.year);
      LessSameLength(Pad4(a.year), Pad4(b.year), ra, rb);
    } else {
      LessCommonPrefix(Pad4(a.year), ra, rb);
      assert ra == "/RC_" + (Key(a) + ".bz2") && rb == "/RC_" + (Key(b) + ".bz2");
      LessCommonPrefix("/RC_", Key(a) + ".bz2", Key(b) + ".bz2");
      KeyOrder(a, b);
      if Key(a) != Key(b) {
        LessSameLength(Key(a), Key(b), ".bz2", ".bz2");
      } else {
        KeyOrder(b, a);
        LessIrreflexive(Key(a));
        LessIrreflexive(Key(a) + ".bz2");
      }
    }
  }

  /** A key is below a longer string that begins with a key exactly when
      its month is not later. */
  lemma KeyBelowExtendedKey(a: YearMonth, b: YearMonth, t: string)
    requires Valid(a) && Valid(b) && |t| > 0
    ensures Less(Key(a), Key(b) + t) <==> Index(a) <= Index(b)
  {
    KeyOrder(a, b);
    KeyOrder(b, a);
    if Index(a) == Index(b) {
      IndexInjective(a, b);
      LessProperPrefix(Key(a), t);
    } else {
      assert Key(a) != Key(b);
      assert Key(a) == Key(a) + [];
      LessSameLength(Key(a), Key(b), [], t);
    }
  }

  // ---------------------------------------------------------------------
  // _generate_filenames

  /** Months left before December 9999 once `s` is parsed: the walk's
      termination measure. */
  function Remaining(s: string): nat
  {
    match ParseMonth(s)
    case Some(ym) => LastIndex - Index(ym)
    case None => LastIndex + 1
  }

  function Prepend(names: seq<string>, r: Result<seq<string>>): Result<seq<string>>
  {
    match r
    case Ok(rest) => Ok(names + rest)
    case Err(e) => Err(e)
  }

  /** What `_generate_filenames` returns for `range`: nothing when
      `start >= end`; `ValueError` when `start` parses in neither format;
      otherwise the walk from the month of `start`. */
  function Generate(range: DateRange): (r: Result<seq<string>>)
    ensures r.Err? ==> r.error == ValueError
  {
    if !Less(range.start, range.end) then Ok([])
    else match ParseMonth(range.start)
      case None => Err(ValueError)
      case Some(dt) => Walk(dt, range.end)
  }

  /** The loop from a month `dt` whose name is about to be emitted: emit it,
      then go on with the next month while its `YYYY-MM` key is below `end`;
      `ValueError` when the next month would be in year 10000. */
  function Walk(dt: YearMonth, end: string): (r: Result<seq<string>>)
    requires Valid(dt)
    ensures r.Err? ==> r.error == ValueError
    ensures r.Ok? ==> |r.value| >= 1 && r.value[0] == FileName(dt)
    decreases LastIndex - Index(dt)
  {
    var next := Next(dt);
    if !Valid(next) then Err(ValueError)
    else if Less(Key(next), end) then Prepend([FileName(dt)], Walk(next, end))
    else Ok([FileName(dt)])
  }

  /** One turn of the loop: the text the loop continues with is the key of
      the next month, which parses back to that month. */
  lemma WalkStep(dt: YearMonth, end: string)
    requires Valid(dt) && Valid(Next(dt))
    ensures Walk(dt, end) == Prepend([FileName(dt)], Generate(DateRange(Key(Next(dt)), end)))
  {
    KeyRoundTrip(Next(dt));
    if !Less(Key(Next(dt)), end) {
      assert [FileName(dt)] + [] == [FileName(dt)];
    }
  }

  /** One turn of the loop on the text `yrmo`, which is below `end`. */
  lemma GenerateTurn(yrmo: string, end: string)
    requires Less(yrmo, end)
    ensures ParseMonth(yrmo).None? ==> Generate(DateRange(yrmo, end)) == Err(ValueError)
    ensures ParseMonth(yrmo).Some? && !Valid(Next(ParseMonth(yrmo).value)) ==>
      Generate(DateRange(yrmo, end)) == Err(ValueError)
    ensures ParseMonth(yrmo).Some? && Valid(Next(ParseMonth(yrmo).value)) ==>
      var dt := ParseMonth(yrmo).value;
      Generate(DateRange(yrmo, end)) == Prepend([FileName(dt)], Generate(DateRange(Key(Next(dt)), end)))
  {
    if ParseMonth(yrmo).Some? && Valid(Next(ParseMonth(yrmo).value)) {
      WalkStep(ParseMonth(yrmo).value, end);
    }
  }

  method GenerateFilenames(range: DateRange) returns (r: Result<seq<string>>)
    ensures r == Generate(range)
  {
    var fnames: seq<string> := [];
    var yrmo, end := range.start, range.end;
    assert Prepend([], Generate(range)) == Generate(range) by {
      if Generate(range).Ok? { assert [] + Generate(range).value == Generate(range).value; }
    }
    while Less(yrmo, end)
      invariant Generate(range) == Prepend(fnames, Generate(DateRange(yrmo, end)))
      decreases Remaining(yrmo)
    {
      GenerateTurn(yrmo, end);
      var parsed := ParseYearMonth(yrmo);
      if parsed.None? {
        parsed := ParseYearMonthDay(yrmo);
        if parsed.None? {
          return Err(ValueError);
        }
      }
      assert parsed == ParseMonth(yrmo);
      var dt := parsed.value;
      ghost var before := fnames;
      fnames := fnames + [FileName(dt)];
      var nextYear := dt.year;
      var nextMonth := dt.month + 1;
      if nextMonth > 12 {
        nextYear := nextYear + 1;
        nextMonth := 1;
      }
      if nextYear > 9999 {
        return Err(ValueError);
      }
      var next := YearMonth(nextYear, nextMonth);
      assert next == Next(dt);
      KeyRoundTrip(next);
      PrependTwice(before, [FileName(dt)], Generate(DateRange(Key(next), end)));
      yrmo := Key(next);
    }
    assert fnames + [] == fnames;
    return Ok(fnames);
  }

  lemma PrependTwice(a: seq<string>, b: seq<string>, r: Result<seq<string>>)
    ensures Prepend(a, Prepend(b, r)) == Prepend(a + b, r)
  {
    if r.Ok? {
      assert a + (b + r.value) == (a + b) + r.value;
    }
  }

  // ---------------------------------------------------------------------
  // What the walk produces

  /** Nothing is generated exactly when `start >= end` in string order. */
  lemma GenerateEmpty(range: DateRange)
    ensures Generate(range) == Ok([]) <==> !Less(range.start, range.end)
  {
    if Less(range.start, range.end) && ParseMonth(range.start).Some? {
      var dt := ParseMonth(range.start).value;
      if Valid(Next(dt)) && Less(Key(Next(dt)), range.end) && Walk(Next(dt), range.end).Ok? {
        assert |Walk(dt, range.end).value| == 1 + |Walk(Next(dt), range.end).value|;
      }
    }
  }

  /** The month `i` months after `dt`. */
  function MonthAfter(dt: YearMonth, i: nat): (ym: YearMonth)
    requires Valid(dt) && Index(dt) + i <= LastIndex
    ensures Valid(ym) && Index(ym) == Index(dt) + i
  {
    FromIndex(Index(dt) + i)
  }

  lemma MonthAfterNext(dt: YearMonth, i: nat)
    requires Valid(dt) && Valid(Next(dt)) && Index(dt) + i + 1 <= LastIndex
    ensures MonthAfter(Next(dt), i) == MonthAfter(dt, i + 1)
    ensures MonthAfter(dt, 0) == dt
  {
    IndexInjective(MonthAfter(Next(dt), i), MonthAfter(dt, i + 1));
    IndexInjective(MonthAfter(dt, 0), dt);
  }

  /** While the next month's key is below `end`, the walk emits `dt` and
      goes on from the next month. */
  lemma WalkUnfold(dt: YearMonth, end: string)
    requires Valid(dt) && Walk(dt, end).Ok? && Less(Key(Next(dt)), end)
    ensures Valid(Next(dt)) && Walk(Next(dt), end).Ok?
    ensures Walk(dt, end).value == [FileName(dt)] + Walk(Next(dt), end).value
  {
  }

  /** The walk from `dt` emits the names of consecutive months starting at
      `dt`, and stops before December 9999 is passed. */
  lemma {:induction false} WalkNames(dt: YearMonth, end: string, i: nat)
    requires Valid(dt) && Walk(dt, end).Ok? && i < |Walk(dt, end).value|
    ensures Index(dt) + i <= LastIndex
    ensures Walk(dt, end).value[i] == FileName(MonthAfter(dt, i))
    decreases i
  {
    MonthAfterNext(dt, 0);
    if i > 0 {
      var next := Next(dt);
      WalkUnfold(dt, end);
      WalkNames(next, end, i - 1);
      MonthAfterNext(dt, i - 1);
    }
  }

  /** The walk stops at the first month after `dt` whose key is not below
      `end`, before December 9999 is passed. */
  lemma {:induction false} WalkStops(dt: YearMonth, end: string)
    requires Valid(dt) && Walk(dt, end).Ok?
    ensures var n := |Walk(dt, end).value|;
      n >= 1 && Index(dt) + n <= LastIndex && !Less(Key(MonthAfter(dt, n)), end)
    decreases LastIndex - Index(dt)
  {
    var next := Next(dt);
    IndexInjective(MonthAfter(dt, 1), next);
    if Less(Key(next), end) {
      WalkStops(next, end);
      var m := |Walk(next, end).value|;
      assert |Walk(dt, end).value| == 1 + m;
      MonthAfterNext(dt, m);
    } else {
      assert |Walk(dt, end).value| == 1;
    }
  }

  /** Every month the walk emits after the first has its key below `end`. */
  lemma {:induction false} WalkKeysBelow(dt: YearMonth, end: string, i: nat)
    requires Valid(dt) && Walk(dt, end).Ok?
    requires 0 < i < |Walk(dt, end).value|
    ensures Index(dt) + i <= LastIndex && Less(Key(MonthAfter(dt, i)), end)
    decreases i
  {
    var next := Next(dt);
    IndexInjective(MonthAfter(dt, 1), next);
    assert Less(Key(next), end);
    if i > 1 {
      assert |Walk(dt, end).value| == 1 + |Walk(next, end).value|;
      WalkKeysBelow(next, end, i - 1);
      MonthAfterNext(dt, i - 1);
    }
  }

  /** The generated names are the file names of consecutive months, the
      first being the month `start` falls in (`start` may be `YYYY-MM` or
      `YYYY-MM-DD`); every emitted month's key is below `end`, and the key of
      the month after the last one is not. */
  lemma GenerateShape(range: DateRange)
    requires Generate(range).Ok? && Generate(range).value != []
    ensures ParseMonth(range.start).Some?
    ensures var first, names := ParseMonth(range.start).value, Generate(range).value;
      Index(first) + |names| <= LastIndex
      && (forall i :: 0 <= i < |names| ==>
            names[i] == FileName(MonthAfter(first, i))
            && Less(Key(MonthAfter(first, i)), range.end))
      && !Less(Key(MonthAfter(first, |names|)), range.end)
  {
    var first := ParseMonth(range.start).value;
    WalkStops(first, range.end);
    FirstKeyBelowEnd(range.start, range.end);
    MonthAfterNext(first, 0);
    forall i | 0 <= i < |Generate(range).value|
      ensures Generate(range).value[i] == FileName(MonthAfter(first, i))
      ensures Less(Key(MonthAfter(first, i)), range.end)
    {
      WalkNames(first, range.end, i);
      if i > 0 {
        WalkKeysBelow(first, range.end, i);
      }
    }
  }

  /** The generated names are strictly increasing in string order. */
  lemma GenerateIncreasing(range: DateRange)
    requires Generate(range).Ok?
    ensures var names := Generate(range).value;
      forall i, j :: 0 <= i < j < |names| ==> Less(names[i], names[j])
  {
    var names := Generate(range).value;
    if names != [] {
      GenerateShape(range);
      var first := ParseMonth(range.start).value;
      forall i, j | 0 <= i < j < |names|
        ensures Less(names[i], names[j])
      {
        FileNameOrder(MonthAfter(first, i), MonthAfter(first, j));
      }
    }
  }

  /** Each generated name is the file of the calendar successor of the
      month before it, December rolling over to January of the next year. */
  lemma GenerateSuccessive(range: DateRange)
    requires Generate(range).Ok? && Generate(range).value != []
    ensures var first, names := ParseMonth(range.start).value, Generate(range).value;
      Index(first) + |names| <= LastIndex
      && forall i :: 0 <= i < |names| - 1 ==>
        names[i] == FileName(MonthAfter(first, i))
        && Valid(Next(MonthAfter(first, i)))
        && names[i + 1] == FileName(Next(MonthAfter(first, i)))
  {
    var names := Generate(range).value;
    GenerateShape(range);
    var first := ParseMonth(range.start).value;
    forall i | 0 <= i < |names| - 1
      ensures Valid(Next(MonthAfter(first, i)))
      ensures names[i + 1] == FileName(Next(MonthAfter(first, i)))
    {
      assert names[i + 1] == FileName(MonthAfter(first, i + 1));
      IndexInjective(Next(MonthAfter(first, i)), MonthAfter(first, i + 1));
    }
  }

  /** The walk fails exactly when it reaches December 9999: when it starts
      there or when `"9999-12" < end`. */
  lemma {:induction false} WalkFails(dt: YearMonth, end: string)
    requires Valid(dt)
    ensures Walk(dt, end).Err? <==> dt == YearMonth(9999, 12) || Less("9999-12", end)
    decreases LastIndex - Index(dt)
  {
    var last := YearMonth(9999, 12);
    assert Key(last) == "9999-12";
    var next := Next(dt);
    if Valid(next) {
      WalkFails(next, end);
      KeyOrder(next, last);
      if Less(Key(next), end) {
        if next == last {
          assert Less("9999-12", end);
        }
      } else if Less("9999-12", end) {
        if next != last {
          LessTransitive(Key(next), Key(last), end);
        }
      }
    } else {
      IndexInjective(dt, last);
    }
  }

  /** `ValueError` is raised exactly when `start < end` and either `start`
      parses in neither format or the walk reaches December 9999. */
  lemma GenerateFails(range: DateRange)
    ensures Generate(range).Err? <==>
      Less(range.start, range.end)
      && (ParseMonth(range.start).None?
          || ParseMonth(range.start) == Some(YearMonth(9999, 12))
          || Less("9999-12", range.end))
  {
    if Less(range.start, range.end) && ParseMonth(range.start).Some? {
      WalkFails(ParseMonth(range.start).value, range.end);
    }
  }

  /** With the end written `YYYY-MM`, the walk from `a` emits every month
      up to but excluding `b`. */
  lemma {:induction false} MonthEndExcludedWalk(a: YearMonth, b: YearMonth)
    requires Valid(a) && Valid(b) && Index(a) < Index(b)
    ensures var r := Walk(a, Key(b));
      r.Ok? && |r.value| == Index(b) - Index(a)
    decreases Index(b) - Index(a)
  {
    var next := Next(a);
    KeyOrder(next, b);
    if Index(next) == Index(b) {
      IndexInjective(next, b);
      LessIrreflexive(Key(b));
    } else {
      MonthEndExcludedWalk(next, b);
    }
  }

  /** With both bounds written `YYYY-MM`, the names are those of every
      month from `a` up to but excluding `b`. */
  lemma MonthEndExcluded(a: YearMonth, b: YearMonth)
    requires Valid(a) && Valid(b) && Index(a) < Index(b)
    ensures var r := Generate(DateRange(Key(a), Key(b)));
      r.Ok? && |r.value| == Index(b) - Index(a)
      && forall i :: 0 <= i < |r.value| ==> r.value[i] == FileName(MonthAfter(a, i))
  {
    KeyOrder(a, b);
    KeyRoundTrip(a);
    MonthEndExcludedWalk(a, b);
    forall i | 0 <= i < Index(b) - Index(a)
      ensures Generate(DateRange(Key(a), Key(b))).value[i] == FileName(MonthAfter(a, i))
    {
      WalkNames(a, Key(b), i);
    }
  }

  /** With the end a longer text beginning with the key of `b`, such as
      `YYYY-MM-DD`, the walk from `a` includes `b` itself. */
  lemma {:induction false} DayEndIncludedWalk(a: YearMonth, b: YearMonth, t: string)
    requires Valid(a) && Valid(b) && Index(a) <= Index(b) < LastIndex && |t| > 0
    ensures var r := Walk(a, Key(b) + t);
      r.Ok? && |r.value| == Index(b) - Index(a) + 1
    decreases Index(b) - Index(a)
  {
    var next := Next(a);
    KeyBelowExtendedKey(next, b, t);
    if Index(a) < Index(b) {
      DayEndIncludedWalk(next, b, t);
    }
  }

  /** With the end written `YYYY-MM-DD` (any longer text beginning with the
      key of `b`), the month `b` itself is included, its key being a proper
      prefix of the bound. */
  lemma DayEndIncluded(a: YearMonth, b: YearMonth, t: string)
    requires Valid(a) && Valid(b) && Index(a) <= Index(b) < LastIndex && |t| > 0
    ensures var r := Generate(DateRange(Key(a), Key(b) + t));
      r.Ok? && |r.value| == Index(b) - Index(a) + 1
      && forall i :: 0 <= i < |r.value| ==> r.value[i] == FileName(MonthAfter(a, i))
  {
    KeyBelowExtendedKey(a, b, t);
    KeyRoundTrip(a);
    DayEndIncludedWalk(a, b, t);
    forall i | 0 <= i < Index(b) - Index(a) + 1
      ensures Generate(DateRange(Key(a), Key(b) + t)).value[i] == FileName(MonthAfter(a, i))
    {
      WalkNames(a, Key(b) + t, i);
    }
  }
}
