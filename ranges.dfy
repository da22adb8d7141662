/** Normalisation of the `date_range` and `score_range` arguments: shape
    check and replacement of unset endpoints by the dataset's bounds
    (`_parse_date_range`, `_parse_score_range`). */
module Ranges {
  import opened Base

  /** The earliest and latest dates of the archive, and the bounds of a
      signed 32-bit score (the lower one is -(2^31 - 1), not -2^31). */
  const MinDate: string := "2007-10-01"
  const MaxDate: string := "2015-06-01"
  const MinScore: int := -2147483647
  const MaxScore: int := 2147483647

  /** A range argument as a Python value: a list or tuple of endpoints, or
      any other object, of which only its truthiness matters here (None is
      `Other(false)`, a string or a number is `Other(true)` unless empty or
      zero). */
  datatype RangeArg<T> = Items(items: seq<T>) | Other(truthy: bool)

  /** Python truthiness of a range argument: a list or tuple is true when it
      is not empty. */
  predicate Truthy<T>(arg: RangeArg<T>)
  {
    if arg.Items? then |arg.items| > 0 else arg.truthy
  }

  /** The argument is a list or tuple of exactly two items. */
  predicate IsPair<T>(arg: RangeArg<T>)
  {
    arg.Items? && |arg.items| == 2
  }

  /** A date endpoint: a string, or a falsy non-string such as None. */
  datatype DateEnd = NoDate | DateText(text: string)

  predicate DateTruthy(e: DateEnd)
  {
    e.DateText? && e.text != ""
  }

  /** A score endpoint: an integer, or a falsy non-integer such as None. */
  datatype ScoreEnd = NoScore | ScoreValue(value: int)

  predicate ScoreTruthy(e: ScoreEnd)
  {
    e.ScoreValue? && e.value != 0
  }

  /** A normalised date range [start, end). */
  datatype DateRange = DateRange(start: string, end: string)

  /** A normalised score range [low, high). */
  datatype ScoreRange = ScoreRange(low: int, high: int)

  function ParseDateRange(arg: RangeArg<DateEnd>): (r: Result<DateRange>)
    ensures r.Err? <==> !IsPair(arg)
    ensures r.Err? ==> r.error == ValueError
    ensures r.Ok? ==> r.value.start == (if DateTruthy(arg.items[0]) then arg.items[0].text else MinDate)
    ensures r.Ok? ==> r.value.end == (if DateTruthy(arg.items[1]) then arg.items[1].text else MaxDate)
    ensures r.Ok? ==> r.value.start != "" && r.value.end != ""
  {
    if !arg.Items? then Err(ValueError)
    else if |arg.items| != 2 then Err(ValueError)
    else
      var pair := (arg.items[0], arg.items[1]);
      var pair := if !DateTruthy(pair.0) then (DateText(MinDate), pair.1) else pair;
      var pair := if !DateTruthy(pair.1) then (pair.0, DateText(MaxDate)) else pair;
      Ok(DateRange(pair.0.text, pair.1.text))
  }

  function ParseScoreRange(arg: RangeArg<ScoreEnd>): (r: Result<ScoreRange>)
    ensures r.Err? <==> !IsPair(arg)
    ensures r.Err? ==> r.error == ValueError
    ensures r.Ok? ==> r.value.low == (if ScoreTruthy(arg.items[0]) then arg.items[0].value else MinScore)
    ensures r.Ok? ==> r.value.high == (if ScoreTruthy(arg.items[1]) then arg.items[1].value else MaxScore)
    ensures r.Ok? ==> r.value.low != 0 && r.value.high != 0
  {
    if !arg.Items? then Err(ValueError)
    else if |arg.items| != 2 then Err(ValueError)
    else
      var pair := (arg.items[0], arg.items[1]);
      var pair := if !ScoreTruthy(pair.0) then (ScoreValue(MinScore), pair.1) else pair;
      var pair := if !ScoreTruthy(pair.1) then (pair.0, ScoreValue(MaxScore)) else pair;
      Ok(ScoreRange(pair.0.value, pair.1.value))
  }

  /** Normalising an already normalised date range changes nothing. */
  lemma DateRangeNormalFormStable(arg: RangeArg<DateEnd>)
    requires ParseDateRange(arg).Ok?
    ensures var d := ParseDateRange(arg).value;
      ParseDateRange(Items([DateText(d.start), DateText(d.end)])) == Ok(d)
  {
  }

  /** Normalising an already normalised score range changes nothing. */
  lemma ScoreRangeNormalFormStable(arg: RangeArg<ScoreEnd>)
    requires ParseScoreRange(arg).Ok?
    ensures var s := ParseScoreRange(arg).value;
      ParseScoreRange(Items([ScoreValue(s.low), ScoreValue(s.high)])) == Ok(s)
  {
  }

  /** The test is truthiness, so a score bound of 0 is replaced like an
      unset one: (0, 10) becomes (-2147483647, 10). */
  lemma ZeroScoreBoundReplaced(high: int)
    requires high != 0
    ensures ParseScoreRange(Items([ScoreValue(0), ScoreValue(high)])) == Ok(ScoreRange(MinScore, high))
    ensures ParseScoreRange(Items([ScoreValue(high), ScoreValue(0)])) == Ok(ScoreRange(high, MaxScore))
  {
  }
}
