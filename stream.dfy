/**
 * Filtered iteration over the comment files of a dataset (`_iterate`, with
 * `texts` and `records` in front of it). The files on disk are given as a
 * sequence of paths, each holding its comments; the library code the
 * iteration calls (integer parsing, UTC conversion, whitespace
 * normalisation) is passed in as an `Env`.
 */
module CommentStream {
  import opened Base
  import opened StrOrder
  import opened Ranges
  import opened Months
  import opened Cleaning

  /** A timestamp field read with `.get(key, '')`: absent, JSON null, a
      number or a string. */
  datatype Field = Missing | Null | Num(n: int) | Str(s: string)

  /** One line of a comments file. Fields other than these are carried
      through unchanged and are not modelled. */
  datatype Comment = Comment(body: string, subreddit: string, score: int, createdUtc: Field, retrievedOn: Field)

  /** A comments file on disk. */
  datatype DataFile = DataFile(path: string, lines: seq<Comment>)

  /** The dataset: its directory and the files found in it, in the order
      the `filenames` property lists them. */
  datatype Dataset = Dataset(dataDir: string, files: seq<DataFile>)

  /** The library code the iteration relies on: `normalize_whitespace`,
      `int()` on a string (`None` where it raises `ValueError`), and
      `datetime.utcfromtimestamp(n).strftime('%Y-%m-%dT%H:%M:%S')` (`None`
      where it raises `ValueError`). */
  datatype Env = Env(normalize: string -> string, parseInt: string -> Option<int>, utcIso: int -> Option<string>)

  /** The `subreddit` argument: None, a string, a list or tuple of strings,
      or a set. */
  datatype SubredditArg = NoSubreddit | Name(name: string) | Names(items: seq<string>) | NameSet(members: set<string>)

  /** The arguments of `texts` and `records`. */
  datatype Query = Query(
    subreddit: SubredditArg,
    dateRange: RangeArg<DateEnd>,
    scoreRange: RangeArg<ScoreEnd>,
    minLen: int,
    limit: int)

  /** The filters in force once the arguments are normalised; `None` is a
      filter that is switched off. */
  datatype Filters = Filters(
    subs: Option<set<string>>,
    score: Option<ScoreRange>,
    date: Option<DateRange>,
    minLen: int)

  /** The normalised filters and the files to read. */
  datatype Plan = Plan(filters: Filters, files: seq<DataFile>)

  /** What is yielded: the cleaned text, or the whole updated record. */
  datatype Item = Text(text: string) | Full(comment: Comment)

  // ----- Normalising the arguments -----

  /** A falsy `subreddit` switches the filter off; a string becomes a
      singleton set and a list or tuple becomes a set. */
  function NormalizeSubreddit(arg: SubredditArg): (r: Option<set<string>>)
    ensures r.Some? ==> r.value != {}
    ensures arg.Name? && arg.name != "" ==> r == Some({arg.name})
    ensures arg.Names? ==> (r.Some? <==> arg.items != []) && (r.Some? ==> forall x :: x in r.value <==> x in arg.items)
    ensures arg.NameSet? ==> (r.Some? <==> arg.members != {}) && (r.Some? ==> r.value == arg.members)
    ensures arg.NoSubreddit? || (arg.Name? && arg.name == "") ==> r.None?
  {
    match arg
    case NoSubreddit => None
    case Name(s) => if s == "" then None else Some({s})
    case Names(items) =>
      if items == [] then None
      else
        var names := set x | x in items;
        assert items[0] in names;
        Some(names)
    case NameSet(members) => if members == {} then None else Some(members)
  }

  /** `os.path.join` on POSIX. */
  function Join(dir: string, name: string): (r: string)
    ensures |name| > 0 && name[0] == '/' ==> r == name
    ensures !(|name| > 0 && name[0] == '/') ==> dir <= r
    ensures |name| <= |r| && r[|r| - |name|..] == name
  {
    if |name| > 0 && name[0] == '/' then name
    else if dir == "" || dir[|dir| - 1] == '/' then dir + name
    else dir + "/" + name
  }

  /** The paths of the files a date range needs. */
  function Needed(dir: string, names: seq<string>): set<string>
  {
    set n | n in names :: Join(dir, n)
  }

  /** `tuple(fname for fname in files if fname in needed)`. */
  function Select(files: seq<DataFile>, needed: set<string>): (r: seq<DataFile>)
    ensures |r| <= |files|
    ensures forall x :: x in r <==> x in files && x.path in needed
    decreases |files|
  {
    if files == [] then []
    else
      var rest := Select(files[1..], needed);
      assert forall x :: x in files <==> x == files[0] || x in files[1..];
      if files[0].path in needed then [files[0]] + rest else rest
  }

  /** Everything `_iterate` does before it reads the first line: the
      filters, the date range's files, and the errors raised on the way. */
  function MakePlan(ds: Dataset, q: Query): (r: Result<Plan>)
    ensures r.Ok? ==> r.value.files != [] && forall x :: x in r.value.files ==> x in ds.files
    ensures r.Ok? ==> r.value.filters.subs == NormalizeSubreddit(q.subreddit) && r.value.filters.minLen == q.minLen
    ensures r.Ok? ==> (r.value.filters.score.Some? <==> Truthy(q.scoreRange))
    ensures r.Ok? ==> (r.value.filters.date.Some? <==> Truthy(q.dateRange))
    ensures r.Ok? && r.value.filters.date.Some? ==> r.value.filters.date.value.start != ""
    ensures r.Ok? && r.value.filters.date.None? ==> r.value.files == ds.files
    ensures r.Ok? && r.value.filters.score.Some? ==> ParseScoreRange(q.scoreRange) == Ok(r.value.filters.score.value)
    ensures ScoreFilter(q.scoreRange).Err? ==> r == Err(ValueError)
    ensures ScoreFilter(q.scoreRange).Ok? && DateFiles(ds, q.dateRange).Err? ==> r == Err(ValueError)
    ensures ScoreFilter(q.scoreRange).Ok? && DateFiles(ds, q.dateRange).Ok? ==>
      (r.Ok? <==> DateFiles(ds, q.dateRange).value.1 != []) && (r.Err? ==> r.error == IOError(ds.dataDir))
    ensures r.Ok? && r.value.filters.date.Some? ==>
      ParseDateRange(q.dateRange) == Ok(r.value.filters.date.value)
      && Generate(r.value.filters.date.value).Ok?
      && r.value.files == Select(ds.files, Needed(ds.dataDir, Generate(r.value.filters.date.value).value))
    ensures r.Err? && r.error.IOError? ==> r.error.dataDir == ds.dataDir
  {
    match ScoreFilter(q.scoreRange)
    case Err(e) => Err(e)
    case Ok(score) =>
      match DateFiles(ds, q.dateRange)
      case Err(e) => Err(e)
      case Ok((date, files)) =>
        if files == [] then Err(IOError(ds.dataDir))
        else Ok(Plan(Filters(NormalizeSubreddit(q.subreddit), score, date, q.minLen), files))
  }

  /** The score filter: off for a falsy `score_range`, else the normalised
      range or its `ValueError`. */
  function ScoreFilter(arg: RangeArg<ScoreEnd>): (r: Result<Option<ScoreRange>>)
    ensures r.Ok? ==> (r.value.Some? <==> Truthy(arg))
    ensures r.Ok? && r.value.Some? ==> ParseScoreRange(arg) == Ok(r.value.value)
    ensures r.Err? ==> r.error == ValueError
    ensures r.Err? <==> Truthy(arg) && !IsPair(arg)
  {
    if !Truthy(arg) then Ok(None)
    else match ParseScoreRange(arg)
      case Err(e) => Err(e)
      case Ok(range) => Ok(Some(range))
  }

  /** The date filter and the files to read: every file for a falsy
      `date_range`, else the files of its months, in dataset order. */
  function DateFiles(ds: Dataset, arg: RangeArg<DateEnd>): (r: Result<(Option<DateRange>, seq<DataFile>)>)
    ensures r.Ok? ==> (r.value.0.Some? <==> Truthy(arg))
    ensures r.Ok? && r.value.0.None? ==> r.value.1 == ds.files
    ensures r.Ok? && r.value.0.Some? ==>
      ParseDateRange(arg) == Ok(r.value.0.value)
      && r.value.0.value.start != ""
      && Generate(r.value.0.value).Ok?
      && r.value.1 == Select(ds.files, Needed(ds.dataDir, Generate(r.value.0.value).value))
    ensures r.Ok? ==> forall x :: x in r.value.1 ==> x in ds.files
    ensures r.Err? ==> r.error == ValueError
    ensures r.Err? <==> Truthy(arg) && (ParseDateRange(arg).Err? || Generate(ParseDateRange(arg).value).Err?)
  {
    if !Truthy(arg) then Ok((None, ds.files))
    else match ParseDateRange(arg)
      case Err(e) => Err(e)
      case Ok(range) =>
        match Generate(range)
        case Err(e) => Err(e)
        case Ok(names) => Ok((Some(range), Select(ds.files, Needed(ds.dataDir, names))))
  }

  // ----- One line -----

  /** `_convert_timestamp`: a missing field is `''`, on which `int()`
      raises `ValueError`; `None` makes it raise `TypeError`; both errors
      give `''`. */
  function ConvertTimestamp(t: Field, env: Env): (r: string)
    ensures t.Missing? || t.Null? ==> r == ""
    ensures t.Num? && env.utcIso(t.n).Some? ==> r == env.utcIso(t.n).value
    ensures t.Num? && env.utcIso(t.n).None? ==> r == ""
    ensures t.Str? && env.parseInt(t.s).None? ==> r == ""
    ensures t.Str? && env.parseInt(t.s).Some? ==>
      r == (if env.utcIso(env.parseInt(t.s).value).Some? then env.utcIso(env.parseInt(t.s).value).value else "")
  {
    match t
    case Missing => ""
    case Null => ""
    case Num(n) => ConvertSeconds(n, env)
    case Str(s) =>
      match env.parseInt(s)
      case None => ""
      case Some(n) => ConvertSeconds(n, env)
  }

  function ConvertSeconds(n: int, env: Env): string
  {
    match env.utcIso(n)
    case None => ""
    case Some(iso) => iso
  }

  /** The tests `_iterate` applies to a line, in order: subreddit, score,
      converted timestamp, length of the cleaned body. */
  predicate Passes(f: Filters, c: Comment, env: Env)
    ensures f == Filters(None, None, None, 0) ==> Passes(f, c, env)
    ensures Passes(f, c, env) && f.date.Some? && f.date.value.start != "" ==> ConvertTimestamp(c.createdUtc, env) != ""
  {
    (f.subs.None? || c.subreddit in f.subs.value)
    && (f.score.None? || f.score.value.low <= c.score < f.score.value.high)
    && (f.date.None? || InDateRange(f.date.value, ConvertTimestamp(c.createdUtc, env)))
    && !(f.minLen != 0 && |Clean(c.body, env.normalize)| < f.minLen)
  }

  /** `start <= stamp < end` on Python strings. A range that admits a
      timestamp is not empty, and a range with a nonempty start admits no
      empty timestamp. */
  predicate InDateRange(d: DateRange, stamp: string)
    ensures InDateRange(d, stamp) ==> Less(d.start, d.end)
    ensures InDateRange(d, stamp) && d.start != "" ==> stamp != ""
  {
    LessEqLessTransitive(d.start, stamp, d.end);
    LessEq(d.start, stamp) && Less(stamp, d.end)
  }

  /** What a passing line yields: the cleaned body, or the record with its
      timestamp converted, its body cleaned and its retrieval time
      converted. */
  function Yielded(c: Comment, textOnly: bool, env: Env): (r: Item)
    ensures textOnly <==> r.Text?
    ensures r.Text? ==> r.text == Clean(c.body, env.normalize)
    ensures r.Full? ==> r.comment == c.(body := Clean(c.body, env.normalize),
                                       createdUtc := Str(ConvertTimestamp(c.createdUtc, env)),
                                       retrievedOn := Str(ConvertTimestamp(c.retrievedOn, env)))
  {
    var c1 := c.(createdUtc := Str(ConvertTimestamp(c.createdUtc, env)));
    var c2 := c1.(body := Clean(c1.body, env.normalize));
    if textOnly then Text(c2.body)
    else Full(c2.(retrievedOn := Str(ConvertTimestamp(c2.retrievedOn, env))))
  }

  // ----- The whole stream -----

  /** What one line yields, if it passes the filters. */
  function Screen(f: Filters, c: Comment, textOnly: bool, env: Env): Option<Item>
  {
    if Passes(f, c, env) then Some(Yielded(c, textOnly, env)) else None
  }

  function Emitted(o: Option<Item>): (r: seq<Item>)
    ensures |r| <= 1
  {
    if o.Some? then [o.value] else []
  }

  /** What the lines yield when nothing stops the iteration. */
  function Emit(f: Filters, lines: seq<Comment>, textOnly: bool, env: Env): (r: seq<Item>)
    ensures |r| <= |lines|
    decreases |lines|
  {
    if lines == [] then []
    else
      var last := lines[|lines| - 1];
      Emit(f, lines[..|lines| - 1], textOnly, env) + Emitted(Screen(f, last, textOnly, env))
  }

  /** The lines of the files, file after file. */
  function Lines(files: seq<DataFile>): (r: seq<Comment>)
    ensures forall i :: 0 <= i < |files| ==> |files[i].lines| <= |r|
    decreases |files|
  {
    if files == [] then [] else Lines(files[..|files| - 1]) + files[|files| - 1].lines
  }

  function Min(a: int, b: int): int
  {
    if a <= b then a else b
  }

  /** The first `limit` items when `limit` is at least 1; all of them
      otherwise. */
  function Cap(items: seq<Item>, limit: int): (r: seq<Item>)
    ensures r <= items
    ensures 1 <= limit ==> |r| == Min(limit, |items|)
    ensures limit < 1 ==> r == items
  {
    if 1 <= limit < |items| then items[..limit] else items
  }

  /** What `_iterate` yields, or the error it raises. The counter is
      compared with `limit` after each yield and again after each file;
      with `limit == 0` the second test stops the iteration after the
      first file when that file yielded nothing. */
  function Stream(ds: Dataset, textOnly: bool, q: Query, env: Env): (r: Result<seq<Item>>)
    ensures r.Err? <==> MakePlan(ds, q).Err?
    ensures r.Err? ==> r.error == MakePlan(ds, q).error
    ensures r.Ok? ==> |r.value| <= |Lines(MakePlan(ds, q).value.files)|
    ensures r.Ok? && 1 <= q.limit ==> |r.value| <= q.limit
  {
    match MakePlan(ds, q)
    case Err(e) => Err(e)
    case Ok(p) =>
      if q.limit == 0 && Emit(p.filters, p.files[0].lines, textOnly, env) == [] then Ok([])
      else Ok(Cap(Emit(p.filters, Lines(p.files), textOnly, env), q.limit))
  }

  // ----- The iteration itself -----

  /** `_iterate`: the set-up of the filters and the files, then the two
      nested loops. `read` is the number of lines read before it stops. */
  method Iterate(ds: Dataset, textOnly: bool, q: Query, env: Env) returns (r: Result<seq<Item>>, ghost read: nat)
    ensures r == Stream(ds, textOnly, q, env)
    ensures r.Ok? ==>
      var p := MakePlan(ds, q).value;
      read <= |Lines(p.files)| && Emit(p.filters, Lines(p.files)[..read], textOnly, env) == r.value
    ensures r.Ok? && 1 <= q.limit == |r.value| ==>
      var p := MakePlan(ds, q).value;
      0 < read <= |Lines(p.files)| && |Emit(p.filters, Lines(p.files)[..read - 1], textOnly, env)| < |r.value|
    ensures r.Ok? && q.limit < 0 ==> read == |Lines(MakePlan(ds, q).value.files)|
  {
    var plan := SetUp(ds, q);
    if plan.Err? {
      return Err(plan.error), 0;
    }
    var out;
    out, read := Scan(plan.value.filters, plan.value.files, textOnly, q.limit, env);
    r := Ok(out);
  }

  /** `texts`: the cleaned bodies of the matching comments. */
  method Texts(ds: Dataset, q: Query, env: Env) returns (r: Result<seq<Item>>)
    ensures r == Stream(ds, true, q, env)
  {
    ghost var read;
    r, read := Iterate(ds, true, q, env);
  }

  /** `records`: the matching comments, updated. */
  method Records(ds: Dataset, q: Query, env: Env) returns (r: Result<seq<Item>>)
    ensures r == Stream(ds, false, q, env)
  {
    ghost var read;
    r, read := Iterate(ds, false, q, env);
  }

  /** The part of `_iterate` before the loops: the filters are normalised,
      the date range's files are selected, and an empty selection raises
      `IOError`. */
  method SetUp(ds: Dataset, q: Query) returns (r: Result<Plan>)
    ensures r == MakePlan(ds, q)
  {
    var subs := NormalizeSubreddit(q.subreddit);
    var score: Option<ScoreRange> := None;
    if Truthy(q.scoreRange) {
      var parsed := ParseScoreRange(q.scoreRange);
      if parsed.Err? {
        return Err(parsed.error);
      }
      score := Some(parsed.value);
    }
    var date: Option<DateRange> := None;
    var filepaths: seq<DataFile>;
    if Truthy(q.dateRange) {
      var parsed := ParseDateRange(q.dateRange);
      if parsed.Err? {
        return Err(parsed.error);
      }
      date := Some(parsed.value);
      var names := GenerateFilenames(parsed.value);
      if names.Err? {
        return Err(names.error);
      }
      filepaths := Select(ds.files, Needed(ds.dataDir, names.value));
    } else {
      filepaths := ds.files;
    }
    if filepaths == [] {
      return Err(IOError(ds.dataDir));
    }
    r := Ok(Plan(Filters(subs, score, date, q.minLen), filepaths));
  }

  /** The loops of `_iterate` over the selected files and their lines, with
      the counter `n` and its two `break` tests. */
  method Scan(f: Filters, filepaths: seq<DataFile>, textOnly: bool, limit: int, env: Env) returns (out: seq<Item>, ghost read: nat)
    requires filepaths != []
    ensures Outcome(f, filepaths, textOnly, limit, env, out, read)
  {
    out := [];
    read := 0;
    var n := 0;
    var i := 0;
    assert filepaths[..i] == [];
    while i < |filepaths|
      invariant 0 <= i <= |filepaths|
      invariant out == Emit(f, Lines(filepaths[..i]), textOnly, env) && n == |out|
      invariant read == |Lines(filepaths[..i])|
      invariant 1 <= limit ==> n < limit
      invariant limit == 0 && i > 0 ==> n > 0 && Emit(f, filepaths[0].lines, textOnly, env) != []
      decreases |filepaths| - i
    {
      ghost var out0 := out;
      var j;
      out, n, j := ScanLines(f, filepaths[i].lines, textOnly, limit, env, out, n);
      read := read + j;
      if n == limit {
        StopAt(f, filepaths, i, j, textOnly, limit, env, out0, out, read);
        return;
      }
      NextFile(f, filepaths, i, j, textOnly, limit, env, out0, out, read);
      i := i + 1;
    }
    FullOutcome(f, filepaths, i, textOnly, limit, env, out, read);
  }

  /** The inner loop of `_iterate` over the lines of one file, after the
      items `out0` and with the counter at `n0`. It stops after the line
      that makes the counter reach `limit`; `j` lines are read. */
  method ScanLines(f: Filters, lines: seq<Comment>, textOnly: bool, limit: int, env: Env, out0: seq<Item>, n0: int)
    returns (out: seq<Item>, n: int, j: nat)
    requires n0 == |out0|
    requires 1 <= limit ==> n0 < limit
    ensures j <= |lines| && out == out0 + Emit(f, lines[..j], textOnly, env) && n == |out|
    ensures 1 <= limit ==> n <= limit
    ensures 1 <= limit == n ==> 1 <= j && |out0| + |Emit(f, lines[..j - 1], textOnly, env)| < n
    ensures !(1 <= limit == n) ==> j == |lines|
  {
    out, n, j := out0, n0, 0;
    assert out0 + [] == out0;
    while j < |lines|
      invariant 0 <= j <= |lines|
      invariant out == out0 + Emit(f, lines[..j], textOnly, env) && n == |out|
      invariant 1 <= limit ==> n < limit
      decreases |lines| - j
    {
      var item := Admit(f, lines[j], textOnly, env);
      ScanStep(f, lines, j, textOnly, env, out0, out, item);
      ghost var seen := |out0| + |Emit(f, lines[..j], textOnly, env)|;
      j := j + 1;
      if item.Some? {
        out := out + [item.value];
        n := n + 1;
        if n == limit {
          assert seen < n;
          return;
        }
      }
    }
  }

  /** One line read by the inner loop: it extends the items by what it
      yields. */
  lemma {:induction false} ScanStep(f: Filters, lines: seq<Comment>, j: nat, textOnly: bool, env: Env,
                                    out0: seq<Item>, out: seq<Item>, item: Option<Item>)
    requires j < |lines| && out == out0 + Emit(f, lines[..j], textOnly, env)
    requires item == Screen(f, lines[j], textOnly, env)
    ensures item.None? ==> out0 + Emit(f, lines[..j + 1], textOnly, env) == out
    ensures item.Some? ==> out0 + Emit(f, lines[..j + 1], textOnly, env) == out + [item.value]
    ensures |out| == |out0| + |Emit(f, lines[..j], textOnly, env)|
  {
    TakeSnoc(lines, j);
    EmitSnoc(f, lines[..j], lines[j], textOnly, env);
    AppendAssoc(out0, Emit(f, lines[..j], textOnly, env), Emitted(item));
    if item.None? {
      AppendEmpty(Emit(f, lines[..j], textOnly, env));
    }
  }

  /** The body of the inner loop of `_iterate` for one line, up to the
      yield: each failed test is a `continue`, here returning `None`; the
      record is updated in place as the tests go. */
  method Admit(f: Filters, c: Comment, textOnly: bool, env: Env) returns (item: Option<Item>)
    ensures item == Screen(f, c, textOnly, env)
  {
    var line := c;
    if f.subs.Some? && line.subreddit !in f.subs.value {
      return None;
    }
    if f.score.Some? && !(f.score.value.low <= line.score < f.score.value.high) {
      return None;
    }
    line := line.(createdUtc := Str(ConvertTimestamp(line.createdUtc, env)));
    if f.date.Some? && !(LessEq(f.date.value.start, line.createdUtc.s) && Less(line.createdUtc.s, f.date.value.end)) {
      return None;
    }
    line := line.(body := Clean(line.body, env.normalize));
    if f.minLen != 0 && |line.body| < f.minLen {
      return None;
    }
    if textOnly {
      return Some(Text(line.body));
    }
    line := line.(retrievedOn := Str(ConvertTimestamp(line.retrievedOn, env)));
    return Some(Full(line));
  }

  /** Appending one line to the lines read extends what they yield by what
      that line yields. */
  lemma EmitSnoc(f: Filters, seen: seq<Comment>, c: Comment, textOnly: bool, env: Env)
    ensures Emit(f, seen + [c], textOnly, env)
      == Emit(f, seen, textOnly, env) + Emitted(Screen(f, c, textOnly, env))
  {
    FrontOfAppend(seen, [c]);
  }

  lemma LinesSnoc(files: seq<DataFile>, i: nat)
    requires i < |files|
    ensures Lines(files[..i + 1]) == Lines(files[..i]) + files[i].lines
  {
    assert files[..i + 1][..i] == files[..i];
  }

  /** The result of the loops and the lines they read, as the method
      promises them. */
  ghost predicate Outcome(f: Filters, files: seq<DataFile>, textOnly: bool, limit: int, env: Env, out: seq<Item>, read: nat)
  {
    out == (if limit == 0 && files != [] && Emit(f, files[0].lines, textOnly, env) == [] then []
            else Cap(Emit(f, Lines(files), textOnly, env), limit))
    && read <= |Lines(files)| && Emit(f, Lines(files)[..read], textOnly, env) == out
    && (1 <= limit == |out| ==> 0 < read && |Emit(f, Lines(files)[..read - 1], textOnly, env)| < |out|)
    && (limit < 0 ==> read == |Lines(files)|)
  }

  /** The loops stop after file `i`, read to line `j`, when the counter
      equals `limit`: with the counter at `limit` if it is positive, or
      after a first file that yielded nothing if it is 0. */
  lemma {:induction false} StopAt(f: Filters, files: seq<DataFile>, i: nat, j: nat, textOnly: bool, limit: int, env: Env,
                                  out0: seq<Item>, out: seq<Item>, read: nat)
    requires i < |files|
    requires out0 == Emit(f, Lines(files[..i]), textOnly, env) && read == |Lines(files[..i])| + j
    requires limit == 0 && i > 0 ==> |out0| > 0
    requires j <= |files[i].lines| && out == out0 + Emit(f, files[i].lines[..j], textOnly, env)
    requires 1 <= limit ==> 1 <= j && |out0| + |Emit(f, files[i].lines[..j - 1], textOnly, env)| < |out|
    requires limit < 1 ==> j == |files[i].lines|
    requires |out| == limit
    ensures Outcome(f, files, textOnly, limit, env, out, read)
  {
    if 1 <= limit {
      CutOutcome(f, files, i, j, textOnly, limit, env, out0, out, read);
    } else {
      assert limit == 0 && |out0| == 0;
      ZeroOutcome(f, files, i, j, textOnly, limit, env, out0, out, read);
    }
  }

  /** The invariant of the file loop carries over to file `i + 1` once file
      `i` is read to its end without the counter reaching `limit`. */
  lemma {:induction false} NextFile(f: Filters, files: seq<DataFile>, i: nat, j: nat, textOnly: bool, limit: int, env: Env,
                                    out0: seq<Item>, out: seq<Item>, read: nat)
    requires i < |files|
    requires out0 == Emit(f, Lines(files[..i]), textOnly, env) && read == |Lines(files[..i])| + j
    requires limit == 0 && i > 0 ==> Emit(f, files[0].lines, textOnly, env) != []
    requires j == |files[i].lines| && out == out0 + Emit(f, files[i].lines[..j], textOnly, env)
    requires limit == 0 ==> |out| != 0
    ensures out == Emit(f, Lines(files[..i + 1]), textOnly, env) && read == |Lines(files[..i + 1])|
    ensures limit == 0 ==> Emit(f, files[0].lines, textOnly, env) != []
  {
    FileDone(f, files, i, j, textOnly, env, out0, out);
  }

  /** The loops stop at the `limit`-th yield, on line `j` of file `i`. */
  lemma {:induction false} CutOutcome(f: Filters, files: seq<DataFile>, i: nat, j: nat, textOnly: bool, limit: int, env: Env,
                                      out0: seq<Item>, out: seq<Item>, read: nat)
    requires i < |files| && 1 <= j <= |files[i].lines|
    requires out0 == Emit(f, Lines(files[..i]), textOnly, env)
    requires out == out0 + Emit(f, files[i].lines[..j], textOnly, env)
    requires |out0| + |Emit(f, files[i].lines[..j - 1], textOnly, env)| < |out|
    requires 1 <= limit == |out|
    requires read == |Lines(files[..i])| + j
    ensures Outcome(f, files, textOnly, limit, env, out, read)
  {
    var all := Lines(files);
    var rest := CutLines(files, i, j);
    EmitJoin(f, Lines(files[..i]), files[i].lines[..j], all[..read], textOnly, env);
    EmitJoin(f, Lines(files[..i]), files[i].lines[..j - 1], all[..read - 1], textOnly, env);
    EmitJoin(f, all[..read], rest, all, textOnly, env);
    CapFront(out, Emit(f, rest, textOnly, env), limit);
  }

  /** What `p + q` yields, for a sequence `whole` that is `p + q`. */
  lemma EmitJoin(f: Filters, p: seq<Comment>, q: seq<Comment>, whole: seq<Comment>, textOnly: bool, env: Env)
    requires whole == p + q
    ensures Emit(f, whole, textOnly, env) == Emit(f, p, textOnly, env) + Emit(f, q, textOnly, env)
  {
    EmitAppend(f, p, q, textOnly, env);
  }

  /** Items followed by more items, cut at the length of the first. */
  lemma CapFront(a: seq<Item>, b: seq<Item>, limit: int)
    requires 1 <= limit == |a|
    ensures Cap(a + b, limit) == a
  {
    FrontOfAppend(a, b);
  }

  /** The lines of the files, cut after line `j` of file `i`: what is left
      is `rest`. */
  lemma {:induction false} CutLines(files: seq<DataFile>, i: nat, j: nat) returns (rest: seq<Comment>)
    requires i < |files| && 1 <= j <= |files[i].lines|
    ensures var read := |Lines(files[..i])| + j;
      read <= |Lines(files)|
      && Lines(files)[..read] == Lines(files[..i]) + files[i].lines[..j]
      && Lines(files)[..read - 1] == Lines(files[..i]) + files[i].lines[..j - 1]
      && Lines(files) == Lines(files)[..read] + rest
  {
    var lines := files[i].lines;
    var seen := Lines(files[..i]) + lines[..j];
    rest := lines[j..] + Lines(files[i + 1..]);
    var all := Lines(files);
    assert all == seen + rest by {
      LinesSplit(files, i);
      assert lines == lines[..j] + lines[j..];
      Regroup(Lines(files[..i]), lines[..j], lines[j..], Lines(files[i + 1..]));
    }
    FrontOfAppend(seen, rest);
    assert all[..|seen| - 1] == seen[..|seen| - 1];
    assert seen[..|seen| - 1] == Lines(files[..i]) + lines[..j - 1];
  }

  /** With `limit == 0`, the loops stop after a first file that yields
      nothing. */
  lemma {:induction false} ZeroOutcome(f: Filters, files: seq<DataFile>, i: nat, j: nat, textOnly: bool, limit: int, env: Env,
                                       out0: seq<Item>, out: seq<Item>, read: nat)
    requires limit == 0 && i == 0 && files != [] && j == |files[0].lines|
    requires out0 == Emit(f, Lines(files[..i]), textOnly, env)
    requires out == out0 + Emit(f, files[i].lines[..j], textOnly, env) && out == []
    requires read == |Lines(files[..i])| + j
    ensures Outcome(f, files, textOnly, limit, env, out, read)
  {
    var first := files[0].lines;
    var later := Lines(files[1..]);
    assert Lines(files[..i]) == [] by {
      assert files[..i] == [];
    }
    assert Emit(f, first, textOnly, env) == [] by {
      assert first[..j] == first;
    }
    assert Lines(files) == first + later by {
      LinesSplit(files, 0);
      AppendEmpty(first + later);
    }
    FrontOfAppend(first, later);
  }

  /** A file read to its end adds its lines to those read and its items to
      those yielded. */
  lemma {:induction false} FileDone(f: Filters, files: seq<DataFile>, i: nat, j: nat, textOnly: bool, env: Env,
                                    out0: seq<Item>, out: seq<Item>)
    requires i < |files| && j == |files[i].lines|
    requires out0 == Emit(f, Lines(files[..i]), textOnly, env)
    requires out == out0 + Emit(f, files[i].lines[..j], textOnly, env)
    ensures out == Emit(f, Lines(files[..i + 1]), textOnly, env)
    ensures |Lines(files[..i + 1])| == |Lines(files[..i])| + j
    ensures i == 0 ==> out == Emit(f, files[0].lines, textOnly, env)
  {
    assert files[i].lines[..j] == files[i].lines;
    LinesSnoc(files, i);
    EmitAppend(f, Lines(files[..i]), files[i].lines, textOnly, env);
    if i == 0 {
      assert files[..0] == [];
      AppendEmpty(files[0].lines);
    }
  }

  /** The loops run through every line of every file. */
  lemma {:induction false} FullOutcome(f: Filters, files: seq<DataFile>, i: nat, textOnly: bool, limit: int, env: Env,
                                       out: seq<Item>, read: nat)
    requires files != [] && i == |files|
    requires out == Emit(f, Lines(files[..i]), textOnly, env) && read == |Lines(files[..i])|
    requires 1 <= limit ==> |out| < limit
    requires limit == 0 && i > 0 ==> Emit(f, files[0].lines, textOnly, env) != []
    ensures Outcome(f, files, textOnly, limit, env, out, read)
  {
    assert files[..i] == files;
    assert Lines(files)[..read] == Lines(files);
  }

  /** The lines of a file sequence split at file `i`. */
  lemma {:induction false} LinesSplit(files: seq<DataFile>, i: nat)
    requires i < |files|
    ensures Lines(files) == Lines(files[..i]) + (files[i].lines + Lines(files[i + 1..]))
  {
    SplitAround(files, i);
    LinesJoin(files[..i], files[i..], files);
    LinesJoin([files[i]], files[i + 1..], files[i..]);
    LinesSingle(files[i]);
  }

  lemma LinesSingle(file: DataFile)
    ensures Lines([file]) == file.lines
  {
    assert [file][..0] == [];
  }

  /** The lines of `p + q`, for a sequence `whole` that is `p + q`. */
  lemma LinesJoin(p: seq<DataFile>, q: seq<DataFile>, whole: seq<DataFile>)
    requires whole == p + q
    ensures Lines(whole) == Lines(p) + Lines(q)
  {
    LinesAppend(p, q);
  }

  lemma {:induction false} LinesAppend(a: seq<DataFile>, b: seq<DataFile>)
    ensures Lines(a + b) == Lines(a) + Lines(b)
    decreases |b|
  {
    if b == [] {
      AppendEmpty(a);
      AppendEmpty(Lines(a));
    } else {
      var b' := b[..|b| - 1];
      SnocOfAppend(a, b);
      LinesAppend(a, b');
      AppendAssoc(Lines(a), Lines(b'), b[|b| - 1].lines);
    }
  }

  /** What the lines of `a + b` yield is what `a` yields, then what `b`
      yields. */
  lemma {:induction false} EmitAppend(f: Filters, a: seq<Comment>, b: seq<Comment>, textOnly: bool, env: Env)
    ensures Emit(f, a + b, textOnly, env) == Emit(f, a, textOnly, env) + Emit(f, b, textOnly, env)
    decreases |b|
  {
    if b == [] {
      AppendEmpty(a);
      AppendEmpty(Emit(f, a, textOnly, env));
    } else {
      var b' := b[..|b| - 1];
      SnocOfAppend(a, b);
      EmitAppend(f, a, b', textOnly, env);
      AppendAssoc(Emit(f, a, textOnly, env), Emit(f, b', textOnly, env), Emitted(Screen(f, b[|b| - 1], textOnly, env)));
    }
  }
}
