/**
 * What `texts` and `records` yield, stated against the arguments: every
 * item comes from a line that passes the filters, every passing line is
 * yielded when no limit intervenes, the two modes agree, and `limit` only
 * cuts the stream short.
 */
module StreamProperties {
  import opened Base
  import opened StrOrder
  import opened Ranges
  import opened Months
  import opened Cleaning
  import opened CommentStream

  /** The lines yield exactly the items of their passing lines. */
  lemma EmitMembers(f: Filters, lines: seq<Comment>, textOnly: bool, env: Env, x: Item)
    ensures x in Emit(f, lines, textOnly, env) <==>
      exists k :: 0 <= k < |lines| && Passes(f, lines[k], env) && x == Yielded(lines[k], textOnly, env)
  {
    if x in Emit(f, lines, textOnly, env) {
      var k := EmitSource(f, lines, textOnly, env, x);
    }
    if exists k :: 0 <= k < |lines| && Passes(f, lines[k], env) && x == Yielded(lines[k], textOnly, env) {
      var k :| 0 <= k < |lines| && Passes(f, lines[k], env) && x == Yielded(lines[k], textOnly, env);
      EmitKeeps(f, lines, textOnly, env, k);
    }
  }

  /** The line an item comes from. */
  lemma {:induction false} EmitSource(f: Filters, lines: seq<Comment>, textOnly: bool, env: Env, x: Item) returns (k: nat)
    requires x in Emit(f, lines, textOnly, env)
    ensures k < |lines| && Passes(f, lines[k], env) && x == Yielded(lines[k], textOnly, env)
    decreases |lines|
  {
    var n := |lines| - 1;
    var front := lines[..n];
    if x in Emit(f, front, textOnly, env) {
      k := EmitSource(f, front, textOnly, env, x);
      assert front[k] == lines[k];
    } else {
      k := n;
    }
  }

  /** A passing line is yielded. */
  lemma {:induction false} EmitKeeps(f: Filters, lines: seq<Comment>, textOnly: bool, env: Env, k: nat)
    requires k < |lines| && Passes(f, lines[k], env)
    ensures Yielded(lines[k], textOnly, env) in Emit(f, lines, textOnly, env)
    decreases |lines|, 1
  {
    if k < |lines| - 1 {
      EmitKeepsEarlier(f, lines, textOnly, env, k);
    } else {
      EmitKeepsLast(f, lines, textOnly, env, k);
    }
  }

  lemma {:induction false} EmitKeepsEarlier(f: Filters, lines: seq<Comment>, textOnly: bool, env: Env, k: nat)
    requires k < |lines| - 1 && Passes(f, lines[k], env)
    ensures Yielded(lines[k], textOnly, env) in Emit(f, lines, textOnly, env)
    decreases |lines|, 0
  {
    var front := lines[..|lines| - 1];
    var tail := Emitted(Screen(f, lines[|lines| - 1], textOnly, env));
    assert front[k] == lines[k];
    EmitKeeps(f, front, textOnly, env, k);
    EmitLast(f, lines, front, tail, textOnly, env);
    InAppend(Emit(f, front, textOnly, env), tail, Yielded(lines[k], textOnly, env));
  }

  lemma EmitKeepsLast(f: Filters, lines: seq<Comment>, textOnly: bool, env: Env, k: nat)
    requires k == |lines| - 1 && Passes(f, lines[k], env)
    ensures Yielded(lines[k], textOnly, env) in Emit(f, lines, textOnly, env)
  {
    var front := lines[..k];
    var tail := Emitted(Screen(f, lines[k], textOnly, env));
    EmitLast(f, lines, front, tail, textOnly, env);
    ScreenPassing(f, lines[k], textOnly, env);
  }

  lemma ScreenPassing(f: Filters, c: Comment, textOnly: bool, env: Env)
    requires Passes(f, c, env)
    ensures Emitted(Screen(f, c, textOnly, env)) == [Yielded(c, textOnly, env)]
  {
  }

  lemma EmitLast(f: Filters, lines: seq<Comment>, front: seq<Comment>, tail: seq<Item>, textOnly: bool, env: Env)
    requires lines != [] && front == lines[..|lines| - 1]
    requires tail == Emitted(Screen(f, lines[|lines| - 1], textOnly, env))
    ensures Emit(f, lines, textOnly, env) == Emit(f, front, textOnly, env) + tail
  {
  }

  lemma InAppend<T>(a: seq<T>, b: seq<T>, x: T)
    requires x in a
    ensures x in a + b
  {
  }

  /** The items appear in the order of their lines: what a prefix of the
      lines yields is a prefix of what they all yield. */
  lemma EmitPrefix(f: Filters, lines: seq<Comment>, k: nat, textOnly: bool, env: Env)
    requires k <= |lines|
    ensures Emit(f, lines[..k], textOnly, env) <= Emit(f, lines, textOnly, env)
  {
    TakeDrop(lines, k);
    EmitJoin(f, lines[..k], lines[k..], lines, textOnly, env);
    PrefixOfAppend(Emit(f, lines[..k], textOnly, env), Emit(f, lines[k..], textOnly, env));
  }

  /** A line of the files is a line of one of them. */
  lemma {:induction false} LinesMember(files: seq<DataFile>, c: Comment)
    requires c in Lines(files)
    ensures exists file :: file in files && c in file.lines
    decreases |files|
  {
    var n := |files| - 1;
    if c in files[n].lines {
      assert files[n] in files;
    } else {
      LinesMember(files[..n], c);
      var file :| file in files[..n] && c in file.lines;
      assert file in files;
    }
  }

  /** The first file's lines are read first. */
  lemma {:induction false} FirstFileFirst(files: seq<DataFile>)
    requires files != []
    ensures files[0].lines <= Lines(files)
    decreases |files|
  {
    var n := |files| - 1;
    if n > 0 {
      FirstFileFirst(files[..n]);
      PrefixOfAppend(Lines(files[..n]), files[n].lines);
    }
  }

  /** An item of a capped stream is an item of the whole stream. */
  lemma CapMember(items: seq<Item>, limit: int, x: Item)
    requires x in Cap(items, limit)
    ensures x in items
  {
    var r := Cap(items, limit);
    var i :| 0 <= i < |r| && r[i] == x;
    assert items[i] == x;
  }

  /** Every item `texts` or `records` yields comes from a comment of one of
      the dataset's files that passes the filters. */
  lemma StreamItemsPass(ds: Dataset, textOnly: bool, q: Query, env: Env, x: Item)
    requires Stream(ds, textOnly, q, env).Ok? && x in Stream(ds, textOnly, q, env).value
    ensures var p := MakePlan(ds, q).value;
      exists file, c :: file in ds.files && c in file.lines && Passes(p.filters, c, env) && x == Yielded(c, textOnly, env)
  {
    var p := MakePlan(ds, q).value;
    var all := Emit(p.filters, Lines(p.files), textOnly, env);
    CapMember(all, q.limit, x);
    EmitMembers(p.filters, Lines(p.files), textOnly, env, x);
    var k :| 0 <= k < |Lines(p.files)| && Passes(p.filters, Lines(p.files)[k], env)
      && x == Yielded(Lines(p.files)[k], textOnly, env);
    var c := Lines(p.files)[k];
    LinesMember(p.files, c);
    var file :| file in p.files && c in file.lines;
    assert file in ds.files;
  }

  /** With no limit, every passing comment of the selected files is
      yielded. */
  lemma StreamKeepsPassing(ds: Dataset, textOnly: bool, q: Query, env: Env, c: Comment)
    requires q.limit < 0 && MakePlan(ds, q).Ok?
    requires var p := MakePlan(ds, q).value;
      c in Lines(p.files) && Passes(p.filters, c, env)
    ensures Stream(ds, textOnly, q, env).Ok? && Yielded(c, textOnly, env) in Stream(ds, textOnly, q, env).value
  {
    var p := MakePlan(ds, q).value;
    var all := Emit(p.filters, Lines(p.files), textOnly, env);
    assert Stream(ds, textOnly, q, env) == Ok(all);
    var k :| 0 <= k < |Lines(p.files)| && Lines(p.files)[k] == c;
    EmitMembers(p.filters, Lines(p.files), textOnly, env, Yielded(c, textOnly, env));
  }

  /** What a yielded record satisfies: the subreddit, score and date
      filters of the query, the minimum length of its cleaned body, and
      both timestamps converted to strings. */
  predicate Satisfies(q: Query, c: Comment)
  {
    (NormalizeSubreddit(q.subreddit).Some? ==> c.subreddit in NormalizeSubreddit(q.subreddit).value)
    && (Truthy(q.scoreRange) && ParseScoreRange(q.scoreRange).Ok? ==>
          ParseScoreRange(q.scoreRange).value.low <= c.score < ParseScoreRange(q.scoreRange).value.high)
    && c.createdUtc.Str? && c.retrievedOn.Str?
    && (Truthy(q.dateRange) && ParseDateRange(q.dateRange).Ok? ==>
          InDateRange(ParseDateRange(q.dateRange).value, c.createdUtc.s))
    && (q.minLen != 0 ==> |c.body| >= q.minLen)
  }

  /** Every record `records` yields satisfies the query; it is a comment of
      the dataset with its body cleaned and its timestamps converted. */
  lemma RecordsSatisfyQuery(ds: Dataset, q: Query, env: Env, x: Item)
    requires Stream(ds, false, q, env).Ok? && x in Stream(ds, false, q, env).value
    ensures x.Full? && Satisfies(q, x.comment)
    ensures exists file, c :: (file in ds.files && c in file.lines
      && x.comment == c.(body := Clean(c.body, env.normalize),
                         createdUtc := Str(ConvertTimestamp(c.createdUtc, env)),
                         retrievedOn := Str(ConvertTimestamp(c.retrievedOn, env))))
  {
    StreamItemsPass(ds, false, q, env, x);
  }

  /** Every text `texts` yields is at least `min_len` long. */
  lemma TextsLongEnough(ds: Dataset, q: Query, env: Env, x: Item)
    requires Stream(ds, true, q, env).Ok? && x in Stream(ds, true, q, env).value
    ensures x.Text? && (q.minLen != 0 ==> |x.text| >= q.minLen)
    ensures exists file, c :: file in ds.files && c in file.lines && x.text == Clean(c.body, env.normalize)
  {
    StreamItemsPass(ds, true, q, env, x);
  }

  /** With a date range in force, a comment whose timestamp converts to the
      empty string (missing, null or unparsable) is never yielded, since
      the start of the range is never empty. */
  lemma UndatedCommentExcluded(f: Filters, c: Comment, env: Env)
    requires f.date.Some? && f.date.value.start != ""
    requires ConvertTimestamp(c.createdUtc, env) == ""
    ensures !Passes(f, c, env)
  {
    assert !Less(f.date.value.start, "");
  }

  /** In text mode each item is the body of the record the same line
      yields in record mode. */
  lemma {:induction false} EmitModes(f: Filters, lines: seq<Comment>, env: Env)
    ensures var t, r := Emit(f, lines, true, env), Emit(f, lines, false, env);
      |t| == |r| && forall i :: 0 <= i < |t| ==> r[i].Full? && t[i] == Text(r[i].comment.body)
    decreases |lines|
  {
    if lines != [] {
      var front, c := lines[..|lines| - 1], lines[|lines| - 1];
      EmitModes(f, front, env);
      var t0, r0 := Emit(f, front, true, env), Emit(f, front, false, env);
      var t1, r1 := Emitted(Screen(f, c, true, env)), Emitted(Screen(f, c, false, env));
      assert Emit(f, lines, true, env) == t0 + t1;
      assert Emit(f, lines, false, env) == r0 + r1;
      ModesAppend(t0, r0, t1, r1);
    }
  }

  /** Two pairs of items in step stay in step when joined. */
  lemma ModesAppend(t0: seq<Item>, r0: seq<Item>, t1: seq<Item>, r1: seq<Item>)
    requires |t0| == |r0| && forall i :: 0 <= i < |t0| ==> r0[i].Full? && t0[i] == Text(r0[i].comment.body)
    requires |t1| == |r1| && forall i :: 0 <= i < |t1| ==> r1[i].Full? && t1[i] == Text(r1[i].comment.body)
    ensures var t, r := t0 + t1, r0 + r1;
      |t| == |r| && forall i :: 0 <= i < |t| ==> r[i].Full? && t[i] == Text(r[i].comment.body)
  {
    var t, r := t0 + t1, r0 + r1;
    forall i | 0 <= i < |t|
      ensures r[i].Full? && t[i] == Text(r[i].comment.body)
    {
      if i >= |t0| {
        assert t[i] == t1[i - |t0|] && r[i] == r1[i - |t0|];
      }
    }
  }

  /** `texts` yields the bodies of what `records` yields with the same
      arguments, and raises exactly when it raises. */
  lemma TextsAreRecordBodies(ds: Dataset, q: Query, env: Env)
    ensures var t, r := Stream(ds, true, q, env), Stream(ds, false, q, env);
      t.Ok? == r.Ok?
      && (t.Err? ==> t.error == r.error)
      && (t.Ok? ==> (|t.value| == |r.value|
            && forall i :: 0 <= i < |t.value| ==> r.value[i].Full? && t.value[i] == Text(r.value[i].comment.body)))
  {
    match MakePlan(ds, q)
    case Err(_) =>
    case Ok(p) =>
      EmitModes(p.filters, p.files[0].lines, env);
      EmitModes(p.filters, Lines(p.files), env);
      CapModes(Emit(p.filters, Lines(p.files), true, env), Emit(p.filters, Lines(p.files), false, env), q.limit);
  }

  /** Cutting both modes' items at the same limit keeps them in step. */
  lemma CapModes(t: seq<Item>, r: seq<Item>, limit: int)
    requires |t| == |r| && forall i :: 0 <= i < |t| ==> r[i].Full? && t[i] == Text(r[i].comment.body)
    ensures var t', r' := Cap(t, limit), Cap(r, limit);
      |t'| == |r'| && forall i :: 0 <= i < |t'| ==> r'[i].Full? && t'[i] == Text(r'[i].comment.body)
  {
  }

  /** A positive `limit` keeps the first `limit` items of the stream with
      no limit, and changes nothing else. */
  lemma LimitTakesPrefix(ds: Dataset, textOnly: bool, q: Query, env: Env)
    requires 1 <= q.limit
    ensures var r, u := Stream(ds, textOnly, q, env), Stream(ds, textOnly, q.(limit := -1), env);
      r.Ok? == u.Ok? && (r.Err? ==> r.error == u.error)
      && (r.Ok? ==> r.value <= u.value && |r.value| == Min(q.limit, |u.value|))
  {
    assert MakePlan(ds, q) == MakePlan(ds, q.(limit := -1));
  }

  /** `limit == 0` does not mean "nothing": the counter is only compared
      with it after a yield and after a file, so the whole stream is
      yielded unless the first selected file yields nothing, in which case
      nothing is. */
  lemma ZeroLimitQuirk(ds: Dataset, textOnly: bool, q: Query, env: Env)
    requires q.limit == 0
    ensures var r, u := Stream(ds, textOnly, q, env), Stream(ds, textOnly, q.(limit := -1), env);
      r.Ok? == u.Ok?
      && (r.Ok? ==> var p := MakePlan(ds, q).value;
            r.value == (if Emit(p.filters, p.files[0].lines, textOnly, env) == [] then [] else u.value))
  {
    assert MakePlan(ds, q) == MakePlan(ds, q.(limit := -1));
  }

  /** `g` applied to each element, in order. */
  function Map<A, B>(g: A -> B, xs: seq<A>): (r: seq<B>)
    ensures |r| == |xs|
    ensures forall k :: 0 <= k < |xs| ==> r[k] == g(xs[k])
    decreases |xs|
  {
    if xs == [] then []
    else
      var n := |xs| - 1;
      var front := Map(g, xs[..n]);
      assert forall k :: 0 <= k < n ==> xs[..n][k] == xs[k];
      front + [g(xs[n])]
  }

  /** Every line passes a switched-off set of filters. */
  lemma {:induction false} EmitUnfiltered(lines: seq<Comment>, textOnly: bool, env: Env)
    ensures Emit(Filters(None, None, None, 0), lines, textOnly, env) == Map(c => Yielded(c, textOnly, env), lines)
    decreases |lines|
  {
    if lines != [] {
      EmitUnfiltered(lines[..|lines| - 1], textOnly, env);
      UnfilteredSnoc(lines, textOnly, env);
    }
  }

  lemma UnfilteredSnoc(lines: seq<Comment>, textOnly: bool, env: Env)
    requires lines != []
    ensures var n, none := |lines| - 1, Filters(None, None, None, 0);
      Emit(none, lines, textOnly, env) == Emit(none, lines[..n], textOnly, env) + [Yielded(lines[n], textOnly, env)]
  {
    assert Passes(Filters(None, None, None, 0), lines[|lines| - 1], env);
  }

  /** With every argument left at its default, each line of each file is
      yielded, in order. */
  lemma DefaultsKeepAll(ds: Dataset, textOnly: bool, env: Env)
    requires ds.files != []
    ensures var r := Stream(ds, textOnly, Query(NoSubreddit, Other(false), Other(false), 0, -1), env);
      r == Ok(Map(c => Yielded(c, textOnly, env), Lines(ds.files)))
  {
    EmitUnfiltered(Lines(ds.files), textOnly, env);
  }

  /** A dataset with no files raises for every query: `IOError` on its
      directory unless a range argument is rejected first. */
  lemma EmptyDatasetRaises(ds: Dataset, textOnly: bool, q: Query, env: Env)
    requires ds.files == []
    ensures Stream(ds, textOnly, q, env).Err?
    ensures ((!Truthy(q.scoreRange) || IsPair(q.scoreRange))
             && (!Truthy(q.dateRange) || (IsPair(q.dateRange) && Generate(ParseDateRange(q.dateRange).value).Ok?))) ==>
      Stream(ds, textOnly, q, env) == Err(IOError(ds.dataDir))
  {
  }

  /** A malformed score range raises `ValueError` before any file is
      looked at. */
  lemma MalformedScoreRangeRaises(ds: Dataset, textOnly: bool, q: Query, env: Env)
    requires Truthy(q.scoreRange) && !IsPair(q.scoreRange)
    ensures Stream(ds, textOnly, q, env) == Err(ValueError)
  {
  }

  /** Selection keeps the dataset's order: selecting from two runs of
      files is selecting from each. */
  lemma {:induction false} SelectAppend(a: seq<DataFile>, b: seq<DataFile>, needed: set<string>)
    ensures Select(a + b, needed) == Select(a, needed) + Select(b, needed)
    decreases |a|
  {
    if a == [] {
      assert a + b == b;
    } else {
      assert (a + b)[1..] == a[1..] + b;
      SelectAppend(a[1..], b, needed);
    }
  }

  /** With a date range, the files read are the dataset's files whose path
      is the data directory joined with a generated name; generated names
      with no file are ignored. */
  lemma SelectedFiles(ds: Dataset, q: Query, x: DataFile)
    requires MakePlan(ds, q).Ok? && Truthy(q.dateRange)
    ensures var p := MakePlan(ds, q).value;
      var names := Generate(p.filters.date.value).value;
      x in p.files <==> x in ds.files && exists n :: n in names && x.path == Join(ds.dataDir, n)
  {
  }

  /** A string, a one-item list and a one-item set name the same filter. */
  lemma SubredditForms(s: string)
    requires s != ""
    ensures NormalizeSubreddit(Name(s)) == NormalizeSubreddit(Names([s])) == NormalizeSubreddit(NameSet({s})) == Some({s})
  {
    assert (set x | x in [s]) == {s};
  }
}
