# Reddit comments stream, modelled in Dafny

A model of the logic of textacy's `RedditComments` dataset
(`textacy/datasets/reddit_comments.py`). The model proves properties of
that logic. It covers four parts of the class:

- **Range arguments.** `_parse_date_range` and `_parse_score_range` check
  that an argument is a two-item list or tuple. They replace a falsy
  endpoint by the archive's bounds: `2007-10-01`/`2015-06-01` for dates,
  ±2147483647 for scores (module `Ranges`).
- **Monthly file names.** `_generate_filenames` walks the months of a
  date range and emits `YYYY/RC_YYYY-MM.bz2` for each (module `Months`).
  The model includes `strptime` with the formats `%Y-%m` and `%Y-%m-%d`,
  and `strftime`. The loop keeps going while the next `YYYY-MM` text is
  below `end` in Python's string order (module `StrOrder`).
- **Comment cleaning.** `_clean_content` replaces Reddit link markup
  `[label](http(s)://url)` by its label. It then decodes `&gt;` and
  `&lt;`, deletes `` ` ``, `*` and `~`, and normalises whitespace
  (module `Cleaning`).
- **Filtered iteration.** `texts` and `records` call `_iterate`. It
  normalises the filters and selects the date range's files. It raises
  `IOError` when no file is selected. It then walks the files and their
  lines in order and applies these tests:
  - the subreddit is in the filter set;
  - the score is in `[low, high)`;
  - the converted timestamp is in `[start, end)`;
  - the cleaned body is at least `min_len` long.

  It yields cleaned texts or updated records until the counter reaches
  `limit` (module `CommentStream`). The properties of what it yields are
  in module `StreamProperties`.

The imperative parts are methods with loops. `GenerateFilenames` has a
`while` loop. `Iterate` has two nested loops over files and lines: the
methods `Scan` and `ScanLines`, with the body of the inner loop in
`Admit`. Each method is proved equal to a recursive specification
function: `Generate` for the file names, `Stream` for the iteration. The
properties are then proved about those functions. The records that
`_iterate` updates in place are new for each line, so they are datatype
values that the method updates field by field.

The comments files on disk are given as a `Dataset`: the data directory
and a sequence of paths, each with its lines. The library code the
iteration calls is a parameter, `Env`:

- Python's `int()` on a string;
- `datetime.utcfromtimestamp(...).strftime('%Y-%m-%dT%H:%M:%S')`;
- `normalize_whitespace`.

Where the code and its documentation disagree, the model follows the code:

- The docstrings of `texts` and `records` allow `date_range` items with a
  time of day (`YYYY-MM-DDTHH:mm:ss`). But `_generate_filenames` parses
  the start with `strptime`, which rejects such text. So a time-of-day
  start below the end raises `ValueError` (`Months.TimeOfDayRejected`).
  A start that is not below the end is never parsed: no file name is
  generated, no file is selected, and `_iterate` raises `IOError`.
- The docstrings describe `limit` as the largest number of items to
  yield, with -1 meaning all of them. That reading would make a `limit`
  of 0 yield nothing, or at least never stop early. Neither holds. The
  counter is compared with `limit` only after a yield, which never stops
  at 0, and after each file. That check ends the whole
  iteration after the first file when that file yielded nothing
  (`StreamProperties.ZeroLimitQuirk`). Every negative `limit`, not only
  -1, means "no limit".
- `os.path.join` is modelled as POSIX `posixpath.join`, not as plain
  concatenation with `/`. An absolute name replaces the directory, and no
  separator is added after a trailing `/`.

## Model

| member | source | states |
|---|---|---|
| Ranges.ParseDateRange | textacy/datasets/reddit_comments.py:139-151 | `ValueError` exactly when the argument is not a two-item list or tuple; otherwise a falsy start becomes `2007-10-01`, a falsy end becomes `2015-06-01`, truthy items are kept, and neither endpoint is empty |
| Ranges.ParseScoreRange | textacy/datasets/reddit_comments.py:153-165 | `ValueError` exactly when the argument is not a pair; otherwise a falsy low becomes -2147483647, a falsy high becomes 2147483647, other items are kept, and neither bound is 0 |
| Ranges.DateRangeNormalFormStable | textacy/datasets/reddit_comments.py:139-151 | normalising a normalised date range gives it back unchanged |
| Ranges.ScoreRangeNormalFormStable | textacy/datasets/reddit_comments.py:153-165 | normalising a normalised score range gives it back unchanged |
| Ranges.ZeroScoreBoundReplaced | textacy/datasets/reddit_comments.py:161-164 | a score bound of 0 is falsy, so it is replaced like an unset one: `(0, h)` becomes `(-2147483647, h)` and `(h, 0)` becomes `(h, 2147483647)` |
| StrOrder.Less | textacy/datasets/reddit_comments.py:174 | Python's `<` on strings: a string is never below itself or below `''`, and a proper prefix is below the longer string |
| StrOrder.LessProperPrefix | textacy/datasets/reddit_comments.py:174 | in Python's string order a proper prefix sorts before the longer string |
| StrOrder.LessTransitive | textacy/datasets/reddit_comments.py:174 | Python's string order is transitive |
| StrOrder.LessTotal | textacy/datasets/reddit_comments.py:174 | of two different strings, one is below the other |
| Months.ParseYearMonth | textacy/datasets/reddit_comments.py:176-177 | `strptime` with `%Y-%m` accepts only a text that is four year digits, `-` and the month written as `strftime` writes it (or, below October, as one digit), and the month is valid with a year from 1 to 9999 |
| Months.ParseYearMonthDay | textacy/datasets/reddit_comments.py:178-179 | `strptime` with `%Y-%m-%d` accepts only a text of 8 to 10 characters that begins with the four year digits and `-`, and the month is valid |
| Months.ParseMonth | textacy/datasets/reddit_comments.py:176-179 | the month of `start`, `%Y-%m` tried first and `%Y-%m-%d` second: when either accepts it, the text has 6 to 10 characters and begins with the year's four digits and `-`, and the month is valid |
| Months.Key | textacy/datasets/reddit_comments.py:187 | the `%Y-%m` text of a month has 7 characters, four year digits, `-` and a two-character month that `%m` reads back whole |
| Months.FileName | textacy/datasets/reddit_comments.py:180 | the archive name has 19 characters, begins with the year and holds the month's `YYYY-MM` key after `/RC_` |
| Months.Next | textacy/datasets/reddit_comments.py:182-186 | the next month is one calendar month later, December rolling over to January of the next year, and its month is 1 to 12 |
| Months.KeyRoundTrip | textacy/datasets/reddit_comments.py:177-187 | the `%Y-%m` text the loop produces for a month parses back to that month |
| Months.DayKeyParses | textacy/datasets/reddit_comments.py:176-179 | `YYYY-MM-DD` of an existing day fails `%Y-%m` and parses with `%Y-%m-%d` to its month |
| Months.TimeOfDayRejected | textacy/datasets/reddit_comments.py:176-179 | `YYYY-MM-DDT…` with a time of day matches neither format, so `ValueError` is raised |
| Months.KeyOrder | textacy/datasets/reddit_comments.py:187 | `YYYY-MM` keys are in string order exactly when their months are in calendar order |
| Months.FileNameOrder | textacy/datasets/reddit_comments.py:180 | archive file names are in string order exactly when their months are in calendar order |
| Months.KeyBelowExtendedKey | textacy/datasets/reddit_comments.py:174 | a key is below a longer text that begins with a key exactly when its month is not later |
| Months.Walk | textacy/datasets/reddit_comments.py:174-187 | the walk from a month either fails with `ValueError` or emits that month's file name first |
| Months.Generate | textacy/datasets/reddit_comments.py:167-188 | the only error the file-name walk raises is `ValueError` |
| Months.GenerateFilenames | textacy/datasets/reddit_comments.py:167-188 | the `while` loop returns the names of the walk, or raises `ValueError` where it does; the invariant is that the names so far, followed by the walk from the current text, are the walk from the start |
| Months.GenerateEmpty | textacy/datasets/reddit_comments.py:174 | no name is generated exactly when `start >= end` in string order |
| Months.GenerateShape | textacy/datasets/reddit_comments.py:172-188 | the names are the file names of consecutive months, the first being the month of `start` (`YYYY-MM` or `YYYY-MM-DD`); every emitted month's key is below `end`; the key of the month after the last is not |
| Months.GenerateIncreasing | textacy/datasets/reddit_comments.py:172-188 | the generated names are strictly increasing in string order |
| Months.GenerateSuccessive | textacy/datasets/reddit_comments.py:180-187 | each name after the first is the file of the calendar successor of the month before it |
| Months.GenerateFails | textacy/datasets/reddit_comments.py:174-187 | `ValueError` is raised exactly when `start < end` and either `start` parses in neither format or the walk must pass December 9999 |
| Months.WalkFails | textacy/datasets/reddit_comments.py:182-187 | the walk from a month fails exactly when it starts at December 9999 or when `"9999-12" < end` |
| Months.MonthEndExcluded | textacy/datasets/reddit_comments.py:174-187 | with both bounds written `YYYY-MM`, the names are those of every month from the start up to but excluding the end month |
| Months.DayEndIncluded | textacy/datasets/reddit_comments.py:174-187 | with the end written `YYYY-MM-DD` (any longer text beginning with a key), the end month itself is included |
| Cleaning.SplitAt | textacy/datasets/reddit_comments.py:46 | the text splits at the first occurrence of the stop character, or contains none |
| Cleaning.SchemeAt | textacy/datasets/reddit_comments.py:46 | `https?://` at the start of the text, with what follows it |
| Cleaning.LinkAt | textacy/datasets/reddit_comments.py:46 | a match of the link pattern at the start of the text is a well-formed link (nonempty label without `]`, nonempty url without `)`) followed by the rest of the text |
| Cleaning.LinkAtMarkup | textacy/datasets/reddit_comments.py:46 | every well-formed link is recognised, with exactly the text after it left over, whatever follows it |
| Cleaning.StripLinks | textacy/datasets/reddit_comments.py:323 | replacing links by their labels never lengthens the text |
| Cleaning.StripLinksMarkup | textacy/datasets/reddit_comments.py:323 | a link at the front is replaced by its label, and the rest is processed on its own |
| Cleaning.StripPlainPrefix | textacy/datasets/reddit_comments.py:323 | text without `[` passes through link stripping unchanged |
| Cleaning.StripNoBracket | textacy/datasets/reddit_comments.py:323 | a text with no `[` is unchanged by link stripping |
| Cleaning.StripLoneBracket | textacy/datasets/reddit_comments.py:323 | a `[` that starts no link is kept |
| Cleaning.ReplaceAbsent | textacy/datasets/reddit_comments.py:325-327 | `str.replace` leaves a text in which the pattern does not occur unchanged |
| Cleaning.ReplaceOccurs | textacy/datasets/reddit_comments.py:325-327 | a text in which the pattern occurs is shortened when the replacement is shorter than the pattern |
| Cleaning.Replace | textacy/datasets/reddit_comments.py:325-327 | `str.replace` never lengthens a text when the replacement is no longer than the pattern, and every character of its result comes from the text or the replacement |
| Cleaning.DeleteChar | textacy/datasets/reddit_comments.py:327 | deleting a character removes every copy of it and keeps every other character as often as it occurred |
| Cleaning.EntityDecoded | textacy/datasets/reddit_comments.py:325 | `&gt;` is decoded to `>` and `&lt;` to `<` |
| Cleaning.Prepare | textacy/datasets/reddit_comments.py:321-328 | the text handed to `normalize_whitespace` contains no `` ` ``, `*` or `~` and is never longer than the content |
| Cleaning.Clean | textacy/datasets/reddit_comments.py:321-329 | the cleaned body is `normalize_whitespace` applied to a text with no `` ` ``, `*` or `~` that is no longer than the content |
| Cleaning.PlainTextUntouched | textacy/datasets/reddit_comments.py:321-329 | a text with no link, entity or markup character reaches `normalize_whitespace` unchanged |
| Cleaning.LinkOnlyComment | textacy/datasets/reddit_comments.py:321-329 | a comment that is one link reaches `normalize_whitespace` as its label, when the label holds no entity or markup character |
| CommentStream.NormalizeSubreddit | textacy/datasets/reddit_comments.py:264-268 | a falsy `subreddit` turns the filter off; a string becomes a singleton set, a list or tuple the set of its items, a set itself; a filter in force is never empty |
| CommentStream.Join | textacy/datasets/reddit_comments.py:274 | `os.path.join` keeps an absolute name as it is, and otherwise the result begins with the directory; the result always ends with the name |
| CommentStream.Select | textacy/datasets/reddit_comments.py:276-278 | the selected files are exactly the dataset's files whose path is needed |
| CommentStream.ScoreFilter | textacy/datasets/reddit_comments.py:269-270 | `ValueError` exactly when `score_range` is truthy and not a pair; otherwise the filter is in force exactly when `score_range` is truthy, and it is the normalised range |
| CommentStream.DateFiles | textacy/datasets/reddit_comments.py:271-280 | `ValueError` exactly when `date_range` is truthy and either is not a pair or its file-name walk fails; otherwise a falsy `date_range` keeps every file, and a truthy one gives the normalised range and the dataset's files whose paths are joined generated names |
| CommentStream.MakePlan | textacy/datasets/reddit_comments.py:264-285 | the filters and files `_iterate` works with, or the error it raises first: `ValueError` exactly when a range argument is rejected, the score range checked first; otherwise `IOError` on the data directory exactly when no file is selected; the files of a plan are never empty and come from the dataset |
| CommentStream.ConvertTimestamp | textacy/datasets/reddit_comments.py:315-319 | a missing or null timestamp, or a string `int()` rejects, converts to `''`; a number, or the number `int()` reads from a string, converts to its UTC ISO text, or to `''` when the conversion fails |
| CommentStream.Passes | textacy/datasets/reddit_comments.py:291-300 | the four `continue` tests of a line: with no filter in force every line passes, and with a date filter in force a passing line's timestamp does not convert to `''` |
| CommentStream.InDateRange | textacy/datasets/reddit_comments.py:296 | `start <= created_utc < end` in string order: a range that admits a timestamp has its start below its end, and with a nonempty start the timestamp is nonempty |
| CommentStream.Yielded | textacy/datasets/reddit_comments.py:295-306 | text mode yields the cleaned body; record mode yields the comment with its body cleaned and both timestamps converted, everything else unchanged |
| CommentStream.Cap | textacy/datasets/reddit_comments.py:308-313 | a positive limit keeps the first `limit` items; any other limit keeps all of them |
| CommentStream.Emit | textacy/datasets/reddit_comments.py:288-306 | what the lines yield when `limit` does not stop the loops: at most one item per line (its items are characterised by `StreamProperties.EmitMembers` and `StreamProperties.EmitPrefix`) |
| CommentStream.Lines | textacy/datasets/reddit_comments.py:287-289 | the lines of the selected files, file after file: no file has more lines than all of them together |
| CommentStream.Stream | textacy/datasets/reddit_comments.py:258-313 | `_iterate` raises exactly when the plan fails, with the plan's error; otherwise it yields no more items than there are lines, and no more than a positive `limit` |
| CommentStream.Admit | textacy/datasets/reddit_comments.py:291-306 | the body of the inner loop for one line: the chain of `continue` tests and in-place updates yields exactly what the line's filters and mode determine |
| CommentStream.ScanLines | textacy/datasets/reddit_comments.py:289-310 | the inner loop extends the items by what the lines read yield; it stops on the line that brings the counter to a positive `limit`, and otherwise reads the whole file |
| CommentStream.Scan | textacy/datasets/reddit_comments.py:287-313 | the two loops yield the stream, capped at `limit`, with the `limit == 0` stop after an empty first file; no line after the `limit`-th yield is read, and with a negative `limit` every line is read |
| CommentStream.SetUp | textacy/datasets/reddit_comments.py:264-285 | the statements before the loops compute the plan or raise its error |
| CommentStream.Iterate | textacy/datasets/reddit_comments.py:258-313 | `_iterate` yields the stream or raises its error; what it yields is what the lines it read yield, the `limit`-th item comes from the last line read, and with no limit every line is read |
| CommentStream.Texts | textacy/datasets/reddit_comments.py:190-222 | `texts` yields the text-mode stream |
| CommentStream.Records | textacy/datasets/reddit_comments.py:224-256 | `records` yields the record-mode stream |
| StreamProperties.EmitMembers | textacy/datasets/reddit_comments.py:288-306 | an item is yielded by some lines exactly when one of them passes the filters and yields it |
| StreamProperties.FirstFileFirst | textacy/datasets/reddit_comments.py:287-289 | the lines of the first selected file are read before any other, which is what the `limit == 0` test after that file sees |
| StreamProperties.EmitPrefix | textacy/datasets/reddit_comments.py:288-306 | what a prefix of the lines yields is a prefix of what all of them yield |
| StreamProperties.StreamItemsPass | textacy/datasets/reddit_comments.py:264-306 | every item `texts` or `records` yields comes from a comment of one of the dataset's files that passes every filter in force |
| StreamProperties.StreamKeepsPassing | textacy/datasets/reddit_comments.py:287-306 | with no limit, every passing comment of the selected files is yielded |
| StreamProperties.RecordsSatisfyQuery | textacy/datasets/reddit_comments.py:264-306 | every record yielded has its subreddit in the set, its score in `[low, high)`, its converted timestamp in `[start, end)`, its cleaned body at least `min_len` long, and both timestamps converted; it is a comment of the dataset with those fields replaced |
| StreamProperties.TextsLongEnough | textacy/datasets/reddit_comments.py:298-303 | every text yielded is at least `min_len` long and is the cleaned body of a comment of the dataset |
| StreamProperties.UndatedCommentExcluded | textacy/datasets/reddit_comments.py:295-297 | with a date filter in force, a comment whose timestamp converts to `''` is never yielded |
| StreamProperties.TextsAreRecordBodies | textacy/datasets/reddit_comments.py:298-306 | `texts` raises exactly when `records` does, with the same error, and otherwise yields exactly the bodies of what `records` yields, in order |
| StreamProperties.LimitTakesPrefix | textacy/datasets/reddit_comments.py:308-313 | a positive limit yields the first `limit` items of the unlimited stream, or all of them if there are fewer, and raises exactly when it raises |
| StreamProperties.ZeroLimitQuirk | textacy/datasets/reddit_comments.py:308-313 | `limit == 0` yields the whole unlimited stream, except that nothing is yielded when the first selected file yields nothing |
| StreamProperties.DefaultsKeepAll | textacy/datasets/reddit_comments.py:190-191 | with every argument at its default, every line of every file is yielded, in order |
| StreamProperties.EmptyDatasetRaises | textacy/datasets/reddit_comments.py:269-285 | a dataset with no files raises on every query, and raises `IOError` on its directory whenever each range argument is falsy or accepted (a pair, with a date range whose file-name walk succeeds) |
| StreamProperties.MalformedScoreRangeRaises | textacy/datasets/reddit_comments.py:269-270 | a truthy score range that is not a pair raises `ValueError` before any file is looked at |
| StreamProperties.SelectAppend | textacy/datasets/reddit_comments.py:276-278 | selection keeps the dataset's order: selecting from two runs of files is selecting from each |
| StreamProperties.SelectedFiles | textacy/datasets/reddit_comments.py:271-280 | with a date range, a file is read exactly when it is one of the dataset's files and its path is the data directory joined with a generated name; generated names with no file are ignored |
| StreamProperties.SubredditForms | textacy/datasets/reddit_comments.py:264-268 | a string, a one-item list and a one-item set name the same subreddit filter |

## Left out

- `download` and `write_streaming_download_file` are left out: they do network and disk I/O. Their use of `_parse_date_range` and `_generate_filenames` is covered by the `Ranges` and `Months` members.
- The `filenames` property (`os.path.exists`, `get_filenames`, sorting) is left out: it scans directories. The dataset's files are a given sequence, in the order the property lists them.
- `read_json_lines` (bz2 decompression and JSON parsing) is left out. Each file is a given sequence of comments, and read errors are not modelled.
- CommentStream.Comment: models only the fields `_iterate` reads or writes (`body`, `subreddit`, `score`, `created_utc`, `retrieved_on`). Other fields pass through unchanged. A `KeyError` from a missing `subreddit`, `score` or `body`, and a `TypeError` from a non-integer score, are not modelled.
- CommentStream.ConvertTimestamp: `int()` on a string and `utcfromtimestamp(...).strftime(...)` are library code, so they are parameters of `Env`. The model captures their `''` fallback on `ValueError` and `TypeError`, but not an `OverflowError` or `OSError`, which the source does not catch and which would propagate.
- Cleaning.Clean: `normalize_whitespace` is a parameter, and nothing is claimed about whitespace.
- Months.YearField, Months.MonthField, Months.DayField: accept only ASCII digits, whereas `strptime`'s `\d` also accepts other Unicode decimal digits.
- Months.FileName: writes `%Y` as four zero-padded digits; glibc's `strftime` writes years below 1000 without padding.
- Ranges.ParseDateRange: date endpoints are strings or falsy values; truthy non-string endpoints, which would raise `TypeError` in the comparisons, are not modelled.
- Ranges.ParseScoreRange: score endpoints are integers or falsy values; floats and other numbers are not modelled.
- CommentStream.NormalizeSubreddit: a truthy `subreddit` of another type (such as a dict), which the source keeps as it is, is not modelled.
- CommentStream.Iterate: the generator is modelled as the finite sequence it produces. Laziness is not modelled. Neither is the fact that an error is raised at the first `next()` rather than at the call, nor consumption of a prefix by the caller.
- Logging, the `Dataset` base class and `info` are left out: they hold no logic.
