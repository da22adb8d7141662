/**
 * Cleaning a comment body, as `_clean_content` does: Reddit link markup
 * `[label](http://url)` is replaced by its label, the HTML entities `&gt;`
 * and `&lt;` are decoded, the text-markup characters `` ` ``, `*` and `~`
 * are deleted, and whitespace is normalised by a function outside this
 * model, passed in as a parameter.
 */
module Cleaning {
  import opened Base

  /** Length of the longest prefix of `s` that does not contain `stop`. */
  function RunUntil(s: string, stop: char): (n: nat)
    ensures n <= |s|
    ensures forall i :: 0 <= i < n ==> s[i] != stop
    ensures n < |s| ==> s[n] == stop
    decreases |s|
  {
    if |s| == 0 || s[0] == stop then 0 else 1 + RunUntil(s[1..], stop)
  }

  /** A link in Reddit markup: `[text](https://url)` or `[text](http://url)`. */
  datatype Link = Link(text: string, secure: bool, url: string)

  function Scheme(secure: bool): string
  {
    if secure then "https://" else "http://"
  }

  /** The text of a link as it appears in a comment. */
  function Markup(l: Link): string
  {
    "[" + l.text + "](" + Scheme(l.secure) + l.url + ")"
  }

  /** What the pattern `\[([^]]+)\]\(https?://[^\)]+\)` accepts: a nonempty
      label without `]` and a nonempty url without `)`. */
  predicate WellFormed(l: Link)
  {
    |l.text| > 0 && ']' !in l.text && |l.url| > 0 && ')' !in l.url
  }

  /** The text before the first `stop` and what follows that `stop`, or
      `None` when `stop` does not occur. */
  function SplitAt(s: string, stop: char): (r: Option<(string, string)>)
    ensures r.Some? ==> stop !in r.value.0 && s == r.value.0 + ([stop] + r.value.1)
    ensures r.None? ==> stop !in s
  {
    var n := RunUntil(s, stop);
    if n == |s| then None
    else
      assert s == s[..n] + ([s[n]] + s[n + 1..]);
      Some((s[..n], s[n + 1..]))
  }

  /** The scheme `https?://` at the start of `s` and what follows it: `s?`
      is greedy, so `https://` is tried before `http://`. */
  function SchemeAt(s: string): (r: Option<(bool, string)>)
    ensures r.Some? ==> s == Scheme(r.value.0) + r.value.1
  {
    if |s| >= 8 && s[..8] == "https://" then
      assert s == s[..8] + s[8..];
      Some((true, s[8..]))
    else if |s| >= 7 && s[..7] == "http://" then
      assert s == s[..7] + s[7..];
      Some((false, s[7..]))
    else None
  }

  /** The link pattern matched at the start of `s`, with the text after the
      match, if the pattern matches there. Neither class in the pattern
      includes the character that follows it, so backtracking cannot help:
      the label runs to the first `]` and the url to the first `)`. */
  function LinkAt(s: string): (r: Option<(Link, string)>)
    ensures r.Some? ==> WellFormed(r.value.0) && s == Markup(r.value.0) + r.value.1
  {
    if |s| == 0 || s[0] != '[' then None
    else
      match SplitAt(s[1..], ']')
      case None => None
      case Some((text, t)) =>
        if |text| == 0 || |t| == 0 || t[0] != '(' then None
        else
          match SchemeAt(t[1..])
          case None => None
          case Some((secure, v)) =>
            match SplitAt(v, ')')
            case None => None
            case Some((url, rest)) =>
              if |url| == 0 then None
              else
                var l := Link(text, secure, url);
                assert t == "(" + t[1..];
                assert s == "[" + s[1..];
                MarkupJoin(l, rest);
                Some((l, rest))
  }

  /** `Markup(l) + rest`, regrouped from the right. */
  lemma MarkupJoin(l: Link, rest: string)
    ensures Markup(l) + rest
      == "[" + (l.text + ("]" + ("(" + (Scheme(l.secure) + (l.url + ([')'] + rest))))))
  {
    assert "](" == "]" + "(";
  }

  /** `REDDIT_LINK_RE.sub(r'\1', s)`: every link, found left to right
      without overlap, is replaced by its label. */
  function StripLinks(s: string): (r: string)
    ensures |r| <= |s|
    decreases |s|
  {
    if |s| == 0 then ""
    else
      match LinkAt(s)
      case Some((l, rest)) => l.text + StripLinks(rest)
      case None => [s[0]] + StripLinks(s[1..])
  }

  /** `s.replace(pat, rep)`: occurrences of `pat`, found left to right
      without overlap, are replaced by `rep`. */
  function Replace(s: string, pat: string, rep: string): (r: string)
    requires |pat| > 0
    ensures |rep| <= |pat| ==> |r| <= |s|
    ensures forall x :: x in r ==> x in s || x in rep
    decreases |s|
  {
    if |s| == 0 then ""
    else if pat <= s then rep + Replace(s[|pat|..], pat, rep)
    else [s[0]] + Replace(s[1..], pat, rep)
  }

  /** `pat` occurs somewhere in `s`. */
  predicate Occurs(s: string, pat: string)
    decreases |s|
  {
    pat <= s || (|s| > 0 && Occurs(s[1..], pat))
  }

  /** The cleaning steps before whitespace normalisation: the result
      holds no markup character and is never longer than the content. */
  function Prepare(content: string): (r: string)
    ensures '`' !in r && '*' !in r && '~' !in r
    ensures |r| <= |content|
  {
    var noLinks := StripLinks(content);
    var decoded := Replace(Replace(noLinks, "&gt;", ">"), "&lt;", "<");
    var s1 := Replace(decoded, "`", "");
    var s2 := Replace(s1, "*", "");
    DeleteChar(decoded, '`');
    DeleteChar(s1, '*');
    DeleteChar(s2, '~');
    Replace(s2, "~", "")
  }

  /** `_clean_content`, with `normalize_whitespace` as a parameter: the
      normalisation sees the content with its links, entities and markup
      characters dealt with. */
  function Clean(content: string, normalize: string -> string): (r: string)
    ensures exists t :: r == normalize(t) && '`' !in t && '*' !in t && '~' !in t && |t| <= |content|
  {
    normalize(Prepare(content))
  }

  // ----- Links -----

  /** `SplitAt` finds the first `stop`. */
  lemma SplitAtJoin(p: string, q: string, stop: char)
    requires stop !in p
    ensures SplitAt(p + ([stop] + q), stop) == Some((p, q))
  {
    var s := p + ([stop] + q);
    RunUntilStops(p, [stop] + q, stop);
    assert s[..|p|] == p;
    assert s[|p| + 1..] == q;
  }

  lemma SchemeAtScheme(secure: bool, rest: string)
    ensures SchemeAt(Scheme(secure) + rest) == Some((secure, rest))
  {
    var s := Scheme(secure) + rest;
    if secure {
      assert s[..8] == "https://";
      assert s[8..] == rest;
    } else {
      assert s[4] == ':';
      assert s[..7] == "http://";
      assert s[7..] == rest;
    }
  }

  /** Every well-formed link is recognised, whatever follows it. */
  lemma LinkAtMarkup(l: Link, rest: string)
    requires WellFormed(l)
    ensures LinkAt(Markup(l) + rest) == Some((l, rest))
  {
    var v := l.url + ([')'] + rest);
    var w := Scheme(l.secure) + v;
    var t := "(" + w;
    var s := "[" + (l.text + ("]" + t));
    MarkupJoin(l, rest);
    assert Markup(l) + rest == s;
    assert s[1..] == l.text + ("]" + t);
    SplitAtJoin(l.text, t, ']');
    assert t[1..] == w;
    SchemeAtScheme(l.secure, v);
    SplitAtJoin(l.url, rest, ')');
  }

  /** `RunUntil` stops at the end of a prefix free of `stop` when `stop`
      comes next. */
  lemma {:induction false} RunUntilStops(p: string, q: string, stop: char)
    requires stop !in p && |q| > 0 && q[0] == stop
    ensures RunUntil(p + q, stop) == |p|
    decreases |p|
  {
    if |p| > 0 {
      assert (p + q)[1..] == p[1..] + q;
      RunUntilStops(p[1..], q, stop);
    }
  }

  /** A link is replaced by its label. */
  lemma StripLinksMarkup(l: Link, rest: string)
    requires WellFormed(l)
    ensures StripLinks(Markup(l) + rest) == l.text + StripLinks(rest)
  {
    LinkAtMarkup(l, rest);
  }

  /** Text without `[` passes through link stripping unchanged. */
  lemma {:induction false} StripPlainPrefix(a: string, b: string)
    requires '[' !in a
    ensures StripLinks(a + b) == a + StripLinks(b)
    decreases |a|
  {
    if |a| > 0 {
      assert (a + b)[0] == a[0];
      assert (a + b)[1..] == a[1..] + b;
      StripPlainChar(a + b);
      StripPlainPrefix(a[1..], b);
      assert a == [a[0]] + a[1..];
    } else {
      assert a + b == b;
    }
  }

  /** A character other than `[` is copied. */
  lemma StripPlainChar(s: string)
    requires |s| > 0 && s[0] != '['
    ensures StripLinks(s) == [s[0]] + StripLinks(s[1..])
  {
    assert LinkAt(s).None?;
  }

  lemma StripNoBracket(s: string)
    requires '[' !in s
    ensures StripLinks(s) == s
  {
    StripPlainPrefix(s, "");
    assert s + "" == s;
  }

  /** A `[` that starts no link is kept. */
  lemma StripLoneBracket(s: string)
    requires |s| > 0 && s[0] == '[' && LinkAt(s).None?
    ensures StripLinks(s) == "[" + StripLinks(s[1..])
  {
  }

  // ----- Replacement -----

  /** Text in which `pat` does not occur is unchanged. */
  lemma {:induction false} ReplaceAbsent(s: string, pat: string, rep: string)
    requires |pat| > 0 && !Occurs(s, pat)
    ensures Replace(s, pat, rep) == s
    decreases |s|
  {
    if |s| > 0 {
      ReplaceAbsent(s[1..], pat, rep);
      assert s == [s[0]] + s[1..];
    }
  }

  /** Text in which `pat` occurs is changed, and is shortened when the
      replacement is shorter than the pattern. */
  lemma {:induction false} ReplaceOccurs(s: string, pat: string, rep: string)
    requires |pat| > 0 && |rep| < |pat| && Occurs(s, pat)
    ensures |Replace(s, pat, rep)| < |s|
    decreases |s|
  {
    if !(pat <= s) {
      ReplaceOccurs(s[1..], pat, rep);
    }
  }

  /** Text that lacks the first character of `pat` passes through
      unchanged, and the rest is replaced on its own. */
  lemma {:induction false} ReplacePlainPrefix(a: string, b: string, pat: string, rep: string)
    requires |pat| > 0 && pat[0] !in a
    ensures Replace(a + b, pat, rep) == a + Replace(b, pat, rep)
    decreases |a|
  {
    if |a| > 0 {
      assert (a + b)[0] == a[0];
      assert !(pat <= a + b);
      assert (a + b)[1..] == a[1..] + b;
      ReplacePlainPrefix(a[1..], b, pat, rep);
      assert a == [a[0]] + a[1..];
    } else {
      assert a + b == b;
    }
  }

  /** Deleting a character removes every copy of it and keeps every other
      character as often as it occurs. */
  lemma {:induction false} DeleteChar(s: string, c: char)
    ensures c !in Replace(s, [c], "")
    ensures forall x :: x != c ==> multiset(Replace(s, [c], ""))[x] == multiset(s)[x]
    decreases |s|
  {
    if |s| > 0 {
      DeleteChar(s[1..], c);
      assert s == [s[0]] + s[1..];
      assert multiset(s) == multiset([s[0]]) + multiset(s[1..]);
      if s[0] != c {
        assert Replace(s, [c], "") == [s[0]] + Replace(s[1..], [c], "");
      }
    }
  }

  // ----- The whole cleaning -----

  /** A text with no link, entity or markup character is left as it is. */
  lemma PlainTextUntouched(content: string)
    requires '[' !in content && '&' !in content
    requires '`' !in content && '*' !in content && '~' !in content
    ensures Prepare(content) == content
  {
    StripNoBracket(content);
    ReplaceUnchanged(content, "&gt;", ">");
    ReplaceUnchanged(content, "&lt;", "<");
    ReplaceUnchanged(content, "`", "");
    ReplaceUnchanged(content, "*", "");
    ReplaceUnchanged(content, "~", "");
  }

  lemma ReplaceUnchanged(s: string, pat: string, rep: string)
    requires |pat| > 0 && pat[0] !in s
    ensures Replace(s, pat, rep) == s
  {
    ReplacePlainPrefix(s, "", pat, rep);
    assert s + "" == s;
  }

  /** An entity at the start of a text is decoded. */
  lemma EntityDecoded(rest: string)
    ensures Replace("&gt;" + rest, "&gt;", ">") == ">" + Replace(rest, "&gt;", ">")
    ensures Replace("&lt;" + rest, "&lt;", "<") == "<" + Replace(rest, "&lt;", "<")
  {
    assert ("&gt;" + rest)[4..] == rest;
    assert ("&lt;" + rest)[4..] == rest;
  }

  /** A comment consisting of one link is cleaned to its label, when the
      label itself holds no entity or markup character. */
  lemma LinkOnlyComment(l: Link)
    requires WellFormed(l)
    requires '&' !in l.text && '`' !in l.text && '*' !in l.text && '~' !in l.text
    ensures Prepare(Markup(l)) == l.text
  {
    StripLinksMarkup(l, "");
    assert Markup(l) + "" == Markup(l);
    assert StripLinks(Markup(l)) == l.text + "";
    assert l.text + "" == l.text;
    ReplaceUnchanged(l.text, "&gt;", ">");
    ReplaceUnchanged(l.text, "&lt;", "<");
    ReplaceUnchanged(l.text, "`", "");
    ReplaceUnchanged(l.text, "*", "");
    ReplaceUnchanged(l.text, "~", "");
  }
}
