/** Python's `<` on `str`: lexicographic order on code points, a proper
    prefix sorting first. Dafny's own `<` on sequences means "proper prefix",
    so the order is defined here. */
module StrOrder {

  predicate Less(a: string, b: string)
    ensures Less(a, b) ==> a != b && |b| > 0
    ensures |a| < |b| && a == b[..|a|] ==> Less(a, b)
    decreases |a|
  {
    if |b| == 0 then false
    else if |a| == 0 then true
    else if a[0] != b[0] then a[0] < b[0]
    else Less(a[1..], b[1..])
  }

  /** Python's `<=` on `str`. */
  predicate LessEq(a: string, b: string)
  {
    a == b || Less(a, b)
  }

  lemma {:induction false} LessIrreflexive(a: string)
    ensures !Less(a, a)
    decreases |a|
  {
    if |a| > 0 { LessIrreflexive(a[1..]); }
  }

  lemma {:induction false} LessTotal(a: string, b: string)
    requires a != b
    ensures Less(a, b) || Less(b, a)
    decreases |a|
  {
    if |a| > 0 && |b| > 0 && a[0] == b[0] {
      assert a == [a[0]] + a[1..] && b == [b[0]] + b[1..];
      LessTotal(a[1..], b[1..]);
    }
  }

  lemma {:induction false} LessTransitive(a: string, b: string, c: string)
    requires Less(a, b) && Less(b, c)
    ensures Less(a, c)
    decreases |a|
  {
    if |a| > 0 && a[0] == b[0] && b[0] == c[0] {
      LessTransitive(a[1..], b[1..], c[1..]);
    }
  }

  lemma LessEqLessTransitive(a: string, b: string, c: string)
    ensures LessEq(a, b) && Less(b, c) ==> Less(a, c)
  {
    if a != b && Less(a, b) && Less(b, c) { LessTransitive(a, b, c); }
  }

  /** A common prefix does not decide the order. */
  lemma {:induction false} LessCommonPrefix(p: string, s: string, t: string)
    ensures Less(p + s, p + t) == Less(s, t)
    decreases |p|
  {
    if |p| > 0 {
      assert (p + s)[1..] == p[1..] + s;
      assert (p + t)[1..] == p[1..] + t;
      LessCommonPrefix(p[1..], s, t);
    } else {
      assert p + s == s && p + t == t;
    }
  }

  /** Two different strings of the same length decide the order of anything
      they begin. */
  lemma {:induction false} LessSameLength(x: string, y: string, s: string, t: string)
    requires |x| == |y| && x != y
    ensures Less(x + s, y + t) == Less(x, y)
    decreases |x|
  {
    if x[0] == y[0] {
      assert x[1..] != y[1..] by { assert x == [x[0]] + x[1..] && y == [y[0]] + y[1..]; }
      assert (x + s)[1..] == x[1..] + s;
      assert (y + t)[1..] == y[1..] + t;
      LessSameLength(x[1..], y[1..], s, t);
    }
  }

  /** A proper prefix sorts first. */
  lemma {:induction false} LessProperPrefix(x: string, t: string)
    requires |t| > 0
    ensures Less(x, x + t)
    decreases |x|
  {
    if |x| > 0 {
      assert (x + t)[1..] == x[1..] + t;
      LessProperPrefix(x[1..], t);
    }
  }

  /** A prefix of a string below `e` is below `e` too. */
  lemma {:induction false} PrefixLess(s: string, k: nat, e: string)
    requires k <= |s| && Less(s, e)
    ensures Less(s[..k], e)
    decreases |s|
  {
    if k > 0 && s[0] == e[0] {
      assert s[..k][1..] == s[1..][..k - 1];
      PrefixLess(s[1..], k - 1, e[1..]);
    }
  }
}
