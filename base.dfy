/** Option and Result values shared by every module, and the two kinds of
    exception the dataset code raises. */
module Base {

  datatype Option<+T> = None | Some(value: T)

  /** The errors of the dataset: `ValueError` for malformed range arguments
      and unparseable dates, `IOError` when no comments file is selected. */
  datatype Error = ValueError | IOError(dataDir: string)

  datatype Result<+T> = Ok(value: T) | Err(error: Error)

  /** Regrouping four concatenated sequences. */
  lemma Regroup<T>(a: seq<T>, b: seq<T>, c: seq<T>, d: seq<T>)
    ensures a + ((b + c) + d) == (a + b) + (c + d)
  {
  }

  /** The front and the last element of `a`, inside `a + b`. */
  lemma FrontOfAppend<T>(a: seq<T>, b: seq<T>)
    ensures (a + b)[..|a|] == a
    ensures |a| > 0 ==> (a + b)[|a| - 1] == a[|a| - 1]
  {
  }

  lemma AppendEmpty<T>(a: seq<T>)
    ensures [] + a == a && a + [] == a
  {
  }

  lemma AppendAssoc<T>(a: seq<T>, b: seq<T>, c: seq<T>)
    ensures (a + b) + c == a + (b + c)
  {
  }

  /** The first `j + 1` elements are the first `j` and element `j`. */
  lemma TakeSnoc<T>(s: seq<T>, j: nat)
    requires j < |s|
    ensures s[..j + 1] == s[..j] + [s[j]]
  {
  }

  /** The front and the last element of `a + b`, for a nonempty `b`. */
  lemma SnocOfAppend<T>(a: seq<T>, b: seq<T>)
    requires b != []
    ensures (a + b)[..|a + b| - 1] == a + b[..|b| - 1]
    ensures (a + b)[|a + b| - 1] == b[|b| - 1]
  {
  }

  /** `s` split before and after its element `i`. */
  lemma SplitAround<T>(s: seq<T>, i: nat)
    requires i < |s|
    ensures s[..i] + s[i..] == s
    ensures s[i..] == [s[i]] + s[i + 1..]
  {
  }

  lemma TakeDrop<T>(s: seq<T>, k: nat)
    requires k <= |s|
    ensures s[..k] + s[k..] == s
  {
  }

  lemma PrefixOfAppend<T>(a: seq<T>, b: seq<T>)
    ensures a <= a + b
  {
    assert (a + b)[..|a|] == a;
  }
}
