/** The few functions of Go's `strings` package that the modelled code is built on. */
module GoStrings {

  /** `sub` occurs in `s` at offset `i`. */
  predicate At<T(==)>(s: seq<T>, sub: seq<T>, i: int) {
    0 <= i <= |s| - |sub| && s[i..i + |sub|] == sub
  }

  /** strings.Index on `s[from..]`, reported as an offset into `s`: the leftmost occurrence, or -1. */
  function IndexFrom<T(==)>(s: seq<T>, sub: seq<T>, from: nat): (r: int)
    ensures r == -1 || (from <= r && At(s, sub, r))
    ensures forall k {:trigger At(s, sub, k)} :: from <= k && At(s, sub, k) ==> r != -1 && r <= k
    decreases |s| - from
  {
    if |s| - from < |sub| then -1
    else if s[from..from + |sub|] == sub then from
    else if from == |s| then -1
    else IndexFrom(s, sub, from + 1)
  }

  function Index<T(==)>(s: seq<T>, sub: seq<T>): (r: int)
    ensures r == -1 || At(s, sub, r)
    ensures forall k {:trigger At(s, sub, k)} :: At(s, sub, k) ==> r != -1 && r <= k
  {
    IndexFrom(s, sub, 0)
  }

  predicate Contains<T(==)>(s: seq<T>, sub: seq<T>) {
    Index(s, sub) != -1
  }

  /** Offset of the first `sep` in `s`, or the length of `s`. */
  function FirstOf<T(==)>(s: seq<T>, sep: T): (i: nat)
    ensures i <= |s|
    ensures sep !in s[..i]
    ensures i < |s| ==> s[i] == sep
  {
    if s == [] || s[0] == sep then 0
    else
      var i := FirstOf(s[1..], sep) + 1;
      assert s[..i] == [s[0]] + s[1..][..i - 1];
      i
  }

  /** strings.SplitN for a one-element separator and a positive number of parts. */
  function SplitN<T(==)>(s: seq<T>, sep: T, n: nat): (parts: seq<seq<T>>)
    requires n != 0
    ensures 1 <= |parts| <= n
    decreases n
  {
    var i := FirstOf(s, sep);
    if i == |s| || n == 1 then [s] else [s[..i]] + SplitN(s[i + 1..], sep, n - 1)
  }

  /** strings.Split for a one-element separator. */
  function Split<T(==)>(s: seq<T>, sep: T): (parts: seq<seq<T>>)
    ensures |parts| >= 1
    decreases |s|
  {
    var i := FirstOf(s, sep);
    if i == |s| then [s] else [s[..i]] + Split(s[i + 1..], sep)
  }

  /** strings.Join for a one-element separator. */
  function Join<T>(parts: seq<seq<T>>, sep: T): seq<T>
    requires |parts| >= 1
  {
    if |parts| == 1 then parts[0] else parts[0] + [sep] + Join(parts[1..], sep)
  }

  /** The first separator is where a separator-free prefix ends. */
  lemma {:induction false} FirstOfAppend<T>(a: seq<T>, sep: T, b: seq<T>)
    requires sep !in a
    ensures FirstOf(a + [sep] + b, sep) == |a|
    ensures FirstOf(a, sep) == |a|
  {
    hide FirstOf;
    var s := a + [sep] + b;
    assert s[|a|] == sep;
    forall k | 0 <= k < FirstOf(s, sep) ensures s[k] != sep {
      assert s[k] in s[..FirstOf(s, sep)];
    }
    forall k | 0 <= k < |a| ensures s[k] != sep {
      assert s[k] == a[k];
    }
  }

  lemma {:induction false} SplitRule<T>(a: seq<T>, sep: T, b: seq<T>)
    requires sep !in a
    ensures Split(a + [sep] + b, sep) == [a] + Split(b, sep)
    ensures Split(a, sep) == [a]
  {
    FirstOfAppend(a, sep, b);
    assert (a + [sep] + b)[..|a|] == a && (a + [sep] + b)[|a| + 1..] == b;
  }

  lemma {:induction false} SplitNRule<T>(a: seq<T>, sep: T, b: seq<T>, n: nat)
    requires sep !in a && n >= 2
    ensures SplitN(a + [sep] + b, sep, n) == [a] + SplitN(b, sep, n - 1)
  {
    FirstOfAppend(a, sep, b);
    assert (a + [sep] + b)[..|a|] == a && (a + [sep] + b)[|a| + 1..] == b;
  }

  lemma {:induction false} SplitNOne<T>(s: seq<T>, sep: T)
    ensures SplitN(s, sep, 1) == [s]
  {
  }

  /** Splitting undoes one more separator-free part at the end. */
  lemma {:induction false} SplitAppend<T>(s: seq<T>, sep: T, part: seq<T>)
    requires sep !in part
    ensures Split(s + [sep] + part, sep) == Split(s, sep) + [part]
    decreases |s|
  {
    hide Split, FirstOf;
    var i := FirstOf(s, sep);
    SplitRule(part, sep, []);
    if i == |s| {
      assert s[..i] == s;
      SplitRule(s, sep, part);
    } else {
      var first, rest := s[..i], s[i + 1..];
      SplitRule(first, sep, rest + [sep] + part);
      SplitRule(first, sep, rest);
      assert s == first + [sep] + rest;
      assert s + [sep] + part == first + [sep] + (rest + [sep] + part);
      SplitAppend(rest, sep, part);
      assert [first] + (Split(rest, sep) + [part]) == ([first] + Split(rest, sep)) + [part];
    }
  }

  lemma {:induction false} JoinSplit<T>(s: seq<T>, sep: T)
    ensures Join(Split(s, sep), sep) == s
    decreases |s|
  {
    hide Split, FirstOf;
    var i := FirstOf(s, sep);
    if i == |s| {
      assert s[..i] == s;
      SplitRule(s, sep, []);
    } else {
      JoinSplit(s[i + 1..], sep);
      SplitRule(s[..i], sep, s[i + 1..]);
      assert s == s[..i] + [sep] + s[i + 1..];
      assert ([s[..i]] + Split(s[i + 1..], sep))[1..] == Split(s[i + 1..], sep);
    }
  }
}
