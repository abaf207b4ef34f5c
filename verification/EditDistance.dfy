/**
 The edit distance behind the fuzzy matcher (`levenshtein` in pkg/strmatch/strmatch.go).

 `Cell` is the full dynamic-programming table, `Levenshtein` is the loop that keeps only two rows
 of it and swaps them.  The independent reference is a rewriting system: an `Edit` inserts, deletes
 or substitutes one rune anywhere in the text, and the distance is shown to be the length of the
 shortest sequence of edits.
 */
module EditDistance {

  type Rune = int

  function Min3(a: int, b: int, c: int): int {
    var m := if b < a then b else a;
    if c < m then c else m
  }

  function Cost(x: Rune, y: Rune): nat {
    if x == y then 0 else 1
  }

  /** Entry (i, j) of the table: the first i runes of `a` against the first j runes of `b`. */
  function Cell(a: seq<Rune>, b: seq<Rune>, i: nat, j: nat): nat
    requires i <= |a| && j <= |b|
  {
    if i == 0 then j
    else if j == 0 then i
    else Min3(Cell(a, b, i - 1, j) + 1,
              Cell(a, b, i, j - 1) + 1,
              Cell(a, b, i - 1, j - 1) + Cost(a[i - 1], b[j - 1]))
  }

  function Distance(a: seq<Rune>, b: seq<Rune>): nat {
    Cell(a, b, |a|, |b|)
  }

  /** One unfolding of the table, for proofs that hide its definition. */
  lemma {:induction false} CellRule(a: seq<Rune>, b: seq<Rune>, i: nat, j: nat)
    requires i <= |a| && j <= |b|
    ensures i == 0 ==> Cell(a, b, i, j) == j
    ensures j == 0 ==> Cell(a, b, i, j) == i
    ensures i != 0 && j != 0 ==>
              Cell(a, b, i, j) == Min3(Cell(a, b, i - 1, j) + 1,
                                       Cell(a, b, i, j - 1) + 1,
                                       Cell(a, b, i - 1, j - 1) + Cost(a[i - 1], b[j - 1]))
  {
  }

  // ---------- the two-row loop ----------

  method Levenshtein(ra: seq<Rune>, rb: seq<Rune>) returns (d: int)
    ensures d == Distance(ra, rb)
  {
    hide Cell;
    CellRule(ra, rb, |ra|, |rb|);
    if |ra| == 0 {
      return |rb|;
    }
    if |rb| == 0 {
      return |ra|;
    }
    var prev := new int[|rb| + 1](j => j);
    forall j | 0 <= j <= |rb| ensures Cell(ra, rb, 0, j) == j {
      CellRule(ra, rb, 0, j);
    }
    var curr := new int[|rb| + 1];
    for i := 1 to |ra| + 1
      invariant prev != curr && prev.Length == |rb| + 1 == curr.Length
      invariant fresh(prev) && fresh(curr)
      invariant forall j :: 0 <= j <= |rb| ==> prev[j] == Cell(ra, rb, i - 1, j)
    {
      curr[0] := i;
      CellRule(ra, rb, i, 0);
      for j := 1 to |rb| + 1
        modifies curr
        invariant forall k :: 0 <= k < j ==> curr[k] == Cell(ra, rb, i, k)
      {
        var cost := 1;
        if ra[i - 1] == rb[j - 1] {
          cost := 0;
        }
        CellRule(ra, rb, i, j);
        curr[j] := Min3(prev[j] + 1, curr[j - 1] + 1, prev[j - 1] + cost);
      }
      prev, curr := curr, prev;
    }
    return prev[|rb|];
  }

  // ---------- the distance is a metric ----------

  lemma {:induction false} CellBounds(a: seq<Rune>, b: seq<Rune>, i: nat, j: nat)
    requires i <= |a| && j <= |b|
    ensures Cell(a, b, i, j) <= if i < j then j else i
    ensures i - j <= Cell(a, b, i, j) && j - i <= Cell(a, b, i, j)
  {
    hide Cell;
    CellRule(a, b, i, j);
    if i != 0 && j != 0 {
      CellBounds(a, b, i - 1, j);
      CellBounds(a, b, i, j - 1);
      CellBounds(a, b, i - 1, j - 1);
    }
  }

  lemma {:induction false} CellZero(a: seq<Rune>, b: seq<Rune>, i: nat, j: nat)
    requires i <= |a| && j <= |b|
    ensures Cell(a, b, i, j) == 0 <==> a[..i] == b[..j]
  {
    if i != 0 && j != 0 {
      CellZero(a, b, i - 1, j - 1);
      assert a[..i] == a[..i - 1] + [a[i - 1]] && b[..j] == b[..j - 1] + [b[j - 1]];
    }
  }

  lemma {:induction false} CellSymmetric(a: seq<Rune>, b: seq<Rune>, i: nat, j: nat)
    requires i <= |a| && j <= |b|
    ensures Cell(a, b, i, j) == Cell(b, a, j, i)
  {
    hide Cell;
    CellRule(a, b, i, j);
    CellRule(b, a, j, i);
    if i != 0 && j != 0 {
      CellSymmetric(a, b, i - 1, j);
      CellSymmetric(a, b, i, j - 1);
      CellSymmetric(a, b, i - 1, j - 1);
    }
  }

  lemma {:induction false} CellTriangle(a: seq<Rune>, b: seq<Rune>, c: seq<Rune>, i: nat, j: nat, k: nat)
    requires i <= |a| && j <= |b| && k <= |c|
    ensures Cell(a, c, i, k) <= Cell(a, b, i, j) + Cell(b, c, j, k)
    decreases i + j + k
  {
    hide Cell;
    CellRule(a, c, i, k);
    CellRule(a, b, i, j);
    CellRule(b, c, j, k);
    if i == 0 || j == 0 || k == 0 {
      CellBounds(a, c, i, k);
      CellBounds(a, b, i, j);
      CellBounds(b, c, j, k);
    } else {
      CellTriangle(a, b, c, i - 1, j, k);
      CellTriangle(a, b, c, i, j, k - 1);
      CellTriangle(a, b, c, i, j - 1, k);
      CellTriangle(a, b, c, i, j - 1, k - 1);
      CellTriangle(a, b, c, i - 1, j - 1, k);
      CellTriangle(a, b, c, i - 1, j - 1, k - 1);
    }
  }

  /** `Distance` is a metric and never exceeds the longer length. */
  lemma {:induction false} DistanceIsMetric(a: seq<Rune>, b: seq<Rune>, c: seq<Rune>)
    ensures Distance(a, b) == 0 <==> a == b
    ensures Distance(a, b) == Distance(b, a)
    ensures Distance(a, c) <= Distance(a, b) + Distance(b, c)
    ensures Distance(a, b) <= if |a| < |b| then |b| else |a|
  {
    CellZero(a, b, |a|, |b|);
    assert a[..|a|] == a && b[..|b|] == b;
    CellSymmetric(a, b, |a|, |b|);
    CellTriangle(a, b, c, |a|, |b|, |c|);
    CellBounds(a, b, |a|, |b|);
  }

  // ---------- optimality over all edit sequences ----------

  datatype Edit = Insert(at: nat, rune: Rune) | Delete(at: nat) | Substitute(at: nat, rune: Rune)

  predicate Applicable(e: Edit, s: seq<Rune>) {
    if e.Insert? then e.at <= |s| else e.at < |s|
  }

  function Apply(e: Edit, s: seq<Rune>): seq<Rune>
    requires Applicable(e, s)
  {
    match e
    case Insert(at, r) => s[..at] + [r] + s[at..]
    case Delete(at) => s[..at] + s[at + 1..]
    case Substitute(at, r) => s[..at] + [r] + s[at + 1..]
  }

  /** `edits`, applied one after the other, turn `a` into `b`. */
  predicate Rewrites(edits: seq<Edit>, a: seq<Rune>, b: seq<Rune>) {
    if edits == [] then a == b
    else Applicable(edits[0], a) && Rewrites(edits[1..], Apply(edits[0], a), b)
  }

  /** A table entry only depends on the prefixes it speaks about. */
  lemma {:induction false} CellLocal(a: seq<Rune>, b: seq<Rune>, a': seq<Rune>, b': seq<Rune>, i: nat, j: nat)
    requires i <= |a| && j <= |b| && i <= |a'| && j <= |b'|
    requires a[..i] == a'[..i] && b[..j] == b'[..j]
    ensures Cell(a, b, i, j) == Cell(a', b', i, j)
  {
    if i != 0 && j != 0 {
      assert a[i - 1] == a[..i][i - 1] == a'[i - 1] && b[j - 1] == b[..j][j - 1] == b'[j - 1];
      assert a[..i - 1] == a[..i][..i - 1] == a'[..i - 1] && b[..j - 1] == b[..j][..j - 1] == b'[..j - 1];
      CellLocal(a, b, a', b', i - 1, j);
      CellLocal(a, b, a', b', i, j - 1);
      CellLocal(a, b, a', b', i - 1, j - 1);
    }
  }

  /** Along a common suffix the diagonal is free. */
  lemma {:induction false} Diagonal(a: seq<Rune>, b: seq<Rune>, i: nat, j: nat, k: nat)
    requires i + k <= |a| && j + k <= |b|
    requires forall m :: i <= m < i + k ==> a[m] == b[m - i + j]
    ensures Cell(a, b, i + k, j + k) <= Cell(a, b, i, j)
    decreases k
  {
    hide Cell;
    CellRule(a, b, i + k, j + k);
    if k != 0 {
      Diagonal(a, b, i, j, k - 1);
      if i + k - 1 == 0 || j + k - 1 == 0 {
        CellBounds(a, b, i + k, j + k);
        CellBounds(a, b, i, j);
      }
    }
  }

  lemma {:induction false} CommonSuffix(a: seq<Rune>, b: seq<Rune>, i: nat, j: nat)
    requires i <= |a| && j <= |b| && a[i..] == b[j..]
    ensures Distance(a, b) <= Cell(a, b, i, j)
  {
    hide Cell;
    assert |a[i..]| == |b[j..]|;
    forall m | i <= m < |a| ensures a[m] == b[m - i + j] {
      assert a[m] == a[i..][m - i] == b[j..][m - i];
    }
    Diagonal(a, b, i, j, |a| - i);
  }

  /** Replacing the runes in [p, i) by those in [p, j), at most one on either side, costs at most one. */
  lemma {:induction false} OneRune(a: seq<Rune>, b: seq<Rune>, p: nat, i: nat, j: nat)
    requires p <= i <= p + 1 && p <= j <= p + 1 && i <= |a| && j <= |b|
    requires a[..p] == b[..p] && a[i..] == b[j..]
    ensures Distance(a, b) <= 1
  {
    hide Cell, Distance;
    CommonSuffix(a, b, i, j);
    CellZero(a, b, p, p);
    CellRule(a, b, i, j);
    if i == p + 1 {
      CellRule(a, b, i, p);
    }
    if j == p + 1 {
      CellRule(a, b, p, j);
    }
  }

  lemma {:induction false} OneEdit(e: Edit, s: seq<Rune>)
    requires Applicable(e, s)
    ensures Distance(s, Apply(e, s)) <= 1
  {
    OneRune(s, Apply(e, s), e.at, if e.Insert? then e.at else e.at + 1, if e.Delete? then e.at else e.at + 1);
  }

  /** No sequence of edits is cheaper than the distance. */
  lemma {:induction false} NoCheaperRewriting(edits: seq<Edit>, a: seq<Rune>, b: seq<Rune>)
    requires Rewrites(edits, a, b)
    ensures Distance(a, b) <= |edits|
    decreases |edits|
  {
    if edits == [] {
      DistanceIsMetric(a, b, b);
    } else {
      var next := Apply(edits[0], a);
      OneEdit(edits[0], a);
      NoCheaperRewriting(edits[1..], next, b);
      DistanceIsMetric(a, next, b);
    }
  }

  /** One more edit at the end of a rewriting. */
  lemma {:induction false} RewritesThen(edits: seq<Edit>, a: seq<Rune>, b: seq<Rune>, e: Edit)
    requires Rewrites(edits, a, b) && Applicable(e, b)
    ensures Rewrites(edits + [e], a, Apply(e, b))
    decreases |edits|
  {
    if edits == [] {
      assert [e][1..] == [];
    } else {
      RewritesThen(edits[1..], Apply(edits[0], a), b, e);
      assert (edits + [e])[1..] == edits[1..] + [e];
    }
  }

  lemma {:induction false} ApplyBefore(e: Edit, s: seq<Rune>, t: seq<Rune>)
    requires Applicable(e, s)
    ensures Applicable(e, s + t) && Apply(e, s + t) == Apply(e, s) + t
  {
    assert (s + t)[..e.at] == s[..e.at];
    if e.Insert? {
      assert (s + t)[e.at..] == s[e.at..] + t;
    } else {
      assert (s + t)[e.at + 1..] == s[e.at + 1..] + t;
    }
  }

  /** A rewriting still works when both texts are followed by the same suffix. */
  lemma {:induction false} RewritesBefore(edits: seq<Edit>, a: seq<Rune>, b: seq<Rune>, t: seq<Rune>)
    requires Rewrites(edits, a, b)
    ensures Rewrites(edits, a + t, b + t)
    decreases |edits|
  {
    if edits != [] {
      ApplyBefore(edits[0], a, t);
      RewritesBefore(edits[1..], Apply(edits[0], a), b, t);
    }
  }

  /** One more edit at the start of a rewriting. */
  lemma {:induction false} ThenRewrites(e: Edit, edits: seq<Edit>, a: seq<Rune>, next: seq<Rune>, b: seq<Rune>)
    requires Applicable(e, a) && Apply(e, a) == next && Rewrites(edits, next, b)
    ensures Rewrites([e] + edits, a, b)
  {
  }

  /** The last rune of `a[..i]` can be dropped, kept or replaced, and the last rune of `b[..j]` added. */
  lemma {:induction false} LastRune(a: seq<Rune>, b: seq<Rune>, i: nat, j: nat)
    requires i <= |a| && j <= |b|
    ensures i != 0 ==> Apply(Delete(i - 1), a[..i]) == a[..i - 1]
    ensures j != 0 ==> Apply(Insert(j - 1, b[j - 1]), b[..j - 1]) == b[..j]
    ensures i != 0 && j != 0 ==> Apply(Substitute(i - 1, b[j - 1]), a[..i]) == a[..i - 1] + [b[j - 1]]
    ensures i != 0 ==> a[..i - 1] + [a[i - 1]] == a[..i]
    ensures j != 0 ==> b[..j - 1] + [b[j - 1]] == b[..j]
  {
  }

  /** Some sequence of edits costs exactly the distance. */
  lemma {:induction false} CheapestRewriting(a: seq<Rune>, b: seq<Rune>, i: nat, j: nat) returns (edits: seq<Edit>)
    requires i <= |a| && j <= |b|
    ensures Rewrites(edits, a[..i], b[..j]) && |edits| == Cell(a, b, i, j)
  {
    hide Cell, Apply;
    CellRule(a, b, i, j);
    LastRune(a, b, i, j);
    if i == 0 && j == 0 {
      edits := [];
    } else if j == 0 || (i != 0 && Cell(a, b, i, j) == Cell(a, b, i - 1, j) + 1) {
      edits := CheapestRewriting(a, b, i - 1, j);
      CellRule(a, b, i - 1, j);
      ThenRewrites(Delete(i - 1), edits, a[..i], a[..i - 1], b[..j]);
      edits := [Delete(i - 1)] + edits;
    } else if i == 0 || Cell(a, b, i, j) == Cell(a, b, i, j - 1) + 1 {
      edits := CheapestRewriting(a, b, i, j - 1);
      CellRule(a, b, i, j - 1);
      RewritesThen(edits, a[..i], b[..j - 1], Insert(j - 1, b[j - 1]));
      edits := edits + [Insert(j - 1, b[j - 1])];
    } else {
      edits := CheapestRewriting(a, b, i - 1, j - 1);
      RewritesBefore(edits, a[..i - 1], b[..j - 1], [b[j - 1]]);
      if a[i - 1] != b[j - 1] {
        var e := Substitute(i - 1, b[j - 1]);
        ThenRewrites(e, edits, a[..i], a[..i - 1] + [b[j - 1]], b[..j]);
        edits := [e] + edits;
      }
    }
  }

  /** The distance is the minimum length over every sequence of single-rune edits. */
  lemma {:induction false} DistanceIsMinimum(a: seq<Rune>, b: seq<Rune>)
    ensures exists edits :: Rewrites(edits, a, b) && |edits| == Distance(a, b)
    ensures forall edits :: Rewrites(edits, a, b) ==> Distance(a, b) <= |edits|
  {
    var edits := CheapestRewriting(a, b, |a|, |b|);
    assert a[..|a|] == a && b[..|b|] == b;
    forall edits | Rewrites(edits, a, b)
      ensures Distance(a, b) <= |edits|
    {
      NoCheaperRewriting(edits, a, b);
    }
  }
}
