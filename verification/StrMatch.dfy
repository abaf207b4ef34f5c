/**
 The fuzzy matcher (pkg/strmatch/strmatch.go): containment, token and edit-distance bands over
 byte strings, and the first-best selections on top of them.

 A Go string is a sequence of bytes.  Scores are reals.  The Unicode tables the code calls into
 (lower-casing with trimming, and "letter or number") are the two functions of `Unicode`.
 */
module StrMatch {
  import opened GoStrings
  import opened EditDistance

  type Byte = b: int | 0 <= b < 256
  type GoString = seq<Byte>

  datatype Unicode = Unicode(normalize: GoString -> GoString, isTokenRune: Rune -> bool)

  // ---------- runes ----------

  predicate InRange(s: GoString, i: nat, lo: int, hi: int) {
    i < |s| && lo <= s[i] <= hi
  }

  /** Width in bytes of the UTF-8 sequence at the front of `s`; 1 for an invalid byte. */
  function Width(s: GoString): (w: nat)
    requires s != []
    ensures 1 <= w <= |s|
  {
    var b := s[0];
    if 0xC2 <= b <= 0xDF && InRange(s, 1, 0x80, 0xBF) then 2
    else if 0xE0 <= b <= 0xEF
            && InRange(s, 1, if b == 0xE0 then 0xA0 else 0x80, if b == 0xED then 0x9F else 0xBF)
            && InRange(s, 2, 0x80, 0xBF) then 3
    else if 0xF0 <= b <= 0xF4
            && InRange(s, 1, if b == 0xF0 then 0x90 else 0x80, if b == 0xF4 then 0x8F else 0xBF)
            && InRange(s, 2, 0x80, 0xBF) && InRange(s, 3, 0x80, 0xBF) then 4
    else 1
  }

  function FirstRune(s: GoString): Rune
    requires s != []
  {
    match Width(s)
    case 1 => if s[0] < 0x80 then s[0] else 0xFFFD
    case 2 => Bits(s[0], 0xC0) * 0x40 + Bits(s[1], 0x80)
    case 3 => (Bits(s[0], 0xE0) * 0x40 + Bits(s[1], 0x80)) * 0x40 + Bits(s[2], 0x80)
    case _ => ((Bits(s[0], 0xF0) * 0x40 + Bits(s[1], 0x80)) * 0x40 + Bits(s[2], 0x80)) * 0x40 + Bits(s[3], 0x80)
  }

  /** The payload of a UTF-8 byte below its marker bits. */
  function Bits(b: Byte, marker: int): int {
    b as int - marker
  }

  /** `[]rune(s)`. There are never more runes than bytes. */
  function Runes(s: GoString): (r: seq<Rune>)
    ensures |r| <= |s|
    decreases |s|
  {
    if s == [] then [] else [FirstRune(s)] + Runes(s[Width(s)..])
  }

  predicate IsScalar(r: Rune) {
    0 <= r < 0xD800 || 0xE000 <= r < 0x11_0000
  }

  /** The UTF-8 encoding of a Unicode scalar value (section 3 of RFC 3629). */
  function Utf8(r: Rune): (s: GoString)
    requires IsScalar(r)
    ensures s != []
  {
    var a := r / 0x40;
    var b := a / 0x40;
    if r < 0x80 then [r]
    else if r < 0x800 then [0xC0 + a, 0x80 + r % 0x40]
    else if r < 0x1_0000 then [0xE0 + b, 0x80 + a % 0x40, 0x80 + r % 0x40]
    else [0xF0 + b / 0x40, 0x80 + b % 0x40, 0x80 + a % 0x40, 0x80 + r % 0x40]
  }

  lemma {:induction false} WidthOfUtf8(r: Rune, rest: GoString)
    requires IsScalar(r)
    ensures Width(Utf8(r) + rest) == |Utf8(r)|
  {
  }

  lemma {:induction false} FirstRuneOfUtf8(r: Rune, rest: GoString)
    requires IsScalar(r)
    ensures FirstRune(Utf8(r) + rest) == r
  {
    WidthOfUtf8(r, rest);
    hide Width;
    var a, s := r / 0x40, Utf8(r) + rest;
    var b := a / 0x40;
    assert r == a * 0x40 + r % 0x40 && a == b * 0x40 + a % 0x40 && b == b / 0x40 * 0x40 + b % 0x40;
    assert forall k :: 0 <= k < |Utf8(r)| ==> s[k] == Utf8(r)[k];
  }

  function Encoded(runes: seq<Rune>): GoString
    requires forall k :: 0 <= k < |runes| ==> IsScalar(runes[k])
  {
    if runes == [] then [] else Utf8(runes[0]) + Encoded(runes[1..])
  }

  /** Decoding gives back the runes that were encoded. */
  lemma {:induction false} RunesOfEncoded(runes: seq<Rune>)
    requires forall k :: 0 <= k < |runes| ==> IsScalar(runes[k])
    ensures Runes(Encoded(runes)) == runes
    decreases |runes|
  {
    if runes != [] {
      var rest := Encoded(runes[1..]);
      WidthOfUtf8(runes[0], rest);
      FirstRuneOfUtf8(runes[0], rest);
      hide Width, FirstRune, Utf8, IsScalar;
      RunesOfEncoded(runes[1..]);
      assert Encoded(runes)[|Utf8(runes[0])|..] == rest;
    }
  }

  // ---------- containment ----------

  predicate IsWordByte(b: Byte) {
    ('a' as int <= b <= 'z' as int) || ('A' as int <= b <= 'Z' as int) || ('0' as int <= b <= '9' as int)
  }

  predicate LeftBoundary(long: GoString, i: int)
    requires 0 <= i <= |long|
  {
    i == 0 || !IsWordByte(long[i - 1])
  }

  predicate RightBoundary(long: GoString, end: int)
    requires 0 <= end <= |long|
  {
    end == |long| || !IsWordByte(long[end])
  }

  /** How many sides of the occurrence at `i` are token boundaries. */
  function Rank(long: GoString, short: GoString, i: int): (r: nat)
    requires At(long, short, i)
    ensures r <= 2
  {
    (if LeftBoundary(long, i) then 1 else 0) + (if RightBoundary(long, i + |short|) then 1 else 0)
  }

  /** The leftmost among the occurrences of maximum rank, or -1 when there is none. */
  ghost predicate IsBestIndex(long: GoString, short: GoString, best: int) {
    (best == -1 || At(long, short, best)) &&
    forall k {:trigger At(long, short, k)} :: At(long, short, k) ==>
      best != -1 && Rank(long, short, k) <= Rank(long, short, best)
      && (k < best ==> Rank(long, short, k) < Rank(long, short, best))
  }

  lemma {:induction false} RankBySides(long: GoString, short: GoString, i: int)
    requires At(long, short, i)
    ensures 0 <= i && i + |short| <= |long|
    ensures Rank(long, short, i) == (if i == 0 || !IsWordByte(long[i - 1]) then 1 else 0)
                                    + if i + |short| == |long| || !IsWordByte(long[i + |short|]) then 1 else 0
  {
    hide IsWordByte;
  }

  method BestContainmentIndex(long: GoString, short: GoString) returns (best: int)
    requires short != []
    ensures IsBestIndex(long, short, best)
  {
    hide Rank, IsWordByte;
    best := -1;
    var bestRank, start := -1, 0;
    while true
      invariant 0 <= start <= |long|
      invariant best == -1 ==> bestRank == -1
      invariant best != -1 ==> At(long, short, best) && bestRank == Rank(long, short, best) && best < start
      invariant forall k {:trigger At(long, short, k)} :: k < start && At(long, short, k) ==>
                  Rank(long, short, k) <= bestRank && (k < best ==> Rank(long, short, k) < bestRank)
      invariant bestRank < 2
      decreases |long| - start
    {
      var idx := IndexFrom(long, short, start);
      if idx < 0 {
        break;
      }
      RankBySides(long, short, idx);
      var rank := 0;
      if idx == 0 || !IsWordByte(long[idx - 1]) {
        rank := rank + 1;
      }
      if idx + |short| == |long| || !IsWordByte(long[idx + |short|]) {
        rank := rank + 1;
      }
      if rank > bestRank {
        best, bestRank := idx, rank;
        if rank == 2 {
          break;
        }
      }
      start := idx + 1;
    }
  }

  /** The first occurrence at or after `from` of rank `rank`, or -1. */
  function FirstOfRank(long: GoString, short: GoString, rank: nat, from: nat): (r: int)
    ensures r == -1 || (from <= r && At(long, short, r) && Rank(long, short, r) == rank)
    ensures forall k {:trigger At(long, short, k)} ::
              from <= k && At(long, short, k) && Rank(long, short, k) == rank ==> r != -1 && r <= k
    decreases |long| - from
  {
    if from > |long| then -1
    else if At(long, short, from) && Rank(long, short, from) == rank then from
    else FirstOfRank(long, short, rank, from + 1)
  }

  function BestIndex(long: GoString, short: GoString): (best: int)
    ensures IsBestIndex(long, short, best)
  {
    var r2 := FirstOfRank(long, short, 2, 0);
    var r1 := FirstOfRank(long, short, 1, 0);
    if r2 != -1 then r2 else if r1 != -1 then r1 else FirstOfRank(long, short, 0, 0)
  }

  function Clamp(v: real, lo: real, hi: real): real {
    if v < lo then lo else if v > hi then hi else v
  }

  /** The share of `whole` that `part` makes up. */
  function Ratio(part: nat, whole: nat): real
    requires whole != 0
  {
    part as real / whole as real
  }

  /** The containment score of the occurrence at `idx`. */
  function ContainmentAt(short: GoString, long: GoString, idx: int): real
    requires long != [] && At(long, short, idx)
  {
    var score := 0.50 + 0.40 * Ratio(|short|, |long|);
    var left, right := LeftBoundary(long, idx), RightBoundary(long, idx + |short|);
    Clamp(if left && right then score + 0.07 else if !left && !right then score - 0.15 else score, 0.0, 0.99)
  }

  function Shorter(q: GoString, c: GoString): GoString {
    if |c| < |q| then c else q
  }

  function Longer(q: GoString, c: GoString): GoString {
    if |c| < |q| then q else c
  }

  function ContainmentScore(q: GoString, c: GoString): real
    requires q != [] && c != []
  {
    var short, long := Shorter(q, c), Longer(q, c);
    var idx := BestIndex(long, short);
    if idx < 0 then 0.0 else ContainmentAt(short, long, idx)
  }

  // ---------- tokens ----------

  /** strings.FieldsFunc: maximal runs of token runes; `run` is the run being collected. */
  function Fields(u: Unicode, s: GoString, run: GoString): seq<GoString>
    decreases |s|
  {
    var done := if run == [] then [] else [run];
    if s == [] then done
    else if u.isTokenRune(FirstRune(s)) then Fields(u, s[Width(s)..], run + s[..Width(s)])
    else done + Fields(u, s[Width(s)..], [])
  }

  function Tokens(u: Unicode, s: GoString): seq<GoString> {
    Fields(u, s, [])
  }

  /** A rune and the bytes it was decoded from. */
  datatype Piece = Piece(rune: Rune, bytes: GoString)

  function Pieces(s: GoString): (p: seq<Piece>)
    ensures forall k :: 0 <= k < |p| ==> p[k].bytes != []
    decreases |s|
  {
    if s == [] then [] else [Piece(FirstRune(s), s[..Width(s)])] + Pieces(s[Width(s)..])
  }

  /** The bytes of the pieces from `i` up to `j`. */
  function Text(p: seq<Piece>, i: int, j: int): (t: GoString)
    requires 0 <= i <= j <= |p|
    ensures (forall k :: 0 <= k < |p| ==> p[k].bytes != []) ==> (t == [] <==> i == j)
    decreases j
  {
    if i == j then [] else Text(p, i, j - 1) + p[j - 1].bytes
  }

  predicate InToken(u: Unicode, p: seq<Piece>, k: int)
    requires 0 <= k < |p|
  {
    u.isTokenRune(p[k].rune)
  }

  /** Only token runes from `i` up to `j`, and none just before or after. */
  ghost predicate MaximalRun(u: Unicode, p: seq<Piece>, run: (int, int)) {
    var (i, j) := run;
    && 0 <= i < j <= |p| && (forall k :: i <= k < j ==> InToken(u, p, k))
    && (i == 0 || !InToken(u, p, i - 1)) && (j == |p| || !InToken(u, p, j))
  }

  /** `runs` are all the maximal runs that begin at `from` or later, in order, and `tokens` their texts. */
  ghost predicate TextsOfRuns(u: Unicode, p: seq<Piece>, from: int, runs: seq<(int, int)>, tokens: seq<GoString>) {
    && |tokens| == |runs|
    && (forall t :: 0 <= t < |runs| ==> MaximalRun(u, p, runs[t]) && from <= runs[t].0 && tokens[t] == Text(p, runs[t].0, runs[t].1))
    && (forall t, t' :: 0 <= t < t' < |runs| ==> runs[t].1 < runs[t'].0)
    && (forall run :: MaximalRun(u, p, run) && from <= run.0 ==> run in runs)
  }

  lemma {:induction false} NextPiece(p: seq<Piece>, rest: GoString, start: nat, k: nat)
    requires start <= k <= |p| && Pieces(rest) == p[k..]
    ensures rest == [] ==> k == |p|
    ensures rest != [] ==>
              && k < |p| && p[k] == Piece(FirstRune(rest), rest[..Width(rest)]) && Pieces(rest[Width(rest)..]) == p[k + 1..]
              && Text(p, start, k + 1) == Text(p, start, k) + rest[..Width(rest)] && Text(p, k + 1, k + 1) == []
  {
    hide Width, FirstRune;
    if rest != [] {
      assert p[k] == p[k..][0];
      assert p[k..][1..] == p[k + 1..];
    }
  }

  lemma {:induction false} NextField(u: Unicode, rest: GoString, run: GoString)
    ensures rest == [] ==> Fields(u, rest, run) == if run == [] then [] else [run]
    ensures rest != [] ==>
              var later := rest[Width(rest)..];
              Fields(u, rest, run)
              == if u.isTokenRune(FirstRune(rest)) then Fields(u, later, run + rest[..Width(rest)])
                 else if run == [] then Fields(u, later, []) else [run] + Fields(u, later, [])
  {
    hide Width, FirstRune;
  }

  /** From piece `k` on, with a run begun at `start`. */
  lemma {:induction false} FieldsFrom(u: Unicode, p: seq<Piece>, rest: GoString, start: nat, k: nat) returns (runs: seq<(int, int)>)
    requires start <= k <= |p| && Pieces(rest) == p[k..] && forall m :: 0 <= m < |p| ==> p[m].bytes != []
    requires (forall m :: start <= m < k ==> InToken(u, p, m)) && (start == 0 || !InToken(u, p, start - 1))
    ensures TextsOfRuns(u, p, start, runs, Fields(u, rest, Text(p, start, k)))
    decreases |p| - k
  {
    hide Width, FirstRune, InToken, TextsOfRuns, MaximalRun, Text, Fields, Pieces;
    ghost var run := Text(p, start, k);
    NextPiece(p, rest, start, k);
    NextField(u, rest, run);
    if rest == [] {
      runs := if start == k then [] else [(start, k)];
      LastRun(u, p, start);
    } else {
      TokenRune(u, p, k, rest);
      if InToken(u, p, k) {
        runs := FieldsFrom(u, p, rest[Width(rest)..], start, k + 1);
      } else {
        var later := FieldsFrom(u, p, rest[Width(rest)..], k + 1, k + 1);
        runs := if start == k then later else [(start, k)] + later;
        RunEnds(u, p, start, k, later, Fields(u, rest[Width(rest)..], []));
      }
    }
  }

  lemma {:induction false} TokenRune(u: Unicode, p: seq<Piece>, k: nat, rest: GoString)
    requires k < |p| && rest != [] && p[k].rune == FirstRune(rest)
    ensures InToken(u, p, k) <==> u.isTokenRune(FirstRune(rest))
  {
  }

  lemma {:induction false} LastRun(u: Unicode, p: seq<Piece>, start: nat)
    requires start <= |p| && (start == 0 || !InToken(u, p, start - 1))
    requires forall m :: start <= m < |p| ==> InToken(u, p, m)
    ensures if start == |p| then TextsOfRuns(u, p, start, [], [])
            else TextsOfRuns(u, p, start, [(start, |p|)], [Text(p, start, |p|)])
  {
    hide InToken;
  }

  lemma {:induction false} RunEnds(u: Unicode, p: seq<Piece>, start: nat, k: nat, later: seq<(int, int)>, tokens: seq<GoString>)
    requires start <= k < |p| && (start == 0 || !InToken(u, p, start - 1)) && !InToken(u, p, k)
    requires forall m :: start <= m < k ==> InToken(u, p, m)
    requires TextsOfRuns(u, p, k + 1, later, tokens)
    ensures if start == k then TextsOfRuns(u, p, start, later, tokens)
            else TextsOfRuns(u, p, start, [(start, k)] + later, [Text(p, start, k)] + tokens)
  {
    forall run | MaximalRun(u, p, run) && start <= run.0 ensures (start < k && run == (start, k)) || run in later {
      if run.0 <= k {
        RunBefore(u, p, start, k, run);
      }
    }
    if start < k {
      assert MaximalRun(u, p, (start, k));
      RunAdds(u, p, start, k, later, tokens);
    }
    hide MaximalRun, InToken, Text;
  }

  lemma {:induction false} RunAdds(u: Unicode, p: seq<Piece>, start: nat, k: nat, later: seq<(int, int)>, tokens: seq<GoString>)
    requires start < k < |p| && MaximalRun(u, p, (start, k)) && TextsOfRuns(u, p, k + 1, later, tokens)
    requires forall run :: MaximalRun(u, p, run) && start <= run.0 ==> run == (start, k) || run in later
    ensures TextsOfRuns(u, p, start, [(start, k)] + later, [Text(p, start, k)] + tokens)
  {
    hide InToken, Text, MaximalRun;
  }

  /** A maximal run that begins before a rune outside of all tokens is the one begun at `start`. */
  lemma {:induction false} RunBefore(u: Unicode, p: seq<Piece>, start: nat, k: nat, run: (int, int))
    requires start <= k < |p| && !InToken(u, p, k) && forall m :: start <= m < k ==> InToken(u, p, m)
    requires MaximalRun(u, p, run) && start <= run.0 <= k
    ensures run == (start, k) && start < k
  {
    hide InToken;
  }

  /** The tokens of a text are the texts of its maximal runs of token runes: all of them, in order. */
  lemma {:induction false} TokensAreMaximalRuns(u: Unicode, s: GoString)
    ensures exists runs :: TextsOfRuns(u, Pieces(s), 0, runs, Tokens(u, s))
  {
    hide Fields, Pieces, TextsOfRuns;
    assert Pieces(s)[0..] == Pieces(s) && Text(Pieces(s), 0, 0) == [];
    var runs := FieldsFrom(u, Pieces(s), s, 0, 0);
    assert TextsOfRuns(u, Pieces(s), 0, runs, Tokens(u, s));
  }

  function Matched(tokens: seq<GoString>, wanted: set<GoString>): (n: nat)
    ensures n <= |tokens|
  {
    if tokens == [] then 0
    else Matched(tokens[..|tokens| - 1], wanted) + if tokens[|tokens| - 1] in wanted then 1 else 0
  }

  lemma {:induction false} MatchedAllOrNone(tokens: seq<GoString>, wanted: set<GoString>)
    ensures Matched(tokens, wanted) == |tokens| <==> forall t :: t in tokens ==> t in wanted
    ensures Matched(tokens, wanted) == 0 <==> forall t :: t in tokens ==> t !in wanted
    decreases |tokens|
  {
    if tokens != [] {
      var rest, last := tokens[..|tokens| - 1], tokens[|tokens| - 1];
      MatchedAllOrNone(rest, wanted);
      assert tokens == rest + [last];
      assert forall t :: t in tokens <==> t in rest || t == last;
    }
  }

  lemma {:induction false} MatchedOneMore(tokens: seq<GoString>, i: nat, wanted: set<GoString>)
    requires i < |tokens|
    ensures Matched(tokens[..i + 1], wanted) == Matched(tokens[..i], wanted) + if tokens[i] in wanted then 1 else 0
  {
    assert tokens[..i + 1][..i] == tokens[..i];
  }

  lemma {:induction false} NoneMatched(wanted: set<GoString>)
    ensures Matched([], wanted) == 0
  {
  }

  function TokenScore(u: Unicode, q: GoString, c: GoString): real {
    var candidateTokens := Tokens(u, c);
    var matched := Matched(candidateTokens, set t | t in Tokens(u, q));
    if candidateTokens == [] || matched == 0 then 0.0
    else 0.50 + 0.45 * Ratio(matched, |candidateTokens|)
  }

  method ComputeTokenScore(u: Unicode, q: GoString, c: GoString) returns (score: real)
    ensures score == TokenScore(u, q, c)
  {
    hide Fields, Ratio, Tokens, Matched;
    NoneMatched(set t | t in Tokens(u, q));
    var candidateTokens := Tokens(u, c);
    if |candidateTokens| == 0 {
      return 0.0;
    }
    var queryTokens := set t | t in Tokens(u, q);
    var matched := 0;
    for i := 0 to |candidateTokens|
      invariant matched == Matched(candidateTokens[..i], queryTokens)
    {
      MatchedOneMore(candidateTokens, i, queryTokens);
      if candidateTokens[i] in queryTokens {
        matched := matched + 1;
      }
    }
    assert candidateTokens[..|candidateTokens|] == candidateTokens;
    if matched == 0 {
      return 0.0;
    }
    return 0.50 + 0.45 * Ratio(matched, |candidateTokens|);
  }

  // ---------- edit distance ----------

  function EditScore(q: GoString, c: GoString): real {
    var maxLen := |Longer(q, c)|;
    if maxLen == 0 then 0.0
    else
      var sim := 1.0 - Ratio(Distance(Runes(q), Runes(c)), maxLen);
      if sim <= 0.0 then 0.0 else 0.60 * sim
  }

  // ---------- score and selection ----------

  function Max(a: real, b: real): real {
    if b > a then b else a
  }

  function Score(u: Unicode, query: GoString, candidate: GoString): real {
    var q, c := u.normalize(query), u.normalize(candidate);
    if q == [] || c == [] then 0.0
    else if q == c then 1.0
    else Max(Max(ContainmentScore(q, c), TokenScore(u, q, c)), EditScore(q, c))
  }

  method ComputeScore(u: Unicode, query: GoString, candidate: GoString) returns (score: real)
    ensures score == Score(u, query, candidate)
  {
    var q, c := u.normalize(query), u.normalize(candidate);
    if q == [] || c == [] {
      return 0.0;
    }
    if q == c {
      return 1.0;
    }
    var short, long := q, c;
    if |long| < |short| {
      short, long := long, short;
    }
    var idx := BestContainmentIndex(long, short);
    BestIndexIsUnique(long, short, idx, BestIndex(long, short));
    score := if idx < 0 then 0.0 else ContainmentAt(short, long, idx);
    var s := ComputeTokenScore(u, q, c);
    if s > score {
      score := s;
    }
    var d := Levenshtein(Runes(q), Runes(c));
    var maxLen := if |c| > |q| then |c| else |q|;
    var sim := 1.0 - Ratio(d, maxLen);
    s := if sim <= 0.0 then 0.0 else 0.60 * sim;
    if s > score {
      score := s;
    }
  }

  lemma {:induction false} BestIndexIsUnique(long: GoString, short: GoString, i: int, j: int)
    requires IsBestIndex(long, short, i) && IsBestIndex(long, short, j)
    ensures i == j
  {
  }

  lemma {:induction false} RatioBounds(part: nat, whole: nat)
    requires whole != 0 && part <= whole
    ensures 0.0 <= Ratio(part, whole) <= 1.0
    ensures part < whole <==> Ratio(part, whole) < 1.0
    ensures 0 < part <==> 0.0 < Ratio(part, whole)
  {
    var r := Ratio(part, whole);
    assert r * whole as real == part as real;
    hide Ratio;
    var rest := 1.0 - r;
    assert rest * whole as real == whole as real - r * whole as real;
    ProductSign(r, whole);
    ProductSign(rest, whole);
    assert part < whole <==> 0.0 < whole as real - part as real;
  }

  lemma {:induction false} ProductSign(r: real, n: nat)
    requires n > 0
    ensures 0.0 < r <==> 0.0 < r * n as real
    ensures r < 0.0 <==> r * n as real < 0.0
    decreases n
  {
    if n > 1 {
      ProductSign(r, n - 1);
      assert r * n as real == r * (n - 1) as real + r;
    } else {
      assert r * n as real == r;
    }
  }

  /** The clamp never bites: the score is coverage with a bonus for two token boundaries and a penalty for none. */
  lemma {:induction false} ContainmentBand(short: GoString, long: GoString, idx: int)
    requires short != [] && |short| <= |long| && At(long, short, idx)
    ensures ContainmentAt(short, long, idx)
            == 0.50 + 0.40 * Ratio(|short|, |long|)
               + (if Rank(long, short, idx) == 2 then 0.07 else if Rank(long, short, idx) == 1 then 0.0 else -0.15)
    ensures 0.35 < ContainmentAt(short, long, idx) <= 0.97
  {
    RatioBounds(|short|, |long|);
  }

  /** The shorter text scores at its best occurrence in the longer one, whichever is the query. */
  lemma {:induction false} ContainmentCases(q: GoString, c: GoString, best: int)
    requires q != [] && c != []
    ensures |q| < |c| && IsBestIndex(c, q, best) && best != -1 ==> ContainmentScore(q, c) == ContainmentAt(q, c, best)
    ensures |c| <= |q| && IsBestIndex(q, c, best) && best != -1 ==> ContainmentScore(q, c) == ContainmentAt(c, q, best)
    ensures ContainmentScore(q, c) == 0.0 <==> !Contains(q, c) && !Contains(c, q)
  {
    var short, long := Shorter(q, c), Longer(q, c);
    hide ContainmentAt, Rank;
    var idx := BestIndex(long, short);
    if IsBestIndex(long, short, best) {
      BestIndexIsUnique(long, short, best, idx);
    }
    if idx >= 0 {
      ContainmentBand(short, long, idx);
    }
    if Contains(short, long) {
      assert short == long;
    }
  }

  lemma {:induction false} ContainmentBelowExact(q: GoString, c: GoString)
    requires q != [] && c != [] && q != c
    ensures 0.0 <= ContainmentScore(q, c) < 0.97
  {
    var short, long := Shorter(q, c), Longer(q, c);
    var idx := BestIndex(long, short);
    if idx >= 0 {
      RatioBounds(|short|, |long|);
      ContainmentBand(short, long, idx);
    }
  }

  /** Which of the tokens are wanted. */
  function Hits(tokens: seq<GoString>, wanted: seq<GoString>): set<nat> {
    set k | 0 <= k < |tokens| && tokens[k] in wanted
  }

  lemma {:induction false} MatchedCountsHits(tokens: seq<GoString>, wanted: seq<GoString>)
    ensures Matched(tokens, set t | t in wanted) == |Hits(tokens, wanted)|
    decreases |tokens|
  {
    if tokens != [] {
      var n := |tokens| - 1;
      MatchedCountsHits(tokens[..n], wanted);
      assert Hits(tokens, wanted) == Hits(tokens[..n], wanted) + if tokens[n] in wanted then {n} else {};
    }
  }

  /** As many candidate tokens as stand in the query decide the token score. */
  lemma {:induction false} TokenScoreCounts(u: Unicode, q: GoString, c: GoString)
    ensures var hits := |Hits(Tokens(u, c), Tokens(u, q))|;
            && (Tokens(u, c) == [] ==> hits == 0)
            && TokenScore(u, q, c) == if hits == 0 then 0.0 else 0.50 + 0.45 * Ratio(hits, |Tokens(u, c)|)
  {
    hide Tokens;
    MatchedCountsHits(Tokens(u, c), Tokens(u, q));
  }

  /** Zero, or strictly above the base; the top of the band needs every candidate token in the query. */
  lemma {:induction false} TokenBand(u: Unicode, q: GoString, c: GoString)
    ensures TokenScore(u, q, c) == 0.0 || 0.50 < TokenScore(u, q, c) <= 0.95
    ensures TokenScore(u, q, c) == 0.0 <==> forall t :: t in Tokens(u, c) ==> t !in Tokens(u, q)
    ensures TokenScore(u, q, c) == 0.95 <==> Tokens(u, c) != [] && forall t :: t in Tokens(u, c) ==> t in Tokens(u, q)
  {
    var candidateTokens := Tokens(u, c);
    MatchedAllOrNone(candidateTokens, set t | t in Tokens(u, q));
    if candidateTokens != [] {
      RatioBounds(Matched(candidateTokens, set t | t in Tokens(u, q)), |candidateTokens|);
    }
    forall t ensures t in (set x | x in Tokens(u, q)) <==> t in Tokens(u, q) {}
  }

  /** Bytes outnumber runes, so the similarity is never negative and equals 0.60 only at distance zero. */
  lemma {:induction false} EditBand(q: GoString, c: GoString)
    ensures 0.0 <= EditScore(q, c) <= 0.60
    ensures Longer(q, c) != [] ==>
              Distance(Runes(q), Runes(c)) <= |Longer(q, c)|
              && EditScore(q, c) == 0.60 * (1.0 - Ratio(Distance(Runes(q), Runes(c)), |Longer(q, c)|))
              && (EditScore(q, c) == 0.60 <==> Runes(q) == Runes(c))
  {
    if Longer(q, c) != [] {
      DistanceIsMetric(Runes(q), Runes(c), Runes(c));
      RatioBounds(Distance(Runes(q), Runes(c)), |Longer(q, c)|);
    }
  }

  /** 1 means exactly "same normalised, non-empty text"; everything else stays below 0.97. */
  lemma {:induction false} ScoreOneIffExact(u: Unicode, query: GoString, candidate: GoString)
    ensures Score(u, query, candidate) == 1.0
            <==> u.normalize(query) == u.normalize(candidate) && u.normalize(query) != []
    ensures Score(u, query, candidate) != 1.0 ==> 0.0 <= Score(u, query, candidate) < 0.97
  {
    var q, c := u.normalize(query), u.normalize(candidate);
    if q != [] && c != [] && q != c {
      ContainmentBelowExact(q, c);
      TokenBand(u, q, c);
      EditBand(q, c);
    }
  }

  /** For different texts the score is the best of the three bands. */
  lemma {:induction false} ScoreIsBestBand(u: Unicode, query: GoString, candidate: GoString)
    ensures var q, c := u.normalize(query), u.normalize(candidate);
            && (q == [] || c == [] ==> Score(u, query, candidate) == 0.0)
            && (q != [] && c != [] && q != c ==>
                  && Score(u, query, candidate) in {ContainmentScore(q, c), TokenScore(u, q, c), EditScore(q, c)}
                  && Score(u, query, candidate) >= ContainmentScore(q, c)
                  && Score(u, query, candidate) >= TokenScore(u, q, c)
                  && Score(u, query, candidate) >= EditScore(q, c))
  {
    hide ContainmentScore, TokenScore, EditScore;
  }

  /** A candidate all of whose tokens the query has scores at least 0.95, one of whose tokens it has above 0.50. */
  lemma {:induction false} AllTokensScoreHigh(u: Unicode, query: GoString, candidate: GoString)
    ensures var q, c := u.normalize(query), u.normalize(candidate);
            q != [] && c != [] ==>
              && (Tokens(u, c) != [] && (forall t :: t in Tokens(u, c) ==> t in Tokens(u, q)) ==> Score(u, query, candidate) >= 0.95)
              && ((exists t :: t in Tokens(u, c) && t in Tokens(u, q)) ==> Score(u, query, candidate) > 0.50)
  {
    var q, c := u.normalize(query), u.normalize(candidate);
    if q != [] && c != [] && q != c {
      ScoreIsBestBand(u, query, candidate);
      TokenBand(u, q, c);
    }
    hide ContainmentScore, TokenScore, EditScore, Tokens;
  }

  /** A whole-token occurrence beats, on containment, every proper substring of itself. */
  lemma {:induction false} WholeTokenBeatsItsSubstrings(q: GoString, c: GoString, sub: GoString, i: int, j: int)
    requires |c| <= |q| && At(q, c, i) && Rank(q, c, i) == 2
    requires sub != [] && |sub| < |c| && At(c, sub, j)
    ensures ContainmentScore(q, sub) < ContainmentScore(q, c)
    ensures ContainmentScore(sub, q) == ContainmentScore(q, sub)
  {
    hide ContainmentAt, Rank;
    if |c| == |q| {
      assert q[i..i + |c|] == q;
    }
    var best, inner := BestIndex(q, c), BestIndex(q, sub);
    assert At(q, c, i);
    assert best >= 0 && Rank(q, c, best) >= 2;
    ContainmentBand(c, q, best);
    if inner >= 0 {
      ContainmentBand(sub, q, inner);
      RatioMonotone(|sub|, |c|, |q|);
    }
  }

  lemma {:induction false} RatioMonotone(a: nat, b: nat, whole: nat)
    requires a < b && whole != 0
    ensures Ratio(a, whole) < Ratio(b, whole)
  {
  }

  datatype Match = Match(value: GoString, index: int, score: real)

  /** `index` is the first position below `n` with the highest score. */
  ghost predicate FirstBest(scores: seq<real>, n: nat, index: int)
    requires n <= |scores|
  {
    0 <= index < n
    && (forall k :: 0 <= k < n ==> scores[k] <= scores[index])
    && forall k :: 0 <= k < index ==> scores[k] < scores[index]
  }

  ghost function Scores<T>(u: Unicode, query: GoString, items: seq<T>, key: T -> GoString): (s: seq<real>)
    ensures |s| == |items|
    ensures forall k :: 0 <= k < |s| ==> s[k] == Score(u, query, key(items[k]))
  {
    seq(|items|, k requires 0 <= k < |items| => Score(u, query, key(items[k])))
  }

  method BestFunc<T>(u: Unicode, query: GoString, items: seq<T>, key: T -> GoString, zero: T)
    returns (best: T, score: real, ok: bool, ghost index: int)
    ensures ok <==> items != []
    ensures !ok ==> best == zero && score == 0.0
    ensures ok ==> FirstBest(Scores(u, query, items, key), |items|, index)
                   && best == items[index] && score == Score(u, query, key(best))
  {
    hide Score;
    best, score, ok, index := zero, 0.0, false, -1;
    ghost var all := Scores(u, query, items, key);
    for i := 0 to |items|
      invariant ok <==> i != 0
      invariant !ok ==> best == zero && score == 0.0
      invariant ok ==> FirstBest(all, i, index) && best == items[index] && score == all[index]
    {
      var s := ComputeScore(u, query, key(items[i]));
      assert s == all[i];
      if i == 0 || s > score {
        best, score, ok, index := items[i], s, true, i;
      }
    }
  }

  method Best(u: Unicode, query: GoString, candidates: seq<GoString>) returns (best: Match, found: bool)
    ensures found <==> candidates != []
    ensures !found ==> best == Match([], -1, 0.0)
    ensures found ==> FirstBest(Scores(u, query, candidates, c => c), |candidates|, best.index)
                      && best.value == candidates[best.index]
                      && best.score == Score(u, query, best.value)
  {
    hide Score;
    best, found := Match([], -1, 0.0), false;
    ghost var all := Scores(u, query, candidates, c => c);
    for i := 0 to |candidates|
      invariant found <==> i != 0
      invariant !found ==> best == Match([], -1, 0.0)
      invariant found ==> FirstBest(all, i, best.index)
                          && best.value == candidates[best.index] && best.score == all[best.index]
    {
      var s := ComputeScore(u, query, candidates[i]);
      assert s == all[i];
      if !found || s > best.score {
        best, found := Match(candidates[i], i, s), true;
      }
    }
  }

  method BestAbove(u: Unicode, query: GoString, candidates: seq<GoString>, min: real)
    returns (best: Match, found: bool)
    ensures found <==> exists k :: 0 <= k < |candidates| && Score(u, query, candidates[k]) >= min
    ensures !found ==> best == Match([], -1, 0.0)
    ensures found ==> FirstBest(Scores(u, query, candidates, c => c), |candidates|, best.index)
                      && best.value == candidates[best.index] && best.score == Score(u, query, best.value)
  {
    hide Score;
    best, found := Best(u, query, candidates);
    ghost var all := Scores(u, query, candidates, c => c);
    assert forall k :: 0 <= k < |candidates| ==> all[k] == Score(u, query, candidates[k]);
    if !found || best.score < min {
      return Match([], -1, 0.0), false;
    }
  }

  /** The selections return the first exact match whenever there is one. */
  lemma {:induction false} FirstBestIsFirstExact<T>(u: Unicode, query: GoString, items: seq<T>, key: T -> GoString, index: int)
    requires FirstBest(Scores(u, query, items, key), |items|, index)
    requires u.normalize(query) != []
    requires exists k :: 0 <= k < |items| && u.normalize(key(items[k])) == u.normalize(query)
    ensures u.normalize(key(items[index])) == u.normalize(query)
    ensures forall k :: 0 <= k < index ==> u.normalize(key(items[k])) != u.normalize(query)
  {
    hide Score;
    var all := Scores(u, query, items, key);
    forall k | 0 <= k < |items|
      ensures all[k] == 1.0 <==> u.normalize(key(items[k])) == u.normalize(query)
      ensures all[k] <= 1.0
    {
      ScoreOneIffExact(u, query, key(items[k]));
    }
  }
}
