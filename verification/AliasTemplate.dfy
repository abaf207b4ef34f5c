/**
 What `Substitute` (internal/alias/alias.go) means on a template: a text made of literals that open
 no reference and of `{{path}}` references.  Answers may be templates themselves.  One loop ends on a
 template exactly when no chain of references it meets runs in a circle, and then makes of it the
 recursive expansion (`LoopEndsIffNoCycle`); the chain of loops, one per source and one for sibling
 modules, replaces every reference by its own meaning (`SubstituteExpands`, `SubstituteIsSimultaneous`).
 When all texts of the context are templates, it alone decides all this (`ContextExpands`).
 */
module AliasTemplate {
  import opened Common
  import opened GoStrings
  import opened AliasTree
  import opened AliasSubstitute

  datatype Segment = Lit(text: string) | Ref(text: string)

  function Show(seg: Segment): string {
    match seg
    case Lit(text) => text
    case Ref(path) => "{{" + path + "}}"
  }

  function Render(t: seq<Segment>): string {
    if t == [] then "" else Show(t[0]) + Render(t[1..])
  }

  /** No reference opens in the text: no two opening braces in a row, and none at its end. */
  predicate Quiet(text: string) {
    && (forall i :: 0 <= i < |text| - 1 ==> text[i] != '{' || text[i + 1] != '{')
    && (text == "" || text[|text| - 1] != '{')
  }

  ghost predicate PlainSegment(seg: Segment) {
    if seg.Lit? then Quiet(seg.text) else BraceFree(seg.text)
  }

  ghost predicate PlainTemplate(t: seq<Segment>) {
    forall k :: 0 <= k < |t| ==> PlainSegment(t[k])
  }

  predicate Matches(seg: Segment, head: string) {
    seg.Ref? && head <= seg.text
  }

  ghost predicate NoMatch(t: seq<Segment>, head: string) {
    forall k :: 0 <= k < |t| ==> !Matches(t[k], head)
  }

  // ---------- where references are in a rendered template ----------

  lemma {:induction false} RenderAppend(t: seq<Segment>, u: seq<Segment>)
    ensures Render(t + u) == Render(t) + Render(u)
    decreases |t|
  {
    hide Show;
    if t == [] {
      assert t + u == u;
    } else {
      RenderAppend(t[1..], u);
      assert (t + u)[1..] == t[1..] + u && (t + u)[0] == t[0];
      assert Show(t[0]) + (Render(t[1..]) + Render(u)) == Show(t[0]) + Render(t[1..]) + Render(u);
    }
  }

  lemma {:induction false} RenderOne(seg: Segment)
    ensures Render([seg]) == Show(seg)
  {
  }

  lemma {:induction false} AtChar(s: string, pattern: string, i: int, m: nat)
    requires At(s, pattern, i) && m < |pattern|
    ensures s[i + m] == pattern[m]
  {
  }

  /** `{{` opens nowhere inside a quiet literal and nowhere in a reference but at its start. */
  lemma {:induction false} BracesOpenAtStart(seg: Segment, rest: string, i: int)
    requires PlainSegment(seg) && 0 <= i < |Show(seg)| && i + 1 < |Show(seg) + rest|
    requires (Show(seg) + rest)[i] == '{' && (Show(seg) + rest)[i + 1] == '{'
    ensures i == 0 && seg.Ref?
  {
  }

  /** A brace-free head right after the opening braces is a prefix of the path. */
  lemma {:induction false} HeadStartsPath(path: string, rest: string, head: string)
    requires BraceFree(head) && |head| <= |path + "}}" + rest| && head == (path + "}}" + rest)[..|head|]
    ensures head <= path
  {
    var s := path + "}}" + rest;
    assert s[|path|] == '}';
    assert forall m :: 0 <= m < |head| ==> head[m] == s[m];
    assert head == path[..|head|];
  }

  /** An opening `{{` inside a rendered segment is the start of a reference. */
  lemma {:induction false} OpensAtStart(seg: Segment, rest: string, head: string, i: int)
    requires PlainSegment(seg) && BraceFree(head)
    requires At(Show(seg) + rest, "{{" + head, i) && i < |Show(seg)|
    ensures i == 0 && Matches(seg, head)
  {
    var s, pattern := Show(seg) + rest, "{{" + head;
    AtChar(s, pattern, i, 0);
    AtChar(s, pattern, i, 1);
    BracesOpenAtStart(seg, rest, i);
    assert s[0..|pattern|] == pattern;
    hide At, PlainSegment;
    assert s == "{{" + (seg.text + "}}" + rest);
    assert s[0..|pattern|][2..] == (seg.text + "}}" + rest)[..|head|];
    assert pattern[2..] == head;
    HeadStartsPath(seg.text, rest, head);
  }

  /** Every occurrence of `{{head` in a rendered template is a matching reference. */
  lemma {:induction false} OccurrenceIsReference(t: seq<Segment>, head: string, i: int) returns (k: nat)
    requires PlainTemplate(t) && BraceFree(head) && head != ""
    requires At(Render(t), "{{" + head, i)
    ensures k < |t| && Matches(t[k], head) && i == |Render(t[..k])|
    decreases |t|
  {
    hide Show, At;
    AtBounds(Render(t), "{{" + head, i);
    var w := |Show(t[0])|;
    if i < w {
      OpensAtStart(t[0], Render(t[1..]), head, i);
      k := 0;
    } else {
      AtSuffix(Show(t[0]), Render(t[1..]), "{{" + head, i);
      k := OccurrenceIsReference(t[1..], head, i - w);
      assert t[..k + 1] == [t[0]] + t[1..][..k];
      RenderAppend([t[0]], t[1..][..k]);
      RenderOne(t[0]);
      k := k + 1;
    }
  }

  lemma {:induction false} AtBounds(s: string, pattern: string, i: int)
    requires At(s, pattern, i)
    ensures 0 <= i <= |s| - |pattern|
  {
  }

  lemma {:induction false} AtSuffix(a: string, b: string, pattern: string, i: int)
    requires At(a + b, pattern, i) && |a| <= i
    ensures At(b, pattern, i - |a|)
  {
  }

  lemma {:induction false} NothingToRewrite(t: seq<Segment>, head: string)
    requires PlainTemplate(t) && BraceFree(head) && head != "" && NoMatch(t, head)
    ensures !HasReference(Render(t), head)
  {
    if Index(Render(t), "{{" + head) != -1 {
      var k := OccurrenceIsReference(t, head, Index(Render(t), "{{" + head));
    }
  }

  /** A text with a reference in the middle. */
  function Around(a: string, path: string, b: string): string {
    a + ("{{" + path + "}}") + b
  }

  lemma {:induction false} AroundChars(a: string, path: string, b: string)
    ensures var s := Around(a, path, b);
            |s| == |a| + |path| + 4 + |b|
            && (forall m :: 0 <= m < |path| ==> s[|a| + 2 + m] == path[m])
            && s[|a|] == '{' && s[|a| + 1] == '{' && s[|a| + 2 + |path|] == '}' && s[|a| + 3 + |path|] == '}'
  {
  }

  lemma {:induction false} AroundParts(a: string, path: string, b: string, text: string)
    ensures var s := Around(a, path, b);
            s[|a| + 2..|a| + 2 + |path|] == path
            && s[..|a|] + text + s[|a| + 2 + |path| + 2..] == a + text + b
  {
  }

  lemma {:induction false} AroundCloses(a: string, path: string, b: string)
    requires BraceFree(path)
    ensures IndexFrom(Around(a, path, b), "}}", |a|) == |a| + 2 + |path|
  {
    AroundChars(a, path, b);
    hide Around;
    var s, k := Around(a, path, b), |a| + 2 + |path|;
    assert s[k..k + 2] == "}}";
    assert At(s, "}}", k);
    var r := IndexFrom(s, "}}", |a|);
    AtChar(s, "}}", r, 0);
    forall m | |a| <= m < k ensures s[m] != '}' {
      assert m >= |a| + 2 ==> s[|a| + 2 + (m - |a| - 2)] == path[m - |a| - 2];
    }
  }

  lemma {:induction false} AroundOpens(a: string, path: string, b: string, head: string)
    requires head <= path
    ensures At(Around(a, path, b), "{{" + head, |a|)
  {
  }

  lemma {:induction false} RenderAt(t: seq<Segment>, n: nat)
    requires n < |t|
    ensures Render(t) == Render(t[..n]) + Show(t[n]) + Render(t[n + 1..])
  {
    hide Show;
    RenderAppend(t[..n] + [t[n]], t[n + 1..]);
    RenderAppend(t[..n], [t[n]]);
    RenderOne(t[n]);
    assert t == t[..n] + [t[n]] + t[n + 1..];
  }

  lemma {:induction false} LengthsGrow(t: seq<Segment>, i: nat, k: nat)
    requires i <= k <= |t|
    ensures |Render(t[..i])| <= |Render(t[..k])|
  {
    assert t[..k] == t[..i] + t[i..k];
    RenderAppend(t[..i], t[i..k]);
  }

  /** The first matching segment is where the leftmost reference starts. */
  lemma {:induction false} LeftmostStart(t: seq<Segment>, n: nat, head: string)
    requires PlainTemplate(t) && BraceFree(head) && head != ""
    requires n < |t| && Matches(t[n], head) && forall k :: 0 <= k < n ==> !Matches(t[k], head)
    ensures Index(Render(t), "{{" + head) == |Render(t[..n])|
  {
    RenderAt(t, n);
    AroundOpens(Render(t[..n]), t[n].text, Render(t[n + 1..]), head);
    hide Render;
    var i := Index(Render(t), "{{" + head);
    var k := OccurrenceIsReference(t, head, i);
    LengthsGrow(t, n, k);
  }

  function Splice(t: seq<Segment>, n: nat, u: seq<Segment>): seq<Segment>
    requires n < |t|
  {
    t[..n] + u + t[n + 1..]
  }

  lemma {:induction false} RenderSplice(t: seq<Segment>, n: nat, u: seq<Segment>)
    requires n < |t|
    ensures Render(Splice(t, n, u)) == Render(t[..n]) + Render(u) + Render(t[n + 1..])
  {
    RenderAppend(t[..n] + u, t[n + 1..]);
    RenderAppend(t[..n], u);
  }

  /** The leftmost reference of a template is its first matching segment; an answer takes its place. */
  lemma {:induction false} LeftmostReference(t: seq<Segment>, n: nat, head: string, u: seq<Segment>)
    requires PlainTemplate(t) && BraceFree(head) && head != ""
    requires n < |t| && Matches(t[n], head) && forall k :: 0 <= k < n ==> !Matches(t[k], head)
    ensures HasReference(Render(t), head) && RefPath(Render(t), head) == t[n].text
    ensures Fill(Render(t), head, Render(u)) == Render(Splice(t, n, u))
  {
    var a, path, b := Render(t[..n]), t[n].text, Render(t[n + 1..]);
    RenderAt(t, n);
    RenderSplice(t, n, u);
    assert Render(t) == Around(a, path, b);
    LeftmostStart(t, n, head);
    hide Render, Show, Around, Matches, Splice;
    AroundCloses(a, path, b);
    RefAt(Render(t), head, |a|, |a| + 2 + |path|);
    AroundParts(a, path, b, Render(u));
  }

  // ---------- answers that are templates ----------

  /** The answers a loop meets, as templates. */
  type Answers = map<string, seq<Segment>>

  /** Every reference of this head in `t` has an answer. */
  ghost predicate Covers(answers: Answers, head: string, t: seq<Segment>) {
    forall k :: 0 <= k < |t| && Matches(t[k], head) ==> t[k].text in answers
  }

  /** The answers are the resolver's, and none leads outside of them. */
  ghost predicate Knows(answers: Answers, head: string, resolve: string -> string) {
    forall p :: p in answers ==>
      PlainTemplate(answers[p]) && Covers(answers, head, answers[p]) && Render(answers[p]) == resolve(p)
  }

  /** At most `depth` answers are nested in one another. */
  ghost predicate Settles(answers: Answers, head: string, t: seq<Segment>, depth: nat)
    decreases depth
  {
    forall k :: 0 <= k < |t| && Matches(t[k], head) ==>
      depth > 0 && t[k].text in answers && Settles(answers, head, answers[t[k].text], depth - 1)
  }

  /** All references of this head replaced by their answers, and those of the answers by theirs. */
  ghost function Expand(answers: Answers, head: string, t: seq<Segment>, depth: nat): seq<Segment>
    requires Settles(answers, head, t, depth)
    decreases depth, |t|
  {
    if t == [] then []
    else
      (if Matches(t[0], head) then Expand(answers, head, answers[t[0].text], depth - 1) else [t[0]])
      + Expand(answers, head, t[1..], depth)
  }

  /** How many replacements that takes. */
  ghost function Rounds(answers: Answers, head: string, t: seq<Segment>, depth: nat): nat
    requires Settles(answers, head, t, depth)
    decreases depth, |t|
  {
    if t == [] then 0
    else
      (if Matches(t[0], head) then 1 + Rounds(answers, head, answers[t[0].text], depth - 1) else 0)
      + Rounds(answers, head, t[1..], depth)
  }

  lemma {:induction false} SettlesAppend(answers: Answers, head: string, a: seq<Segment>, b: seq<Segment>, depth: nat)
    ensures Settles(answers, head, a + b, depth) <==> Settles(answers, head, a, depth) && Settles(answers, head, b, depth)
  {
    var t := a + b;
    assert forall k :: 0 <= k < |a| ==> t[k] == a[k];
    assert forall k :: 0 <= k < |b| ==> t[|a| + k] == b[k];
    assert forall k :: |a| <= k < |t| ==> t[k] == b[k - |a|];
  }

  lemma {:induction false} ExpandCons(answers: Answers, head: string, seg: Segment, rest: seq<Segment>, depth: nat)
    requires Settles(answers, head, [seg], depth) && Settles(answers, head, rest, depth)
    ensures Settles(answers, head, [seg] + rest, depth)
    ensures Expand(answers, head, [seg] + rest, depth) == Expand(answers, head, [seg], depth) + Expand(answers, head, rest, depth)
    ensures Rounds(answers, head, [seg] + rest, depth) == Rounds(answers, head, [seg], depth) + Rounds(answers, head, rest, depth)
  {
    hide Matches;
    SettlesAppend(answers, head, [seg], rest, depth);
    assert ([seg] + rest)[0] == seg && ([seg] + rest)[1..] == rest;
    ExpandOne(answers, head, seg, depth);
    hide Settles;
  }

  lemma {:induction false} ExpandAppend(answers: Answers, head: string, a: seq<Segment>, b: seq<Segment>, depth: nat)
    requires Settles(answers, head, a, depth) && Settles(answers, head, b, depth)
    ensures Settles(answers, head, a + b, depth)
    ensures Expand(answers, head, a + b, depth) == Expand(answers, head, a, depth) + Expand(answers, head, b, depth)
    ensures Rounds(answers, head, a + b, depth) == Rounds(answers, head, a, depth) + Rounds(answers, head, b, depth)
    decreases |a|
  {
    if a == [] {
      assert a + b == b;
    } else {
      var seg, rest := a[0], a[1..];
      hide Settles, Expand, Rounds;
      assert a == [seg] + rest;
      assert a + b == [seg] + (rest + b);
      SettlesAppend(answers, head, [seg], rest, depth);
      ExpandAppend(answers, head, rest, b, depth);
      ExpandCons(answers, head, seg, rest, depth);
      ExpandCons(answers, head, seg, rest + b, depth);
      Associate(Expand(answers, head, [seg], depth), Expand(answers, head, rest, depth), Expand(answers, head, b, depth));
    }
  }

  lemma {:induction false} Associate(a: seq<Segment>, b: seq<Segment>, c: seq<Segment>)
    ensures a + (b + c) == a + b + c
  {
  }

  lemma {:induction false} ExpandOne(answers: Answers, head: string, seg: Segment, depth: nat)
    requires Settles(answers, head, [seg], depth)
    ensures !Matches(seg, head) ==> Expand(answers, head, [seg], depth) == [seg] && Rounds(answers, head, [seg], depth) == 0
    ensures Matches(seg, head) ==>
              && depth > 0 && seg.text in answers && Settles(answers, head, answers[seg.text], depth - 1)
              && Expand(answers, head, [seg], depth) == Expand(answers, head, answers[seg.text], depth - 1)
              && Rounds(answers, head, [seg], depth) == 1 + Rounds(answers, head, answers[seg.text], depth - 1)
  {
    hide Matches;
    assert [seg][0] == seg && [seg][1..] == [];
  }

  /** A greater depth changes nothing. */
  lemma {:induction false} Deeper(answers: Answers, head: string, t: seq<Segment>, depth: nat)
    requires Settles(answers, head, t, depth)
    ensures Settles(answers, head, t, depth + 1)
    ensures Expand(answers, head, t, depth + 1) == Expand(answers, head, t, depth)
    ensures Rounds(answers, head, t, depth + 1) == Rounds(answers, head, t, depth)
    decreases depth, |t|
  {
    hide Matches;
    forall k | 0 <= k < |t| && Matches(t[k], head)
      ensures Settles(answers, head, answers[t[k].text], depth)
    {
      Deeper(answers, head, answers[t[k].text], depth - 1);
    }
    if t != [] {
      if Matches(t[0], head) {
        Deeper(answers, head, answers[t[0].text], depth - 1);
      }
      Deeper(answers, head, t[1..], depth);
    }
  }

  /** Answering one reference: one round less, the same expansion. */
  lemma {:induction false} ExpandSplice(answers: Answers, head: string, t: seq<Segment>, n: nat, depth: nat)
    requires Settles(answers, head, t, depth) && n < |t| && Matches(t[n], head)
    ensures t[n].text in answers
    ensures var next := Splice(t, n, answers[t[n].text]);
            && Settles(answers, head, next, depth)
            && Expand(answers, head, next, depth) == Expand(answers, head, t, depth)
            && Rounds(answers, head, t, depth) == Rounds(answers, head, next, depth) + 1
  {
    assert t == t[..n] + [t[n]] + t[n + 1..];
    SettlesAppend(answers, head, t[..n] + [t[n]], t[n + 1..], depth);
    SettlesAppend(answers, head, t[..n], [t[n]], depth);
    ExpandOne(answers, head, t[n], depth);
    hide Settles, Expand, Rounds, Matches;
    ExpandAppend(answers, head, t[..n] + [t[n]], t[n + 1..], depth);
    ExpandAppend(answers, head, t[..n], [t[n]], depth);
    var u := answers[t[n].text];
    Deeper(answers, head, u, depth - 1);
    ExpandAppend(answers, head, t[..n], u, depth);
    ExpandAppend(answers, head, t[..n] + u, t[n + 1..], depth);
  }

  lemma {:induction false} NothingToExpand(answers: Answers, head: string, t: seq<Segment>, depth: nat)
    requires NoMatch(t, head)
    ensures Settles(answers, head, t, depth)
    ensures Expand(answers, head, t, depth) == t && Rounds(answers, head, t, depth) == 0
    decreases |t|
  {
    hide Matches;
    if t != [] {
      NothingToExpand(answers, head, t[1..], depth);
    }
  }

  /** The first reference of this head, if there is one. */
  lemma {:induction false} FirstMatch(t: seq<Segment>, head: string) returns (n: nat)
    ensures n <= |t| && (n == |t| <==> NoMatch(t, head))
    ensures n < |t| ==> Matches(t[n], head)
    ensures forall k :: 0 <= k < n ==> !Matches(t[k], head)
  {
    hide Matches;
    n := 0;
    while n < |t| && !Matches(t[n], head)
      invariant n <= |t| && forall k :: 0 <= k < n ==> !Matches(t[k], head)
    {
      n := n + 1;
    }
  }

  lemma {:induction false} SplicePlain(answers: Answers, head: string, resolve: string -> string, t: seq<Segment>, n: nat)
    requires PlainTemplate(t) && Covers(answers, head, t) && Knows(answers, head, resolve)
    requires n < |t| && Matches(t[n], head)
    ensures t[n].text in answers && Render(answers[t[n].text]) == resolve(t[n].text)
    ensures PlainTemplate(Splice(t, n, answers[t[n].text])) && Covers(answers, head, Splice(t, n, answers[t[n].text]))
  {
    hide Matches, PlainSegment;
    var u := answers[t[n].text];
    var next := Splice(t, n, u);
    forall k | 0 <= k < |next|
      ensures PlainSegment(next[k]) && (Matches(next[k], head) ==> next[k].text in answers)
    {
      assert next[k] == if k < n then t[k] else if k < n + |u| then u[k - n] else t[k - |u| + 1];
    }
  }

  /** One round of the loop on a template answers its first reference. */
  lemma {:induction false} RoundOfTemplate(answers: Answers, head: string, resolve: string -> string, t: seq<Segment>)
    returns (n: nat)
    requires PlainTemplate(t) && Covers(answers, head, t) && Knows(answers, head, resolve)
    requires BraceFree(head) && head != ""
    ensures n <= |t| && (n == |t| <==> NoMatch(t, head)) && (n == |t| <==> !HasReference(Render(t), head))
    ensures n < |t| ==>
              && Matches(t[n], head) && t[n].text in answers
              && Round(Render(t), head, resolve) == Render(Splice(t, n, answers[t[n].text]))
              && PlainTemplate(Splice(t, n, answers[t[n].text])) && Covers(answers, head, Splice(t, n, answers[t[n].text]))
  {
    n := FirstMatch(t, head);
    if n == |t| {
      NothingToRewrite(t, head);
    } else {
      SplicePlain(answers, head, resolve, t, n);
      hide Render, Splice, Matches, PlainTemplate, Covers, Knows, NoMatch, HasReference, Fill, RefPath;
      LeftmostReference(t, n, head, answers[t[n].text]);
    }
  }

  /** A template whose answers are nested finitely deep: the loop ends with the recursive expansion. */
  lemma {:induction false} LoopExpands(answers: Answers, head: string, resolve: string -> string, t: seq<Segment>, depth: nat)
    requires PlainTemplate(t) && Covers(answers, head, t) && Knows(answers, head, resolve)
    requires BraceFree(head) && head != "" && Settles(answers, head, t, depth)
    ensures EndsIn(Render(t), head, resolve, Rounds(answers, head, t, depth))
    ensures After(Render(t), head, resolve, Rounds(answers, head, t, depth)) == Render(Expand(answers, head, t, depth))
    ensures PlainTemplate(Expand(answers, head, t, depth))
    decreases Rounds(answers, head, t, depth)
  {
    hide Settles, Expand, Rounds, PlainTemplate, Covers, Knows, NoMatch, Matches, Render, HasReference, Round, Splice;
    var n := RoundOfTemplate(answers, head, resolve, t);
    if n == |t| {
      NothingToExpand(answers, head, t, depth);
    } else {
      ExpandSplice(answers, head, t, n, depth);
      LoopExpands(answers, head, resolve, Splice(t, n, answers[t[n].text]), depth);
    }
  }

  /** If the loop ends in so many rounds, the answers are not nested deeper than that. */
  lemma {:induction false} LoopSettles(answers: Answers, head: string, resolve: string -> string, t: seq<Segment>, rounds: nat)
    requires PlainTemplate(t) && Covers(answers, head, t) && Knows(answers, head, resolve)
    requires BraceFree(head) && head != "" && EndsIn(Render(t), head, resolve, rounds)
    ensures Settles(answers, head, t, rounds)
    decreases rounds
  {
    hide Settles, Expand, Rounds, PlainTemplate, Covers, Knows, NoMatch, Matches, Render, HasReference, Round, Splice;
    var n := RoundOfTemplate(answers, head, resolve, t);
    if n == |t| {
      NothingToExpand(answers, head, t, rounds);
    } else {
      RoundLeft(Render(t), head, resolve, if rounds == 0 then 0 else rounds - 1);
      LoopSettles(answers, head, resolve, Splice(t, n, answers[t[n].text]), rounds - 1);
      SettlesBefore(answers, head, t, n, rounds);
    }
  }

  lemma {:induction false} SettlesBefore(answers: Answers, head: string, t: seq<Segment>, n: nat, depth: nat)
    requires n < |t| && Matches(t[n], head) && t[n].text in answers && depth > 0
    requires Settles(answers, head, Splice(t, n, answers[t[n].text]), depth - 1)
    ensures Settles(answers, head, t, depth)
  {
    var u := answers[t[n].text];
    SettlesAppend(answers, head, t[..n] + u, t[n + 1..], depth - 1);
    SettlesAppend(answers, head, t[..n], u, depth - 1);
    assert Settles(answers, head, [t[n]], depth) by {
      assert forall k :: 0 <= k < |[t[n]]| ==> [t[n]][k] == t[n];
    }
    hide Settles, Matches;
    Deeper(answers, head, t[..n], depth - 1);
    Deeper(answers, head, t[n + 1..], depth - 1);
    SettlesAppend(answers, head, t[..n], [t[n]], depth);
    SettlesAppend(answers, head, t[..n] + [t[n]], t[n + 1..], depth);
    assert t == t[..n] + [t[n]] + t[n + 1..];
  }

  // ---------- circles ----------

  /** `t` holds a reference of this head to `p`. */
  ghost predicate Refers(t: seq<Segment>, head: string, p: string) {
    exists k :: 0 <= k < |t| && Matches(t[k], head) && t[k].text == p
  }

  /** Each reference of the chain stands in the answer of the one before. */
  ghost predicate Chain(answers: Answers, head: string, w: seq<string>) {
    && w != [] && (forall i :: 0 <= i < |w| ==> w[i] in answers)
    && forall i :: 0 <= i < |w| - 1 ==> Refers(answers[w[i]], head, w[i + 1])
  }

  /** Some chain of references that starts in `t` comes back to where it has been. */
  ghost predicate RunsInCircle(answers: Answers, head: string, t: seq<Segment>) {
    exists w, i, j :: Chain(answers, head, w) && Refers(t, head, w[0]) && 0 <= i < j < |w| && w[i] == w[j]
  }

  /** Answers nested deeper than `depth` show in a chain. */
  lemma {:induction false} DeepChain(answers: Answers, head: string, resolve: string -> string, t: seq<Segment>, depth: nat)
    returns (w: seq<string>)
    requires Covers(answers, head, t) && Knows(answers, head, resolve) && !Settles(answers, head, t, depth)
    ensures Chain(answers, head, w) && Refers(t, head, w[0]) && |w| == depth + 1
    decreases depth
  {
    hide Matches, PlainTemplate, Render;
    var k :| 0 <= k < |t| && Matches(t[k], head) && !(depth > 0 && Settles(answers, head, answers[t[k].text], depth - 1));
    var p := t[k].text;
    w := [p];
    if depth > 0 {
      var rest := DeepChain(answers, head, resolve, answers[p], depth - 1);
      w := w + rest;
      ChainCons(answers, head, p, rest);
    }
  }

  lemma {:induction false} ChainCons(answers: Answers, head: string, p: string, rest: seq<string>)
    requires p in answers && Chain(answers, head, rest) && Refers(answers[p], head, rest[0])
    ensures Chain(answers, head, [p] + rest)
  {
    hide Refers;
    var w := [p] + rest;
    assert forall i :: 1 <= i < |w| ==> w[i] == rest[i - 1];
  }

  lemma {:induction false} TooLongRepeats(w: seq<string>, all: set<string>)
    requires |w| > |all| && forall i :: 0 <= i < |w| ==> w[i] in all
    ensures exists i, j :: 0 <= i < j < |w| && w[i] == w[j]
    decreases |w|
  {
    var n := |w| - 1;
    if i :| 0 <= i < n && w[i] == w[n] {
    } else {
      forall i | 0 <= i < n ensures w[..n][i] in all - {w[n]} {
      }
      assert w[n] in all && |all - {w[n]}| == |all| - 1;
      TooLongRepeats(w[..n], all - {w[n]});
    }
  }

  /** Along a chain the nesting goes down by one each time. */
  lemma {:induction false} ChainDescends(answers: Answers, head: string, w: seq<string>, i: nat, j: nat, depth: nat)
    requires Chain(answers, head, w) && i <= j < |w| && Settles(answers, head, answers[w[i]], depth)
    ensures j - i <= depth && Settles(answers, head, answers[w[j]], depth - (j - i))
    decreases j - i
  {
    hide Matches;
    if i < j {
      assert Refers(answers[w[i]], head, w[i + 1]);
      ChainDescends(answers, head, w, i + 1, j, depth - 1);
    }
  }

  lemma {:induction false} NoCircle(answers: Answers, head: string, w: seq<string>, i: nat, j: nat, depth: nat)
    requires Chain(answers, head, w) && i < j < |w| && w[i] == w[j]
    ensures !Settles(answers, head, answers[w[i]], depth)
    decreases depth
  {
    hide Settles;
    if Settles(answers, head, answers[w[i]], depth) {
      ChainDescends(answers, head, w, i, j, depth);
      NoCircle(answers, head, w, i, j, depth - (j - i));
    }
  }

  lemma {:induction false} NoCircleFrom(answers: Answers, head: string, t: seq<Segment>, depth: nat)
    requires Settles(answers, head, t, depth)
    ensures !RunsInCircle(answers, head, t)
  {
    if w, i, j :| Chain(answers, head, w) && Refers(t, head, w[0]) && 0 <= i < j < |w| && w[i] == w[j] {
      assert Settles(answers, head, answers[w[0]], depth - 1);
      hide Settles, Refers, Chain;
      ChainDescends(answers, head, w, 0, i, depth - 1);
      NoCircle(answers, head, w, i, j, depth - 1 - i);
    }
  }

  /** A nesting as deep as there are answers is deep enough, or there is a circle. */
  lemma {:induction false} SettlesIffNoCircle(answers: Answers, head: string, resolve: string -> string, t: seq<Segment>)
    requires Covers(answers, head, t) && Knows(answers, head, resolve)
    ensures Settles(answers, head, t, |answers|) <==> !RunsInCircle(answers, head, t)
  {
    hide Settles, Covers, Knows;
    if Settles(answers, head, t, |answers|) {
      NoCircleFrom(answers, head, t, |answers|);
    } else {
      var w := DeepChain(answers, head, resolve, t, |answers|);
      assert |answers.Keys| == |answers|;
      TooLongRepeats(w, answers.Keys);
    }
  }

  /** `t` with its references of this head replaced by the recursive expansion of their answers. */
  ghost function Expanded(answers: Answers, head: string, t: seq<Segment>): seq<Segment> {
    if Settles(answers, head, t, |answers|) then Expand(answers, head, t, |answers|) else t
  }

  /**
   The loop ends on a template exactly when no chain of references that it meets runs in a circle,
   and its outcome is the recursive expansion.
   */
  lemma {:induction false} LoopEndsIffNoCycle(answers: Answers, head: string, resolve: string -> string, t: seq<Segment>)
    requires PlainTemplate(t) && Covers(answers, head, t) && Knows(answers, head, resolve)
    requires BraceFree(head) && head != ""
    ensures Ends(Render(t), head, resolve) <==> !RunsInCircle(answers, head, t)
    ensures !RunsInCircle(answers, head, t) ==>
              Rewrite(Render(t), head, resolve) == Render(Expanded(answers, head, t)) && PlainTemplate(Expanded(answers, head, t))
  {
    SettlesIffNoCircle(answers, head, resolve, t);
    hide Settles, Expand, Rounds, Render, PlainTemplate, Covers, Knows, EndsIn, Rewrite, RunsInCircle;
    if Settles(answers, head, t, |answers|) {
      LoopExpands(answers, head, resolve, t, |answers|);
      RewriteIn(Render(t), head, resolve, Rounds(answers, head, t, |answers|));
    } else if Ends(Render(t), head, resolve) {
      var n := EnoughRounds(Render(t), head, resolve);
      LoopSettles(answers, head, resolve, t, n);
      NoCircleFrom(answers, head, t, n);
    }
  }

  // ---------- one loop with answers that hold no reference ----------

  /** A segment with its reference replaced, when it is one of this head. */
  function FillSegment(seg: Segment, head: string, resolve: string -> string): Segment {
    if Matches(seg, head) then Lit(resolve(seg.text)) else seg
  }

  function FillAll(t: seq<Segment>, head: string, resolve: string -> string): (r: seq<Segment>)
    ensures |r| == |t|
    ensures forall k :: 0 <= k < |t| ==> r[k] == FillSegment(t[k], head, resolve)
  {
    seq(|t|, k requires 0 <= k < |t| => FillSegment(t[k], head, resolve))
  }

  /** The answers to the references of `t`, as literals. */
  ghost function OneAnswerEach(t: seq<Segment>, head: string, resolve: string -> string): Answers {
    map k | 0 <= k < |t| && Matches(t[k], head) :: t[k].text := [Lit(resolve(t[k].text))]
  }

  lemma {:induction false} OneAnswerKnows(t: seq<Segment>, head: string, resolve: string -> string)
    requires forall k :: 0 <= k < |t| && Matches(t[k], head) ==> Quiet(resolve(t[k].text))
    ensures var answers := OneAnswerEach(t, head, resolve);
            Knows(answers, head, resolve) && Covers(answers, head, t)
            && forall p :: p in answers ==> answers[p] == [Lit(resolve(p))]
  {
    hide Quiet;
    var answers := OneAnswerEach(t, head, resolve);
    forall p | p in answers
      ensures PlainTemplate(answers[p]) && Covers(answers, head, answers[p]) && Render(answers[p]) == resolve(p)
    {
      RenderOne(Lit(resolve(p)));
    }
  }

  lemma {:induction false} ExpandLiteral(answers: Answers, head: string, resolve: string -> string, seg: Segment, depth: nat)
    requires depth > 0
    requires Matches(seg, head) ==> seg.text in answers && answers[seg.text] == [Lit(resolve(seg.text))]
    ensures Settles(answers, head, [seg], depth)
    ensures Expand(answers, head, [seg], depth) == [FillSegment(seg, head, resolve)]
  {
    assert forall k :: 0 <= k < |[seg]| ==> [seg][k] == seg;
    if Matches(seg, head) {
      NothingToExpand(answers, head, [Lit(resolve(seg.text))], depth - 1);
    }
    ExpandOne(answers, head, seg, depth);
  }

  lemma {:induction false} ExpandIsFill(answers: Answers, head: string, resolve: string -> string, t: seq<Segment>, depth: nat)
    requires depth > 0 && Covers(answers, head, t) && forall p :: p in answers ==> answers[p] == [Lit(resolve(p))]
    ensures Settles(answers, head, t, depth) && Expand(answers, head, t, depth) == FillAll(t, head, resolve)
    decreases |t|
  {
    if t == [] {
      NothingToExpand(answers, head, t, depth);
      assert FillAll(t, head, resolve) == [];
    } else {
      var seg, rest := t[0], t[1..];
      assert t == [seg] + rest;
      ExpandLiteral(answers, head, resolve, seg, depth);
      hide Settles, Expand, Matches, FillSegment;
      ExpandIsFill(answers, head, resolve, rest, depth);
      ExpandCons(answers, head, seg, rest, depth);
      assert FillAll(t, head, resolve) == [FillSegment(seg, head, resolve)] + FillAll(rest, head, resolve);
    }
  }

  /** When the answers used open no reference, one loop fills every reference of its head at once and touches nothing else. */
  lemma {:induction false} RewriteIsSimultaneous(t: seq<Segment>, head: string, resolve: string -> string)
    requires PlainTemplate(t) && BraceFree(head) && head != ""
    requires forall k :: 0 <= k < |t| && Matches(t[k], head) ==> Quiet(resolve(t[k].text))
    ensures Ends(Render(t), head, resolve) && Rewrite(Render(t), head, resolve) == Render(FillAll(t, head, resolve))
    ensures PlainTemplate(FillAll(t, head, resolve))
  {
    var answers := OneAnswerEach(t, head, resolve);
    OneAnswerKnows(t, head, resolve);
    ExpandIsFill(answers, head, resolve, t, |answers| + 1);
    hide Quiet, Rewrite, Ends, Render, EndsIn, After, Knows, Covers, Settles, OneAnswerEach, PlainTemplate, Expand;
    LoopExpands(answers, head, resolve, t, |answers| + 1);
    RewriteIn(Render(t), head, resolve, Rounds(answers, head, t, |answers| + 1));
  }

  // ---------- the whole engine ----------

  /** One loop of the engine. */
  datatype Stage = Stage(head: string, resolve: string -> string)

  ghost predicate GoodHeads(stages: seq<Stage>) {
    forall k :: 0 <= k < |stages| ==> BraceFree(stages[k].head) && stages[k].head != ""
  }

  /** Every loop ends on what the ones before it have made of `s`. */
  ghost predicate AllEnd(s: string, stages: seq<Stage>)
    requires GoodHeads(stages)
    decreases |stages|
  {
    stages == [] ||
    (Ends(s, stages[0].head, stages[0].resolve) && AllEnd(Rewrite(s, stages[0].head, stages[0].resolve), stages[1..]))
  }

  /** One loop after the other. */
  ghost function RunAll(s: string, stages: seq<Stage>): string
    requires GoodHeads(stages) && AllEnd(s, stages)
    decreases |stages|
  {
    if stages == [] then s else RunAll(Rewrite(s, stages[0].head, stages[0].resolve), stages[1..])
  }

  datatype Source = Source(prefix: string, value: Option<Value>)

  datatype Context = Context(
    host: Option<Value>, config: Option<Value>, serverConfig: Option<Value>, server: Option<Value>,
    owner: Option<Value>, modules: map<string, Option<ModuleRecord>>)

  /** Longer prefixes first. */
  function Sources(ctx: Context): (sources: seq<Source>)
    ensures |sources| == 5
  {
    [Source("host", ctx.host), Source("config", ctx.config), Source("server.config", ctx.serverConfig),
     Source("server", ctx.server), Source("module", ctx.owner)]
  }

  ghost predicate GoodPrefixes(sources: seq<Source>) {
    forall k :: 0 <= k < |sources| ==> BraceFree(sources[k].prefix + ".")
  }

  /** The stages of the present sources, then some more. */
  ghost function SourceStages(sources: seq<Source>, more: seq<Stage>): (stages: seq<Stage>)
    ensures GoodPrefixes(sources) && GoodHeads(more) ==> GoodHeads(stages)
    decreases |sources|
  {
    if sources == [] then more
    else
      var rest := SourceStages(sources[1..], more);
      if sources[0].value.None? then rest
      else [Stage(sources[0].prefix + ".", Resolver(sources[0].value.value, sources[0].prefix))] + rest
  }

  ghost function ModuleStages(modules: map<string, Option<ModuleRecord>>): (stages: seq<Stage>)
    ensures GoodHeads(stages)
  {
    if modules == map[] then [] else [Stage("modules.", ModuleResolver(modules))]
  }

  ghost function Stages(ctx: Context): (stages: seq<Stage>)
    ensures GoodHeads(stages)
  {
    PrefixesAreGood(ctx);
    SourceStages(Sources(ctx), ModuleStages(ctx.modules))
  }

  lemma {:induction false} PrefixesAreGood(ctx: Context)
    ensures GoodPrefixes(Sources(ctx))
  {
    forall k | 0 <= k < 5 ensures BraceFree(Sources(ctx)[k].prefix + ".") {
      assert k == 0 || k == 1 || k == 2 || k == 3 || k == 4;
    }
  }

  lemma {:induction false} NoStages(s: string, more: seq<Stage>)
    ensures RunAll(s, []) == s && SourceStages([], more) == more
  {
  }

  lemma {:induction false} NothingToSubstitute(s: string, stages: seq<Stage>)
    requires GoodHeads(stages) && !Contains(s, "{{")
    ensures AllEnd(s, stages) && RunAll(s, stages) == s
    decreases |stages|
  {
    if stages != [] {
      NoBracesNoReference(s, stages[0].head);
      hide HasReference, Ends, Rewrite, Contains;
      NothingToDo(s, stages[0].head, stages[0].resolve);
      NothingToSubstitute(s, stages[1..]);
    }
  }

  lemma {:induction false} NoBracesNoReference(s: string, head: string)
    requires !Contains(s, "{{")
    ensures !HasReference(s, head)
  {
    var i := Index(s, "{{" + head);
    if i != -1 {
      PrefixAt(s, "{{" + head, "{{", i);
    }
  }

  lemma {:induction false} TakeStage(s: string, stages: seq<Stage>)
    requires GoodHeads(stages) && stages != [] && AllEnd(s, stages)
    ensures GoodHeads(stages[1..]) && Ends(s, stages[0].head, stages[0].resolve)
    ensures AllEnd(Rewrite(s, stages[0].head, stages[0].resolve), stages[1..])
    ensures RunAll(s, stages) == RunAll(Rewrite(s, stages[0].head, stages[0].resolve), stages[1..])
  {
  }

  method Substitute(input: string, ctx: Context) returns (result: string)
    requires AllEnd(input, Stages(ctx))
    ensures result == RunAll(input, Stages(ctx))
  {
    hide Rewrite, Ends, Resolver, AllEnd, RunAll, Contains, BraceFree;
    if !Contains(input, "{{") {
      NothingToSubstitute(input, Stages(ctx));
      return input;
    }
    var sources := Sources(ctx);
    ghost var more := ModuleStages(ctx.modules);
    result := input;
    for k := 0 to |sources|
      invariant GoodHeads(SourceStages(sources[k..], more)) && AllEnd(result, SourceStages(sources[k..], more))
      invariant RunAll(result, SourceStages(sources[k..], more)) == RunAll(input, Stages(ctx))
    {
      assert sources[k..][1..] == sources[k + 1..];
      if sources[k].value.Some? {
        TakeStage(result, SourceStages(sources[k..], more));
        result := SubstituteNestedPaths(result, sources[k].value.value, sources[k].prefix);
      }
    }
    NoStages(result, more);
    if |ctx.modules| > 0 {
      TakeStage(result, more);
      result := SubstituteModuleReferences(result, ctx.modules);
      NoStages(result, more);
    }
  }

  // ---------- the engine on templates ----------

  /** The answers that each loop meets when `t` goes through them one after the other. */
  ghost predicate Answered(t: seq<Segment>, stages: seq<Stage>, all: seq<Answers>): (r: bool)
    ensures r ==> |all| == |stages|
    decreases |stages|
  {
    && |all| == |stages|
    && (stages == [] ||
        var answers, head := all[0], stages[0].head;
        && Covers(answers, head, t) && Knows(answers, head, stages[0].resolve)
        && (RunsInCircle(answers, head, t) || Answered(Expanded(answers, head, t), stages[1..], all[1..])))
  }

  /** No loop meets a chain of references that runs in a circle. */
  ghost predicate NoCircles(t: seq<Segment>, stages: seq<Stage>, all: seq<Answers>)
    requires |all| == |stages|
    decreases |stages|
  {
    stages == [] ||
    (!RunsInCircle(all[0], stages[0].head, t) && NoCircles(Expanded(all[0], stages[0].head, t), stages[1..], all[1..]))
  }

  /** What the loops make of a template, one expansion after the other. */
  ghost function Meaning(t: seq<Segment>, stages: seq<Stage>, all: seq<Answers>): seq<Segment>
    requires |all| == |stages|
    decreases |stages|
  {
    if stages == [] then t else Meaning(Expanded(all[0], stages[0].head, t), stages[1..], all[1..])
  }

  lemma {:induction false} StagesExpand(t: seq<Segment>, stages: seq<Stage>, all: seq<Answers>)
    requires GoodHeads(stages) && PlainTemplate(t) && Answered(t, stages, all)
    ensures AllEnd(Render(t), stages) <==> NoCircles(t, stages, all)
    ensures NoCircles(t, stages, all) ==> RunAll(Render(t), stages) == Render(Meaning(t, stages, all))
    decreases |stages|
  {
    hide Covers, Knows, RunsInCircle, Expanded, PlainTemplate, Render, Ends, Rewrite, BraceFree;
    if stages != [] {
      LoopEndsIffNoCycle(all[0], stages[0].head, stages[0].resolve, t);
      if !RunsInCircle(all[0], stages[0].head, t) {
        StagesExpand(Expanded(all[0], stages[0].head, t), stages[1..], all[1..]);
      }
    }
  }

  /** What every segment means on its own, one after the other. */
  ghost function MeaningEach(t: seq<Segment>, stages: seq<Stage>, all: seq<Answers>): seq<Segment>
    requires |all| == |stages|
    decreases |t|
  {
    if t == [] then [] else Meaning([t[0]], stages, all) + MeaningEach(t[1..], stages, all)
  }

  lemma {:induction false} ExpandedAppend(answers: Answers, head: string, resolve: string -> string, a: seq<Segment>, b: seq<Segment>)
    requires Covers(answers, head, a + b) && Knows(answers, head, resolve) && !RunsInCircle(answers, head, a + b)
    ensures Covers(answers, head, b) && !RunsInCircle(answers, head, b)
    ensures Expanded(answers, head, a + b) == Expanded(answers, head, a) + Expanded(answers, head, b)
  {
    CoversSuffix(answers, head, a, b);
    hide Covers, Knows, RunsInCircle, Settles, Expand;
    SettlesIffNoCircle(answers, head, resolve, a + b);
    SettlesAppend(answers, head, a, b, |answers|);
    ExpandAppend(answers, head, a, b, |answers|);
    NoCircleFrom(answers, head, b, |answers|);
  }

  lemma {:induction false} CoversSuffix(answers: Answers, head: string, a: seq<Segment>, b: seq<Segment>)
    requires Covers(answers, head, a + b)
    ensures Covers(answers, head, b)
  {
    hide Matches;
    assert forall k :: 0 <= k < |b| ==> (a + b)[|a| + k] == b[k];
  }

  lemma {:induction false} MeaningAppend(a: seq<Segment>, b: seq<Segment>, stages: seq<Stage>, all: seq<Answers>)
    requires Answered(a + b, stages, all) && NoCircles(a + b, stages, all)
    ensures Answered(b, stages, all) && NoCircles(b, stages, all)
    ensures Meaning(a + b, stages, all) == Meaning(a, stages, all) + Meaning(b, stages, all)
    decreases |stages|
  {
    hide Covers, Knows, RunsInCircle, Expanded;
    if stages != [] {
      ExpandedAppend(all[0], stages[0].head, stages[0].resolve, a, b);
      MeaningAppend(Expanded(all[0], stages[0].head, a), Expanded(all[0], stages[0].head, b), stages[1..], all[1..]);
    }
  }

  lemma {:induction false} MeaningIsEach(t: seq<Segment>, stages: seq<Stage>, all: seq<Answers>)
    requires Answered(t, stages, all) && NoCircles(t, stages, all)
    ensures Meaning(t, stages, all) == MeaningEach(t, stages, all)
    decreases |t|
  {
    hide Answered, NoCircles, Meaning;
    if t == [] {
      MeaningOfNothing(stages, all);
    } else {
      assert [t[0]] + t[1..] == t;
      MeaningAppend([t[0]], t[1..], stages, all);
      MeaningIsEach(t[1..], stages, all);
    }
  }

  lemma {:induction false} MeaningOfNothing(stages: seq<Stage>, all: seq<Answers>)
    requires |all| == |stages|
    ensures Meaning([], stages, all) == []
    decreases |stages|
  {
    if stages != [] {
      MeaningOfNothing(stages[1..], all[1..]);
    }
  }

  /**
   On a template the whole engine ends exactly when no loop meets a circle, and then every segment is
   replaced by its own meaning, all at once.
   */
  lemma {:induction false} SubstituteExpands(t: seq<Segment>, ctx: Context, all: seq<Answers>)
    requires PlainTemplate(t) && Answered(t, Stages(ctx), all)
    ensures AllEnd(Render(t), Stages(ctx)) <==> NoCircles(t, Stages(ctx), all)
    ensures NoCircles(t, Stages(ctx), all) ==> RunAll(Render(t), Stages(ctx)) == Render(MeaningEach(t, Stages(ctx), all))
  {
    hide Answered, NoCircles, Meaning, MeaningEach, Stages, PlainTemplate, AllEnd, RunAll, Render;
    StagesExpand(t, Stages(ctx), all);
    if NoCircles(t, Stages(ctx), all) {
      MeaningIsEach(t, Stages(ctx), all);
    }
  }

  // ---------- answers read off the context ----------

  /** A text that some template renders to. */
  ghost predicate Templated(text: string) {
    exists t :: PlainTemplate(t) && Render(t) == text
  }

  ghost function Parsed(text: string): (t: seq<Segment>)
    requires Templated(text)
    ensures PlainTemplate(t) && Render(t) == text
  {
    var t :| PlainTemplate(t) && Render(t) == text;
    t
  }

  /** Every answer is one of these texts, and each of them is a template. */
  ghost predicate AnswersWith(resolve: string -> string, texts: set<string>) {
    && (forall p :: resolve(p) in texts)
    && forall text :: text in texts ==> Templated(text)
  }

  ghost predicate AnswersTemplates(resolve: string -> string) {
    exists texts :: AnswersWith(resolve, texts)
  }

  ghost function Paths(t: seq<Segment>): set<string> {
    set k | 0 <= k < |t| :: t[k].text
  }

  ghost function AnswersIn(t: seq<Segment>, resolve: string -> string, texts: set<string>): Answers
    requires AnswersWith(resolve, texts)
  {
    map p | p in Paths(t) + (set text, q | text in texts && q in Paths(Parsed(text)) :: q) :: Parsed(resolve(p))
  }

  /** The answers to all paths that `t` or some answer holds. */
  ghost function AnswersFor(t: seq<Segment>, resolve: string -> string): Answers
    requires AnswersTemplates(resolve)
  {
    var texts :| AnswersWith(resolve, texts);
    AnswersIn(t, resolve, texts)
  }

  lemma {:induction false} AnswersInKnow(t: seq<Segment>, head: string, resolve: string -> string, texts: set<string>)
    requires AnswersWith(resolve, texts)
    ensures var answers := AnswersIn(t, resolve, texts);
            Covers(answers, head, t) && Knows(answers, head, resolve)
            && forall p :: p in answers ==> Templated(resolve(p)) && answers[p] == Parsed(resolve(p))
  {
    hide PlainTemplate, Render, Matches, Templated, Parsed;
    var answers := AnswersIn(t, resolve, texts);
    CoversPaths(answers, head, t);
    forall p | p in answers ensures Covers(answers, head, answers[p]) {
      assert resolve(p) in texts;
      CoversPaths(answers, head, Parsed(resolve(p)));
    }
  }

  lemma {:induction false} CoversPaths(answers: Answers, head: string, t: seq<Segment>)
    requires forall q :: q in Paths(t) ==> q in answers
    ensures Covers(answers, head, t)
  {
    hide Matches;
    forall k | 0 <= k < |t| ensures t[k].text in answers {
      assert t[k].text in Paths(t);
    }
  }

  /** Finitely many templates as answers are all that a loop needs to know. */
  lemma {:induction false} AnswersForKnow(t: seq<Segment>, head: string, resolve: string -> string)
    requires AnswersTemplates(resolve)
    ensures var answers := AnswersFor(t, resolve);
            Covers(answers, head, t) && Knows(answers, head, resolve)
            && forall p :: p in answers ==> Templated(resolve(p)) && answers[p] == Parsed(resolve(p))
  {
    hide AnswersWith, AnswersIn, Covers, Knows, Parsed, Templated;
    var texts :| AnswersWith(resolve, texts) && AnswersFor(t, resolve) == AnswersIn(t, resolve, texts);
    AnswersInKnow(t, head, resolve, texts);
  }

  /** Each path of the chain stands in the text that the one before resolves to. */
  ghost predicate Leads(resolve: string -> string, head: string, w: seq<string>) {
    && w != [] && (forall i :: 0 <= i < |w| ==> Templated(resolve(w[i])))
    && forall i :: 0 <= i < |w| - 1 ==> Refers(Parsed(resolve(w[i])), head, w[i + 1])
  }

  /** Following references from `t` through the texts they resolve to comes back to a path. */
  ghost predicate ComesBack(resolve: string -> string, head: string, t: seq<Segment>) {
    exists w, i, j :: Leads(resolve, head, w) && Refers(t, head, w[0]) && 0 <= i < j < |w| && w[i] == w[j]
  }

  lemma {:induction false} LeadsIffChain(answers: Answers, head: string, resolve: string -> string, t: seq<Segment>, w: seq<string>)
    requires Covers(answers, head, t) && Knows(answers, head, resolve)
    requires forall p :: p in answers ==> Templated(resolve(p)) && answers[p] == Parsed(resolve(p))
    requires w != [] && Refers(t, head, w[0])
    ensures Leads(resolve, head, w) <==> Chain(answers, head, w)
  {
    hide Templated, Parsed, Render, PlainTemplate, Matches;
    if Leads(resolve, head, w) {
      for n := 1 to |w|
        invariant forall i :: 0 <= i < n ==> w[i] in answers
      {
        assert Refers(answers[w[n - 1]], head, w[n]);
      }
    }
  }

  lemma {:induction false} ComesBackIffCircle(t: seq<Segment>, head: string, resolve: string -> string)
    requires AnswersTemplates(resolve)
    ensures RunsInCircle(AnswersFor(t, resolve), head, t) <==> ComesBack(resolve, head, t)
  {
    var answers := AnswersFor(t, resolve);
    AnswersForKnow(t, head, resolve);
    forall w | w != [] && Refers(t, head, w[0]) ensures Leads(resolve, head, w) <==> Chain(answers, head, w) {
      hide Leads, Chain, Refers, Knows, Covers, AnswersFor;
      LeadsIffChain(answers, head, resolve, t, w);
    }
    hide Refers, Knows, Covers, AnswersFor, AnswersTemplates;
    assert forall w :: Leads(resolve, head, w) ==> w != [];
    assert forall w :: Chain(answers, head, w) ==> w != [];
  }

  /** One source whose texts are templates: its loop ends exactly when no path comes back to itself through them. */
  lemma {:induction false} ValueLoopEndsIffNoCycle(v: Value, prefix: string, t: seq<Segment>)
    requires PlainTemplate(t) && BraceFree(prefix + ".") && forall text :: text in Texts(v) ==> Templated(text)
    ensures Ends(Render(t), prefix + ".", Resolver(v, prefix)) <==> !ComesBack(Resolver(v, prefix), prefix + ".", t)
  {
    var resolve, head := Resolver(v, prefix), prefix + ".";
    ValueAnswers(v, prefix);
    hide PlainTemplate, BraceFree, Templated, Render, Ends, ComesBack, AnswersTemplates, AnswersFor, Covers, Knows, RunsInCircle, Lookup;
    AnswersForKnow(t, head, resolve);
    ComesBackIffCircle(t, head, resolve);
    LoopEndsIffNoCycle(AnswersFor(t, resolve), head, resolve, t);
  }

  lemma {:induction false} LiteralIsTemplated(text: string)
    requires Quiet(text)
    ensures Templated(text)
  {
    RenderOne(Lit(text));
    assert PlainTemplate([Lit(text)]);
  }

  lemma {:induction false} ValueAnswers(v: Value, prefix: string)
    requires forall text :: text in Texts(v) ==> Templated(text)
    ensures AnswersTemplates(Resolver(v, prefix))
  {
    LiteralIsTemplated("");
    hide Templated, Lookup;
    forall p ensures Resolver(v, prefix)(p) in Texts(v) + {""} {
      LookupGivesText(v, prefix, p);
    }
    assert AnswersWith(Resolver(v, prefix), Texts(v) + {""});
  }

  ghost predicate TemplatedModules(modules: map<string, Option<ModuleRecord>>) {
    forall name :: name in modules && modules[name].Some? ==>
      Templated(modules[name].value.id) && forall text :: text in Texts(modules[name].value.value) ==> Templated(text)
  }

  lemma {:induction false} BraceFreeIsTemplated(text: string)
    requires BraceFree(text)
    ensures Templated(text)
  {
    hide Templated;
    LiteralIsTemplated(text);
  }

  lemma {:induction false} ContainerNameIsTemplated(id: string)
    requires Templated(id)
    ensures Templated("discopanel-module-" + id)
  {
    var t, name := Parsed(id), Lit("discopanel-module-");
    assert PlainTemplate([name] + t);
    hide PlainTemplate;
    assert ([name] + t)[1..] == t;
    assert Render([name] + t) == "discopanel-module-" + id;
  }

  lemma {:induction false} RecordTextIsTemplated(m: ModuleRecord, text: string)
    requires Templated(m.id) && forall text :: text in Texts(m.value) ==> Templated(text)
    requires text in RecordTexts(m)
    ensures Templated(text)
  {
    hide Templated, Itoa, Texts;
    if text !in Texts(m.value) {
      ContainerNameIsTemplated(m.id);
      ItoaIsPlain(Max(m.firstPort, 0));
      if text != "discopanel-module-" + m.id {
        BraceFreeIsTemplated(text);
      }
    }
  }

  lemma {:induction false} ModuleAnswers(modules: map<string, Option<ModuleRecord>>)
    requires TemplatedModules(modules)
    ensures AnswersTemplates(ModuleResolver(modules))
  {
    LiteralIsTemplated("");
    hide Templated, RecordTexts, Quiet, ModuleLookup;
    forall p ensures ModuleResolver(modules)(p) in ModuleTexts(modules) {
      ModuleLookupGivesText(modules, p);
    }
    forall text | text in ModuleTexts(modules) ensures Templated(text) {
      if text != "" {
        var name :| name in modules && modules[name].Some? && text in RecordTexts(modules[name].value);
        RecordTextIsTemplated(modules[name].value, text);
      }
    }
    assert AnswersWith(ModuleResolver(modules), ModuleTexts(modules));
  }

  /** All texts of the present sources and sibling modules are templates. */
  ghost predicate TemplatedContext(ctx: Context) {
    && (forall k :: 0 <= k < 5 && Sources(ctx)[k].value.Some? ==>
          forall text :: text in Texts(Sources(ctx)[k].value.value) ==> Templated(text))
    && TemplatedModules(ctx.modules)
  }

  ghost predicate AllTemplates(stages: seq<Stage>) {
    forall k :: 0 <= k < |stages| ==> AnswersTemplates(stages[k].resolve)
  }

  lemma {:induction false} SourcesAnswer(sources: seq<Source>, more: seq<Stage>)
    requires AllTemplates(more)
    requires forall k :: 0 <= k < |sources| && sources[k].value.Some? ==>
               forall text :: text in Texts(sources[k].value.value) ==> Templated(text)
    ensures AllTemplates(SourceStages(sources, more))
    decreases |sources|
  {
    hide Templated, AnswersTemplates, Texts, GoodPrefixes, GoodHeads, Lookup;
    if sources != [] {
      SourcesAnswer(sources[1..], more);
      if sources[0].value.Some? {
        ValueAnswers(sources[0].value.value, sources[0].prefix);
      }
    }
  }

  lemma {:induction false} ContextAnswers(ctx: Context)
    requires TemplatedContext(ctx)
    ensures AllTemplates(Stages(ctx))
  {
    hide Sources, SourceStages, Templated, AnswersTemplates, Texts, ModuleLookup;
    if ctx.modules != map[] {
      ModuleAnswers(ctx.modules);
    }
    SourcesAnswer(Sources(ctx), ModuleStages(ctx.modules));
  }

  /** The answers each loop meets, read off the stages. */
  ghost function AllAnswers(t: seq<Segment>, stages: seq<Stage>): (all: seq<Answers>)
    requires AllTemplates(stages)
    ensures |all| == |stages|
    decreases |stages|
  {
    if stages == [] then []
    else
      var answers := AnswersFor(t, stages[0].resolve);
      [answers] + AllAnswers(Expanded(answers, stages[0].head, t), stages[1..])
  }

  lemma {:induction false} AllAnswered(t: seq<Segment>, stages: seq<Stage>)
    requires AllTemplates(stages)
    ensures Answered(t, stages, AllAnswers(t, stages))
    decreases |stages|
  {
    hide AnswersTemplates, AnswersFor, Covers, Knows, Expanded, RunsInCircle, Parsed, Templated;
    if stages != [] {
      AnswersForKnow(t, stages[0].head, stages[0].resolve);
      AllAnswered(Expanded(AnswersFor(t, stages[0].resolve), stages[0].head, t), stages[1..]);
    }
  }

  /**
   When all texts of the context are templates, nothing else need be known: the engine ends exactly
   when no loop meets a circle among them, and replaces every segment by its own meaning.
   */
  lemma {:induction false} ContextExpands(t: seq<Segment>, ctx: Context)
    requires PlainTemplate(t) && TemplatedContext(ctx)
    ensures AllTemplates(Stages(ctx))
    ensures AllEnd(Render(t), Stages(ctx)) <==> NoCircles(t, Stages(ctx), AllAnswers(t, Stages(ctx)))
    ensures NoCircles(t, Stages(ctx), AllAnswers(t, Stages(ctx))) ==>
              RunAll(Render(t), Stages(ctx)) == Render(MeaningEach(t, Stages(ctx), AllAnswers(t, Stages(ctx))))
  {
    hide Stages, PlainTemplate, AllEnd, NoCircles, RunAll, Render, MeaningEach, Answered, AllTemplates, TemplatedContext, AllAnswers;
    ContextAnswers(ctx);
    AllAnswered(t, Stages(ctx));
    SubstituteExpands(t, ctx, AllAnswers(t, Stages(ctx)));
  }

  // ---------- answers that open no reference ----------

  /** The first stage whose head the reference carries answers it; a reference nobody claims stays as written. */
  function AnswerOf(seg: Segment, stages: seq<Stage>): Segment {
    if stages == [] then seg
    else if Matches(seg, stages[0].head) then Lit(stages[0].resolve(seg.text))
    else AnswerOf(seg, stages[1..])
  }

  function AnswerAll(t: seq<Segment>, stages: seq<Stage>): seq<Segment> {
    seq(|t|, k requires 0 <= k < |t| => AnswerOf(t[k], stages))
  }

  lemma {:induction false} LiteralsStay(text: string, stages: seq<Stage>)
    ensures AnswerOf(Lit(text), stages) == Lit(text)
    decreases |stages|
  {
    if stages != [] {
      LiteralsStay(text, stages[1..]);
    }
  }

  lemma {:induction false} AnswerAfterFill(seg: Segment, stages: seq<Stage>)
    requires stages != []
    ensures AnswerOf(FillSegment(seg, stages[0].head, stages[0].resolve), stages[1..]) == AnswerOf(seg, stages)
  {
    LiteralsStay(stages[0].resolve(seg.text), stages[1..]);
  }

  lemma {:induction false} StagesAreSimultaneous(t: seq<Segment>, stages: seq<Stage>)
    requires GoodHeads(stages) && PlainTemplate(t)
    requires forall k :: 0 <= k < |t| ==> PlainSegment(AnswerOf(t[k], stages))
    ensures AllEnd(Render(t), stages) && RunAll(Render(t), stages) == Render(AnswerAll(t, stages))
    decreases |stages|
  {
    hide Render, Rewrite, Ends, Quiet, BraceFree;
    if stages == [] {
      assert AnswerAll(t, stages) == t;
    } else {
      var head, resolve := stages[0].head, stages[0].resolve;
      RewriteIsSimultaneous(t, head, resolve);
      var next := FillAll(t, head, resolve);
      forall k | 0 <= k < |t| ensures AnswerOf(next[k], stages[1..]) == AnswerOf(t[k], stages) {
        AnswerAfterFill(t[k], stages);
      }
      hide AnswerOf, FillSegment, PlainSegment;
      StagesAreSimultaneous(next, stages[1..]);
      assert AnswerAll(next, stages[1..]) == AnswerAll(t, stages);
    }
  }

  /**
   On a template whose answers open no reference the whole engine is one simultaneous substitution by
   the answer of the first source that claims each reference.  Nothing is asked of any other value.
   */
  lemma {:induction false} SubstituteIsSimultaneous(t: seq<Segment>, ctx: Context)
    requires PlainTemplate(t) && forall k :: 0 <= k < |t| ==> PlainSegment(AnswerOf(t[k], Stages(ctx)))
    ensures AllEnd(Render(t), Stages(ctx)) && RunAll(Render(t), Stages(ctx)) == Render(AnswerAll(t, Stages(ctx)))
  {
    hide Stages;
    StagesAreSimultaneous(t, Stages(ctx));
  }

  /** The first source whose prefix claims the path decides. */
  lemma {:induction false} FirstClaim(seg: Segment, sources: seq<Source>, more: seq<Stage>, k: nat)
    requires k < |sources| && sources[k].value.Some? && Matches(seg, sources[k].prefix + ".")
    requires forall j :: 0 <= j < k && sources[j].value.Some? ==> !Matches(seg, sources[j].prefix + ".")
    ensures AnswerOf(seg, SourceStages(sources, more)) == Lit(Lookup(sources[k].value.value, sources[k].prefix, seg.text))
    decreases k
  {
    hide Matches, Lookup, GoodPrefixes, GoodHeads;
    var stages := SourceStages(sources, more);
    if k == 0 {
      assert stages[0] == Stage(sources[0].prefix + ".", Resolver(sources[0].value.value, sources[0].prefix));
    } else {
      FirstClaim(seg, sources[1..], more, k - 1);
      if sources[0].value.Some? {
        assert stages[0].head == sources[0].prefix + "." && stages[1..] == SourceStages(sources[1..], more);
      }
    }
  }

  /** A path that no source claims goes to the sibling modules. */
  lemma {:induction false} NoClaim(seg: Segment, sources: seq<Source>, more: seq<Stage>)
    requires forall j :: 0 <= j < |sources| && sources[j].value.Some? ==> !Matches(seg, sources[j].prefix + ".")
    ensures AnswerOf(seg, SourceStages(sources, more)) == AnswerOf(seg, more)
    decreases |sources|
  {
    hide Matches, Lookup, GoodPrefixes, GoodHeads;
    if sources != [] {
      NoClaim(seg, sources[1..], more);
      if sources[0].value.Some? {
        var stages := SourceStages(sources, more);
        assert stages[0].head == sources[0].prefix + "." && stages[1..] == SourceStages(sources[1..], more);
      }
    }
  }

  /** The engine makes `text` of the lone reference `{{path}}`. */
  ghost predicate Becomes(ctx: Context, path: string, text: string) {
    AllEnd("{{" + path + "}}", Stages(ctx)) && RunAll("{{" + path + "}}", Stages(ctx)) == text
  }

  lemma {:induction false} LoneReference(ctx: Context, path: string)
    requires BraceFree(path) && PlainSegment(AnswerOf(Ref(path), Stages(ctx)))
    ensures Becomes(ctx, path, Show(AnswerOf(Ref(path), Stages(ctx))))
  {
    hide Rewrite, Ends, AllEnd, RunAll, Stages, AnswerOf;
    var seg := Ref(path);
    SubstituteIsSimultaneous([seg], ctx);
    RenderOne(seg);
    RenderOne(AnswerOf(seg, Stages(ctx)));
    assert AnswerAll([seg], Stages(ctx)) == [AnswerOf(seg, Stages(ctx))];
  }

  /** The answer of the k-th source, when no one before it claims the path. */
  lemma {:induction false} SourceAnswers(ctx: Context, k: nat, path: string)
    requires k < 5 && Sources(ctx)[k].value.Some? && Sources(ctx)[k].prefix + "." <= path
    requires forall j :: 0 <= j < k && Sources(ctx)[j].value.Some? ==> !(Sources(ctx)[j].prefix + "." <= path)
    requires BraceFree(path) && Quiet(Lookup(Sources(ctx)[k].value.value, Sources(ctx)[k].prefix, path))
    ensures Becomes(ctx, path, Lookup(Sources(ctx)[k].value.value, Sources(ctx)[k].prefix, path))
  {
    hide Lookup, Sources, SourceStages, AnswerOf, Becomes, Quiet, BraceFree;
    FirstClaim(Ref(path), Sources(ctx), ModuleStages(ctx.modules), k);
    LoneReference(ctx, path);
  }

  lemma {:induction false} OnePrefix(path: string)
    ensures "host." <= path ==> !("config." <= path) && !("server." <= path) && !("module." <= path) && !("modules." <= path)
    ensures "config." <= path ==> !("server." <= path) && !("module." <= path) && !("modules." <= path)
    ensures "server." <= path ==> !("module." <= path) && !("modules." <= path)
    ensures "module." <= path ==> !("modules." <= path)
    ensures "server.config." <= path ==> "server." <= path
  {
    PathsDiffer("module.", "modules.", path, 6);
    assert "server.config."[..7] == "server.";
    assert "host."[0] == 'h' && "config."[0] == 'c' && "server."[0] == 's' && "module."[0] == 'm' && "modules."[0] == 'm';
  }

  lemma {:induction false} PathsDiffer(a: string, b: string, path: string, i: nat)
    requires i < |a| && i < |b| && a[i] != b[i]
    ensures !(a <= path && b <= path)
  {
    assert a <= path ==> path[i] == a[i];
    assert b <= path ==> path[i] == b[i];
  }

  /**
   Which part of the context a reference is answered from: the host, the configuration and the owning
   module answer all paths under their own name.
   */
  lemma {:induction false} WhoAnswers(ctx: Context, path: string)
    requires BraceFree(path)
    ensures "host." <= path && ctx.host.Some? && Quiet(Lookup(ctx.host.value, "host", path))
            ==> Becomes(ctx, path, Lookup(ctx.host.value, "host", path))
    ensures "config." <= path && ctx.config.Some? && Quiet(Lookup(ctx.config.value, "config", path))
            ==> Becomes(ctx, path, Lookup(ctx.config.value, "config", path))
    ensures "module." <= path && ctx.owner.Some? && Quiet(Lookup(ctx.owner.value, "module", path))
            ==> Becomes(ctx, path, Lookup(ctx.owner.value, "module", path))
  {
    OnePrefix(path);
    WhichSource(ctx);
    hide Lookup, Becomes, Quiet, BraceFree, Sources;
    if "host." <= path && ctx.host.Some? && Quiet(Lookup(ctx.host.value, "host", path)) {
      SourceAnswers(ctx, 0, path);
    }
    if "config." <= path && ctx.config.Some? && Quiet(Lookup(ctx.config.value, "config", path)) {
      SourceAnswers(ctx, 1, path);
    }
    if "module." <= path && ctx.owner.Some? && Quiet(Lookup(ctx.owner.value, "module", path)) {
      SourceAnswers(ctx, 4, path);
    }
  }

  /** A present server config takes its paths away from the server, which answers all others under its name. */
  lemma {:induction false} ServerAnswers(ctx: Context, path: string)
    requires BraceFree(path)
    ensures "server.config." <= path && ctx.serverConfig.Some? && Quiet(Lookup(ctx.serverConfig.value, "server.config", path))
            ==> Becomes(ctx, path, Lookup(ctx.serverConfig.value, "server.config", path))
    ensures "server." <= path && !("server.config." <= path && ctx.serverConfig.Some?)
            && ctx.server.Some? && Quiet(Lookup(ctx.server.value, "server", path))
            ==> Becomes(ctx, path, Lookup(ctx.server.value, "server", path))
  {
    OnePrefix(path);
    WhichSource(ctx);
    hide Lookup, Becomes, Quiet, BraceFree, Sources;
    if "server.config." <= path && ctx.serverConfig.Some? && Quiet(Lookup(ctx.serverConfig.value, "server.config", path)) {
      SourceAnswers(ctx, 2, path);
    }
    if "server." <= path && !("server.config." <= path && ctx.serverConfig.Some?)
       && ctx.server.Some? && Quiet(Lookup(ctx.server.value, "server", path)) {
      SourceAnswers(ctx, 3, path);
    }
  }

  lemma {:induction false} WhichSource(ctx: Context)
    ensures forall k :: 0 <= k < 5 ==> Sources(ctx)[k].value == [ctx.host, ctx.config, ctx.serverConfig, ctx.server, ctx.owner][k]
    ensures forall k :: 0 <= k < 5 ==> Sources(ctx)[k].prefix + "." == ["host.", "config.", "server.config.", "server.", "module."][k]
    ensures forall k :: 0 <= k < 5 ==> Sources(ctx)[k].prefix == ["host", "config", "server.config", "server", "module"][k]
  {
  }

  /** Sibling modules answer the paths under their name; a path that belongs to no part of the context stays as written. */
  lemma {:induction false} WhoElseAnswers(ctx: Context, path: string)
    requires BraceFree(path)
    ensures "modules." <= path && ctx.modules != map[] && Quiet(ModuleLookup(ctx.modules, path))
            ==> Becomes(ctx, path, ModuleLookup(ctx.modules, path))
    ensures !("host." <= path && ctx.host.Some?) && !("config." <= path && ctx.config.Some?)
            && !("server.config." <= path && ctx.serverConfig.Some?) && !("server." <= path && ctx.server.Some?)
            && !("module." <= path && ctx.owner.Some?) && !("modules." <= path && ctx.modules != map[])
            ==> Becomes(ctx, path, "{{" + path + "}}")
  {
    OnePrefix(path);
    WhichSource(ctx);
    hide Lookup, ModuleLookup, Becomes, Quiet, BraceFree, Sources, SourceStages;
    if forall k :: 0 <= k < 5 && Sources(ctx)[k].value.Some? ==> !(Sources(ctx)[k].prefix + "." <= path) {
      NoClaim(Ref(path), Sources(ctx), ModuleStages(ctx.modules));
      ModulesAnswer(ctx, path);
    }
  }

  lemma {:induction false} ModulesAnswer(ctx: Context, path: string)
    requires BraceFree(path) && AnswerOf(Ref(path), Stages(ctx)) == AnswerOf(Ref(path), ModuleStages(ctx.modules))
    ensures "modules." <= path && ctx.modules != map[] && Quiet(ModuleLookup(ctx.modules, path))
            ==> Becomes(ctx, path, ModuleLookup(ctx.modules, path))
    ensures !("modules." <= path && ctx.modules != map[]) ==> Becomes(ctx, path, "{{" + path + "}}")
  {
    var stages := ModuleStages(ctx.modules);
    hide ModuleLookup, Becomes, Quiet, BraceFree, Stages;
    if ctx.modules != map[] {
      assert stages[1..] == [];
    }
    if !("modules." <= path && ctx.modules != map[]) || Quiet(ModuleLookup(ctx.modules, path)) {
      LoneReference(ctx, path);
    }
  }

  lemma {:induction false} DottedHasHead(prefix: string, segs: seq<string>)
    requires segs != []
    ensures prefix + "." <= Dotted(prefix, segs)
    decreases |segs|
  {
    if |segs| > 1 {
      DottedHasHead(prefix, segs[..|segs| - 1]);
    }
  }

  /**
   Enumerating, resolving and substituting agree: the alias listed for a leaf of a source, used
   as a template, is replaced by exactly the example value it was listed with, unless an earlier
   source already claims its path.  All other values of the context may hold anything.
   */
  lemma {:induction false} ListedAliasSubstitutes(ctx: Context, k: nat, info: Info)
    requires k < |Sources(ctx)| && Sources(ctx)[k].value.Some?
    requires Deref(Sources(ctx)[k].value.value).Struct? && WellNamed(Sources(ctx)[k].value.value)
    requires info in Generate(Sources(ctx)[k].value.value, Sources(ctx)[k].prefix)
    requires BraceFree(info.path) && Quiet(info.example)
    requires forall j :: 0 <= j < k && Sources(ctx)[j].value.Some? ==> !(Sources(ctx)[j].prefix + "." <= info.path)
    ensures AllEnd("{{" + info.path + "}}", Stages(ctx)) && RunAll("{{" + info.path + "}}", Stages(ctx)) == info.example
  {
    hide Rewrite, Sources, Generate, ResolvePath, Split, Ends, AllEnd, RunAll, SourceStages, AnswerOf, WellNamed;
    var source := Sources(ctx)[k];
    var v, seg := source.value.value, Ref(info.path);
    EmittedAliasResolves(v, source.prefix, info);
    EmittedClaims(v, source.prefix, info);
    FirstClaim(seg, Sources(ctx), ModuleStages(ctx.modules), k);
    assert AnswerOf(seg, Stages(ctx)) == Lit(info.example);
    SubstituteIsSimultaneous([seg], ctx);
    RenderOne(seg);
    RenderOne(Lit(info.example));
    assert AnswerAll([seg], Stages(ctx)) == [Lit(info.example)];
  }

  lemma {:induction false} EmittedClaims(v: Value, prefix: string, info: Info)
    requires Deref(v).Struct? && WellNamed(v) && info in Generate(v, prefix)
    ensures prefix + "." <= info.path
    ensures |Split(info.path, '.')| > |Split(prefix, '.')|
  {
    var segs := EmittedIsReached(v, prefix, info);
    ReachedResolves(v, segs, info.example);
    ReachedNames(v, segs, info.example);
    DottedHasHead(prefix, segs);
    SplitDotted(prefix, segs);
  }

  lemma {:induction false} ReachedNames(v: Value, segs: seq<string>, text: string)
    requires Reaches(v, segs, text) && Deref(v).Struct?
    ensures segs != []
  {
    if v.Pointer? {
      ReachedNames(v.target, segs, text);
    }
  }

  /** The smallest circle, a value that is its own alias: the loop stands still on it. */
  lemma {:induction false} SelfReferenceStandsStill(head: string, resolve: string -> string, path: string)
    requires BraceFree(head) && BraceFree(path) && head != "" && head <= path
    requires resolve(path) == "{{" + path + "}}"
    ensures HasReference(resolve(path), head) && Round(resolve(path), head, resolve) == resolve(path)
    ensures !Ends(resolve(path), head, resolve)
  {
    var t := [Ref(path)];
    var answers: Answers := map[path := t];
    RenderOne(Ref(path));
    LeftmostReference(t, 0, head, t);
    OwnAnswer(head, resolve, path);
    hide Round, HasReference, Ends, Render, Rewrite, Covers, Knows, RunsInCircle, Expanded;
    LoopEndsIffNoCycle(answers, head, resolve, t);
    assert Splice(t, 0, t) == t;
  }

  lemma {:induction false} OwnAnswer(head: string, resolve: string -> string, path: string)
    requires BraceFree(path) && head <= path && resolve(path) == "{{" + path + "}}"
    ensures var t, answers: Answers := [Ref(path)], map[path := [Ref(path)]];
            PlainTemplate(t) && Covers(answers, head, t) && Knows(answers, head, resolve) && RunsInCircle(answers, head, t)
  {
    var t := [Ref(path)];
    var answers: Answers := map[path := t];
    RenderOne(Ref(path));
    assert t[0] == Ref(path);
    hide Render, BraceFree;
    assert Refers(t, head, path);
    var w := [path, path];
    assert Chain(answers, head, w) && w[0] == w[1];
  }
}
