/**
 The rewriting loops of the alias engine (internal/alias/alias.go): each replaces the leftmost
 `{{head...}}` reference of its input again and again until there is none.

 `Rewrite` is the outcome of such a loop for one head ("server.", "modules.") and one resolver,
 where it has one: answers may hold references themselves, so the loop need not end (`Ends`).
 */
module AliasSubstitute {
  import opened Common
  import opened GoStrings
  import opened AliasTree

  ghost predicate BraceFree(s: string) {
    forall i :: 0 <= i < |s| ==> s[i] != '{' && s[i] != '}'
  }

  function Braces(s: string): nat {
    if s == [] then 0 else Braces(s[..|s| - 1]) + if s[|s| - 1] == '{' || s[|s| - 1] == '}' then 1 else 0
  }

  // ---------- one reference ----------

  /** Where the leftmost `{{head` starts, or -1. */
  function RefStart(s: string, head: string): int {
    Index(s, "{{" + head)
  }

  /** Where the first `}}` after it starts, or -1. */
  function RefEnd(s: string, head: string): int {
    if RefStart(s, head) == -1 then -1 else IndexFrom(s, "}}", RefStart(s, head))
  }

  /** `s` holds a complete reference: `{{head`, and `}}` somewhere after it. */
  predicate HasReference(s: string, head: string) {
    RefEnd(s, head) != -1
  }

  lemma {:induction false} ReferenceShape(s: string, head: string)
    requires BraceFree(head) && HasReference(s, head)
    ensures 0 <= RefStart(s, head) && RefStart(s, head) + 2 + |head| <= RefEnd(s, head) <= |s| - 2
    ensures s[RefStart(s, head)..RefStart(s, head) + 2] == "{{"
    ensures s[RefStart(s, head) + 2..RefStart(s, head) + 2 + |head|] == head
    ensures s[RefEnd(s, head)..RefEnd(s, head) + 2] == "}}"
  {
    var i, k := RefStart(s, head), RefEnd(s, head);
    var pattern := "{{" + head;
    assert s[i..i + |pattern|] == pattern;
    assert s[i..i + 2] == pattern[..2] && s[i + 2..i + 2 + |head|] == pattern[2..];
    assert s[k] == s[k..k + 2][0];
    forall m | i <= m < i + |pattern| ensures s[m] != '}' {
      assert s[m] == pattern[m - i];
    }
  }

  /** What stands between the braces of the leftmost reference. */
  function RefPath(s: string, head: string): string
    requires BraceFree(head) && HasReference(s, head)
  {
    ReferenceShape(s, head);
    s[RefStart(s, head) + 2..RefEnd(s, head)]
  }

  /** `s` with its leftmost reference replaced by `text`. */
  function Fill(s: string, head: string, text: string): string
    requires BraceFree(head) && HasReference(s, head)
  {
    ReferenceShape(s, head);
    s[..RefStart(s, head)] + text + s[RefEnd(s, head) + 2..]
  }

  lemma {:induction false} BracesAppend(a: string, b: string)
    ensures Braces(a + b) == Braces(a) + Braces(b)
    decreases |b|
  {
    if b == [] {
      assert a + b == a;
    } else {
      BracesAppend(a, b[..|b| - 1]);
      assert (a + b)[..|a + b| - 1] == a + b[..|b| - 1];
    }
  }

  lemma {:induction false} BracesOfBraceFree(s: string)
    requires BraceFree(s)
    ensures Braces(s) == 0
    decreases |s|
  {
    if s != [] {
      BracesOfBraceFree(s[..|s| - 1]);
    }
  }

  lemma {:induction false} BracesCut(s: string, i: nat)
    requires i <= |s|
    ensures Braces(s) == Braces(s[..i]) + Braces(s[i..])
  {
    BracesAppend(s[..i], s[i..]);
    assert s == s[..i] + s[i..];
  }

  lemma {:induction false} BracesFrom(s: string, i: nat, k: nat)
    requires i + 2 <= k <= |s| && s[i..i + 2] == "{{"
    ensures Braces(s[i..]) >= 2 + Braces(s[k..])
  {
    BracesCut(s[i..], 2);
    BracesCut(s[i + 2..], k - (i + 2));
    TwoBraces();
    assert s[i..][..2] == s[i..i + 2] && s[i..][2..] == s[i + 2..];
    assert s[i + 2..][k - (i + 2)..] == s[k..];
  }

  lemma {:induction false} CutDropsBraces(s: string, i: nat, k: nat, text: string)
    requires i + 2 <= k <= |s| && s[i..i + 2] == "{{" && BraceFree(text)
    ensures Braces(s[..i] + text + s[k..]) < Braces(s)
  {
    hide Braces, BraceFree;
    BracesCut(s, i);
    BracesFrom(s, i, k);
    BracesOfBraceFree(text);
    BracesAppend(s[..i] + text, s[k..]);
    BracesAppend(s[..i], text);
  }

  lemma {:induction false} FillDropsBraces(s: string, head: string, text: string)
    requires BraceFree(head) && HasReference(s, head) && BraceFree(text)
    ensures Braces(Fill(s, head, text)) < Braces(s)
  {
    ReferenceShape(s, head);
    hide RefStart, RefEnd, HasReference, Braces, BraceFree, At;
    CutDropsBraces(s, RefStart(s, head), RefEnd(s, head) + 2, text);
  }

  lemma {:induction false} TwoBraces()
    ensures Braces("{{") == 2
  {
  }

  // ---------- the loop ----------

  /** One round: the leftmost reference gives way to its answer. */
  function Round(s: string, head: string, resolve: string -> string): string
    requires BraceFree(head) && HasReference(s, head)
  {
    Fill(s, head, resolve(RefPath(s, head)))
  }

  /** The text after `n` rounds, or fewer when no reference is left. */
  ghost function After(s: string, head: string, resolve: string -> string, n: nat): string
    requires BraceFree(head)
    decreases n
  {
    if n == 0 || !HasReference(s, head) then s else After(Round(s, head, resolve), head, resolve, n - 1)
  }

  ghost predicate EndsIn(s: string, head: string, resolve: string -> string, n: nat)
    requires BraceFree(head)
  {
    !HasReference(After(s, head, resolve, n), head)
  }

  /** The loop ends on `s`. */
  ghost predicate Ends(s: string, head: string, resolve: string -> string)
    requires BraceFree(head)
  {
    exists n :: EndsIn(s, head, resolve, n)
  }

  /** What the loop makes of a text it ends on. */
  ghost function Rewrite(s: string, head: string, resolve: string -> string): string
    requires BraceFree(head) && Ends(s, head, resolve)
  {
    var n :| EndsIn(s, head, resolve, n);
    After(s, head, resolve, n)
  }

  lemma {:induction false} OneMoreRound(s: string, head: string, resolve: string -> string, n: nat, m: nat)
    requires BraceFree(head) && EndsIn(s, head, resolve, n) && n <= m
    ensures After(s, head, resolve, m) == After(s, head, resolve, n)
    decreases n
  {
    hide HasReference, Round;
    if n != 0 && HasReference(s, head) {
      OneMoreRound(Round(s, head, resolve), head, resolve, n - 1, m - 1);
    }
  }

  /** The number of rounds granted does not matter once it is enough. */
  lemma {:induction false} RewriteIn(s: string, head: string, resolve: string -> string, n: nat)
    requires BraceFree(head) && EndsIn(s, head, resolve, n)
    ensures Ends(s, head, resolve) && Rewrite(s, head, resolve) == After(s, head, resolve, n)
  {
    hide HasReference, After;
    var m :| EndsIn(s, head, resolve, m) && Rewrite(s, head, resolve) == After(s, head, resolve, m);
    if n <= m {
      OneMoreRound(s, head, resolve, n, m);
    } else {
      OneMoreRound(s, head, resolve, m, n);
    }
  }

  lemma {:induction false} NothingToDo(s: string, head: string, resolve: string -> string)
    requires BraceFree(head) && !HasReference(s, head)
    ensures Ends(s, head, resolve) && Rewrite(s, head, resolve) == s
  {
    hide HasReference;
    RewriteIn(s, head, resolve, 0);
  }

  /** A text with a reference ends in one round more than what the round makes of it. */
  lemma {:induction false} RoundLeft(s: string, head: string, resolve: string -> string, n: nat)
    requires BraceFree(head) && HasReference(s, head)
    ensures !EndsIn(s, head, resolve, 0)
    ensures EndsIn(s, head, resolve, n + 1) <==> EndsIn(Round(s, head, resolve), head, resolve, n)
    ensures EndsIn(s, head, resolve, n + 1) ==>
              Ends(s, head, resolve) && Ends(Round(s, head, resolve), head, resolve)
              && Rewrite(s, head, resolve) == Rewrite(Round(s, head, resolve), head, resolve)
  {
    hide HasReference, Rewrite, Ends, Round;
    if EndsIn(s, head, resolve, n + 1) {
      RewriteIn(s, head, resolve, n + 1);
      RewriteIn(Round(s, head, resolve), head, resolve, n);
    }
  }

  lemma {:induction false} EnoughRounds(s: string, head: string, resolve: string -> string) returns (n: nat)
    requires BraceFree(head) && Ends(s, head, resolve)
    ensures EndsIn(s, head, resolve, n)
  {
    n :| EndsIn(s, head, resolve, n);
  }

  lemma {:induction false} TakeRound(s: string, head: string, resolve: string -> string, n: nat) returns (m: nat)
    requires BraceFree(head) && HasReference(s, head) && EndsIn(s, head, resolve, n)
    ensures m < n && EndsIn(Round(s, head, resolve), head, resolve, m)
    ensures Ends(s, head, resolve) && Ends(Round(s, head, resolve), head, resolve)
    ensures Rewrite(s, head, resolve) == Rewrite(Round(s, head, resolve), head, resolve)
  {
    hide HasReference, Rewrite, Ends, Round, EndsIn;
    RoundLeft(s, head, resolve, 0);
    m := n - 1;
    RoundLeft(s, head, resolve, m);
  }

  lemma {:induction false} AfterHasNone(s: string, head: string, resolve: string -> string)
    requires BraceFree(head) && Ends(s, head, resolve)
    ensures !HasReference(Rewrite(s, head, resolve), head)
  {
    hide HasReference, After;
  }

  /** No complete reference of this head is left: whatever `{{head` remains is never closed. */
  lemma {:induction false} RewriteLeavesNoReference(s: string, head: string, resolve: string -> string)
    requires BraceFree(head) && Ends(s, head, resolve)
    ensures !HasReference(Rewrite(s, head, resolve), head)
    ensures var r := Rewrite(s, head, resolve);
            forall i, k {:trigger At(r, "{{" + head, i), At(r, "}}", k)} ::
              At(r, "{{" + head, i) && i <= k ==> !At(r, "}}", k)
  {
    AfterHasNone(s, head, resolve);
    hide Rewrite, Ends;
  }

  /** Every answer the loop asks for on `s` is free of braces. */
  ghost predicate BraceFreeAnswers(s: string, head: string, resolve: string -> string)
    requires BraceFree(head)
  {
    forall n :: HasReference(After(s, head, resolve, n), head) ==>
                  BraceFree(resolve(RefPath(After(s, head, resolve, n), head)))
  }

  lemma {:induction false} AnswersOfRound(s: string, head: string, resolve: string -> string)
    requires BraceFree(head) && HasReference(s, head) && BraceFreeAnswers(s, head, resolve)
    ensures BraceFree(resolve(RefPath(s, head)))
    ensures BraceFreeAnswers(Round(s, head, resolve), head, resolve)
  {
    hide HasReference, RefPath, Round, BraceFree;
    assert After(s, head, resolve, 0) == s;
    forall n: nat
      ensures After(s, head, resolve, n + 1) == After(Round(s, head, resolve), head, resolve, n)
    {
    }
  }

  /** With answers free of braces the loop ends on every text: each round lowers the number of braces. */
  lemma {:induction false} BraceFreeAnswersEnd(s: string, head: string, resolve: string -> string) returns (n: nat)
    requires BraceFree(head) && BraceFreeAnswers(s, head, resolve)
    ensures n <= Braces(s) && EndsIn(s, head, resolve, n)
    decreases Braces(s)
  {
    hide HasReference, RefPath, Fill, BraceFree, BraceFreeAnswers, EndsIn;
    if HasReference(s, head) {
      AnswersOfRound(s, head, resolve);
      FillDropsBraces(s, head, resolve(RefPath(s, head)));
      n := BraceFreeAnswersEnd(Round(s, head, resolve), head, resolve);
      RoundLeft(s, head, resolve, n);
      n := n + 1;
    } else {
      n := 0;
      EndsAtOnce(s, head, resolve);
    }
  }

  lemma {:induction false} EndsAtOnce(s: string, head: string, resolve: string -> string)
    requires BraceFree(head) && !HasReference(s, head)
    ensures EndsIn(s, head, resolve, 0)
  {
  }

  /** strings.Replace(s, alias, text, 1) */
  function ReplaceFirst(s: string, alias: string, text: string): string {
    var i := Index(s, alias);
    if i == -1 then s else s[..i] + text + s[i + |alias|..]
  }

  /** The leftmost occurrence of the whole alias is the leftmost reference itself. */
  lemma {:induction false} AliasIndex(s: string, head: string)
    requires BraceFree(head) && HasReference(s, head)
    requires 0 <= RefStart(s, head) <= RefEnd(s, head) <= |s| - 2
    ensures Index(s, s[RefStart(s, head)..RefEnd(s, head) + 2]) == RefStart(s, head)
  {
    PatternStartsAlias(s, head);
    hide RefEnd, BraceFree;
    var i := RefStart(s, head);
    var pattern, alias := "{{" + head, s[RefStart(s, head)..RefEnd(s, head) + 2];
    var j := Index(s, alias);
    assert At(s, alias, i);
    PrefixAt(s, alias, pattern, j);
  }

  /** The replacement by text hits exactly the leftmost reference. */
  lemma {:induction false} ReplaceHitsLeftmost(s: string, head: string, text: string)
    requires BraceFree(head) && HasReference(s, head)
    ensures ReplaceFirst(s, s[RefStart(s, head)..RefEnd(s, head) + 2], text) == Fill(s, head, text)
  {
    ReferenceShape(s, head);
    AliasIndex(s, head);
    hide RefStart, RefEnd, BraceFree;
  }

  lemma {:induction false} PatternStartsAlias(s: string, head: string)
    requires BraceFree(head) && HasReference(s, head)
    requires 0 <= RefStart(s, head) <= RefEnd(s, head) <= |s| - 2
    ensures "{{" + head <= s[RefStart(s, head)..RefEnd(s, head) + 2]
    ensures |"{{" + head| == 2 + |head|
  {
    ReferenceShape(s, head);
    var i := RefStart(s, head);
    assert s[i..i + 2 + |head|] == s[i..i + 2] + s[i + 2..i + 2 + |head|];
  }

  lemma {:induction false} PrefixAt(s: string, alias: string, pattern: string, j: int)
    requires At(s, alias, j) && pattern <= alias
    ensures At(s, pattern, j)
  {
  }

  /** The path of a reference has a segment after those of its prefix, so the short-path break is dead. */
  lemma {:induction false} PathIsLong(s: string, prefix: string)
    requires BraceFree(prefix + ".") && HasReference(s, prefix + ".")
    ensures |Split(RefPath(s, prefix + "."), '.')| > |Split(prefix, '.')|
  {
    var head := prefix + ".";
    ReferenceShape(s, head);
    var path := RefPath(s, head);
    assert path[..|head|] == head;
    assert path == prefix + ['.'] + path[|head|..];
    SplitAtDot(prefix, path[|head|..]);
  }

  lemma {:induction false} SplitAtDot(a: string, b: string)
    ensures Split(a + ['.'] + b, '.') == Split(a, '.') + Split(b, '.')
    decreases |a|
  {
    hide Split, FirstOf;
    var i := FirstOf(a, '.');
    if i == |a| {
      assert a[..i] == a;
      SplitRule(a, '.', b);
    } else {
      SplitAtDot(a[i + 1..], b);
      SplitRule(a[..i], '.', a[i + 1..] + ['.'] + b);
      SplitRule(a[..i], '.', a[i + 1..]);
      assert a == a[..i] + ['.'] + a[i + 1..];
      assert a + ['.'] + b == a[..i] + ['.'] + (a[i + 1..] + ['.'] + b);
    }
  }

  // ---------- resolving against one value ----------

  /** The texts of the leaves of a tree. */
  function Texts(v: Value): set<string> {
    match v
    case Leaf(text) => {text}
    case NilPointer => {}
    case Pointer(target) => Texts(target)
    case Struct(fields) => set i, text | 0 <= i < |fields| && text in Texts(fields[i].value) :: text
    case Slice(elems) => set i, text | 0 <= i < |elems| && text in Texts(elems[i]) :: text
  }

  /** No text in the tree holds a brace. */
  ghost predicate PlainTexts(v: Value) {
    forall text :: text in Texts(v) ==> BraceFree(text)
  }

  lemma {:induction false} FormatIsText(v: Value)
    ensures FormatValue(v) in Texts(v) + {""}
  {
    if v.Pointer? {
      FormatIsText(v.target);
    }
  }

  /** Whatever a path leads to is a text of the tree, or nothing. */
  lemma {:induction false} ResolveGivesText(v: Value, path: seq<string>)
    ensures ResolvePath(v, path) in Texts(v) + {""}
    decreases |path|, v
  {
    if path == [] {
      FormatIsText(v);
    } else {
      match v {
        case Leaf(_) =>
        case NilPointer =>
        case Pointer(target) =>
          ResolveGivesText(target, path);
        case Struct(fields) =>
          var found := FieldByTag(fields, path[0]);
          if found.Some? {
            ResolveGivesText(found.value, path[1..]);
          }
        case Slice(elems) =>
          var i := ElemByName(elems, path[0]);
          if i < |elems| {
            ResolveGivesText(elems[i], path[1..]);
          }
      }
    }
  }

  /** The resolver of one source: drop the segments of the prefix, follow the rest. */
  function Lookup(v: Value, prefix: string, path: string): string {
    var parts := Split(path, '.');
    if |parts| <= |Split(prefix, '.')| then "" else ResolvePath(v, parts[|Split(prefix, '.')|..])
  }

  function Resolver(v: Value, prefix: string): string -> string {
    path => Lookup(v, prefix, path)
  }

  /** Against a value none of whose texts holds a brace the loop ends on every input. */
  lemma {:induction false} PlainValueEnds(s: string, v: Value, prefix: string)
    requires BraceFree(prefix + ".") && PlainTexts(v)
    ensures Ends(s, prefix + ".", Resolver(v, prefix))
  {
    hide HasReference, RefPath, Fill, After, Lookup;
    assert BraceFree("");
    forall path ensures BraceFree(Resolver(v, prefix)(path)) {
      LookupGivesText(v, prefix, path);
    }
    var n := BraceFreeAnswersEnd(s, prefix + ".", Resolver(v, prefix));
  }

  lemma {:induction false} LookupGivesText(v: Value, prefix: string, path: string)
    ensures Resolver(v, prefix)(path) in Texts(v) + {""}
  {
    var parts := Split(path, '.');
    if |parts| > |Split(prefix, '.')| {
      ResolveGivesText(v, parts[|Split(prefix, '.')|..]);
    }
  }

  method SubstituteNestedPaths(input: string, val: Value, prefix: string) returns (result: string)
    requires BraceFree(prefix + ".") && Ends(input, prefix + ".", Resolver(val, prefix))
    ensures result == Rewrite(input, prefix + ".", Resolver(val, prefix))
  {
    hide Split, RefPath, Fill, RefStart, RefEnd, EndsIn, Ends, Rewrite, BraceFree, At;
    result := input;
    ghost var head, resolve := prefix + ".", Resolver(val, prefix);
    ghost var rounds := EnoughRounds(input, head, resolve);
    var pattern := "{{" + prefix + ".";
    assert pattern == "{{" + head;
    var prefixSegments := |Split(prefix, '.')|;
    while Contains(result, pattern)
      invariant EndsIn(result, head, resolve, rounds)
      invariant Ends(result, head, resolve) && Rewrite(result, head, resolve) == Rewrite(input, head, resolve)
      decreases rounds
    {
      var start := Index(result, pattern);
      var end := IndexFrom(result, "}}", start);
      RefAt(result, head, start, end);
      if end == -1 {
        break;
      }
      ReferenceShape(result, head);
      var alias := result[start..end + 2];
      var path := alias[2..|alias| - 2];
      PathOfAlias(result, head, alias, path);
      var pathParts := Split(path, '.');
      PathIsLong(result, prefix);
      if |pathParts| <= prefixSegments {
        break;
      }
      var resolved := ResolvePath(val, pathParts[prefixSegments..]);
      assert resolved == resolve(path);
      ReplaceHitsLeftmost(result, head, resolved);
      rounds := TakeRound(result, head, resolve, rounds);
      result := ReplaceFirst(result, alias, resolved);
    }
    if !Contains(result, pattern) {
      NoPatternNoReference(result, head);
    }
    NothingToDo(result, head, resolve);
  }

  lemma {:induction false} RefAt(s: string, head: string, start: int, end: int)
    requires start == Index(s, "{{" + head) != -1 && end == IndexFrom(s, "}}", start)
    ensures RefStart(s, head) == start && RefEnd(s, head) == end
  {
  }

  lemma {:induction false} NoPatternNoReference(s: string, head: string)
    requires Index(s, "{{" + head) == -1
    ensures !HasReference(s, head)
  {
  }

  lemma {:induction false} PathOfAlias(s: string, head: string, alias: string, path: string)
    requires BraceFree(head) && HasReference(s, head)
    requires 0 <= RefStart(s, head) <= RefEnd(s, head) <= |s| - 2
    requires alias == s[RefStart(s, head)..RefEnd(s, head) + 2] && |alias| >= 4 && path == alias[2..|alias| - 2]
    ensures path == RefPath(s, head)
  {
  }

  // ---------- references to sibling modules ----------

  /** A module record: its reflected value, its ID, and the container port of its first port (0 when there is none). */
  datatype ModuleRecord = ModuleRecord(value: Value, id: string, firstPort: int)

  function Itoa(n: nat): string {
    if n < 10 then [(n + '0' as int) as char] else Itoa(n / 10) + [(n % 10 + '0' as int) as char]
  }

  /** getModuleFieldValue */
  function ModuleField(m: ModuleRecord, field: string): string {
    var value := FieldText(m.value, field);
    if value != "" then value
    else if field == "host" then "discopanel-module-" + m.id
    else if field == "port" then if m.firstPort > 0 then Itoa(m.firstPort) else "8081"
    else ""
  }

  /** What a module reference stands for; one that cannot be resolved is deleted. */
  function ModuleLookup(modules: map<string, Option<ModuleRecord>>, path: string): string {
    var parts := SplitN(path, '.', 3);
    if |parts| == 3 && parts[1] in modules && modules[parts[1]].Some? then ModuleField(modules[parts[1]].value, parts[2])
    else ""
  }

  function ModuleResolver(modules: map<string, Option<ModuleRecord>>): string -> string {
    path => ModuleLookup(modules, path)
  }

  /** The number that decimal digits write. */
  function Decimal(digits: string): int {
    if digits == [] then 0 else Decimal(digits[..|digits| - 1]) * 10 + (digits[|digits| - 1] as int - '0' as int)
  }

  lemma {:induction false} ItoaIsDecimal(n: nat)
    ensures Decimal(Itoa(n)) == n
    ensures |Itoa(n)| > 0 && (Itoa(n)[0] == '0' ==> n == 0)
  {
    if n >= 10 {
      ItoaIsDecimal(n / 10);
      assert Itoa(n)[..|Itoa(n)| - 1] == Itoa(n / 10);
    } else {
      assert Itoa(n)[..0] == [];
    }
  }

  /** `modules.name.field` stands for that field, or where it is empty for the host or the port of that module. */
  lemma {:induction false} ModuleReferenceMeans(modules: map<string, Option<ModuleRecord>>, name: string, field: string)
    requires '.' !in name
    ensures var text := ModuleLookup(modules, "modules." + name + "." + field);
            if name !in modules || modules[name].None? then text == ""
            else var m := modules[name].value;
              && (FieldText(m.value, field) != "" ==> text == FieldText(m.value, field))
              && (FieldText(m.value, field) == "" && field == "host" ==> text == "discopanel-module-" + m.id)
              && (FieldText(m.value, field) == "" && field == "port" ==>
                    if m.firstPort > 0 then text == Itoa(m.firstPort) else text == "8081")
              && (FieldText(m.value, field) == "" && field !in {"host", "port"} ==> text == "")
  {
    hide FieldText, Itoa;
    var path := "modules." + name + "." + field;
    assert path == "modules" + ['.'] + (name + ['.'] + field);
    SplitNRule("modules", '.', name + ['.'] + field, 3);
    SplitNRule(name, '.', field, 2);
    hide SplitN;
    assert SplitN(field, '.', 1) == [field] by { SplitNOne(field, '.'); }
    assert SplitN(path, '.', 3) == ["modules", name, field];
  }

  /** The texts a reference to this module can stand for. */
  function RecordTexts(m: ModuleRecord): set<string> {
    Texts(m.value) + {"", "8081", "discopanel-module-" + m.id, Itoa(Max(m.firstPort, 0))}
  }

  function ModuleTexts(modules: map<string, Option<ModuleRecord>>): set<string> {
    {""} + set name, text | name in modules && modules[name].Some? && text in RecordTexts(modules[name].value) :: text
  }

  ghost predicate PlainModules(modules: map<string, Option<ModuleRecord>>) {
    forall name :: name in modules && modules[name].Some? ==>
      PlainTexts(modules[name].value.value) && BraceFree(modules[name].value.id)
  }

  lemma {:induction false} ItoaIsPlain(n: nat)
    ensures BraceFree(Itoa(n))
  {
    if n >= 10 {
      ItoaIsPlain(n / 10);
    }
  }

  lemma {:induction false} ModuleTextIsPlain(modules: map<string, Option<ModuleRecord>>, text: string)
    requires PlainModules(modules) && text in ModuleTexts(modules)
    ensures BraceFree(text)
  {
    hide Itoa, Texts;
    if text != "" {
      var name :| name in modules && modules[name].Some? && text in RecordTexts(modules[name].value);
      ItoaIsPlain(Max(modules[name].value.firstPort, 0));
    }
  }

  /** With siblings none of whose texts holds a brace the module loop ends on every input. */
  lemma {:induction false} PlainModulesEnd(s: string, modules: map<string, Option<ModuleRecord>>)
    requires PlainModules(modules)
    ensures Ends(s, "modules.", ModuleResolver(modules))
  {
    hide HasReference, RefPath, Fill, After, ModuleLookup, ModuleTexts;
    forall text | text in ModuleTexts(modules) ensures BraceFree(text) {
      ModuleTextIsPlain(modules, text);
    }
    forall path ensures BraceFree(ModuleResolver(modules)(path)) {
      ModuleLookupGivesText(modules, path);
    }
    var n := BraceFreeAnswersEnd(s, "modules.", ModuleResolver(modules));
  }

  lemma {:induction false} ModuleLookupGivesText(modules: map<string, Option<ModuleRecord>>, path: string)
    ensures ModuleResolver(modules)(path) in ModuleTexts(modules)
  {
    hide SplitN, RecordTexts, ModuleField;
    var parts := SplitN(path, '.', 3);
    if |parts| == 3 && parts[1] in modules && modules[parts[1]].Some? {
      ModuleFieldGivesText(modules[parts[1]].value, parts[2]);
    }
  }

  lemma {:induction false} ModuleFieldGivesText(m: ModuleRecord, field: string)
    ensures ModuleField(m, field) in RecordTexts(m)
  {
    hide Itoa, FieldText, Texts;
    FieldTextGivesText(m.value, field);
  }

  lemma {:induction false} FieldTextGivesText(v: Value, name: string)
    ensures FieldText(v, name) in Texts(v) + {""}
  {
    DerefKeepsTexts(v);
    var s := Deref(v);
    if s.Struct? && FieldByTag(s.fields, name).Some? {
      FormatIsText(FieldByTag(s.fields, name).value);
    }
  }

  lemma {:induction false} DerefKeepsTexts(v: Value)
    ensures Texts(Deref(v)) == Texts(v)
  {
    if v.Pointer? {
      DerefKeepsTexts(v.target);
    }
  }

  method SubstituteModuleReferences(input: string, modules: map<string, Option<ModuleRecord>>) returns (result: string)
    requires Ends(input, "modules.", ModuleResolver(modules))
    ensures result == Rewrite(input, "modules.", ModuleResolver(modules))
  {
    hide SplitN, RefPath, Fill, RefStart, RefEnd, ModuleField, EndsIn, Ends, Rewrite, At;
    result := input;
    ghost var head, resolve := "modules.", ModuleResolver(modules);
    ghost var rounds := EnoughRounds(input, head, resolve);
    assert "{{modules." == "{{" + head;
    while Contains(result, "{{modules.")
      invariant EndsIn(result, head, resolve, rounds)
      invariant Ends(result, head, resolve) && Rewrite(result, head, resolve) == Rewrite(input, head, resolve)
      decreases rounds
    {
      var start := Index(result, "{{modules.");
      var end := IndexFrom(result, "}}", start);
      RefAt(result, head, start, end);
      if end == -1 {
        break;
      }
      ReferenceShape(result, head);
      var alias := result[start..end + 2];
      var path := alias[2..|alias| - 2];
      PathOfAlias(result, head, alias, path);
      ghost var value := ModuleLookup(modules, path);
      rounds := TakeRound(result, head, resolve, rounds);
      var parts := SplitN(path, '.', 3);
      if |parts| == 3 && parts[1] in modules && modules[parts[1]].Some? {
        ReplaceHitsLeftmost(result, head, value);
        result := ReplaceFirst(result, alias, ModuleField(modules[parts[1]].value, parts[2]));
        continue;
      }
      FillWithNothing(result, head);
      result := result[..start] + result[end + 2..];
    }
    if !Contains(result, "{{modules.") {
      NoPatternNoReference(result, head);
    }
    NothingToDo(result, head, resolve);
  }

  lemma {:induction false} FillWithNothing(s: string, head: string)
    requires BraceFree(head) && HasReference(s, head)
    requires 0 <= RefStart(s, head) <= RefEnd(s, head) <= |s| - 2
    ensures Fill(s, head, "") == s[..RefStart(s, head)] + s[RefEnd(s, head) + 2..]
  {
  }
}
