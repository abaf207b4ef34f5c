/**
 The server.properties file (internal/minecraft/properties.go): `Load` reads the key=value lines
 of a text, `Save` edits an existing text in place, keeping comments and order.

 The two theorems: loading after saving is a map override exactly for well-formed properties
 (`LoadAfterSave`), and saving twice is saving once exactly for settable properties and an old text
 none of whose kept lines ends in a second carriage return (`SaveTwice`).
 */
module Properties {
  import opened Common
  import opened GoStrings

  type Props = map<string, string>

  // ---------- trimming ----------

  /** unicode.IsSpace */
  predicate IsSpace(c: char) {
    c == '\t' || c == '\n' || c == '\U{0B}' || c == '\U{0C}' || c == '\r' || c == ' '
    || c == '\U{85}' || c == '\U{A0}' || c == '\U{1680}' || '\U{2000}' <= c <= '\U{200A}'
    || c == '\U{2028}' || c == '\U{2029}' || c == '\U{202F}' || c == '\U{205F}' || c == '\U{3000}'
  }

  function TrimLeft(s: string): (r: string)
    ensures r == [] || !IsSpace(r[0])
    ensures |r| <= |s| && r == s[|s| - |r|..]
    ensures forall k :: 0 <= k < |s| - |r| ==> IsSpace(s[k])
  {
    if s != [] && IsSpace(s[0]) then TrimLeft(s[1..]) else s
  }

  function TrimRight(s: string): (r: string)
    ensures r == [] || !IsSpace(r[|r| - 1])
    ensures |r| <= |s| && r == s[..|r|]
    ensures forall k :: |r| <= k < |s| ==> IsSpace(s[k])
  {
    if s != [] && IsSpace(s[|s| - 1]) then TrimRight(s[..|s| - 1]) else s
  }

  /** strings.TrimSpace */
  function Trim(s: string): string {
    TrimRight(TrimLeft(s))
  }

  predicate Trimmed(s: string) {
    s == [] || (!IsSpace(s[0]) && !IsSpace(s[|s| - 1]))
  }

  lemma {:induction false} TrimFacts(s: string)
    ensures Trimmed(Trim(s))
    ensures forall c :: c in Trim(s) ==> c in s
    ensures Trimmed(s) ==> Trim(s) == s
    ensures s != [] && !IsSpace(s[0]) ==> Trim(s) != [] && Trim(s)[0] == s[0]
  {
  }

  // ---------- lines ----------

  datatype Line = Other | Property(key: string, value: string)

  /** How one line of the file reads: comments, blanks and lines without '=' are not properties. */
  function Parse(line: string): Line {
    var t := Trim(line);
    if t == "" || t[0] == '#' then Other
    else
      var i := FirstOf(t, '=');
      if i == |t| then Other else Property(Trim(t[..i]), Trim(t[i + 1..]))
  }

  predicate EndsWithCR(line: string) {
    line != "" && line[|line| - 1] == '\r'
  }

  function DropCR(line: string): string {
    if EndsWithCR(line) then line[..|line| - 1] else line
  }

  /** Lines as they stand in the text, without their newlines; nothing follows a final newline. */
  function RawLines(text: string): (lines: seq<string>)
    ensures forall l :: l in lines ==> '\n' !in l
    decreases |text|
  {
    if text == "" then []
    else
      var i := FirstOf(text, '\n');
      [text[..i]] + if i == |text| then [] else RawLines(text[i + 1..])
  }

  /** bufio.ScanLines: one trailing carriage return is dropped from every line. */
  function ScanLines(text: string): (lines: seq<string>)
    ensures |lines| == |RawLines(text)|
    ensures forall k :: 0 <= k < |lines| ==> lines[k] == DropCR(RawLines(text)[k])
  {
    var raw := RawLines(text);
    seq(|raw|, k requires 0 <= k < |raw| => DropCR(raw[k]))
  }

  function Print(lines: seq<string>): string {
    if lines == [] then "" else lines[0] + "\n" + Print(lines[1..])
  }

  ghost predicate NewlineFree(lines: seq<string>) {
    forall k :: 0 <= k < |lines| ==> '\n' !in lines[k]
  }

  lemma {:induction false} RawLinesOfPrint(lines: seq<string>)
    requires NewlineFree(lines)
    ensures RawLines(Print(lines)) == lines
    decreases |lines|
  {
    if lines != [] {
      RawLinesOfPrint(lines[1..]);
      FirstLine(lines[0], Print(lines[1..]));
      assert lines == [lines[0]] + lines[1..];
    }
  }

  lemma {:induction false} FirstLine(line: string, rest: string)
    requires '\n' !in line
    ensures RawLines(line + "\n" + rest) == [line] + RawLines(rest)
  {
    FirstOfAppend(line, '\n', rest);
    var text := line + "\n" + rest;
    assert text[..|line|] == line && text[|line| + 1..] == rest;
  }

  // ---------- loading ----------

  /** Later lines override earlier ones. */
  function LoadLines(lines: seq<string>): Props {
    if lines == [] then map[]
    else
      var m := LoadLines(lines[..|lines| - 1]);
      match Parse(lines[|lines| - 1])
      case Other => m
      case Property(key, value) => m[key := value]
  }

  function Load(text: string): Props {
    LoadLines(ScanLines(text))
  }

  /** A missing file is an error. */
  method LoadServerProperties(file: Option<string>) returns (r: Option<Props>)
    ensures r == if file.None? then None else Some(Load(file.value))
  {
    hide Trim, FirstOf, IsSpace, RawLines;
    if file.None? {
      return None;
    }
    var lines := ScanLines(file.value);
    var properties: Props := map[];
    for i := 0 to |lines|
      invariant properties == LoadLines(lines[..i])
    {
      assert lines[..i + 1][..i] == lines[..i];
      var line := Trim(lines[i]);
      if line == "" || line[0] == '#' {
        continue;
      }
      var parts := SplitN(line, '=', 2);
      SplitInTwo(line, '=');
      if |parts| == 2 {
        properties := properties[Trim(parts[0]) := Trim(parts[1])];
      }
    }
    assert lines[..|lines|] == lines;
    return Some(properties);
  }

  lemma {:induction false} SplitInTwo(s: string, sep: char)
    ensures var i := FirstOf(s, sep);
            SplitN(s, sep, 2) == if i == |s| then [s] else [s[..i], s[i + 1..]]
  {
  }

  // ---------- saving ----------

  predicate Updated(line: string, props: Props) {
    Parse(line).Property? && Parse(line).key in props
  }

  function Entry(key: string, value: string): string {
    key + "=" + value
  }

  /** What becomes of a line: rewritten when its key is among the properties, kept otherwise. */
  function SaveLine(line: string, props: Props): string {
    if Updated(line, props) then Entry(Parse(line).key, props[Parse(line).key]) else line
  }

  /** The keys the lines mention that are being saved. */
  ghost function UpdatedKeys(lines: seq<string>, props: Props): set<string> {
    set k | 0 <= k < |lines| && Updated(lines[k], props) :: Parse(lines[k]).key
  }

  /** `order` lists `keys`, each once. */
  ghost predicate Lists(order: seq<string>, keys: set<string>) {
    && (forall k :: 0 <= k < |order| ==> order[k] in keys)
    && (forall x :: x in keys ==> x in order)
    && (forall j, k :: 0 <= j < k < |order| ==> order[j] != order[k])
  }

  /** The saved lines, with the new keys appended in some order. */
  function SaveLines(lines: seq<string>, props: Props, order: seq<string>): (r: seq<string>)
    requires forall k :: 0 <= k < |order| ==> order[k] in props
    ensures |r| == |lines| + |order|
    ensures forall k :: 0 <= k < |lines| ==> r[k] == SaveLine(lines[k], props)
    ensures forall k :: 0 <= k < |order| ==> r[|lines| + k] == Entry(order[k], props[order[k]])
  {
    seq(|lines|, k requires 0 <= k < |lines| => SaveLine(lines[k], props)) + Entries(order, props)
  }

  function OldLines(file: Option<string>): seq<string> {
    if file.None? then [] else ScanLines(file.value)
  }

  method SaveServerProperties(file: Option<string>, props: Props) returns (text: string)
    ensures exists order ::
              && Lists(order, props.Keys - UpdatedKeys(OldLines(file), props))
              && text == Print(SaveLines(OldLines(file), props, order))
  {
    hide Trim, FirstOf, IsSpace, RawLines, Entry, Parse, SaveLine, Updated, SplitN, UpdatedKeys, SaveLines, Lists;
    var originalLines := OldLines(file);
    var out: seq<string> := [];
    var updatedKeys: set<string> := {};
    NothingSaved(props);
    for i := 0 to |originalLines|
      invariant out == SaveLines(originalLines[..i], props, [])
      invariant updatedKeys == UpdatedKeys(originalLines[..i], props)
    {
      var line := originalLines[i];
      ghost var before := originalLines[..i];
      assert originalLines[..i + 1] == before + [line];
      UpdatedOneMore(before, line, props);
      SavedOneMore(before, line, props);
      LineCases(line, props);
      var trimmed := Trim(line);
      if trimmed == "" || trimmed[0] == '#' {
        out := out + [line];
        continue;
      }
      var parts := SplitN(trimmed, '=', 2);
      if |parts| == 2 {
        var key := Trim(parts[0]);
        if key in props {
          out := out + [Entry(key, props[key])];
          updatedKeys := updatedKeys + {key};
        } else {
          out := out + [line];
        }
      } else {
        out := out + [line];
      }
    }
    assert originalLines[..|originalLines|] == originalLines;
    ghost var order: seq<string> := [];
    var todo := props.Keys;
    ListsEmpty(props.Keys - todo - updatedKeys);
    while todo != {}
      invariant todo <= props.Keys
      invariant Lists(order, props.Keys - todo - updatedKeys)
      invariant AllIn(order, props) && out == SaveLines(originalLines, props, order)
      decreases todo
    {
      var key :| key in todo;
      ghost var done := props.Keys - todo - updatedKeys;
      todo := todo - {key};
      if key !in updatedKeys {
        AppendedOneMore(originalLines, props, order, key);
        out := out + [Entry(key, props[key])];
        ListsOneMore(order, done, key);
        assert done + {key} == props.Keys - todo - updatedKeys;
        order := order + [key];
      } else {
        assert done == props.Keys - todo - updatedKeys;
      }
    }
    assert props.Keys - todo - updatedKeys == props.Keys - updatedKeys;
    text := Print(out);
  }

  ghost predicate AllIn(order: seq<string>, props: Props) {
    forall k :: 0 <= k < |order| ==> order[k] in props
  }

  lemma {:induction false} NothingSaved(props: Props)
    ensures SaveLines([], props, []) == [] && UpdatedKeys([], props) == {}
  {
  }

  lemma {:induction false} ListsEmpty(keys: set<string>)
    ensures keys == {} ==> Lists([], keys)
  {
  }

  lemma {:induction false} SavedOneMore(lines: seq<string>, line: string, props: Props)
    ensures SaveLines(lines + [line], props, []) == SaveLines(lines, props, []) + [SaveLine(line, props)]
  {
  }

  lemma {:induction false} AppendedOneMore(lines: seq<string>, props: Props, order: seq<string>, key: string)
    requires AllIn(order, props) && key in props
    ensures AllIn(order + [key], props)
    ensures SaveLines(lines, props, order + [key]) == SaveLines(lines, props, order) + [Entry(key, props[key])]
  {
  }

  /** The branches the writer takes on a line. */
  lemma {:induction false} LineCases(line: string, props: Props)
    ensures var t := Trim(line);
            var parts := SplitN(t, '=', 2);
            if t == "" || t[0] == '#' || |parts| != 2 || Trim(parts[0]) !in props
            then !Updated(line, props) && SaveLine(line, props) == line
            else Updated(line, props) && Parse(line).key == Trim(parts[0])
                 && SaveLine(line, props) == Entry(Trim(parts[0]), props[Trim(parts[0])])
  {
  }

  lemma {:induction false} UpdatedOneMore(lines: seq<string>, line: string, props: Props)
    ensures UpdatedKeys(lines + [line], props)
            == UpdatedKeys(lines, props) + if Updated(line, props) then {Parse(line).key} else {}
  {
    hide Parse;
    var all := lines + [line];
    forall x | x in UpdatedKeys(lines, props) ensures x in UpdatedKeys(all, props) {
      var k :| 0 <= k < |lines| && Updated(lines[k], props) && Parse(lines[k]).key == x;
      assert all[k] == lines[k];
    }
    assert all[|lines|] == line;
  }

  lemma {:induction false} ListsOneMore(order: seq<string>, keys: set<string>, key: string)
    requires Lists(order, keys) && key !in keys
    ensures Lists(order + [key], keys + {key})
  {
  }

  // ---------- what survives ----------

  /**
   Comments, blanks, lines that are no property and lines whose key is not being saved stay
   verbatim and in place; what is appended are the keys the file did not mention, each once.
   */
  lemma {:induction false} UntouchedLinesSurvive(lines: seq<string>, props: Props, order: seq<string>)
    requires Lists(order, props.Keys - UpdatedKeys(lines, props))
    ensures var saved := SaveLines(lines, props, order);
            (forall k :: 0 <= k < |lines| && !Updated(lines[k], props) ==> saved[k] == lines[k])
            && forall k :: 0 <= k < |order| ==> saved[|lines| + k] == Entry(order[k], props[order[k]]) && !Mentions(lines, order[k])
  {
  }

  /** Some line of the file sets this key. */
  ghost predicate Mentions(lines: seq<string>, key: string) {
    exists k :: 0 <= k < |lines| && Parse(lines[k]).Property? && Parse(lines[k]).key == key
  }

  // ---------- well-formed properties ----------

  ghost predicate WellFormed(key: string, value: string) {
    && Trimmed(key) && '=' !in key && '\n' !in key && (key == "" || key[0] != '#')
    && Trimmed(value) && '\n' !in value
  }

  ghost predicate AllWellFormed(props: Props) {
    forall key :: key in props ==> WellFormed(key, props[key])
  }

  /** The entry of a well-formed property reads back as it was written. */
  lemma {:induction false} ParseEntry(key: string, value: string)
    requires WellFormed(key, value)
    ensures Parse(Entry(key, value)) == Property(key, value)
    ensures '\n' !in Entry(key, value) && !EndsWithCR(Entry(key, value))
  {
    hide IsSpace, TrimLeft, TrimRight, Trim, FirstOf, EndsWithCR, Trimmed, Entry;
    EntryIsTrimmed(key, value);
    TrimFacts(Entry(key, value));
    TrimFacts(key);
    TrimFacts(value);
    EntryParts(key, value);
  }

  lemma {:induction false} EntryParts(key: string, value: string)
    requires '=' !in key
    ensures var e := Entry(key, value);
            FirstOf(e, '=') == |key| < |e| && e[..|key|] == key && e[|key| + 1..] == value
            && (e[0] == if key == "" then '=' else key[0]) && forall c :: c in e ==> c in key || c == '=' || c in value
  {
    FirstOfAppend(key, '=', value);
    assert Entry(key, value) == key + ['='] + value;
  }

  lemma {:induction false} EntryIsTrimmed(key: string, value: string)
    requires Trimmed(key) && Trimmed(value)
    ensures Trimmed(Entry(key, value)) && !EndsWithCR(Entry(key, value))
  {
  }

  /** Whatever is read from a line without newlines is well-formed. */
  lemma {:induction false} ParsedIsWellFormed(line: string)
    requires '\n' !in line && Parse(line).Property?
    ensures WellFormed(Parse(line).key, Parse(line).value)
  {
    hide IsSpace, TrimLeft, TrimRight, Trim, FirstOf;
    var t := Trim(line);
    var i := FirstOf(t, '=');
    TrimFacts(line);
    TrimFacts(t[..i]);
    TrimFacts(t[i + 1..]);
    forall c | c in t[..i] || c in t[i + 1..] ensures c in line {
      assert c in t;
    }
    if i > 0 {
      assert t[..i][0] == t[0];
    }
  }

  ghost predicate Spaces(s: string) {
    forall k :: 0 <= k < |s| ==> IsSpace(s[k])
  }

  /** `core` is what is left of `s` without the space at both ends. */
  ghost predicate TrimsTo(s: string, core: string) {
    Trimmed(core) && exists a, b :: s == a + core + b && Spaces(a) && Spaces(b)
  }

  lemma {:induction false} TrimLeftAround(a: string, s: string)
    requires Spaces(a) && s != [] && !IsSpace(s[0])
    ensures TrimLeft(a + s) == s
    decreases |a|
  {
    hide IsSpace;
    if a == [] {
      assert a + s == s;
    } else {
      assert (a + s)[0] == a[0] && (a + s)[1..] == a[1..] + s;
      TrimLeftAround(a[1..], s);
    }
  }

  lemma {:induction false} TrimRightAround(s: string, b: string)
    requires Spaces(b) && s != [] && !IsSpace(s[|s| - 1])
    ensures TrimRight(s + b) == s
    decreases |b|
  {
    hide IsSpace;
    if b == [] {
      assert s + b == s;
    } else {
      var n := |b| - 1;
      assert (s + b)[|s + b| - 1] == b[n] && (s + b)[..|s + b| - 1] == s + b[..n];
      TrimRightAround(s, b[..n]);
    }
  }

  lemma {:induction false} TrimNothing(s: string)
    requires Spaces(s)
    ensures TrimLeft(s) == []
  {
    hide IsSpace;
    if s != [] {
      TrimNothing(s[1..]);
    }
  }

  lemma {:induction false} LeftParts(s: string) returns (a: string)
    ensures s == a + TrimLeft(s) && Spaces(a)
  {
    hide IsSpace;
    a := s[..|s| - |TrimLeft(s)|];
  }

  lemma {:induction false} RightParts(s: string) returns (b: string)
    ensures s == TrimRight(s) + b && Spaces(b)
  {
    hide IsSpace;
    b := s[|TrimRight(s)|..];
  }

  lemma {:induction false} TrimParts(s: string)
    ensures TrimsTo(s, Trim(s))
  {
    TrimFacts(s);
    hide IsSpace, TrimLeft, TrimRight, TrimsTo, Trimmed, Spaces;
    var a := LeftParts(s);
    var b := RightParts(TrimLeft(s));
    TrimsToBy(s, a, TrimLeft(s), Trim(s), b);
  }

  lemma {:induction false} TrimsToBy(s: string, a: string, l: string, core: string, b: string)
    requires s == a + l && l == core + b && Spaces(a) && Spaces(b) && Trimmed(core)
    ensures TrimsTo(s, core)
  {
    hide Trimmed, Spaces;
    assert a + (core + b) == a + core + b;
  }

  lemma {:induction false} TrimAround(a: string, core: string, b: string)
    requires Trimmed(core) && Spaces(a) && Spaces(b)
    ensures Trim(a + core + b) == core
  {
    hide IsSpace, TrimLeft, TrimRight;
    if core == [] {
      TrimNothing(a + core + b);
      NothingLeft();
    } else {
      assert a + core + b == a + (core + b);
      TrimLeftAround(a, core + b);
      TrimRightAround(core, b);
    }
  }

  lemma {:induction false} NothingLeft()
    ensures TrimRight([]) == []
  {
  }

  /** Trimming takes away exactly the space around. */
  lemma {:induction false} TrimIff(s: string, core: string)
    ensures Trim(s) == core <==> TrimsTo(s, core)
  {
    TrimParts(s);
    hide Trim, Trimmed, IsSpace, Spaces;
    if TrimsTo(s, core) {
      var a, b :| s == a + core + b && Spaces(a) && Spaces(b);
      TrimAround(a, core, b);
    }
  }

  /** How a property line is put together: the first '=' stands between key and value, with any space around each. */
  ghost predicate Sets(line: string, key: string, value: string) {
    exists t, l, r ::
      && TrimsTo(line, t) && t == l + "=" + r && '=' !in l && t[0] != '#'
      && TrimsTo(l, key) && TrimsTo(r, value)
  }

  /** Exactly these lines are properties, and this is what they set. */
  lemma {:induction false} ParseIff(line: string, key: string, value: string)
    ensures Parse(line) == Property(key, value) <==> Sets(line, key, value)
  {
    hide Parse, Trim, TrimsTo;
    if Parse(line) == Property(key, value) {
      ParsedSets(line);
    }
    if Sets(line, key, value) {
      var t, l, r :| TrimsTo(line, t) && t == l + "=" + r && '=' !in l && t[0] != '#' && TrimsTo(l, key) && TrimsTo(r, value);
      TrimIff(line, t);
      TrimIff(l, key);
      TrimIff(r, value);
      HalvesParse(line, l, r);
    }
  }

  lemma {:induction false} HalvesParse(line: string, l: string, r: string)
    requires Trim(line) == l + "=" + r && '=' !in l && Trim(line)[0] != '#'
    ensures Parse(line) == Property(Trim(l), Trim(r))
  {
    var t := Trim(line);
    hide Trim, FirstOf;
    FirstOfAppend(l, '=', r);
    assert t == l + ['='] + r;
    assert t[..|l|] == l && t[|l| + 1..] == r;
  }

  lemma {:induction false} ParsedHalves(line: string) returns (l: string, r: string)
    requires Parse(line).Property?
    ensures Trim(line) == l + "=" + r && '=' !in l && Trim(line)[0] != '#'
    ensures Parse(line) == Property(Trim(l), Trim(r))
  {
    hide Trim, FirstOf;
    var t := Trim(line);
    var i := FirstOf(t, '=');
    l, r := t[..i], t[i + 1..];
  }

  lemma {:induction false} ParsedSets(line: string)
    requires Parse(line).Property?
    ensures Sets(line, Parse(line).key, Parse(line).value)
  {
    hide Trim, TrimsTo, Sets, Parse;
    var l, r := ParsedHalves(line);
    TrimIff(line, Trim(line));
    TrimIff(l, Trim(l));
    TrimIff(r, Trim(r));
    SetsBy(line, Trim(line), l, r, Trim(l), Trim(r));
  }

  lemma {:induction false} SetsBy(line: string, t: string, l: string, r: string, key: string, value: string)
    requires TrimsTo(line, t) && t == l + "=" + r && '=' !in l && t[0] != '#' && TrimsTo(l, key) && TrimsTo(r, value)
    ensures Sets(line, key, value)
  {
    hide TrimsTo;
  }

  /** Line `k` sets the key and no later line does. */
  ghost predicate SetsLast(lines: seq<string>, k: int, key: string, value: string) {
    && 0 <= k < |lines| && Parse(lines[k]) == Property(key, value)
    && forall j :: k < j < |lines| && Parse(lines[j]).Property? ==> Parse(lines[j]).key != key
  }

  lemma {:induction false} SetsLastOneMore(lines: seq<string>, line: string, k: int, key: string, value: string)
    ensures SetsLast(lines + [line], k, key, value)
            <==> if k == |lines| then Parse(line) == Property(key, value)
                 else SetsLast(lines, k, key, value) && !(Parse(line).Property? && Parse(line).key == key)
  {
    hide Parse;
    var all := lines + [line];
    assert all[|lines|] == line;
    assert forall j :: 0 <= j < |lines| ==> all[j] == lines[j];
  }

  lemma {:induction false} LoadOneMore(lines: seq<string>, line: string)
    ensures LoadLines(lines + [line])
            == if Parse(line).Property? then LoadLines(lines)[Parse(line).key := Parse(line).value] else LoadLines(lines)
    ensures LoadLines([]) == map[]
  {
    hide Parse;
    assert (lines + [line])[..|lines|] == lines;
  }

  ghost predicate LastSets(lines: seq<string>, key: string, value: string) {
    exists k :: SetsLast(lines, k, key, value)
  }

  lemma {:induction false} LastSetsOneMore(lines: seq<string>, line: string, key: string, value: string)
    ensures LastSets(lines + [line], key, value)
            <==> Parse(line) == Property(key, value)
                 || (LastSets(lines, key, value) && !(Parse(line).Property? && Parse(line).key == key))
  {
    hide SetsLast, Parse;
    SetsLastOneMore(lines, line, |lines|, key, value);
    if k :| SetsLast(lines + [line], k, key, value) {
      SetsLastOneMore(lines, line, k, key, value);
    }
    if k :| SetsLast(lines, k, key, value) {
      SetsLastInside(lines, k, key, value);
      SetsLastOneMore(lines, line, k, key, value);
    }
  }

  predicate Maps(m: Props, key: string, value: string) {
    key in m && m[key] == value
  }

  lemma {:induction false} MapsOneMore(lines: seq<string>, line: string, key: string, value: string)
    ensures Maps(LoadLines(lines + [line]), key, value)
            <==> Parse(line) == Property(key, value)
                 || (Maps(LoadLines(lines), key, value) && !(Parse(line).Property? && Parse(line).key == key))
    ensures !Maps(LoadLines([]), key, value)
  {
    LoadOneMore(lines, line);
    hide Parse, LoadLines;
  }

  lemma {:induction false} NobodyLast(key: string, value: string)
    ensures !LastSets([], key, value)
  {
  }

  /** The last line that sets a key decides its value; keys that no line sets are missing. */
  lemma {:induction false} LastLineWins(lines: seq<string>, key: string, value: string)
    ensures Maps(LoadLines(lines), key, value) <==> LastSets(lines, key, value)
    decreases |lines|
  {
    hide LastSets, Maps, Parse, LoadLines;
    if lines == [] {
      NobodyLast(key, value);
      MapsOneMore([], "", key, value);
    } else {
      var front, last := lines[..|lines| - 1], lines[|lines| - 1];
      assert lines == front + [last];
      LastLineWins(front, key, value);
      MapsOneMore(front, last, key, value);
      LastSetsOneMore(front, last, key, value);
    }
  }

  lemma {:induction false} SetsLastInside(lines: seq<string>, k: int, key: string, value: string)
    requires SetsLast(lines, k, key, value)
    ensures 0 <= k < |lines|
  {
  }

  lemma {:induction false} RawLinesStep(text: string)
    requires text != ""
    ensures var i := FirstOf(text, '\n');
            if i == |text| then text[|text| - 1] != '\n' && RawLines(text) == [text]
            else RawLines(text) == [text[..i]] + RawLines(text[i + 1..]) && text == text[..i] + "\n" + text[i + 1..]
  {
    var i := FirstOf(text, '\n');
    hide FirstOf;
    if i == |text| {
      assert text[..i] == text;
      assert text[|text| - 1] in text;
    }
  }

  lemma {:induction false} PrintOne(line: string, lines: seq<string>)
    ensures Print([line] + lines) == line + "\n" + Print(lines)
    ensures Print([line]) == line + "\n"
  {
    assert ([line] + lines)[1..] == lines;
    assert Print([line][1..]) == "";
  }

  /** Lines end at newlines: put together again they are the text, up to a final newline. */
  lemma {:induction false} LinesMakeText(text: string)
    ensures Print(RawLines(text)) == if text == "" || text[|text| - 1] == '\n' then text else text + "\n"
    decreases |text|
  {
    if text != "" {
      RawLinesStep(text);
      var i := FirstOf(text, '\n');
      hide FirstOf, RawLines, Print;
      if i < |text| {
        var rest := text[i + 1..];
        LinesMakeText(rest);
        PrintOne(text[..i], RawLines(rest));
        AfterNewline(text[..i], rest);
      } else {
        PrintOne(text, []);
      }
    } else {
      assert RawLines("") == [];
    }
  }

  lemma {:induction false} AfterNewline(line: string, rest: string)
    ensures var text := line + "\n" + rest;
            text[|text| - 1] == (if rest == "" then '\n' else rest[|rest| - 1]) && line + "\n" + (rest + "\n") == text + "\n"
  {
  }

  lemma {:induction false} LoadedIsWellFormed(lines: seq<string>)
    requires NewlineFree(lines)
    ensures AllWellFormed(LoadLines(lines))
    decreases |lines|
  {
    hide Parse, WellFormed;
    if lines != [] {
      LoadedIsWellFormed(lines[..|lines| - 1]);
      var line := lines[|lines| - 1];
      if Parse(line).Property? {
        ParsedIsWellFormed(line);
      }
    }
  }

  lemma {:induction false} ScannedIsNewlineFree(text: string)
    ensures NewlineFree(ScanLines(text))
  {
    hide RawLines, EndsWithCR;
    var lines := ScanLines(text);
    forall k | 0 <= k < |lines| ensures '\n' !in lines[k] {
      assert RawLines(text)[k] in RawLines(text);
      assert forall c :: c in DropCR(RawLines(text)[k]) ==> c in RawLines(text)[k];
    }
  }

  // ---------- carriage returns do not matter to the reader ----------

  lemma {:induction false} TrimIgnoresLast(s: string)
    requires s != "" && IsSpace(s[|s| - 1])
    ensures Trim(s) == Trim(s[..|s| - 1])
  {
    hide IsSpace, TrimLeft, TrimRight;
    var front, last := s[..|s| - 1], s[|s| - 1];
    var l := TrimLeft(front);
    if l == "" {
      assert forall k :: 0 <= k < |front| ==> s[k] == front[k];
      AllSpace(s);
      AllSpace(front);
    } else {
      LeftKeepsLast(front, last);
      assert s == front + [last];
      RightSkips(l + [last]);
      assert (l + [last])[..|l|] == l;
    }
  }

  lemma {:induction false} LeftKeepsLast(front: string, last: char)
    requires TrimLeft(front) != ""
    ensures TrimLeft(front + [last]) == TrimLeft(front) + [last]
  {
    hide IsSpace, TrimLeft;
    var s, l := front + [last], TrimLeft(front);
    var n := |front| - |l|;
    assert l[0] == front[n];
    LeftAt(s, n);
    assert s[n..] == front[n..] + [last];
  }

  lemma {:induction false} RightSkips(s: string)
    requires s != "" && IsSpace(s[|s| - 1])
    ensures TrimRight(s) == TrimRight(s[..|s| - 1])
  {
  }

  lemma {:induction false} AllSpace(s: string)
    requires forall k :: 0 <= k < |s| ==> IsSpace(s[k])
    ensures Trim(s) == ""
  {
  }

  lemma {:induction false} LeftAt(s: string, n: nat)
    requires n < |s| && !IsSpace(s[n]) && forall k :: 0 <= k < n ==> IsSpace(s[k])
    ensures TrimLeft(s) == s[n..]
  {
  }

  lemma {:induction false} ReturnIsSpace()
    ensures IsSpace('\r')
  {
  }

  lemma {:induction false} TrimIgnoresCR(line: string)
    ensures Trim(DropCR(line)) == Trim(line)
  {
    hide Trim, IsSpace;
    ReturnIsSpace();
    if EndsWithCR(line) {
      TrimIgnoresLast(line);
    }
  }

  lemma {:induction false} ParseIgnoresCR(line: string)
    ensures Parse(DropCR(line)) == Parse(line)
  {
    hide Trim, FirstOf, DropCR;
    TrimIgnoresCR(line);
  }

  lemma {:induction false} LoadIgnoresCR(lines: seq<string>, dropped: seq<string>)
    requires |dropped| == |lines| && forall k :: 0 <= k < |lines| ==> dropped[k] == DropCR(lines[k])
    ensures LoadLines(dropped) == LoadLines(lines)
    decreases |lines|
  {
    hide Parse, DropCR;
    if lines != [] {
      LoadIgnoresCR(lines[..|lines| - 1], dropped[..|lines| - 1]);
      ParseIgnoresCR(lines[|lines| - 1]);
    }
  }

  // ---------- loading what was saved ----------

  /** `m` is `base` with the values of `props` on the keys they share. */
  ghost predicate Overridden(base: Props, m: Props, props: Props) {
    && m.Keys == base.Keys
    && forall x :: x in m ==> m[x] == if x in props then props[x] else base[x]
  }

  lemma {:induction false} ParseSaved(line: string, props: Props)
    requires AllWellFormed(props)
    ensures Parse(SaveLine(line, props))
            == if Updated(line, props) then Property(Parse(line).key, props[Parse(line).key]) else Parse(line)
  {
    hide Parse, Entry, WellFormed;
    if Updated(line, props) {
      ParseEntry(Parse(line).key, props[Parse(line).key]);
    }
  }

  /** One line more, read by the loader. */
  function LoadOne(m: Props, line: Line): Props {
    match line
    case Other => m
    case Property(key, value) => m[key := value]
  }

  lemma {:induction false} LoadLast(lines: seq<string>)
    requires lines != []
    ensures LoadLines(lines) == LoadOne(LoadLines(lines[..|lines| - 1]), Parse(lines[|lines| - 1]))
  {
    hide Parse;
  }

  lemma {:induction false} OverrideOne(base: Props, m: Props, props: Props, line: Line)
    requires Overridden(base, m, props)
    ensures var saved := if line.Property? && line.key in props then Property(line.key, props[line.key]) else line;
            Overridden(LoadOne(base, line), LoadOne(m, saved), props)
  {
  }

  lemma {:induction false} LoadUpdated(lines: seq<string>, saved: seq<string>, props: Props)
    requires AllWellFormed(props)
    requires |saved| == |lines| && forall k :: 0 <= k < |lines| ==> saved[k] == SaveLine(lines[k], props)
    ensures Overridden(LoadLines(lines), LoadLines(saved), props)
    decreases |lines|
  {
    if lines != [] {
      var n := |lines| - 1;
      hide Parse, SaveLine, AllWellFormed, LoadLines, LoadOne, Overridden;
      LoadUpdated(lines[..n], saved[..n], props);
      ParseSaved(lines[n], props);
      LoadLast(lines);
      LoadLast(saved);
      OverrideOne(LoadLines(lines[..n]), LoadLines(saved[..n]), props, Parse(lines[n]));
    }
  }

  lemma {:induction false} MentionedBefore(lines: seq<string>, key: string)
    requires lines != []
    ensures var n := |lines| - 1;
            Mentions(lines, key) <==> Mentions(lines[..n], key) || (Parse(lines[n]).Property? && Parse(lines[n]).key == key)
  {
    hide Parse;
    var n := |lines| - 1;
    assert forall k :: 0 <= k < n ==> lines[..n][k] == lines[k];
    if Mentions(lines[..n], key) {
      var k :| 0 <= k < n && Parse(lines[..n][k]).Property? && Parse(lines[..n][k]).key == key;
      assert Parse(lines[k]).Property? && Parse(lines[k]).key == key;
    }
  }

  /** A key is loaded when some line sets it. */
  lemma {:induction false} LoadedIffMentioned(lines: seq<string>, key: string)
    ensures key in LoadLines(lines) <==> Mentions(lines, key)
    decreases |lines|
  {
    hide Parse, LoadLines;
    NoLines();
    if lines != [] {
      var n := |lines| - 1;
      LoadLast(lines);
      LoadedIffMentioned(lines[..n], key);
      MentionedBefore(lines, key);
    }
  }

  /** The keys that are updated are those both loaded and saved. */
  lemma {:induction false} UpdatedAreShared(lines: seq<string>, props: Props)
    ensures UpdatedKeys(lines, props) == LoadLines(lines).Keys * props.Keys
  {
    hide Parse, LoadLines;
    forall x ensures x in UpdatedKeys(lines, props) <==> x in LoadLines(lines) && x in props {
      LoadedIffMentioned(lines, x);
      if x in LoadLines(lines) && x in props {
        var k :| 0 <= k < |lines| && Parse(lines[k]).Property? && Parse(lines[k]).key == x;
        assert Updated(lines[k], props);
      }
    }
  }

  lemma {:induction false} OneMoreKey(m: Props, order: seq<string>, props: Props)
    requires AllIn(order, props) && order != []
    ensures var n := |order| - 1;
            (m + map x | x in order[..n] :: props[x])[order[n] := props[order[n]]] == m + map x | x in order :: props[x]
  {
    assert order == order[..|order| - 1] + [order[|order| - 1]];
  }

  /** The entries of the keys in `order`. */
  function Entries(order: seq<string>, props: Props): (r: seq<string>)
    requires forall k :: 0 <= k < |order| ==> order[k] in props
    ensures |r| == |order| && forall k :: 0 <= k < |r| ==> r[k] == Entry(order[k], props[order[k]])
  {
    seq(|order|, k requires 0 <= k < |order| => Entry(order[k], props[order[k]]))
  }

  lemma {:induction false} LoadAppended(lines: seq<string>, order: seq<string>, props: Props)
    requires AllWellFormed(props) && AllIn(order, props)
    ensures LoadLines(lines + Entries(order, props)) == LoadLines(lines) + map x | x in order :: props[x]
    decreases |order|
  {
    hide Parse, Entry, WellFormed, LoadLines;
    if order == [] {
      assert lines + Entries(order, props) == lines;
    } else {
      var n := |order| - 1;
      var all := lines + Entries(order, props);
      LoadAppended(lines, order[..n], props);
      assert all[..|all| - 1] == lines + Entries(order[..n], props);
      LoadLast(all);
      ParseEntry(order[n], props[order[n]]);
      OneMoreKey(LoadLines(lines), order, props);
    }
  }

  lemma {:induction false} SavedIsNewlineFree(lines: seq<string>, props: Props, order: seq<string>)
    requires AllWellFormed(props) && NewlineFree(lines) && forall k :: 0 <= k < |order| ==> order[k] in props
    ensures NewlineFree(SaveLines(lines, props, order))
  {
  }

  /** The lines a saved text is scanned into. */
  lemma {:induction false} ScanSaved(lines: seq<string>)
    requires NewlineFree(lines)
    ensures |ScanLines(Print(lines))| == |lines|
    ensures forall k :: 0 <= k < |lines| ==> ScanLines(Print(lines))[k] == DropCR(lines[k])
  {
    hide DropCR, RawLines;
    RawLinesOfPrint(lines);
  }

  lemma {:induction false} SavedInParts(lines: seq<string>, props: Props, order: seq<string>)
    requires AllIn(order, props)
    ensures var saved := SaveLines(lines, props, order);
            saved[..|lines|] + Entries(order, props) == saved
  {
  }

  lemma {:induction false} OverrideThenAdd(base: Props, m: Props, props: Props, order: seq<string>)
    requires AllIn(order, props) && Overridden(base, m, props)
    requires forall x :: x in order <==> x in props && x !in base
    ensures m + (map x | x in order :: props[x]) == base + props
  {
  }

  lemma {:induction false} LoadSavedInParts(lines: seq<string>, props: Props, order: seq<string>)
    requires AllWellFormed(props)
    requires Lists(order, props.Keys - UpdatedKeys(lines, props))
    ensures LoadLines(SaveLines(lines, props, order)) == LoadLines(lines) + props
  {
    hide Parse, SaveLine, AllWellFormed, LoadLines, UpdatedKeys, Overridden, Entry;
    var updated := SaveLines(lines, props, order)[..|lines|];
    LoadUpdated(lines, updated, props);
    UpdatedAreShared(lines, props);
    forall x ensures x in order <==> x in props && x !in LoadLines(lines) {
    }
    SavedInParts(lines, props, order);
    LoadAppended(updated, order, props);
    OverrideThenAdd(LoadLines(lines), LoadLines(updated), props, order);
  }

  lemma {:induction false} LoadSavedLines(lines: seq<string>, props: Props, order: seq<string>)
    requires AllWellFormed(props) && NewlineFree(lines)
    requires Lists(order, props.Keys - UpdatedKeys(lines, props))
    ensures Load(Print(SaveLines(lines, props, order))) == LoadLines(lines) + props
  {
    hide Parse, SaveLine, AllWellFormed, ScanLines, Print, LoadLines, DropCR, SaveLines;
    var saved := SaveLines(lines, props, order);
    SavedIsNewlineFree(lines, props, order);
    ScanSaved(saved);
    LoadIgnoresCR(saved, ScanLines(Print(saved)));
    LoadSavedInParts(lines, props, order);
  }

  /**
   Loading after saving gives the old properties overridden by the saved ones exactly when every
   saved property is well-formed, whatever the old text was and in whatever order keys are added.
   */
  lemma {:induction false} LoadAfterSave(file: Option<string>, props: Props, order: seq<string>)
    requires Lists(order, props.Keys - UpdatedKeys(OldLines(file), props))
    ensures Load(Print(SaveLines(OldLines(file), props, order)))
            == (if file.None? then map[] else Load(file.value)) + props
            <==> AllWellFormed(props)
  {
    hide Parse, SaveLine, AllWellFormed, ScanLines, Print, LoadLines, WellFormed;
    var lines := OldLines(file);
    var text := Print(SaveLines(lines, props, order));
    NoLines();
    if file.Some? {
      ScannedIsNewlineFree(file.value);
    }
    if AllWellFormed(props) {
      LoadSavedLines(lines, props, order);
    }
    if Load(text) == LoadLines(lines) + props {
      ScannedIsNewlineFree(text);
      LoadedIsWellFormed(ScanLines(text));
      PartOfWellFormed(Load(text), LoadLines(lines), props);
    }
  }

  lemma {:induction false} NoLines()
    ensures LoadLines([]) == map[] && NewlineFree([])
  {
  }

  lemma {:induction false} PartOfWellFormed(all: Props, base: Props, props: Props)
    requires AllWellFormed(all) && all == base + props
    ensures AllWellFormed(props)
  {
  }

  // ---------- saving twice ----------

  /** What saving twice needs of a property: its value may have spaces around it, but neither part a newline. */
  ghost predicate Settable(key: string, value: string) {
    && Trimmed(key) && '=' !in key && '\n' !in key && (key == "" || key[0] != '#')
    && '\n' !in value
  }

  ghost predicate AllSettable(props: Props) {
    forall key :: key in props ==> Settable(key, props[key])
  }

  /** Some line that is kept still ends in a carriage return after scanning. */
  ghost predicate KeepsCR(lines: seq<string>, props: Props) {
    exists k :: 0 <= k < |lines| && !Updated(lines[k], props) && EndsWithCR(lines[k])
  }

  lemma {:induction false} TrimOfEntry(key: string, value: string)
    requires Trimmed(key)
    ensures Trim(Entry(key, value)) == Entry(key, TrimRight(value))
  {
    hide IsSpace;
    EqualsIsNoSpace();
    var e := Entry(key, value);
    assert e[0] == if key == "" then '=' else key[0];
    assert TrimLeft(e) == e;
    TrimRightAfter(key + "=", value);
  }

  lemma {:induction false} EqualsIsNoSpace()
    ensures !IsSpace('=')
  {
  }

  lemma {:induction false} TrimRightAfter(front: string, back: string)
    requires front != "" && !IsSpace(front[|front| - 1])
    ensures TrimRight(front + back) == front + TrimRight(back)
    decreases |back|
  {
    hide IsSpace;
    if back == "" {
      assert front + back == front;
    } else {
      assert (front + back)[..|front + back| - 1] == front + back[..|back| - 1];
      TrimRightAfter(front, back[..|back| - 1]);
    }
  }

  /** The key of a settable property reads back, whatever its value. */
  lemma {:induction false} KeyOfEntry(key: string, value: string)
    requires Settable(key, value)
    ensures Parse(Entry(key, value)).Property? && Parse(Entry(key, value)).key == key
    ensures '\n' !in Entry(key, value)
  {
    hide IsSpace, TrimLeft, TrimRight, Trim, FirstOf, Trimmed, Entry;
    TrimOfEntry(key, value);
    EntryParts(key, value);
    EntryParts(key, TrimRight(value));
    TrimFacts(key);
  }

  // ---------- lines of a text ----------

  lemma {:induction false} MoreLines(line: string, rest: string)
    ensures |RawLines(line + "\n" + rest)| >= 1 + |RawLines(rest)|
    ensures |RawLines(line + "\n" + rest)| == 1 + |RawLines(rest)| <==> '\n' !in line
    decreases |line|
  {
    if '\n' !in line {
      FirstLine(line, rest);
    } else {
      var i := FirstOf(line, '\n');
      assert line == line[..i] + "\n" + line[i + 1..];
      assert line + "\n" + rest == line[..i] + "\n" + (line[i + 1..] + "\n" + rest);
      hide RawLines;
      FirstLine(line[..i], line[i + 1..] + "\n" + rest);
      MoreLines(line[i + 1..], rest);
    }
  }

  /** Printed lines take as many lines of text exactly when none of them holds a newline. */
  lemma {:induction false} LinesOfPrint(lines: seq<string>)
    ensures |RawLines(Print(lines))| >= |lines|
    ensures |RawLines(Print(lines))| == |lines| <==> NewlineFree(lines)
    decreases |lines|
  {
    if lines != [] {
      LinesOfPrint(lines[1..]);
      MoreLines(lines[0], Print(lines[1..]));
      NewlineFreeFirst(lines);
      hide RawLines, NewlineFree;
    }
  }

  lemma {:induction false} NewlineFreeFirst(lines: seq<string>)
    requires lines != []
    ensures NewlineFree(lines) <==> '\n' !in lines[0] && NewlineFree(lines[1..])
  {
    assert forall k :: 1 <= k < |lines| ==> lines[k] == lines[1..][k - 1];
  }

  lemma {:induction false} PrintFirst(line: string, rest: seq<string>)
    ensures Print([line] + rest) == line + "\n" + Print(rest)
  {
    assert ([line] + rest)[1..] == rest;
  }

  lemma {:induction false} PrintOfRawLines(text: string)
    requires text == "" || text[|text| - 1] == '\n'
    ensures Print(RawLines(text)) == text
    decreases |text|
  {
    if text != "" {
      var i := FirstOf(text, '\n');
      assert i < |text|;
      var line, rest := text[..i], text[i + 1..];
      assert text == line + "\n" + rest;
      hide FirstOf;
      PrintOfRawLines(rest);
      FirstLine(line, rest);
      PrintFirst(line, RawLines(rest));
    }
  }

  lemma {:induction false} PrintEnds(lines: seq<string>)
    ensures Print(lines) == "" || Print(lines)[|Print(lines)| - 1] == '\n'
    decreases |lines|
  {
    if lines != [] {
      PrintEnds(lines[1..]);
    }
  }

  // ---------- the second save ----------

  /** A text that saving gives back line by line, with no key appended. */
  ghost predicate GivesBack(text: string, props: Props) {
    && props.Keys <= UpdatedKeys(ScanLines(text), props)
    && forall k :: 0 <= k < |RawLines(text)| ==> SaveLine(ScanLines(text)[k], props) == RawLines(text)[k]
  }

  /** Saving leaves a printed text alone exactly when it gives it back line by line: newlines only get more. */
  lemma {:induction false} UnchangedIffGivenBack(lines: seq<string>, props: Props, second: seq<string>)
    requires Lists(second, props.Keys - UpdatedKeys(ScanLines(Print(lines)), props))
    ensures Print(SaveLines(ScanLines(Print(lines)), props, second)) == Print(lines) <==> GivesBack(Print(lines), props)
  {
    hide SaveLine, Updated, UpdatedKeys, DropCR, Print, RawLines;
    var text := Print(lines);
    var scanned, raw := ScanLines(text), RawLines(text);
    PrintEnds(lines);
    PrintOfRawLines(text);
    ListsNothing(second, props.Keys - UpdatedKeys(scanned, props));
    var again := SaveLines(scanned, props, second);
    if Print(again) == text {
      LinesOfPrint(again);
      assert second == [] && NewlineFree(again);
      RawLinesOfPrint(again);
      assert again == raw;
      var unsaved := props.Keys - UpdatedKeys(scanned, props);
      assert unsaved == {};
      forall x | x in props ensures x in UpdatedKeys(scanned, props) {
        assert x !in unsaved;
      }
      forall k | 0 <= k < |raw| ensures SaveLine(scanned[k], props) == raw[k] {
        assert again[k] == raw[k];
      }
    }
    if GivesBack(text, props) {
      assert props.Keys - UpdatedKeys(scanned, props) == {};
      assert second == [] && |again| == |raw|;
      assert forall k :: 0 <= k < |raw| ==> again[k] == raw[k];
      assert again == raw;
    }
  }

  /** A saved text is given back only if its properties were settable. */
  lemma {:induction false} GivenBackIsSettable(text: string, props: Props)
    requires GivesBack(text, props)
    ensures AllSettable(props)
  {
    hide Parse, Entry, DropCR, Trimmed;
    forall x | x in props ensures Settable(x, props[x]) {
      var k :| 0 <= k < |ScanLines(text)| && Updated(ScanLines(text)[k], props) && Parse(ScanLines(text)[k]).key == x;
      ScannedIsNewlineFree(text);
      ParsedIsWellFormed(ScanLines(text)[k]);
      assert '\n' !in RawLines(text)[k] by { assert RawLines(text)[k] in RawLines(text); }
      assert Entry(x, props[x]) == RawLines(text)[k];
      ValueOfEntry(x, props[x]);
    }
  }

  lemma {:induction false} ValueOfEntry(key: string, value: string)
    ensures '\n' !in Entry(key, value) ==> '\n' !in value
  {
    var e := Entry(key, value);
    assert e[|key| + 1..] == value;
    assert forall k :: 0 <= k < |value| ==> e[|key| + 1 + k] == value[k];
  }

  /** Whether a second save gives a line of the saved text back. */
  lemma {:induction false} LineGivenBack(line: string, props: Props)
    requires AllSettable(props)
    ensures var saved := SaveLine(line, props);
            && (SaveLine(DropCR(saved), props) == saved <==> Updated(line, props) || !EndsWithCR(line))
            && (Updated(DropCR(saved), props) <==> Updated(line, props))
            && (Updated(line, props) ==> Parse(DropCR(saved)).key == Parse(line).key)
  {
    hide Parse, Entry, Settable, EndsWithCR;
    ParseIgnoresCR(SaveLine(line, props));
    if Updated(line, props) {
      KeyOfEntry(Parse(line).key, props[Parse(line).key]);
    }
    DropIsShorter(line);
  }

  lemma {:induction false} DropIsShorter(line: string)
    ensures DropCR(line) == line <==> !EndsWithCR(line)
  {
  }

  lemma {:induction false} EntryGivenBack(key: string, props: Props)
    requires AllSettable(props) && key in props
    ensures var saved := Entry(key, props[key]);
            SaveLine(DropCR(saved), props) == saved && Updated(DropCR(saved), props) && Parse(DropCR(saved)).key == key
  {
    hide Parse, Entry, Settable, EndsWithCR, DropCR;
    ParseIgnoresCR(Entry(key, props[key]));
    KeyOfEntry(key, props[key]);
  }

  lemma {:induction false} SavedSettable(lines: seq<string>, props: Props, order: seq<string>)
    requires AllSettable(props) && NewlineFree(lines) && AllIn(order, props)
    ensures NewlineFree(SaveLines(lines, props, order))
  {
    hide Parse, Entry, Settable;
    var saved := SaveLines(lines, props, order);
    forall k | 0 <= k < |saved| ensures '\n' !in saved[k] {
      if k < |lines| {
        if Updated(lines[k], props) {
          KeyOfEntry(Parse(lines[k]).key, props[Parse(lines[k]).key]);
        }
      } else {
        assert saved[|lines| + (k - |lines|)] == Entry(order[k - |lines|], props[order[k - |lines|]]);
        KeyOfEntry(order[k - |lines|], props[order[k - |lines|]]);
      }
    }
  }

  /** The second save of settable properties updates every key. */
  lemma {:induction false} AllKeysUpdated(lines: seq<string>, again: seq<string>, props: Props, order: seq<string>)
    requires AllSettable(props) && Lists(order, props.Keys - UpdatedKeys(lines, props))
    requires |again| == |SaveLines(lines, props, order)|
    requires forall k :: 0 <= k < |again| ==> again[k] == DropCR(SaveLines(lines, props, order)[k])
    ensures props.Keys <= UpdatedKeys(again, props)
  {
    hide Parse, Entry, Settable, EndsWithCR, SaveLine, DropCR;
    var saved := SaveLines(lines, props, order);
    forall x | x in props ensures x in UpdatedKeys(again, props) {
      if x in UpdatedKeys(lines, props) {
        var k :| 0 <= k < |lines| && Updated(lines[k], props) && Parse(lines[k]).key == x;
        LineGivenBack(lines[k], props);
        assert Updated(again[k], props) && Parse(again[k]).key == x;
      } else {
        assert x in order;
        var k :| 0 <= k < |order| && order[k] == x;
        assert saved[|lines| + k] == Entry(x, props[x]);
        EntryGivenBack(x, props);
        assert Updated(again[|lines| + k], props) && Parse(again[|lines| + k]).key == x;
      }
    }
  }

  lemma {:induction false} SettableGivesBackIff(lines: seq<string>, props: Props, order: seq<string>)
    requires AllSettable(props) && NewlineFree(lines) && Lists(order, props.Keys - UpdatedKeys(lines, props))
    ensures GivesBack(Print(SaveLines(lines, props, order)), props) <==> !KeepsCR(lines, props)
  {
    hide Parse, Entry, Settable, EndsWithCR, SaveLine, DropCR, Updated, UpdatedKeys, Print, RawLines, AllSettable;
    var saved := SaveLines(lines, props, order);
    SavedSettable(lines, props, order);
    RawLinesOfPrint(saved);
    AllKeysUpdated(lines, ScanLines(Print(saved)), props, order);
    forall k | 0 <= k < |saved|
      ensures SaveLine(DropCR(saved[k]), props) == saved[k] <==> !(k < |lines| && !Updated(lines[k], props) && EndsWithCR(lines[k]))
    {
      if k < |lines| {
        LineGivenBack(lines[k], props);
      } else {
        assert saved[|lines| + (k - |lines|)] == Entry(order[k - |lines|], props[order[k - |lines|]]);
        EntryGivenBack(order[k - |lines|], props);
      }
    }
  }

  /**
   Saving the same properties a second time leaves the text alone exactly when every property is
   settable and no kept line of the old file ended in more than one carriage return.
   */
  lemma {:induction false} SaveTwice(file: Option<string>, props: Props, order: seq<string>, second: seq<string>)
    requires Lists(order, props.Keys - UpdatedKeys(OldLines(file), props))
    requires var text := Print(SaveLines(OldLines(file), props, order));
             Lists(second, props.Keys - UpdatedKeys(ScanLines(text), props))
    ensures var text := Print(SaveLines(OldLines(file), props, order));
            Print(SaveLines(ScanLines(text), props, second)) == text <==> AllSettable(props) && !KeepsCR(OldLines(file), props)
  {
    hide Settable, AllSettable, Print, RawLines, UpdatedKeys, KeepsCR, GivesBack, SaveLines, DropCR;
    var lines := OldLines(file);
    NoLines();
    if file.Some? {
      ScannedIsNewlineFree(file.value);
    }
    var saved := SaveLines(lines, props, order);
    UnchangedIffGivenBack(saved, props, second);
    if AllSettable(props) {
      SettableGivesBackIff(lines, props, order);
    } else if GivesBack(Print(saved), props) {
      GivenBackIsSettable(Print(saved), props);
    }
  }

  lemma {:induction false} ListsNothing(order: seq<string>, keys: set<string>)
    requires Lists(order, keys)
    ensures keys == {} <==> order == []
  {
    if order != [] {
      assert order[0] in keys;
    }
  }
}
