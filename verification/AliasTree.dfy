/**
 The two walkers over alias values (internal/alias/alias.go): `Generate` enumerates every leaf
 with its dotted path, `ResolvePath` follows a dotted path.  `EmittedAliasResolves` is the
 agreement between them.

 A reflected Go value is a tree: structs with tagged fields, slices, pointers, and leaves that
 carry the text `formatValue` prints for them (empty for the kinds it does not print).
 */
module AliasTree {
  import opened Common
  import opened GoStrings

  datatype Value =
    | Leaf(text: string)
    | NilPointer
    | Pointer(target: Value)
    | Struct(fields: seq<Field>)
    | Slice(elems: seq<Value>)

  datatype Field = Field(exported: bool, gorm: string, json: string, value: Value)

  datatype Info = Info(path: string, example: string)

  function Deref(v: Value): (r: Value)
    ensures !r.Pointer?
  {
    if v.Pointer? then Deref(v.target) else v
  }

  function FormatValue(v: Value): string {
    match v
    case Leaf(text) => text
    case Pointer(target) => FormatValue(target)
    case _ => ""
  }

  /** The name part of a json tag: everything before the first comma. */
  function JsonName(f: Field): string {
    Split(f.json, ',')[0]
  }

  /** Where the first field whose json tag carries `name` stands, or the length. */
  function TagIndex(fields: seq<Field>, name: string): (i: nat)
    ensures i <= |fields|
    ensures i < |fields| ==> Named(fields[i], name)
    ensures forall j :: 0 <= j < i ==> !Named(fields[j], name)
  {
    if fields == [] || Named(fields[0], name) then 0
    else
      var i := TagIndex(fields[1..], name) + 1;
      assert forall j :: 1 <= j < i ==> fields[j] == fields[1..][j - 1];
      i
  }

  /** The first field whose json tag carries `name`. */
  function FieldByTag(fields: seq<Field>, name: string): (r: Option<Value>)
    ensures r.None? <==> forall i :: 0 <= i < |fields| ==> !Named(fields[i], name)
    ensures r.Some? ==> exists i :: 0 <= i < |fields| && FirstNamed(fields, name, i) && r.value == fields[i].value
  {
    var i := TagIndex(fields, name);
    if i == |fields| then None else
      assert FirstNamed(fields, name, i);
      Some(fields[i].value)
  }

  predicate Named(f: Field, name: string) {
    f.json != "" && JsonName(f) == name
  }

  predicate FirstNamed(fields: seq<Field>, name: string, i: int) {
    0 <= i < |fields| && Named(fields[i], name) && forall j :: 0 <= j < i ==> !Named(fields[j], name)
  }

  /** getFieldValueByJSONName */
  function FieldText(v: Value, name: string): string {
    var s := Deref(v);
    if !s.Struct? then ""
    else match FieldByTag(s.fields, name)
      case None => ""
      case Some(value) => FormatValue(value)
  }

  // ---------- enumerating ----------

  /** The fields the enumerator descends into. */
  predicate Visible(f: Field) {
    f.exported && '-' !in f.gorm && f.json != "" && f.json != "-" && JsonName(f) != ""
  }

  function Generate(v: Value, prefix: string): seq<Info>
    decreases v, 1
  {
    match v
    case NilPointer => []
    case Pointer(target) => Generate(target, prefix)
    case Struct(fields) => GenerateFields(fields, prefix)
    case Slice(elems) => GenerateElems(elems, prefix)
    case Leaf(_) => [Info(prefix, FormatValue(v))]
  }

  function GenerateFields(fields: seq<Field>, prefix: string): seq<Info>
    decreases fields, 0
  {
    if fields == [] then []
    else
      (if Visible(fields[0]) then Generate(fields[0].value, prefix + "." + JsonName(fields[0])) else [])
      + GenerateFields(fields[1..], prefix)
  }

  function GenerateElems(elems: seq<Value>, prefix: string): seq<Info>
    decreases elems, 0
  {
    if elems == [] then []
    else
      (if Listed(elems[0]) then Generate(elems[0], prefix + "." + FieldText(elems[0], "name")) else [])
      + GenerateElems(elems[1..], prefix)
  }

  /** The slice elements the enumerator descends into: structs with a non-empty name. */
  predicate Listed(elem: Value) {
    Deref(elem).Struct? && FieldText(elem, "name") != ""
  }

  // ---------- resolving ----------

  function ResolvePath(v: Value, path: seq<string>): string
    decreases |path|, v
  {
    if path == [] then FormatValue(v)
    else match v
      case NilPointer => ""
      case Pointer(target) => ResolvePath(target, path)
      case Struct(fields) =>
        (match FieldByTag(fields, path[0])
         case None => ""
         case Some(value) => ResolvePath(value, path[1..]))
      case Slice(elems) =>
        var i := ElemByName(elems, path[0]);
        if i == |elems| then "" else ResolvePath(elems[i], path[1..])
      case Leaf(text) => text
  }

  predicate StructNamed(elem: Value, name: string) {
    Deref(elem).Struct? && FieldText(elem, "name") == name
  }

  /** Index of the first struct element with this name, or the length. */
  function ElemByName(elems: seq<Value>, name: string): (i: nat)
    ensures i <= |elems|
    ensures i < |elems| ==> StructNamed(elems[i], name)
    ensures forall j :: 0 <= j < i ==> !StructNamed(elems[j], name)
  {
    if elems == [] || StructNamed(elems[0], name) then 0
    else
      var i := ElemByName(elems[1..], name) + 1;
      assert forall j :: 1 <= j < i ==> elems[j] == elems[1..][j - 1];
      i
  }

  // ---------- what there is to enumerate ----------

  /** `segs` names a way down `v`, through visible fields and listed elements, to a leaf of this text. */
  ghost predicate Reaches(v: Value, segs: seq<string>, text: string)
    decreases v
  {
    match v
    case Leaf(t) => segs == [] && text == t
    case NilPointer => false
    case Pointer(target) => Reaches(target, segs, text)
    case Struct(fields) =>
      segs != [] && exists i :: 0 <= i < |fields| && Visible(fields[i]) && JsonName(fields[i]) == segs[0]
                                && Reaches(fields[i].value, segs[1..], text)
    case Slice(elems) =>
      segs != [] && exists i :: 0 <= i < |elems| && Listed(elems[i]) && FieldText(elems[i], "name") == segs[0]
                                && Reaches(elems[i], segs[1..], text)
  }

  lemma {:induction false} IntoFields(fields: seq<Field>, prefix: string, info: Info, i: nat)
    requires i < |fields| && Visible(fields[i])
    requires info in Generate(fields[i].value, prefix + "." + JsonName(fields[i]))
    ensures info in GenerateFields(fields, prefix)
    decreases i
  {
    hide JsonName, Visible;
    if i != 0 {
      IntoFields(fields[1..], prefix, info, i - 1);
    }
  }

  lemma {:induction false} IntoElems(elems: seq<Value>, prefix: string, info: Info, i: nat)
    requires i < |elems| && Listed(elems[i])
    requires info in Generate(elems[i], prefix + "." + FieldText(elems[i], "name"))
    ensures info in GenerateElems(elems, prefix)
    decreases i
  {
    hide FieldText, Listed;
    if i != 0 {
      IntoElems(elems[1..], prefix, info, i - 1);
    }
  }

  /** Every leaf that can be named is enumerated, under the dotted form of its names. */
  lemma {:induction false} ReachedIsEmitted(v: Value, prefix: string, segs: seq<string>, text: string)
    requires Reaches(v, segs, text)
    ensures Info(Dotted(prefix, segs), text) in Generate(v, prefix)
    decreases v
  {
    hide FieldText, JsonName, Listed, Visible;
    var info := Info(Dotted(prefix, segs), text);
    match v {
      case Leaf(_) =>
      case Pointer(target) =>
        ReachedIsEmitted(target, prefix, segs, text);
      case Struct(fields) =>
        var i :| 0 <= i < |fields| && Visible(fields[i]) && JsonName(fields[i]) == segs[0]
                 && Reaches(fields[i].value, segs[1..], text);
        ReachedIsEmitted(fields[i].value, prefix + "." + segs[0], segs[1..], text);
        DottedCons(prefix, segs[0], segs[1..]);
        assert segs == [segs[0]] + segs[1..];
        IntoFields(fields, prefix, info, i);
      case Slice(elems) =>
        var i :| 0 <= i < |elems| && Listed(elems[i]) && FieldText(elems[i], "name") == segs[0]
                 && Reaches(elems[i], segs[1..], text);
        ReachedIsEmitted(elems[i], prefix + "." + segs[0], segs[1..], text);
        DottedCons(prefix, segs[0], segs[1..]);
        assert segs == [segs[0]] + segs[1..];
        IntoElems(elems, prefix, info, i);
    }
  }

  /** Nothing else is enumerated. */
  lemma {:induction false} EmittedIsReached(v: Value, prefix: string, info: Info) returns (segs: seq<string>)
    requires info in Generate(v, prefix)
    ensures Reaches(v, segs, info.example) && info.path == Dotted(prefix, segs)
    decreases v
  {
    hide FieldText, JsonName, Listed, Visible;
    match v {
      case Leaf(_) =>
        segs := [];
      case Pointer(target) =>
        segs := EmittedIsReached(target, prefix, info);
      case Struct(fields) =>
        var i := FromField(fields, prefix, info);
        var name := JsonName(fields[i]);
        var rest := EmittedIsReached(fields[i].value, prefix + "." + name, info);
        segs := [name] + rest;
        DottedCons(prefix, name, rest);
        assert segs[1..] == rest;
      case Slice(elems) =>
        var i := FromElem(elems, prefix, info);
        var name := FieldText(elems[i], "name");
        var rest := EmittedIsReached(elems[i], prefix + "." + name, info);
        segs := [name] + rest;
        DottedCons(prefix, name, rest);
        assert segs[1..] == rest;
    }
  }

  // ---------- agreement ----------

  /**
   What the names must satisfy: no name the enumerator uses contains a dot or is shadowed by an
   earlier sibling of the same name.
   */
  ghost predicate WellNamed(v: Value)
    decreases v
  {
    match v
    case Pointer(target) => WellNamed(target)
    case Struct(fields) =>
      forall i {:trigger fields[i]} :: 0 <= i < |fields| && Visible(fields[i]) ==>
        '.' !in JsonName(fields[i]) && FirstNamed(fields, JsonName(fields[i]), i) && WellNamed(fields[i].value)
    case Slice(elems) =>
      forall i {:trigger elems[i]} :: 0 <= i < |elems| && Listed(elems[i]) ==>
        '.' !in FieldText(elems[i], "name") && ElemByName(elems, FieldText(elems[i], "name")) == i && WellNamed(elems[i])
    case _ => true
  }

  /** `prefix.seg.seg...` */
  function Dotted(prefix: string, segs: seq<string>): string
    decreases |segs|
  {
    if segs == [] then prefix else Dotted(prefix, segs[..|segs| - 1]) + "." + segs[|segs| - 1]
  }

  ghost predicate DotFree(segs: seq<string>) {
    forall seg :: seg in segs ==> '.' !in seg
  }

  lemma {:induction false} DottedCons(prefix: string, seg: string, segs: seq<string>)
    ensures Dotted(prefix + "." + seg, segs) == Dotted(prefix, [seg] + segs)
    decreases |segs|
  {
    var all := [seg] + segs;
    if segs == [] {
      assert all[..|all| - 1] == [];
    } else {
      DottedCons(prefix, seg, segs[..|segs| - 1]);
      assert all[..|all| - 1] == [seg] + segs[..|segs| - 1];
    }
  }

  lemma {:induction false} SplitDotted(prefix: string, segs: seq<string>)
    requires DotFree(segs)
    ensures Split(Dotted(prefix, segs), '.') == Split(prefix, '.') + segs
    decreases |segs|
  {
    if segs != [] {
      var front, last := segs[..|segs| - 1], segs[|segs| - 1];
      SplitDotted(prefix, front);
      SplitAppend(Dotted(prefix, front), '.', last);
      assert Dotted(prefix, segs) == Dotted(prefix, front) + ['.'] + last;
      assert segs == front + [last];
    }
  }

  lemma {:induction false} FromField(fields: seq<Field>, prefix: string, info: Info) returns (i: nat)
    requires info in GenerateFields(fields, prefix)
    ensures i < |fields| && Visible(fields[i])
    ensures info in Generate(fields[i].value, prefix + "." + JsonName(fields[i]))
    decreases |fields|
  {
    hide JsonName, Visible;
    if Visible(fields[0]) && info in Generate(fields[0].value, prefix + "." + JsonName(fields[0])) {
      i := 0;
    } else {
      i := FromField(fields[1..], prefix, info);
      i := i + 1;
    }
  }

  lemma {:induction false} FromElem(elems: seq<Value>, prefix: string, info: Info) returns (i: nat)
    requires info in GenerateElems(elems, prefix)
    ensures i < |elems| && Listed(elems[i])
    ensures info in Generate(elems[i], prefix + "." + FieldText(elems[i], "name"))
    decreases |elems|
  {
    hide FieldText, Listed;
    if Listed(elems[0]) && info in Generate(elems[0], prefix + "." + FieldText(elems[0], "name")) {
      i := 0;
    } else {
      i := FromElem(elems[1..], prefix, info);
      i := i + 1;
    }
  }

  /** Following the names of a reachable leaf resolves to its text, and no name holds a dot. */
  lemma {:induction false} ReachedResolves(v: Value, segs: seq<string>, text: string)
    requires WellNamed(v) && Reaches(v, segs, text)
    ensures DotFree(segs) && ResolvePath(v, segs) == text
    decreases v
  {
    hide FieldText, JsonName, FieldByTag;
    match v {
      case Leaf(_) =>
      case Pointer(target) =>
        ReachedResolves(target, segs, text);
      case Struct(fields) =>
        var i :| 0 <= i < |fields| && Visible(fields[i]) && JsonName(fields[i]) == segs[0]
                 && Reaches(fields[i].value, segs[1..], text);
        ReachedResolves(fields[i].value, segs[1..], text);
        FirstNamedIsUnique(fields, segs[0], i);
        assert segs == [segs[0]] + segs[1..];
      case Slice(elems) =>
        var i :| 0 <= i < |elems| && Listed(elems[i]) && FieldText(elems[i], "name") == segs[0]
                 && Reaches(elems[i], segs[1..], text);
        ReachedResolves(elems[i], segs[1..], text);
        assert segs == [segs[0]] + segs[1..];
    }
  }

  lemma {:induction false} FirstNamedIsUnique(fields: seq<Field>, name: string, i: int)
    requires FirstNamed(fields, name, i)
    ensures FieldByTag(fields, name) == Some(fields[i].value)
  {
  }

  /**
   Every alias the enumerator emits resolves back to its own value: splitting its path and
   dropping the segments of the prefix gives a path that leads to the example value.
   */
  lemma {:induction false} EmittedAliasResolves(v: Value, prefix: string, info: Info)
    requires WellNamed(v) && info in Generate(v, prefix)
    ensures |Split(info.path, '.')| >= |Split(prefix, '.')|
    ensures ResolvePath(v, Split(info.path, '.')[|Split(prefix, '.')|..]) == info.example
  {
    var segs := EmittedIsReached(v, prefix, info);
    ReachedResolves(v, segs, info.example);
    SplitDotted(prefix, segs);
    assert Split(info.path, '.')[|Split(prefix, '.')|..] == segs;
  }

  // ---------- shadowed names ----------

  /** Every path that leads down `u` resolves against `w` to the text it leads to. */
  ghost predicate AgreeOn(w: Value, u: Value) {
    forall segs, text :: Reaches(u, segs, text) ==> ResolvePath(w, segs) == text
  }

  /** The names that the enumerator uses hold no dots; they may repeat. */
  ghost predicate DotFreeNames(v: Value)
    decreases v
  {
    match v
    case Pointer(target) => DotFreeNames(target)
    case Struct(fields) =>
      forall i {:trigger fields[i]} :: 0 <= i < |fields| && Visible(fields[i]) ==>
        '.' !in JsonName(fields[i]) && DotFreeNames(fields[i].value)
    case Slice(elems) =>
      forall i {:trigger elems[i]} :: 0 <= i < |elems| && Listed(elems[i]) ==>
        '.' !in FieldText(elems[i], "name") && DotFreeNames(elems[i])
    case _ => true
  }

  /**
   Where a name repeats, the first sibling of that name has to say what the later ones say.  For a
   field every tagged sibling counts, also one that is not enumerated itself.
   */
  ghost predicate ShadowsAgree(v: Value)
    decreases v
  {
    match v
    case Pointer(target) => ShadowsAgree(target)
    case Struct(fields) =>
      forall i {:trigger fields[i]} :: 0 <= i < |fields| && Visible(fields[i]) ==>
        if FirstNamed(fields, JsonName(fields[i]), i) then ShadowsAgree(fields[i].value)
        else FieldAgrees(fields, i)
    case Slice(elems) =>
      forall i {:trigger elems[i]} :: 0 <= i < |elems| && Listed(elems[i]) ==>
        if ElemByName(elems, FieldText(elems[i], "name")) == i then ShadowsAgree(elems[i])
        else ElemAgrees(elems, i)
    case _ => true
  }

  ghost predicate FieldAgrees(fields: seq<Field>, i: int)
    requires 0 <= i < |fields|
  {
    var first := FieldByTag(fields, JsonName(fields[i]));
    first.Some? && AgreeOn(first.value, fields[i].value)
  }

  ghost predicate ElemAgrees(elems: seq<Value>, i: int)
    requires 0 <= i < |elems|
  {
    var first := ElemByName(elems, FieldText(elems[i], "name"));
    first < |elems| && AgreeOn(elems[first], elems[i])
  }

  /** A path through a field resolves as its rest inside the first field of that name. */
  lemma {:induction false} FieldPathResolvesByFirst(fields: seq<Field>, i: nat, segs: seq<string>, text: string)
    requires i < |fields| && Visible(fields[i]) && Reaches(fields[i].value, segs, text)
    ensures var name := JsonName(fields[i]);
            && Reaches(Struct(fields), [name] + segs, text)
            && FieldByTag(fields, name).Some?
            && ResolvePath(Struct(fields), [name] + segs) == ResolvePath(FieldByTag(fields, name).value, segs)
  {
    var name := JsonName(fields[i]);
    assert Named(fields[i], name);
    assert ([name] + segs)[1..] == segs;
    hide JsonName, FieldByTag;
  }

  /** A path through a slice element resolves as its rest inside the first element of that name. */
  lemma {:induction false} ElementPathResolvesByFirst(elems: seq<Value>, i: nat, segs: seq<string>, text: string)
    requires i < |elems| && Listed(elems[i]) && Reaches(elems[i], segs, text)
    ensures var name := FieldText(elems[i], "name");
            && Reaches(Slice(elems), [name] + segs, text)
            && ElemByName(elems, name) <= i
            && ResolvePath(Slice(elems), [name] + segs) == ResolvePath(elems[ElemByName(elems, name)], segs)
  {
    var name := FieldText(elems[i], "name");
    assert ([name] + segs)[1..] == segs;
    hide FieldText, ElemByName;
  }

  lemma {:induction false} FieldMustAgree(fields: seq<Field>, i: nat)
    requires AgreeOn(Struct(fields), Struct(fields)) && i < |fields| && Visible(fields[i])
    ensures FieldAgrees(fields, i)
  {
    hide JsonName, FieldByTag, Visible, ResolvePath, Reaches;
    TagIsFound(fields, i);
    forall segs, text | Reaches(fields[i].value, segs, text)
      ensures ResolvePath(FieldByTag(fields, JsonName(fields[i])).value, segs) == text
    {
      FieldPathResolvesByFirst(fields, i, segs, text);
    }
  }

  lemma {:induction false} FieldsSuffice(fields: seq<Field>, segs: seq<string>, text: string)
    requires forall i {:trigger fields[i]} :: 0 <= i < |fields| && Visible(fields[i]) ==> FieldAgrees(fields, i)
    requires Reaches(Struct(fields), segs, text)
    ensures ResolvePath(Struct(fields), segs) == text
  {
    hide JsonName, FieldByTag, Visible, ResolvePath;
    var i :| 0 <= i < |fields| && Visible(fields[i]) && JsonName(fields[i]) == segs[0]
             && Reaches(fields[i].value, segs[1..], text);
    assert segs == [segs[0]] + segs[1..];
    FieldPathResolvesByFirst(fields, i, segs[1..], text);
    assert FieldAgrees(fields, i);
  }

  lemma {:induction false} FieldsAgreeIff(fields: seq<Field>)
    ensures AgreeOn(Struct(fields), Struct(fields))
            <==> forall i {:trigger fields[i]} :: 0 <= i < |fields| && Visible(fields[i]) ==> FieldAgrees(fields, i)
  {
    hide Visible, ResolvePath, Reaches, FieldAgrees;
    if AgreeOn(Struct(fields), Struct(fields)) {
      forall i | 0 <= i < |fields| && Visible(fields[i]) ensures FieldAgrees(fields, i) {
        FieldMustAgree(fields, i);
      }
    }
    if forall i {:trigger fields[i]} :: 0 <= i < |fields| && Visible(fields[i]) ==> FieldAgrees(fields, i) {
      forall segs, text | Reaches(Struct(fields), segs, text) ensures ResolvePath(Struct(fields), segs) == text {
        FieldsSuffice(fields, segs, text);
      }
    }
  }

  lemma {:induction false} TagIsFound(fields: seq<Field>, i: nat)
    requires i < |fields| && Visible(fields[i])
    ensures FieldByTag(fields, JsonName(fields[i])).Some?
  {
    assert Named(fields[i], JsonName(fields[i]));
  }

  lemma {:induction false} ElemMustAgree(elems: seq<Value>, i: nat)
    requires AgreeOn(Slice(elems), Slice(elems)) && i < |elems| && Listed(elems[i])
    ensures ElemAgrees(elems, i)
  {
    hide FieldText, ResolvePath, Reaches;
    forall segs, text | Reaches(elems[i], segs, text)
      ensures ResolvePath(elems[ElemByName(elems, FieldText(elems[i], "name"))], segs) == text
    {
      ElementPathResolvesByFirst(elems, i, segs, text);
    }
  }

  lemma {:induction false} ElemsSuffice(elems: seq<Value>, segs: seq<string>, text: string)
    requires forall i {:trigger elems[i]} :: 0 <= i < |elems| && Listed(elems[i]) ==> ElemAgrees(elems, i)
    requires Reaches(Slice(elems), segs, text)
    ensures ResolvePath(Slice(elems), segs) == text
  {
    hide FieldText, ResolvePath, Listed;
    var i :| 0 <= i < |elems| && Listed(elems[i]) && FieldText(elems[i], "name") == segs[0]
             && Reaches(elems[i], segs[1..], text);
    assert segs == [segs[0]] + segs[1..];
    ElementPathResolvesByFirst(elems, i, segs[1..], text);
    assert ElemAgrees(elems, i);
  }

  lemma {:induction false} ElemsAgreeIff(elems: seq<Value>)
    ensures AgreeOn(Slice(elems), Slice(elems))
            <==> forall i {:trigger elems[i]} :: 0 <= i < |elems| && Listed(elems[i]) ==> ElemAgrees(elems, i)
  {
    hide Listed, ResolvePath, Reaches, ElemAgrees;
    if AgreeOn(Slice(elems), Slice(elems)) {
      forall i | 0 <= i < |elems| && Listed(elems[i]) ensures ElemAgrees(elems, i) {
        ElemMustAgree(elems, i);
      }
    }
    if forall i {:trigger elems[i]} :: 0 <= i < |elems| && Listed(elems[i]) ==> ElemAgrees(elems, i) {
      forall segs, text | Reaches(Slice(elems), segs, text) ensures ResolvePath(Slice(elems), segs) == text {
        ElemsSuffice(elems, segs, text);
      }
    }
  }

  /** Following names resolves to the leaf they lead to exactly when shadowing siblings agree. */
  lemma {:induction false} ResolvesIffShadowsAgree(v: Value)
    ensures AgreeOn(v, v) <==> ShadowsAgree(v)
    decreases v
  {
    hide FieldText, JsonName, FieldByTag, Visible, Listed, AgreeOn, ElemByName;
    match v {
      case Leaf(_) =>
        LeafAgrees(v);
      case NilPointer =>
        LeafAgrees(v);
      case Pointer(target) =>
        ResolvesIffShadowsAgree(target);
        PointerAgrees(target);
      case Struct(fields) =>
        FieldsAgreeIff(fields);
        forall i | 0 <= i < |fields| && FirstNamed(fields, JsonName(fields[i]), i)
          ensures FieldAgrees(fields, i) <==> ShadowsAgree(fields[i].value)
        {
          FirstNamedIsUnique(fields, JsonName(fields[i]), i);
          ResolvesIffShadowsAgree(fields[i].value);
        }
      case Slice(elems) =>
        ElemsAgreeIff(elems);
        forall i | 0 <= i < |elems| && ElemByName(elems, FieldText(elems[i], "name")) == i
          ensures ElemAgrees(elems, i) <==> ShadowsAgree(elems[i])
        {
          ResolvesIffShadowsAgree(elems[i]);
        }
    }
  }

  lemma {:induction false} LeafAgrees(v: Value)
    requires v.Leaf? || v.NilPointer?
    ensures AgreeOn(v, v)
  {
  }

  lemma {:induction false} PointerAgrees(target: Value)
    ensures AgreeOn(Pointer(target), Pointer(target)) <==> AgreeOn(target, target)
  {
    forall segs ensures ResolvePath(Pointer(target), segs) == ResolvePath(target, segs) {
    }
    assert forall segs, text :: Reaches(Pointer(target), segs, text) <==> Reaches(target, segs, text);
    hide Reaches, ResolvePath;
    if AgreeOn(Pointer(target), Pointer(target)) {
      forall segs, text | Reaches(target, segs, text) ensures ResolvePath(target, segs) == text {
        assert Reaches(Pointer(target), segs, text);
        assert ResolvePath(Pointer(target), segs) == text;
      }
    }
  }

  lemma {:induction false} ReachedIsDotFree(v: Value, segs: seq<string>, text: string)
    requires DotFreeNames(v) && Reaches(v, segs, text)
    ensures DotFree(segs)
    decreases v
  {
    hide FieldText, JsonName;
    match v {
      case Leaf(_) =>
      case Pointer(target) =>
        ReachedIsDotFree(target, segs, text);
      case Struct(fields) =>
        var i :| 0 <= i < |fields| && Visible(fields[i]) && JsonName(fields[i]) == segs[0]
                 && Reaches(fields[i].value, segs[1..], text);
        ReachedIsDotFree(fields[i].value, segs[1..], text);
        assert segs == [segs[0]] + segs[1..];
      case Slice(elems) =>
        var i :| 0 <= i < |elems| && Listed(elems[i]) && FieldText(elems[i], "name") == segs[0]
                 && Reaches(elems[i], segs[1..], text);
        ReachedIsDotFree(elems[i], segs[1..], text);
        assert segs == [segs[0]] + segs[1..];
    }
  }

  /** The alias resolves to the value it was listed with. */
  ghost predicate ResolvesBack(v: Value, prefix: string, info: Info) {
    && |Split(info.path, '.')| >= |Split(prefix, '.')|
    && ResolvePath(v, Split(info.path, '.')[|Split(prefix, '.')|..]) == info.example
  }

  /** With dot-free names, all aliases of a value resolve back exactly when shadowing siblings agree. */
  lemma {:induction false} AllResolveIffShadowsAgree(v: Value, prefix: string)
    requires DotFreeNames(v)
    ensures (forall info :: info in Generate(v, prefix) ==> ResolvesBack(v, prefix, info)) <==> ShadowsAgree(v)
  {
    ResolvesIffShadowsAgree(v);
    hide Reaches, ResolvePath, Generate, DotFreeNames, ShadowsAgree, ResolvesBack;
    if forall info :: info in Generate(v, prefix) ==> ResolvesBack(v, prefix, info) {
      forall segs, text | Reaches(v, segs, text) ensures ResolvePath(v, segs) == text {
        ReachedIsEmitted(v, prefix, segs, text);
        assert ResolvesBack(v, prefix, Info(Dotted(prefix, segs), text));
        BackAlong(v, prefix, segs, text);
      }
    }
    if AgreeOn(v, v) {
      forall info | info in Generate(v, prefix) ensures ResolvesBack(v, prefix, info) {
        var segs := EmittedIsReached(v, prefix, info);
        BackAlong(v, prefix, segs, info.example);
      }
    }
  }

  lemma {:induction false} BackAlong(v: Value, prefix: string, segs: seq<string>, text: string)
    requires DotFreeNames(v) && Reaches(v, segs, text)
    ensures ResolvesBack(v, prefix, Info(Dotted(prefix, segs), text)) <==> ResolvePath(v, segs) == text
  {
    ReachedIsDotFree(v, segs, text);
    hide Reaches, ResolvePath, DotFreeNames, Split, Dotted;
    SplitDotted(prefix, segs);
    assert (Split(prefix, '.') + segs)[|Split(prefix, '.')|..] == segs;
  }

  // ---------- an example of shadowing ----------

  /** A struct named "web" with a port. */
  function Web(port: string): Value {
    Struct([Field(true, "", "name", Leaf("web")), Field(true, "", "port", Leaf(port))])
  }

  lemma {:induction false} WebNames(port: string)
    ensures JsonName(Web(port).fields[0]) == "name" && JsonName(Web(port).fields[1]) == "port"
  {
    FirstOfAppend("name", ',', []);
    FirstOfAppend("port", ',', []);
  }

  lemma {:induction false} WebFields(port: string)
    ensures FieldText(Web(port), "name") == "web"
    ensures ResolvePath(Web(port), ["port"]) == port
  {
    hide JsonName, FieldByTag;
    WebNames(port);
    var fields := Web(port).fields;
    FirstNamedIsUnique(fields, "name", 0);
    FirstNamedIsUnique(fields, "port", 1);
    assert ["port"][1..] == [];
  }

  lemma {:induction false} WebAlias(port: string)
    ensures Info("p.web.port", port) in Generate(Web(port), "p.web")
  {
    hide JsonName;
    WebNames(port);
    var fields := Web(port).fields;
    assert fields[1..] == [fields[1]];
    assert "p.web" + "." + "port" == "p.web.port";
    assert Info("p.web.port", port) in GenerateFields(fields[1..], "p.web");
  }

  /** Two elements of one name: the second is listed with its own value but resolves to the first's. */
  lemma {:induction false} ShadowedElementDoesNotResolve()
    ensures var v := Slice([Web("80"), Web("81")]);
            Info("p.web.port", "81") in Generate(v, "p") && ResolvePath(v, ["web", "port"]) == "80"
  {
    hide Web, Generate, FieldByTag, FieldText, ResolvePath, ElemByName, GenerateElems, Deref;
    WebFields("80");
    WebFields("81");
    WebAlias("81");
    WebIsStruct();
    var elems := [Web("80"), Web("81")];
    assert "p" + "." + "web" == "p.web";
    IntoElems(elems, "p", Info("p.web.port", "81"), 1);
    SliceRule(elems, "p");
    FirstElem(elems, "web");
    SliceResolves(elems, "web", ["port"]);
    assert ["web"] + ["port"] == ["web", "port"];
  }

  lemma {:induction false} FirstElem(elems: seq<Value>, name: string)
    requires elems != [] && Deref(elems[0]).Struct? && FieldText(elems[0], "name") == name
    ensures ElemByName(elems, name) == 0
  {
    hide FieldText, Deref;
  }

  lemma {:induction false} SliceResolves(elems: seq<Value>, name: string, rest: seq<string>)
    ensures var i := ElemByName(elems, name);
            ResolvePath(Slice(elems), [name] + rest) == if i == |elems| then "" else ResolvePath(elems[i], rest)
  {
    hide ElemByName;
    assert ([name] + rest)[1..] == rest;
  }

  lemma {:induction false} WebIsStruct()
    ensures forall port :: Deref(Web(port)).Struct?
  {
  }

  lemma {:induction false} SliceRule(elems: seq<Value>, prefix: string)
    ensures Generate(Slice(elems), prefix) == GenerateElems(elems, prefix)
  {
  }
}
