/** What accepting a parameter schema means, read off the raw types, fields and tags alone. */
module ParamSchemaMeaning {
  import opened Facts
  import opened ParamSchema

  // ----- the rules

  /** What comes before the first comma. */
  function BeforeComma(s: string): string {
    if s == "" || s[0] == ',' then "" else [s[0]] + BeforeComma(s[1..])
  }

  /** The code of an ASCII letter or underscore. */
  predicate LetterCode(c: int) { 97 <= c <= 122 || 65 <= c <= 90 || c == 95 }

  predicate DigitCode(c: int) { 48 <= c <= 57 }

  /** The name a field is decoded under: its tag up to the first comma, or its own name if that is empty. */
  function DecodedName(f: Field): string {
    if BeforeComma(f.tag) == "" then f.name else BeforeComma(f.tag)
  }

  ghost predicate Identifier(name: string) {
    1 <= |name| <= 64 && forall i :: 0 <= i < |name| ==>
      LetterCode(name[i] as int) || (i > 0 && DigitCode(name[i] as int))
  }

  ghost predicate OptionsKnown(tag: string) {
    forall a :: 0 <= a < |tag| && tag[a] == ',' ==> BeforeComma(tag[a + 1..]) in {"omitempty", "omitzero"}
  }

  /** No field is embedded; those exported and not tagged "-" have proper and distinct names and known options, and
      nothing is asked of the others. */
  ghost predicate FieldsOk(fields: seq<Field>) {
    && (forall i :: 0 <= i < |fields| ==> !fields[i].anonymous)
    && (forall i :: 0 <= i < |fields| && fields[i].exported && fields[i].tag != "-" ==>
                      Identifier(DecodedName(fields[i])) && OptionsKnown(fields[i].tag))
    && (forall i, j :: 0 <= i < j < |fields| && fields[i].exported && fields[i].tag != "-"
                       && fields[j].exported && fields[j].tag != "-" ==>
                         DecodedName(fields[i]) != DecodedName(fields[j]))
  }

  ghost predicate TypeOk(types: seq<Type>, t: nat) {
    && t < |types| && !types[t].decoder && !types[t].duration && types[t].size <= 16384
    && match types[t].kind
       case OtherKind => false
       case Map(key, _) => key < |types| && types[key].kind == Text
       case Struct(fields) => |fields| <= 64 && FieldsOk(fields)
       case _ => true
  }

  // ----- the graph

  /** A value of type `t` directly holds values of type `c`. */
  ghost predicate Holds(types: seq<Type>, t: nat, c: nat) {
    t < |types| &&
    match types[t].kind
    case Pointer(elem) => c == elem
    case Slice(elem) => c == elem
    case Map(key, elem) => c == key || c == elem
    case Struct(fields) =>
      exists i :: 0 <= i < |fields| && fields[i].exported && fields[i].tag != "-" && fields[i].typ == c
    case _ => false
  }

  ghost predicate Chain(types: seq<Type>, root: nat, p: seq<nat>) {
    |p| > 0 && p[0] == root && forall i :: 0 <= i < |p| - 1 ==> Holds(types, p[i], p[i + 1])
  }

  /** Whatever chain of types leads from the root, its last type keeps the rules and no type comes twice. */
  ghost predicate Sound(types: seq<Type>, root: nat) {
    forall p :: |p| > 0 && Chain(types, root, p) ==>
                  TypeOk(types, p[|p| - 1]) && forall i, j :: 0 <= i < j < |p| ==> p[i] != p[j]
  }

  // ----- tags

  lemma {:induction false} SplitHead(s: string)
    ensures Split(s)[0] == BeforeComma(s)
  {
    if s != "" {
      SplitHead(s[1..]);
    }
  }

  lemma {:induction false} SplitOptions(s: string, i: nat) returns (a: nat)
    requires 0 < i < |Split(s)|
    ensures a < |s| && s[a] == ',' && Split(s)[i] == BeforeComma(s[a + 1..])
  {
    if s[0] == ',' {
      if i == 1 {
        a := 0;
        SplitHead(s[1..]);
      } else {
        var b := SplitOptions(s[1..], i - 1);
        a := b + 1;
        assert s[1..][b + 1..] == s[a + 1..];
      }
    } else {
      assert Split(s)[1..] == Split(s[1..])[1..];
      var b := SplitOptions(s[1..], i);
      a := b + 1;
      assert s[1..][b + 1..] == s[a + 1..];
    }
  }

  lemma {:induction false} OptionSplit(s: string, a: nat) returns (i: nat)
    requires a < |s| && s[a] == ','
    ensures 0 < i < |Split(s)| && Split(s)[i] == BeforeComma(s[a + 1..])
  {
    if a == 0 {
      i := 1;
      SplitHead(s[1..]);
      assert Split(s)[1] == Split(s[1..])[0];
    } else {
      var j := OptionSplit(s[1..], a - 1);
      assert s[1..][a..] == s[a + 1..];
      if s[0] == ',' {
        i := j + 1;
      } else {
        i := j;
        assert Split(s)[1..] == Split(s[1..])[1..];
      }
    }
  }

  lemma {:induction false} OptionsMean(f: Field)
    ensures ValidOptions(f) <==> OptionsKnown(f.tag)
  {
    if OptionsKnown(f.tag) {
      forall i | 0 < i < |Split(f.tag)| ensures Split(f.tag)[i] == "omitempty" || Split(f.tag)[i] == "omitzero" {
        var a := SplitOptions(f.tag, i);
      }
    }
    if ValidOptions(f) {
      forall a | 0 <= a < |f.tag| && f.tag[a] == ','
        ensures BeforeComma(f.tag[a + 1..]) in {"omitempty", "omitzero"}
      {
        var i := OptionSplit(f.tag, a);
      }
    }
  }

  lemma {:induction false} LettersMean(c: char)
    ensures Letter(c) <==> LetterCode(c as int)
    ensures Digit(c) <==> DigitCode(c as int)
  {}

  lemma {:induction false} NamesMean(name: string)
    ensures ValidFieldName(name) <==> Identifier(name)
  {
    hide Letter, Digit, LetterCode, DigitCode;
    forall i | 0 <= i < |name|
      ensures (Letter(name[i]) <==> LetterCode(name[i] as int)) && (Digit(name[i]) <==> DigitCode(name[i] as int))
    {
      LettersMean(name[i]);
    }
    if name != "" {
      NotBoth(name[0]);
    }
  }

  lemma {:induction false} NotBoth(c: char)
    ensures !(Letter(c) && Digit(c))
  {}

  // ----- fields

  lemma {:induction false} FaultsMean(fields: seq<Field>, i: nat)
    requires i <= |fields|
    ensures FirstFieldFault(fields, i) == None <==> forall k :: i <= k < |fields| ==> FieldFault(fields, k) == None
    decreases |fields| - i
  {
    hide FieldFault;
    if i < |fields| {
      FaultsMean(fields, i + 1);
    }
  }

  lemma {:induction false} DecodedMeans(f: Field)
    ensures JsonName(f) == DecodedName(f)
  {
    SplitHead(f.tag);
  }

  lemma {:induction false} TakenMeans(fields: seq<Field>, i: nat, name: string)
    requires i <= |fields|
    ensures name in Names(fields[..i])
       <==> exists k :: 0 <= k < i && fields[k].exported && fields[k].tag != "-" && DecodedName(fields[k]) == name
  {
    hide JsonName, DecodedName;
    forall k | 0 <= k < i ensures JsonName(fields[k]) == DecodedName(fields[k]) && fields[..i][k] == fields[k] {
      DecodedMeans(fields[k]);
    }
    if k :| 0 <= k < i && fields[k].exported && fields[k].tag != "-" && DecodedName(fields[k]) == name {
      assert !IsSkipped(fields[..i][k]) && JsonName(fields[..i][k]) == name;
    }
  }

  lemma {:induction false} FieldFaultMeans(fields: seq<Field>, i: nat)
    requires i < |fields|
    ensures var f := fields[i];
            FieldFault(fields, i) == None <==>
              && !f.anonymous
              && (f.exported && f.tag != "-" ==>
                    && Identifier(DecodedName(f)) && OptionsKnown(f.tag)
                    && forall k :: 0 <= k < i && fields[k].exported && fields[k].tag != "-" ==>
                         DecodedName(fields[k]) != DecodedName(f))
  {
    hide Identifier, OptionsKnown, DecodedName, JsonName, ValidFieldName, ValidOptions, Names;
    var f := fields[i];
    DecodedMeans(f);
    NamesMean(DecodedName(f));
    OptionsMean(f);
    TakenMeans(fields, i, DecodedName(f));
  }

  lemma {:induction false} FieldsMean(fields: seq<Field>)
    ensures FirstFieldFault(fields, 0) == None <==> FieldsOk(fields)
  {
    hide Identifier, OptionsKnown, DecodedName, FieldFault, FirstFieldFault;
    FaultsMean(fields, 0);
    forall i | 0 <= i < |fields|
      ensures var f := fields[i];
              FieldFault(fields, i) == None <==>
                && !f.anonymous
                && (f.exported && f.tag != "-" ==>
                      && Identifier(DecodedName(f)) && OptionsKnown(f.tag)
                      && forall k :: 0 <= k < i && fields[k].exported && fields[k].tag != "-" ==>
                           DecodedName(fields[k]) != DecodedName(f))
    {
      FieldFaultMeans(fields, i);
    }
    if FieldsOk(fields) {
      forall k | 0 <= k < |fields| ensures FieldFault(fields, k) == None {}
    }
  }

  /** A type passes exactly when it keeps the rules. */
  lemma {:induction false} PassesMeans(types: seq<Type>, t: nat)
    ensures Passes(types, t) <==> TypeOk(types, t)
  {
    hide FieldsOk, FirstFieldFault;
    if t < |types| && types[t].kind.Struct? {
      FieldsMean(types[t].kind.fields);
    }
  }

  // ----- parts

  lemma {:induction false} FieldTypesMean(fields: seq<Field>, c: nat)
    ensures c in FieldTypes(fields)
       <==> exists i :: 0 <= i < |fields| && fields[i].exported && fields[i].tag != "-" && fields[i].typ == c
  {
    if fields != [] {
      var rest := fields[1..];
      FieldTypesMean(rest, c);
      if c in FieldTypes(rest) {
        var i :| 0 <= i < |rest| && rest[i].exported && rest[i].tag != "-" && rest[i].typ == c;
        assert fields[i + 1] == rest[i];
      }
      if i :| 0 <= i < |fields| && fields[i].exported && fields[i].tag != "-" && fields[i].typ == c {
        assert i > 0 ==> rest[i - 1] == fields[i];
      }
    }
  }

  /** The graph that is searched is the graph of what values hold. */
  lemma {:induction false} ChildrenMean(types: seq<Type>, t: nat, c: nat)
    requires t < |types|
    ensures c in Children(types, t) <==> Holds(types, t, c)
  {
    hide FieldTypes;
    if types[t].kind.Struct? {
      FieldTypesMean(types[t].kind.fields, c);
    }
  }

  // ----- chains

  lemma {:induction false} ChainMeans(types: seq<Type>, root: nat, p: seq<nat>)
    requires Closed(types) && root < |types|
    ensures Chain(types, root, p) <==> |p| > 0 && WalkTo(types, root, p, p[|p| - 1])
  {
    hide Holds, Children;
    if Chain(types, root, p) {
      forall i | 0 <= i < |p| ensures p[i] < |types| {
        ChainInside(types, root, p, i);
      }
      forall i | 0 < i < |p| ensures p[i] in Children(types, p[i - 1]) {
        assert Holds(types, p[i - 1], p[i - 1 + 1]);
        ChildrenMean(types, p[i - 1], p[i]);
      }
    }
    if |p| > 0 && WalkTo(types, root, p, p[|p| - 1]) {
      forall i | 0 <= i < |p| - 1 ensures Holds(types, p[i], p[i + 1]) {
        assert p[i + 1] in Children(types, p[i + 1 - 1]);
        ChildrenMean(types, p[i], p[i + 1]);
      }
    }
  }

  lemma {:induction false} ChainInside(types: seq<Type>, root: nat, p: seq<nat>, i: nat)
    requires Closed(types) && root < |types| && Chain(types, root, p) && i < |p|
    ensures p[i] < |types|
  {
    hide Holds, Children;
    if i > 0 {
      ChainInside(types, root, p, i - 1);
      assert Holds(types, p[i - 1], p[i - 1 + 1]);
      ChildrenMean(types, p[i - 1], p[i]);
    }
  }

  lemma {:induction false} PartOfWalk(types: seq<Type>, p: seq<nat>, i: nat, j: nat)
    requires Walk(types, p) && i <= j < |p|
    ensures WalkTo(types, p[i], p[i..j + 1], p[j])
  {
    hide Children;
    var q := p[i..j + 1];
    forall k | 0 <= k < |q| ensures q[k] < |types| {}
    forall k | 0 < k < |q| ensures q[k] in Children(types, q[k - 1]) {
      assert p[i + k] in Children(types, p[i + k - 1]);
    }
  }

  /** A walk that meets a type twice leads to a cycle. */
  lemma {:induction false} TwiceIsCycle(types: seq<Type>, root: nat, p: seq<nat>, i: nat, j: nat)
    requires Walk(types, p) && p[0] == root && i < j < |p| && p[i] == p[j]
    ensures Reachable(types, root, p[i]) && OnCycle(types, p[i])
  {
    hide Walk;
    PartOfWalk(types, p, 0, i);
    PartOfWalk(types, p, i, j);
  }

  lemma {:induction false} CycleIsTwice(types: seq<Type>, root: nat, p: seq<nat>, t: nat, c: seq<nat>)
    requires WalkTo(types, root, p, t) && |c| > 1 && WalkTo(types, t, c, t)
    ensures WalkTo(types, root, p + c[1..], t)
    ensures (p + c[1..])[|p| - 1] == (p + c[1..])[|p| + |c| - 2]
  {
    var q := p + c[1..];
    forall i | 0 < i < |q| ensures q[i] in Children(types, q[i - 1]) {
      if i >= |p| {
        assert q[i] == c[i - |p| + 1] && q[i - 1] == c[i - |p|];
      }
    }
  }

  /** A schema is good exactly when every chain from the root is sound: an embedded field, an unsupported or decoded
      type, a bad or repeated name, an unknown option, or a type that holds itself is never accepted, and fields that
      are unexported or tagged "-" are not looked at. */
  lemma {:induction false} GoodMeans(types: seq<Type>, root: nat)
    requires Closed(types) && root < |types|
    ensures GoodSchema(types, root) <==> Sound(types, root)
  {
    hide Passes, TypeOk, Chain, Children, OnCycle;
    if GoodSchema(types, root) {
      forall p | |p| > 0 && Chain(types, root, p)
        ensures TypeOk(types, p[|p| - 1]) && forall i, j :: 0 <= i < j < |p| ==> p[i] != p[j]
      {
        ChainMeans(types, root, p);
        PassesMeans(types, p[|p| - 1]);
        forall i, j | 0 <= i < j < |p| ensures p[i] != p[j] {
          if p[i] == p[j] {
            TwiceIsCycle(types, root, p, i, j);
          }
        }
      }
    }
    if Sound(types, root) {
      forall t | Reachable(types, root, t) ensures Passes(types, t) && !OnCycle(types, t) {
        SoundAt(types, root, t);
      }
    }
  }

  lemma {:induction false} SoundAt(types: seq<Type>, root: nat, t: nat)
    requires Closed(types) && root < |types| && Sound(types, root) && Reachable(types, root, t)
    ensures Passes(types, t) && !OnCycle(types, t)
  {
    hide Passes, TypeOk, Chain, Children;
    var p :| WalkTo(types, root, p, t);
    ChainMeans(types, root, p);
    PassesMeans(types, t);
    if OnCycle(types, t) {
      var c :| |c| > 1 && WalkTo(types, t, c, t);
      CycleIsTwice(types, root, p, t, c);
      ChainMeans(types, root, p + c[1..]);
    }
  }

  /** So whatever is accepted is sound, and within the limits exactly what is sound is accepted. */
  lemma {:induction false} AcceptableMeans(types: seq<Type>, root: nat)
    requires Closed(types) && root < |types|
    ensures Acceptable(types, root) <==> Sound(types, root) && !Blocked(types, FirstVisits(types, root, 0, map[]))
  {
    hide Sound, GoodSchema, Blocked, FirstVisits;
    GoodMeans(types, root);
  }
}
