/** Validation of action parameter types: a depth-first search over a graph of types that may be shared or recursive. */
module ParamSchema {
  import opened Facts

  datatype Field = Field(name: string, tag: string, exported: bool, anonymous: bool, typ: nat)

  /** `Basic` is any boolean, integer or floating-point kind; `Text` is any string kind. */
  datatype Kind =
    | Basic
    | Text
    | Pointer(elem: nat)
    | Slice(elem: nat)
    | Map(key: nat, elem: nat)
    | Struct(fields: seq<Field>)
    | OtherKind

  /** `decoder` says that the type, or the pointer to it, has one of the JSON or text decoding methods. */
  datatype Type = Type(kind: Kind, size: nat, decoder: bool, duration: bool)

  datatype Failure =
    | LimitExceeded
    | RecursiveSchema
    | CustomDecoding
    | DurationType
    | MapKeyNotString
    | EmbeddedField
    | BadFieldName
    | BadFieldOption
    | UnsupportedKind

  const MAX_PARAMS_BYTES := 16384
  const MAX_TYPE_DEPTH := 16
  const MAX_TYPES := 128
  const MAX_FIELDS := 64

  // ----- the rules for one type

  /** The parts between commas; there is always at least one. */
  function Split(s: string): (parts: seq<string>)
    ensures |parts| > 0
  {
    if s == "" then [""]
    else
      var rest := Split(s[1..]);
      if s[0] == ',' then [""] + rest else [[s[0]] + rest[0]] + rest[1..]
  }

  function Join(parts: seq<string>): string
    requires |parts| > 0
  {
    if |parts| == 1 then parts[0] else parts[0] + "," + Join(parts[1..])
  }

  /** Splitting loses nothing and leaves no comma inside a part. */
  lemma {:induction false} SplitJoins(s: string)
    ensures Join(Split(s)) == s
    ensures forall i :: 0 <= i < |Split(s)| ==> ',' !in Split(s)[i]
  {
    if s != "" {
      SplitJoins(s[1..]);
      var rest := Split(s[1..]);
      if s[0] == ',' {
        assert ([""] + rest)[1..] == rest;
        assert s == "" + "," + s[1..];
      } else {
        assert Split(s)[1..] == rest[1..];
        assert s == [s[0]] + s[1..];
        if |rest| > 1 {
          assert Join(Split(s)) == [s[0]] + rest[0] + "," + Join(rest[1..]);
        }
      }
    }
  }

  predicate Letter(c: char) { 'a' <= c <= 'z' || 'A' <= c <= 'Z' || c == '_' }

  predicate Digit(c: char) { '0' <= c <= '9' }

  /** An ASCII identifier of at most 64 characters. */
  predicate ValidFieldName(name: string) {
    1 <= |name| <= 64 && Letter(name[0]) && forall i :: 0 < i < |name| ==> Letter(name[i]) || Digit(name[i])
  }

  predicate IsSkipped(f: Field) { !f.exported || f.tag == "-" }

  function JsonName(f: Field): string {
    if Split(f.tag)[0] == "" then f.name else Split(f.tag)[0]
  }

  predicate ValidOptions(f: Field) {
    forall i :: 0 < i < |Split(f.tag)| ==> Split(f.tag)[i] == "omitempty" || Split(f.tag)[i] == "omitzero"
  }

  /** The names that earlier fields took. */
  function Names(fields: seq<Field>): set<string> {
    set i | 0 <= i < |fields| && !IsSkipped(fields[i]) :: JsonName(fields[i])
  }

  function FieldFault(fields: seq<Field>, i: nat): Option<Failure>
    requires i < |fields|
  {
    var f := fields[i];
    if f.anonymous then Some(EmbeddedField)
    else if IsSkipped(f) then None
    else if !ValidFieldName(JsonName(f)) || JsonName(f) in Names(fields[..i]) then Some(BadFieldName)
    else if !ValidOptions(f) then Some(BadFieldOption)
    else None
  }

  function FirstFieldFault(fields: seq<Field>, i: nat): Option<Failure>
    requires i <= |fields|
    decreases |fields| - i
  {
    if i == |fields| then None
    else if FieldFault(fields, i).Some? then FieldFault(fields, i)
    else FirstFieldFault(fields, i + 1)
  }

  /** What is wrong with a type by itself, apart from limits. */
  function Fault(types: seq<Type>, t: nat): Option<Failure>
    requires t < |types|
  {
    if types[t].decoder then Some(CustomDecoding)
    else if types[t].duration then Some(DurationType)
    else
      match types[t].kind
      case OtherKind => Some(UnsupportedKind)
      case Map(key, _) => if key < |types| && types[key].kind == Text then None else Some(MapKeyNotString)
      case Struct(fields) => FirstFieldFault(fields, 0)
      case _ => None
  }

  predicate Oversized(types: seq<Type>, t: nat)
    requires t < |types|
  {
    types[t].size > MAX_PARAMS_BYTES || (types[t].kind.Struct? && |types[t].kind.fields| > MAX_FIELDS)
  }

  predicate Passes(types: seq<Type>, t: nat) {
    t < |types| && Fault(types, t) == None && !Oversized(types, t)
  }

  // ----- the graph

  function FieldTypes(fields: seq<Field>): seq<nat> {
    if fields == [] then []
    else TypesOf(fields[0]) + FieldTypes(fields[1..])
  }

  /** The types a value of the type is made of: elements, map keys, and fields that are not skipped. */
  function Children(types: seq<Type>, t: nat): seq<nat>
    requires t < |types|
  {
    match types[t].kind
    case Pointer(elem) => [elem]
    case Slice(elem) => [elem]
    case Map(key, elem) => [key, elem]
    case Struct(fields) => FieldTypes(fields)
    case _ => []
  }

  ghost predicate Closed(types: seq<Type>) {
    forall t :: 0 <= t < |types| ==> forall c :: c in Children(types, t) ==> c < |types|
  }

  ghost predicate Walk(types: seq<Type>, p: seq<nat>) {
    && |p| > 0 && (forall i :: 0 <= i < |p| ==> p[i] < |types|)
    && forall i :: 0 < i < |p| ==> p[i] in Children(types, p[i - 1])
  }

  ghost predicate WalkTo(types: seq<Type>, root: nat, p: seq<nat>, t: nat) {
    Walk(types, p) && p[0] == root && p[|p| - 1] == t
  }

  ghost predicate Reachable(types: seq<Type>, root: nat, t: nat) {
    exists p :: WalkTo(types, root, p, t)
  }

  ghost predicate OnCycle(types: seq<Type>, t: nat) {
    exists p :: |p| > 1 && WalkTo(types, t, p, t)
  }

  // ----- first visits

  function Below(n: nat): (s: set<nat>)
    ensures forall x: nat :: x in s <==> x < n
  {
    if n == 0 then {} else Below(n - 1) + {n - 1}
  }

  ghost function Unseen(types: seq<Type>, seen: map<nat, nat>): set<nat> {
    Below(|types|) - seen.Keys
  }

  /** The depth at which a depth-first walk first meets each type, when it never descends from a type twice. Nothing is
      checked on the way: this is a function of the type graph and of the order of its fields. */
  ghost function FirstVisits(types: seq<Type>, t: nat, depth: nat, seen: map<nat, nat>): (visits: map<nat, nat>)
    ensures Extends(seen, visits) && (t < |types| ==> t in visits)
    decreases Unseen(types, seen), 0
  {
    if t in seen || t >= |types| then seen
    else
      assert Unseen(types, seen[t := depth]) == Unseen(types, seen) - {t};
      FirstVisitsOfAll(types, Children(types, t), depth + 1, seen[t := depth])
  }

  ghost function FirstVisitsOfAll(
    types: seq<Type>, ts: seq<nat>, depth: nat, seen: map<nat, nat>): (visits: map<nat, nat>)
    ensures Extends(seen, visits)
    decreases Unseen(types, seen), 1 + |ts|
  {
    if ts == [] then seen
    else FirstVisitsOfAll(types, ts[1..], depth, FirstVisits(types, ts[0], depth, seen))
  }

  ghost predicate Extends(seen: map<nat, nat>, visits: map<nat, nat>) {
    seen.Keys <= visits.Keys && forall t :: t in seen ==> visits[t] == seen[t]
  }

  /** Too many types, or a type with children first met at the greatest depth: its children would be one too deep. */
  ghost predicate Blocked(types: seq<Type>, visits: map<nat, nat>) {
    || |visits.Keys| > 128
    || exists t :: t in visits && TooDeep(types, t, visits[t])
  }

  ghost predicate TooDeep(types: seq<Type>, t: nat, depth: nat) {
    t < |types| && Children(types, t) != [] && depth >= 16
  }

  /** Every type that values of the root are made of passes the rules and lies on no cycle. */
  ghost predicate GoodSchema(types: seq<Type>, root: nat) {
    forall t :: Reachable(types, root, t) ==> Passes(types, t) && !OnCycle(types, t)
  }

  /** Exactly the schemas that are accepted. */
  ghost predicate Acceptable(types: seq<Type>, root: nat) {
    GoodSchema(types, root) && !Blocked(types, FirstVisits(types, root, 0, map[]))
  }

  // ----- what a failure says of the graph

  ghost predicate AllReachable(types: seq<Type>, root: nat, s: set<nat>) {
    forall t :: t in s ==> Reachable(types, root, t)
  }

  ghost predicate ExceedsLimits(types: seq<Type>, root: nat) {
    || (exists p, t :: WalkTo(types, root, p, t) && |p| == 18)
    || (exists t: nat :: Reachable(types, root, t) && t < |types| && Oversized(types, t))
    || (exists s: set<nat> :: |s| == 129 && AllReachable(types, root, s))
  }

  ghost predicate Explained(types: seq<Type>, root: nat, f: Failure) {
    match f
    case LimitExceeded => ExceedsLimits(types, root)
    case RecursiveSchema => exists t :: Reachable(types, root, t) && OnCycle(types, t)
    case _ => exists t: nat :: Reachable(types, root, t) && t < |types| && Fault(types, t) == Some(f)
  }

  lemma {:induction false} WalkFurther(types: seq<Type>, root: nat, p: seq<nat>, t: nat, c: nat)
    requires Closed(types) && WalkTo(types, root, p, t) && c in Children(types, t)
    ensures c < |types| && WalkTo(types, root, p + [c], c)
  {}

  function TypesOf(f: Field): seq<nat> { if IsSkipped(f) then [] else [f.typ] }

  lemma {:induction false} FieldTypesAppend(a: seq<Field>, b: seq<Field>)
    ensures FieldTypes(a + b) == FieldTypes(a) + FieldTypes(b)
  {
    hide TypesOf;
    if a == [] {
      assert a + b == b;
    } else {
      FieldTypesAppend(a[1..], b);
      assert (a + b)[0] == a[0] && (a + b)[1..] == a[1..] + b;
    }
  }

  /** One more field takes one more name and one more type, unless it is skipped. */
  lemma {:induction false} OneMoreField(fields: seq<Field>, i: nat)
    requires i < |fields|
    ensures FieldTypes(fields[..i + 1])
         == if IsSkipped(fields[i]) then FieldTypes(fields[..i]) else FieldTypes(fields[..i]) + [fields[i].typ]
    ensures Names(fields[..i + 1]) == Names(fields[..i]) + if IsSkipped(fields[i]) then {} else {JsonName(fields[i])}
    ensures !IsSkipped(fields[i]) ==> fields[i].typ in FieldTypes(fields)
  {
    hide JsonName, IsSkipped;
    assert fields[..i + 1] == fields[..i] + [fields[i]];
    FieldTypesAppend(fields[..i], [fields[i]]);
    assert fields == fields[..i + 1] + fields[i + 1..];
    FieldTypesAppend(fields[..i + 1], fields[i + 1..]);
    MoreNames(fields[..i], fields[i]);
  }

  lemma {:induction false} MoreNames(fields: seq<Field>, f: Field)
    ensures Names(fields + [f]) == Names(fields) + if IsSkipped(f) then {} else {JsonName(f)}
  {
    hide JsonName, IsSkipped;
    var more := fields + [f];
    forall name | name in Names(fields) ensures name in Names(more) {
      var i :| 0 <= i < |fields| && !IsSkipped(fields[i]) && JsonName(fields[i]) == name;
      assert more[i] == fields[i];
    }
    if !IsSkipped(f) {
      assert more[|fields|] == f;
    }
  }

  lemma {:induction false} FieldFaultsAreLocal(fields: seq<Field>, i: nat)
    requires i <= |fields|
    ensures FirstFieldFault(fields, i) !in {Some(LimitExceeded), Some(RecursiveSchema)}
    decreases |fields| - i
  {
    if i < |fields| {
      FieldFaultsAreLocal(fields, i + 1);
    }
  }

  /** A type met again on the way to itself is on a cycle. */
  lemma {:induction false} MetAgain(types: seq<Type>, root: nat, p: seq<nat>, t: nat)
    requires WalkTo(types, root, p, t) && t in p[..|p| - 1]
    ensures OnCycle(types, t)
  {
    var i :| 0 <= i < |p| - 1 && p[i] == t;
    assert WalkTo(types, t, p[i..], t);
  }

  // ----- what a finished search knows

  /** Each finished type passed, and its children finished before it. */
  ghost predicate FinishedAt(types: seq<Type>, finished: seq<nat>, i: nat)
    requires i < |finished|
  {
    Passes(types, finished[i]) && forall c :: c in Children(types, finished[i]) ==> c in finished[..i]
  }

  ghost predicate Finished(types: seq<Type>, finished: seq<nat>) {
    forall i :: 0 <= i < |finished| ==> FinishedAt(types, finished, i)
  }

  lemma {:induction false} WalkStaysFinished(types: seq<Type>, finished: seq<nat>, p: seq<nat>, i: nat) returns (j: nat)
    requires Finished(types, finished) && Walk(types, p) && i < |finished| && finished[i] == p[0]
    ensures j <= i && finished[j] == p[|p| - 1] && (|p| > 1 ==> j < i)
    decreases |p|
  {
    if |p| == 1 {
      j := i;
    } else {
      assert FinishedAt(types, finished, i);
      var k :| 0 <= k < i && finished[..i][k] == p[1];
      j := WalkStaysFinished(types, finished, p[1..], k);
    }
  }

  lemma {:induction false} FinishedOffCycles(types: seq<Type>, finished: seq<nat>, p: seq<nat>, i: nat)
    requires Finished(types, finished) && i < |finished| && |p| > 1
    ensures !WalkTo(types, finished[i], p, finished[i])
    decreases i
  {
    if WalkTo(types, finished[i], p, finished[i]) {
      var j := WalkStaysFinished(types, finished, p, i);
      FinishedOffCycles(types, finished, p, j);
    }
  }

  lemma {:induction false} FinishedIsAcyclic(types: seq<Type>, finished: seq<nat>, root: nat, t: nat)
    requires Finished(types, finished) && root in finished && Reachable(types, root, t)
    ensures Passes(types, t) && !OnCycle(types, t)
  {
    var p :| WalkTo(types, root, p, t);
    var i :| 0 <= i < |finished| && finished[i] == root;
    var j := WalkStaysFinished(types, finished, p, i);
    assert FinishedAt(types, finished, j);
    if OnCycle(types, t) {
      var q :| |q| > 1 && WalkTo(types, t, q, t);
      FinishedOffCycles(types, finished, q, j);
    }
  }

  // ----- first visits compose

  lemma {:induction false} FirstVisitsSplit(types: seq<Type>, a: seq<nat>, b: seq<nat>, depth: nat, seen: map<nat, nat>)
    ensures FirstVisitsOfAll(types, a + b, depth, seen)
         == FirstVisitsOfAll(types, b, depth, FirstVisitsOfAll(types, a, depth, seen))
  {
    hide FirstVisits;
    if a == [] {
      assert a + b == b;
    } else {
      assert (a + b)[0] == a[0] && (a + b)[1..] == a[1..] + b;
      FirstVisitsSplit(types, a[1..], b, depth, FirstVisits(types, a[0], depth, seen));
    }
  }

  lemma {:induction false} FirstVisitsStep(types: seq<Type>, t: nat, depth: nat, seen: map<nat, nat>)
    requires t < |types|
    ensures FirstVisits(types, t, depth, seen)
         == if t in seen then seen else FirstVisitsOfAll(types, Children(types, t), depth + 1, seen[t := depth])
  {
    hide FirstVisitsOfAll;
  }

  lemma {:induction false} FirstVisitsOfOne(types: seq<Type>, c: nat, depth: nat, seen: map<nat, nat>)
    ensures FirstVisitsOfAll(types, [c], depth, seen) == FirstVisits(types, c, depth, seen)
  {
    hide FirstVisits;
    assert [c][1..] == [];
  }

  /** What blocks a part of the walk blocks the whole. */
  lemma {:induction false} BlockedMore(types: seq<Type>, some: map<nat, nat>, more: map<nat, nat>)
    requires Blocked(types, some) && Extends(some, more)
    ensures Blocked(types, more)
  {
    SubsetSize(some.Keys, more.Keys);
    if t :| t in some && TooDeep(types, t, some[t]) {
      assert t in more && TooDeep(types, t, more[t]);
    }
  }

  lemma {:induction false} SubsetSize(a: set<nat>, b: set<nat>)
    requires a <= b
    ensures |a| <= |b|
  {
    assert b == a + (b - a);
  }

  // ----- the search

  /** Some walk from the root that long ends at the type. */
  ghost predicate Met(types: seq<Type>, root: nat, t: nat, length: nat) {
    exists p :: WalkTo(types, root, p, t) && |p| == length
  }

  ghost predicate AllMet(types: seq<Type>, root: nat, visits: map<nat, nat>) {
    forall t :: t in visits ==> visits[t] <= MAX_TYPE_DEPTH && Met(types, root, t, visits[t] + 1)
  }

  ghost predicate NoneTooDeep(types: seq<Type>, visits: map<nat, nat>, finished: seq<nat>) {
    forall t :: t in finished ==> t in visits && !TooDeep(types, t, visits[t])
  }

  /** `path` is the chain of types being validated, from the root on; each was first met at its place in it. */
  ghost predicate Searching(
    types: seq<Type>, root: nat, visits: map<nat, nat>, active: set<nat>, finished: seq<nat>, path: seq<nat>)
  {
    && Closed(types) && Finished(types, finished)
    && (forall t :: t in active <==> t in path)
    && (forall t :: t in visits <==> t in path || t in finished)
    && (forall i :: 0 <= i < |path| ==> visits[path[i]] == i)
    && (path != [] ==> WalkTo(types, root, path, path[|path| - 1]))
    && AllMet(types, root, visits) && NoneTooDeep(types, visits, finished) && |visits.Keys| <= MAX_TYPES
  }

  lemma {:induction false} Enter(
    types: seq<Type>, root: nat, visits: map<nat, nat>, active: set<nat>, finished: seq<nat>, path: seq<nat>, tp: nat)
    requires Searching(types, root, visits, active, finished, path)
    requires tp < |types| && WalkTo(types, root, path + [tp], tp) && tp !in visits
    requires |visits.Keys| < MAX_TYPES && |path| <= MAX_TYPE_DEPTH
    ensures Searching(types, root, visits[tp := |path|], active + {tp}, finished, path + [tp])
  {
    hide Finished, WalkTo, Closed, TooDeep, AllMet;
    var now, longer := visits[tp := |path|], path + [tp];
    MeetNext(types, root, visits, path, tp);
    assert now.Keys == visits.Keys + {tp};
    assert forall t :: t in longer <==> t in path || t == tp;
    forall i | 0 <= i < |longer| ensures now[longer[i]] == i {
      if i < |path| {
        assert longer[i] == path[i] && path[i] in path;
      }
    }
  }

  lemma {:induction false} PathWalks(
    types: seq<Type>, root: nat, visits: map<nat, nat>, active: set<nat>, finished: seq<nat>, path: seq<nat>)
    requires Searching(types, root, visits, active, finished, path)
    ensures path != [] ==> WalkTo(types, root, path, path[|path| - 1])
    ensures forall t :: t in active ==> t in visits
  {}

  lemma {:induction false} MeetNext(types: seq<Type>, root: nat, visits: map<nat, nat>, path: seq<nat>, tp: nat)
    requires AllMet(types, root, visits) && WalkTo(types, root, path + [tp], tp) && |path| <= MAX_TYPE_DEPTH
    ensures AllMet(types, root, visits[tp := |path|])
  {
    hide WalkTo;
    assert |path + [tp]| == |path| + 1;
    assert Met(types, root, tp, |path| + 1);
  }

  lemma {:induction false} Leave(
    types: seq<Type>, root: nat, visits: map<nat, nat>, active: set<nat>, finished: seq<nat>, path: seq<nat>, tp: nat)
    requires Searching(types, root, visits, active, finished, path + [tp])
    requires path != [] ==> WalkTo(types, root, path, path[|path| - 1])
    requires Passes(types, tp) && forall c :: c in Children(types, tp) ==> c in finished
    requires !TooDeep(types, tp, |path|)
    ensures Searching(types, root, visits, active - {tp}, finished + [tp], path)
  {
    hide WalkTo, Closed, Passes, TooDeep, AllMet;
    var longer := path + [tp];
    assert forall t :: t in longer <==> t in path || t == tp;
    assert visits[longer[|path|]] == |path|;
    forall i | 0 <= i < |path| ensures visits[path[i]] == i && path[i] != tp {
      assert visits[longer[i]] == i;
    }
    FinishedFurther(types, finished, tp);
  }

  lemma {:induction false} FinishedFurther(types: seq<Type>, finished: seq<nat>, tp: nat)
    requires Finished(types, finished) && Passes(types, tp) && forall c :: c in Children(types, tp) ==> c in finished
    ensures Finished(types, finished + [tp])
  {
    var longer := finished + [tp];
    forall i | 0 <= i < |longer| ensures FinishedAt(types, longer, i) {
      if i < |finished| {
        assert FinishedAt(types, finished, i) && longer[..i] == finished[..i];
      } else {
        assert longer[..i] == finished;
      }
    }
  }

  /** A failure names what is wrong, and no schema with that wrong is acceptable. */
  ghost predicate Refused(types: seq<Type>, root: nat, f: Failure, visits: map<nat, nat>) {
    Explained(types, root, f) && (Blocked(types, visits) || !GoodSchema(types, root))
  }

  lemma {:induction false} RefusedMore(
    types: seq<Type>, root: nat, f: Failure, some: map<nat, nat>, more: map<nat, nat>)
    requires Refused(types, root, f, some) && Extends(some, more)
    ensures Refused(types, root, f, more)
  {
    hide Explained, GoodSchema, Blocked;
    if Blocked(types, some) {
      BlockedMore(types, some, more);
    }
  }

  class Search {
    const types: seq<Type>
    ghost const root: nat
    var seen: set<nat>
    var active: set<nat>
    ghost var visits: map<nat, nat>
    ghost var finished: seq<nat>

    constructor (types: seq<Type>, ghost root: nat)
      ensures this.types == types && this.root == root
      ensures seen == {} && active == {} && visits == map[] && finished == []
    {
      this.types, this.root := types, root;
      seen, active, visits, finished := {}, {}, map[], [];
    }

    ghost predicate Valid(path: seq<nat>)
      reads this
    {
      seen == visits.Keys && Searching(types, root, visits, active, finished, path)
    }

    /** Validates one type on the way: success visits exactly what the plain walk visits, and finishes it. */
    method ValidateType(tp: nat, depth: nat, ghost path: seq<nat>) returns (failure: Option<Failure>)
      requires Valid(path) && tp < |types| && WalkTo(types, root, path + [tp], tp)
               && depth == |path| <= MAX_TYPE_DEPTH + 1
      modifies this
      ensures failure == None ==>
                && Valid(path) && active == old(active) && old(finished) <= finished && tp in finished
                && depth <= MAX_TYPE_DEPTH && visits == FirstVisits(types, tp, depth, old(visits))
      ensures failure.Some? ==> Refused(types, root, failure.value, FirstVisits(types, tp, depth, old(visits)))
      decreases MAX_TYPE_DEPTH + 1 - depth, 1, 0
    {
      hide WalkTo, Finished, Closed, AllMet, NoneTooDeep, Refused, FirstVisits, FirstVisitsOfAll;
      FirstVisitsStep(types, tp, depth, visits);
      if depth > MAX_TYPE_DEPTH || types[tp].size > MAX_PARAMS_BYTES || (|seen| >= MAX_TYPES && tp !in seen) {
        LimitIsExplained(types, root, path, tp, visits, active, finished);
        return Some(LimitExceeded);
      }
      ghost var before := visits;
      if tp in active {
        CycleIsExplained(types, root, path, tp, FirstVisits(types, tp, depth, before));
        return Some(RecursiveSchema);
      }
      if types[tp].decoder {
        DecodingIsExplained(types, root, path + [tp], tp, FirstVisits(types, tp, depth, before));
        return Some(CustomDecoding);
      }
      if types[tp].duration {
        DecodingIsExplained(types, root, path + [tp], tp, FirstVisits(types, tp, depth, before));
        return Some(DurationType);
      }
      if tp in seen {
        return None;
      }
      failure := ValidateUnseen(tp, depth, path);
    }

    method ValidateUnseen(tp: nat, depth: nat, ghost path: seq<nat>) returns (failure: Option<Failure>)
      requires Valid(path) && tp < |types| && WalkTo(types, root, path + [tp], tp) && depth == |path| <= MAX_TYPE_DEPTH
      requires !types[tp].decoder && !types[tp].duration && types[tp].size <= MAX_PARAMS_BYTES
      requires tp !in seen && |seen| < MAX_TYPES
      modifies this
      ensures failure == None ==>
                && Valid(path) && active == old(active) && old(finished) <= finished && tp in finished
                && visits == FirstVisits(types, tp, depth, old(visits))
      ensures failure.Some? ==> Refused(types, root, failure.value, FirstVisits(types, tp, depth, old(visits)))
      decreases MAX_TYPE_DEPTH + 1 - depth, 0, 2
    {
      hide WalkTo, Searching, Refused, FirstVisits, FirstVisitsOfAll, Passes, TooDeep, Children;
      PathWalks(types, root, visits, active, finished, path);
      FirstVisitsStep(types, tp, depth, visits);
      Enter(types, root, visits, active, finished, path, tp);
      ghost var wasActive := active;
      seen, active, visits := seen + {tp}, active + {tp}, visits[tp := depth];
      failure := ValidateKind(tp, depth, path);
      if failure == None {
        Leave(types, root, visits, active, finished, path, tp);
        assert wasActive + {tp} - {tp} == wasActive;
        active := active - {tp};
        finished := finished + [tp];
      }
    }

    method ValidateKind(tp: nat, depth: nat, ghost path: seq<nat>) returns (failure: Option<Failure>)
      requires Valid(path + [tp]) && tp < |types| && depth == |path| <= MAX_TYPE_DEPTH
      requires WalkTo(types, root, path + [tp], tp)
      requires !types[tp].decoder && !types[tp].duration && types[tp].size <= MAX_PARAMS_BYTES
      modifies this
      ensures failure == None ==>
                && Valid(path + [tp]) && active == old(active) && old(finished) <= finished
                && Passes(types, tp) && (forall c :: c in Children(types, tp) ==> c in finished)
                && !TooDeep(types, tp, depth)
                && visits == FirstVisitsOfAll(types, Children(types, tp), depth + 1, old(visits))
      ensures failure.Some? ==>
                Refused(types, root, failure.value,
                        FirstVisitsOfAll(types, Children(types, tp), depth + 1, old(visits)))
      decreases MAX_TYPE_DEPTH + 1 - depth, 0, 1
    {
      hide WalkTo, Finished, AllMet, NoneTooDeep, Refused, FirstVisits;
      ghost var whole := FirstVisitsOfAll(types, Children(types, tp), depth + 1, visits);
      match types[tp].kind
      case Basic => return None;
      case Text => return None;
      case Pointer(elem) =>
        FirstVisitsOfOne(types, elem, depth + 1, visits);
        failure := ValidateChild(tp, elem, depth, path);
      case Slice(elem) =>
        FirstVisitsOfOne(types, elem, depth + 1, visits);
        failure := ValidateChild(tp, elem, depth, path);
      case Map(key, elem) =>
        assert key in Children(types, tp);
        if types[key].kind != Text {
          FaultIsExplained(types, root, path + [tp], tp, whole);
          return Some(MapKeyNotString);
        }
        failure := ValidateKeyAndElement(tp, key, elem, depth, path);
      case Struct(fields) =>
        failure := ValidateFields(tp, fields, depth, path);
      case OtherKind =>
        FaultIsExplained(types, root, path + [tp], tp, whole);
        return Some(UnsupportedKind);
    }

    method ValidateChild(tp: nat, child: nat, depth: nat, ghost path: seq<nat>) returns (failure: Option<Failure>)
      requires Valid(path + [tp]) && tp < |types| && depth == |path| <= MAX_TYPE_DEPTH
      requires WalkTo(types, root, path + [tp], tp) && child in Children(types, tp)
      modifies this
      ensures failure == None ==>
                && Valid(path + [tp]) && active == old(active) && old(finished) <= finished && child in finished
                && depth < MAX_TYPE_DEPTH && visits == FirstVisits(types, child, depth + 1, old(visits))
      ensures failure.Some? ==> Refused(types, root, failure.value, FirstVisits(types, child, depth + 1, old(visits)))
      decreases MAX_TYPE_DEPTH - depth, 2, 0
    {
      hide WalkTo, Finished, AllMet, NoneTooDeep, Refused, Children, FirstVisits;
      WalkFurther(types, root, path + [tp], tp, child);
      failure := ValidateType(child, depth + 1, path + [tp]);
    }

    method ValidateKeyAndElement(
      tp: nat, key: nat, elem: nat, depth: nat, ghost path: seq<nat>) returns (failure: Option<Failure>)
      requires Valid(path + [tp]) && tp < |types| && depth == |path| <= MAX_TYPE_DEPTH
      requires WalkTo(types, root, path + [tp], tp) && types[tp].kind == Map(key, elem)
      modifies this
      ensures failure == None ==>
                && Valid(path + [tp]) && active == old(active) && old(finished) <= finished
                && key in finished && elem in finished && depth < MAX_TYPE_DEPTH
                && visits == FirstVisitsOfAll(types, Children(types, tp), depth + 1, old(visits))
      ensures failure.Some? ==>
                Refused(types, root, failure.value,
                        FirstVisitsOfAll(types, Children(types, tp), depth + 1, old(visits)))
      decreases MAX_TYPE_DEPTH + 1 - depth, 0, 0
    {
      hide WalkTo, Finished, AllMet, NoneTooDeep, Refused, FirstVisits, FirstVisitsOfAll;
      assert Children(types, tp) == [key, elem];
      assert key in Children(types, tp) && elem in Children(types, tp);
      assert key < |types| && elem < |types|;
      ghost var whole := FirstVisitsOfAll(types, [key, elem], depth + 1, visits);
      assert [key] + [elem] == [key, elem];
      FirstVisitsSplit(types, [key], [elem], depth + 1, visits);
      FirstVisitsOfOne(types, key, depth + 1, visits);
      failure := ValidateChild(tp, key, depth, path);
      if failure == None {
        FirstVisitsOfOne(types, elem, depth + 1, visits);
        failure := ValidateChild(tp, elem, depth, path);
      } else {
        RefusedMore(types, root, failure.value, FirstVisits(types, key, depth + 1, old(visits)), whole);
      }
    }

    method ValidateFields(
      tp: nat, fields: seq<Field>, depth: nat, ghost path: seq<nat>) returns (failure: Option<Failure>)
      requires Valid(path + [tp]) && tp < |types| && depth == |path| <= MAX_TYPE_DEPTH
      requires WalkTo(types, root, path + [tp], tp)
      requires !types[tp].decoder && !types[tp].duration && types[tp].size <= MAX_PARAMS_BYTES
      requires types[tp].kind == Struct(fields)
      modifies this
      ensures failure == None ==>
                && Valid(path + [tp]) && active == old(active) && old(finished) <= finished
                && Passes(types, tp) && (forall c :: c in FieldTypes(fields) ==> c in finished)
                && !TooDeep(types, tp, depth)
                && visits == FirstVisitsOfAll(types, FieldTypes(fields), depth + 1, old(visits))
      ensures failure.Some? ==>
                Refused(types, root, failure.value, FirstVisitsOfAll(types, FieldTypes(fields), depth + 1, old(visits)))
      decreases MAX_TYPE_DEPTH + 1 - depth, 0, 0
    {
      hide WalkTo, Searching, Refused, FieldTypes, Names, JsonName, ValidFieldName, ValidOptions;
      hide FirstVisits, FirstVisitsOfAll;
      ghost var whole := FirstVisitsOfAll(types, FieldTypes(fields), depth + 1, visits);
      if |fields| > MAX_FIELDS {
        SizeIsExplained(types, root, path + [tp], tp, whole);
        return Some(LimitExceeded);
      }
      var names: set<string> := {};
      var i := 0;
      assert fields[..0] == [];
      NoFields(types, depth + 1, visits);
      while i < |fields|
        invariant i <= |fields| && names == Names(fields[..i])
        invariant Valid(path + [tp]) && active == old(active) && old(finished) <= finished
        invariant FirstFieldFault(fields, i) == FirstFieldFault(fields, 0)
        invariant (forall c :: c in FieldTypes(fields[..i]) ==> c in finished)
        invariant FieldTypes(fields[..i]) != [] ==> depth < MAX_TYPE_DEPTH
        invariant visits == FirstVisitsOfAll(types, FieldTypes(fields[..i]), depth + 1, old(visits))
      {
        var field := fields[i];
        OneMoreField(fields, i);
        if FieldFault(fields, i).Some? {
          FaultIsExplained(types, root, path + [tp], tp, whole);
        }
        if field.anonymous {
          return Some(EmbeddedField);
        }
        if !IsSkipped(field) {
          var name := JsonName(field);
          if !ValidFieldName(name) || name in names {
            return Some(BadFieldName);
          }
          names := names + {name};
          if !ValidOptions(field) {
            return Some(BadFieldOption);
          }
          NextFieldVisits(types, fields, i, depth + 1, old(visits));
          failure := ValidateChild(tp, field.typ, depth, path);
          if failure != None {
            ghost var next := FirstVisitsOfAll(types, FieldTypes(fields[..i + 1]), depth + 1, old(visits));
            RefusedMore(types, root, failure.value, next, whole);
            return;
          }
        }
        i := i + 1;
      }
      assert fields[..i] == fields;
      return None;
    }
  }

  /** An unskipped field's type is walked after those of the fields before it, and before the rest. */
  lemma {:induction false} NextFieldVisits(
    types: seq<Type>, fields: seq<Field>, i: nat, depth: nat, seen: map<nat, nat>)
    requires i < |fields| && !IsSkipped(fields[i])
    requires FieldTypes(fields[..i + 1]) == FieldTypes(fields[..i]) + [fields[i].typ]
    ensures FirstVisitsOfAll(types, FieldTypes(fields[..i + 1]), depth, seen)
         == FirstVisits(types, fields[i].typ, depth, FirstVisitsOfAll(types, FieldTypes(fields[..i]), depth, seen))
    ensures Extends(FirstVisitsOfAll(types, FieldTypes(fields[..i + 1]), depth, seen),
                    FirstVisitsOfAll(types, FieldTypes(fields), depth, seen))
  {
    hide FirstVisits, FirstVisitsOfAll, FieldTypes;
    var before, typ, rest := FieldTypes(fields[..i]), fields[i].typ, FieldTypes(fields[i + 1..]);
    assert fields == fields[..i + 1] + fields[i + 1..];
    FieldTypesAppend(fields[..i + 1], fields[i + 1..]);
    assert FieldTypes(fields) == before + [typ] + rest;
    FirstVisitsSplit(types, before, [typ], depth, seen);
    FirstVisitsOfOne(types, typ, depth, FirstVisitsOfAll(types, before, depth, seen));
    FirstVisitsSplit(types, before + [typ], rest, depth, seen);
  }

  lemma {:induction false} NoFields(types: seq<Type>, depth: nat, seen: map<nat, nat>)
    ensures FieldTypes([]) == [] && Names([]) == {}
    ensures FirstVisitsOfAll(types, [], depth, seen) == seen
  {}

  lemma {:induction false} DecodingIsExplained(types: seq<Type>, root: nat, p: seq<nat>, t: nat, visits: map<nat, nat>)
    requires WalkTo(types, root, p, t) && t < |types| && (types[t].decoder || types[t].duration)
    ensures Refused(types, root, if types[t].decoder then CustomDecoding else DurationType, visits)
  {
    hide Refused, WalkTo;
    FaultIsExplained(types, root, p, t, visits);
  }

  lemma {:induction false} FaultIsExplained(types: seq<Type>, root: nat, p: seq<nat>, t: nat, visits: map<nat, nat>)
    requires WalkTo(types, root, p, t) && t < |types| && Fault(types, t).Some?
    ensures Refused(types, root, Fault(types, t).value, visits)
  {
    hide FirstFieldFault;
    assert Reachable(types, root, t);
    if types[t].kind.Struct? {
      FieldFaultsAreLocal(types[t].kind.fields, 0);
    }
  }

  lemma {:induction false} SizeIsExplained(types: seq<Type>, root: nat, p: seq<nat>, tp: nat, visits: map<nat, nat>)
    requires tp < |types| && WalkTo(types, root, p, tp) && Oversized(types, tp)
    ensures Refused(types, root, LimitExceeded, visits)
  {
    assert Reachable(types, root, tp);
  }

  lemma {:induction false} CycleIsExplained(types: seq<Type>, root: nat, path: seq<nat>, tp: nat, visits: map<nat, nat>)
    requires WalkTo(types, root, path + [tp], tp) && tp in path
    ensures Refused(types, root, RecursiveSchema, visits)
  {
    assert (path + [tp])[..|path|] == path;
    MetAgain(types, root, path + [tp], tp);
    assert Reachable(types, root, tp);
  }

  lemma {:induction false} LimitIsExplained(
    types: seq<Type>, root: nat, path: seq<nat>, tp: nat, visits: map<nat, nat>, active: set<nat>, finished: seq<nat>)
    requires Searching(types, root, visits, active, finished, path)
    requires tp < |types| && WalkTo(types, root, path + [tp], tp) && |path| <= MAX_TYPE_DEPTH + 1
    requires || |path| > MAX_TYPE_DEPTH || types[tp].size > MAX_PARAMS_BYTES
             || (|visits.Keys| >= MAX_TYPES && tp !in visits)
    ensures Refused(types, root, LimitExceeded, FirstVisits(types, tp, |path|, visits))
  {
    hide FirstVisits, Finished, NoneTooDeep;
    var all := FirstVisits(types, tp, |path|, visits);
    if types[tp].size > MAX_PARAMS_BYTES {
      SizeIsExplained(types, root, path + [tp], tp, all);
    } else if |path| > MAX_TYPE_DEPTH {
      var last := path[|path| - 1];
      assert (path + [tp])[|path|] in Children(types, (path + [tp])[|path| - 1]);
      assert TooDeep(types, last, visits[last]);
    } else {
      var s := visits.Keys + {tp};
      forall t | t in s ensures Reachable(types, root, t) {
        assert t in visits ==> Met(types, root, t, visits[t] + 1);
      }
      assert |s| == 129 && AllReachable(types, root, s);
      SubsetSize(s, all.Keys);
    }
  }

  lemma {:induction false} FinishedIsMet(
    types: seq<Type>, root: nat, visits: map<nat, nat>, active: set<nat>, finished: seq<nat>, t: nat)
    requires Searching(types, root, visits, active, finished, []) && root in finished && Reachable(types, root, t)
    ensures t in visits
  {
    var p :| WalkTo(types, root, p, t);
    var i :| 0 <= i < |finished| && finished[i] == root;
    var j := WalkStaysFinished(types, finished, p, i);
  }

  ghost predicate ReachedWithin(types: seq<Type>, root: nat, t: nat, length: nat) {
    exists p :: WalkTo(types, root, p, t) && |p| <= length
  }

  lemma {:induction false} AcceptedIsGood(
    types: seq<Type>, root: nat, visits: map<nat, nat>, active: set<nat>, finished: seq<nat>)
    requires Searching(types, root, visits, active, finished, []) && root in finished
    ensures GoodSchema(types, root) && !Blocked(types, visits)
    ensures forall s :: AllReachable(types, root, s) ==> |s| <= MAX_TYPES
    ensures forall t :: Reachable(types, root, t) ==> ReachedWithin(types, root, t, MAX_TYPE_DEPTH + 1)
  {
    hide Passes, OnCycle, WalkTo, TooDeep, Finished, Closed;
    forall t | Reachable(types, root, t)
      ensures Passes(types, t) && !OnCycle(types, t) && ReachedWithin(types, root, t, MAX_TYPE_DEPTH + 1)
    {
      FinishedIsAcyclic(types, finished, root, t);
      FinishedIsMet(types, root, visits, active, finished, t);
      assert Met(types, root, t, visits[t] + 1);
    }
    forall s | AllReachable(types, root, s) ensures |s| <= MAX_TYPES {
      forall t | t in s ensures t in visits.Keys {
        FinishedIsMet(types, root, visits, active, finished, t);
      }
      SubsetSize(s, visits.Keys);
    }
  }

  lemma {:induction false} RefusedIsExplained(types: seq<Type>, root: nat, f: Failure, visits: map<nat, nat>)
    requires Refused(types, root, f, visits)
    ensures Explained(types, root, f) && (Blocked(types, visits) || !GoodSchema(types, root))
    ensures !ExceedsLimits(types, root) ==> !GoodSchema(types, root)
  {
    hide Reachable, OnCycle, Blocked;
  }

  /** A schema is accepted if and only if it is good and the plain walk over it meets at most 128 types, none of them
      with children at the greatest depth. So acceptance bounds the number of types, and each is reached by some walk of
      at most 17 types; within all limits it is just being good. A refusal names a limit that is exceeded, a cycle that
      is reached, or a type that breaks the very rule reported. */
  method ValidateSchema(types: seq<Type>, root: nat) returns (failure: Option<Failure>)
    requires Closed(types) && root < |types|
    ensures failure == None <==> Acceptable(types, root)
    ensures failure == None ==> forall s :: AllReachable(types, root, s) ==> |s| <= 128
    ensures failure == None ==> forall t :: Reachable(types, root, t) ==>
            ReachedWithin(types, root, t, 17)
    ensures !ExceedsLimits(types, root) ==> (failure == None <==> GoodSchema(types, root))
    ensures failure.Some? ==> Explained(types, root, failure.value)
  {
    hide ExceedsLimits, GoodSchema, FirstVisits, Blocked;
    var search := new Search(types, root);
    assert Walk(types, [root]) && [] + [root] == [root];
    failure := search.ValidateType(root, 0, []);
    if failure == None {
      AcceptedIsGood(types, root, search.visits, search.active, search.finished);
    } else {
      RefusedIsExplained(types, root, failure.value, FirstVisits(types, root, 0, map[]));
    }
  }
}
