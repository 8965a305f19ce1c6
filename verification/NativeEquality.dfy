/** Budgeted, memoised equality of native object graphs: shared objects, cycles, and leaves that need not equal
    themselves. A graph is a heap of places; a place is one address at one type, so a pair of targets is a pair of
    pointers and a type. */
module NativeEquality {
  import opened Facts

  datatype Answer = True | False | Other(code: nat) | Limit

  datatype Entry = Entry(key: nat, value: nat)

  datatype Shape =
    | Scalar
    | Text(length: nat)
    | Blob(isNil: bool, length: nat)
    | Pointer(target: Option<nat>)
    | Record(fields: seq<nat>)
    | List(elements: Option<seq<nat>>)
    | Table(entries: Option<seq<Entry>>)

  datatype Place = Place(typ: nat, shape: Shape)

  /** `leaf` is the adapter's equality, `lookup` finds a key of one map in another, and `order` is the order in which a
      map happens to be ranged over by the visit that a path of positions leads to. */
  datatype Heap = Heap(
    places: seq<Place>,
    leaf: (nat, nat) -> Answer,
    lookup: (nat, nat) -> Option<nat>,
    order: (seq<nat>, nat) -> seq<Entry>)
  {
    function Shape(x: nat): Shape
      requires x < |places|
    {
      places[x].shape
    }

    /** Two places a comparison may be asked about: both exist and have one type. */
    ghost predicate Match(l: nat, r: nat) {
      l < |places| && r < |places| && places[l].typ == places[r].typ
    }

    /** Ranging over a map yields each of its entries once. */
    ghost predicate Ranges(x: nat)
      requires x < |places|
    {
      Shape(x).Table? ==> forall path :: multiset(order(path, x)) == multiset(Entries(Shape(x)))
    }

    /** Values of one type have one kind, and their parts correspond in number and type. */
    ghost predicate Alike(l: nat, r: nat)
      requires Match(l, r)
    {
      match Shape(l)
      case Scalar => Shape(r).Scalar?
      case Text(_) => Shape(r).Text?
      case Blob(_, _) => Shape(r).Blob?
      case Pointer(a) =>
        Shape(r).Pointer? && (a.Some? && Shape(r).target.Some? ==> Match(a.value, Shape(r).target.value))
      case Record(fs) =>
        && Shape(r).Record? && |Shape(r).fields| == |fs|
        && forall i :: 0 <= i < |fs| ==> Match(fs[i], Shape(r).fields[i])
      case List(_) =>
        && Shape(r).List?
        && forall i :: 0 <= i < |Elements(Shape(l))| && i < |Elements(Shape(r))| ==>
                         Match(Elements(Shape(l))[i], Elements(Shape(r))[i])
      case Table(_) =>
        && Shape(r).Table?
        && forall e :: e in Entries(Shape(l)) ==>
                         && e.key < |places|
                         && (lookup(r, e.key).Some? ==> Match(e.value, lookup(r, e.key).value))
    }

    ghost predicate Typed() {
      && (forall x :: 0 <= x < |places| ==> Ranges(x))
      && (forall l: nat, r: nat :: Match(l, r) ==> Alike(l, r))
    }
  }

  function Elements(x: Shape): seq<nat>
    requires x.List?
  {
    if x.elements.Some? then x.elements.value else []
  }

  function Entries(x: Shape): seq<Entry>
    requires x.Table?
  {
    if x.entries.Some? then x.entries.value else []
  }

  predicate IsNil(x: Shape) {
    match x
    case Pointer(a) => a.None?
    case Blob(n, _) => n
    case List(a) => a.None?
    case Table(a) => a.None?
    case _ => false
  }

  /** The keys and values of map entries, one after the other. */
  function Flatten(entries: seq<Entry>): seq<nat> {
    if entries == [] then [] else [entries[0].key, entries[0].value] + Flatten(entries[1..])
  }

  /** The places that a place's value is made of, map entries in the order the heap lists them. */
  function Kids(x: Shape): seq<nat> {
    match x
    case Pointer(a) => if a.Some? then [a.value] else []
    case Record(fs) => fs
    case List(_) => Elements(x)
    case Table(_) => Flatten(Entries(x))
    case _ => []
  }

  lemma {:induction false} FlattenLength(entries: seq<Entry>)
    ensures |Flatten(entries)| == 2 * |entries|
  {
    if entries != [] {
      FlattenLength(entries[1..]);
    }
  }

  lemma {:induction false} FlattenAt(entries: seq<Entry>, i: nat)
    requires i < |entries|
    ensures |Flatten(entries)| == 2 * |entries|
    ensures Flatten(entries)[2 * i] == entries[i].key && Flatten(entries)[2 * i + 1] == entries[i].value
  {
    FlattenLength(entries);
    if i > 0 {
      FlattenAt(entries[1..], i - 1);
    }
  }

  /** The entries of a map, in any order, are made of the same places. */
  lemma {:induction false} PermutedKids(a: seq<Entry>, b: seq<Entry>)
    requires multiset(a) == multiset(b)
    ensures forall y :: y in Flatten(a) ==> y in Flatten(b)
  {
    hide Flatten;
    FlattenLength(a);
    forall k | 0 <= k < |Flatten(a)| ensures Flatten(a)[k] in Flatten(b) {
      FlattenAt(a, k / 2);
      assert a[k / 2] in multiset(b);
      var p :| 0 <= p < |b| && b[p] == a[k / 2];
      FlattenAt(b, p);
      assert Flatten(b)[2 * p] in Flatten(b) && Flatten(b)[2 * p + 1] in Flatten(b);
    }
  }

  // ----- what a place holds

  datatype Cost = Cost(nodes: nat, bytes: nat, items: nat) {
    function Plus(c: Cost): Cost { Cost(nodes + c.nodes, bytes + c.bytes, items + c.items) }

    predicate Within(c: Cost) { nodes <= c.nodes && bytes <= c.bytes && items <= c.items }
  }

  const ZERO := Cost(0, 0, 0)

  const VISIT := Cost(1, 0, 0)

  /** What a place takes besides its visit and its parts. */
  function Own(x: Shape): Cost {
    match x
    case Text(n) => Cost(0, n, 0)
    case Blob(isNil, n) => Cost(0, if isNil then 0 else n, 0)
    case List(_) => Cost(0, 0, |Elements(x)|)
    case Table(_) => Cost(0, 0, |Entries(x)|)
    case _ => ZERO
  }

  /** The unfolding has at most `levels` levels. */
  ghost predicate Fits(h: Heap, x: nat, levels: nat)
    decreases levels
  {
    && levels > 0 && x < |h.places|
    && forall y :: y in Kids(h.Shape(x)) ==> Fits(h, y, levels - 1)
  }

  // ----- the traversal

  const MAX_DEPTH := 32

  /** The budget left, the pairs completed as equal, and a log of the pairs whose pointees were descended into. */
  datatype State = State(bytes: nat, items: nat, nodes: nat, equaled: set<(nat, nat)>, descended: seq<(nat, nat)>)

  const START := State(65536, 4096, 65536, {}, [])

  function Left(s: State): Cost { Cost(s.nodes, s.bytes, s.items) }

  /** One comparison of a loop: a pair of places, or a key that the other map lacks. */
  datatype Part = Pair(left: nat, right: nat) | Missing

  datatype Plan =
    | Decided(answer: Answer, state: State)
    | Follow(left: nat, right: nat, state: State)
    | Each(parts: seq<Part>, field: bool, state: State)

  function Zip(a: seq<nat>, b: seq<nat>): seq<Part>
    requires |a| == |b|
  {
    seq(|a|, i requires 0 <= i < |a| => Pair(a[i], b[i]))
  }

  /** A map's comparisons, entry by entry: the key with itself, then the two values. */
  function EntryParts(h: Heap, entries: seq<Entry>, r: nat): seq<Part> {
    if entries == [] then []
    else
      (match h.lookup(r, entries[0].key)
       case None => [Missing]
       case Some(v) => [Pair(entries[0].key, entries[0].key), Pair(entries[0].value, v)])
      + EntryParts(h, entries[1..], r)
  }

  /** The nil rules: presence counts for pointers always, for collections only as fields. */
  function NilAnswer(x: Shape, y: Shape, field: bool): Option<Answer> {
    if x.Pointer? || x.Blob? || x.List? || x.Table? then
      if (field || x.Pointer?) && IsNil(x) != IsNil(y) then Some(False)
      else if IsNil(x) && IsNil(y) then Some(True)
      else None
    else None
  }

  function TakeBytes(h: Heap, s: State, l: nat, r: nat, n: nat, m: nat): Plan {
    if n != m then Decided(False, s)
    else if n > s.bytes then Decided(Limit, s)
    else Decided(h.leaf(l, r), s.(bytes := s.bytes - n))
  }

  function TakeItems(s: State, n: nat, m: nat, parts: seq<Part>): Plan {
    if n != m then Decided(False, s)
    else if n > s.items then Decided(Limit, s)
    else Each(parts, false, s.(items := s.items - n))
  }

  /** What one visit settles by itself, or which visits it makes. */
  function Decide(h: Heap, s: State, l: nat, r: nat, field: bool, path: seq<nat>): Plan
    requires h.Typed() && h.Match(l, r)
  {
    assert h.Alike(l, r);
    var x := h.Shape(l);
    var y := h.Shape(r);
    match NilAnswer(x, y, field)
    case Some(a) => Decided(a, s)
    case None =>
      match x
      case Pointer(a) => Follow(a.value, y.target.value, s)
      case Record(fs) => Each(Zip(fs, y.fields), true, s)
      case Text(n) => TakeBytes(h, s, l, r, n, y.length)
      case Blob(_, n) => TakeBytes(h, s, l, r, if x.isNil then 0 else n, if y.isNil then 0 else y.length)
      case List(_) =>
        var n := |Elements(x)|;
        TakeItems(s, n, |Elements(y)|, if n == |Elements(y)| then Zip(Elements(x), Elements(y)) else [])
      case Table(_) =>
        TakeItems(s, |Entries(x)|, |Entries(y)|, EntryParts(h, h.order(path, l), r))
      case Scalar => Decided(h.leaf(l, r), s)
  }

  ghost predicate PartsMatch(h: Heap, parts: seq<Part>) {
    forall i :: 0 <= i < |parts| && parts[i].Pair? ==> h.Match(parts[i].left, parts[i].right)
  }

  lemma {:induction false} EntryPartsMatch(h: Heap, entries: seq<Entry>, r: nat)
    requires forall e :: e in entries ==>
               && e.key < |h.places|
               && (h.lookup(r, e.key).Some? ==> h.Match(e.value, h.lookup(r, e.key).value))
    ensures PartsMatch(h, EntryParts(h, entries, r))
  {
    if entries != [] {
      assert entries[0] in entries;
      EntryPartsMatch(h, entries[1..], r);
    }
  }

  lemma {:induction false} PlanMatches(h: Heap, s: State, l: nat, r: nat, field: bool, path: seq<nat>)
    requires h.Typed() && h.Match(l, r)
    ensures match Decide(h, s, l, r, field, path)
            case Decided(_, _) => true
            case Follow(a, b, _) => h.Match(a, b)
            case Each(parts, _, _) => PartsMatch(h, parts)
  {
    assert h.Alike(l, r);
    if h.Shape(l).Table? {
      assert h.Ranges(l);
      var entries := h.order(path, l);
      forall e | e in entries ensures e in Entries(h.Shape(l)) {
        assert e in multiset(entries);
      }
      EntryPartsMatch(h, entries, r);
    }
  }

  function Height(depth: nat): nat { if depth > MAX_DEPTH then 0 else MAX_DEPTH + 1 - depth }

  /** One comparison; with `cached` off it is the same budgeted traversal without the completed pairs. */
  function Compare(h: Heap, cached: bool, s: State, l: nat, r: nat, depth: nat, field: bool, path: seq<nat>)
    : (Answer, State)
    requires h.Typed() && h.Match(l, r)
    decreases Height(depth), 1, 0
  {
    if depth > MAX_DEPTH || s.nodes == 0 then (Limit, s)
    else
      PlanMatches(h, s.(nodes := s.nodes - 1), l, r, field, path);
      match Decide(h, s.(nodes := s.nodes - 1), l, r, field, path)
      case Decided(a, t) => (a, t)
      case Follow(a, b, t) =>
        if cached && (a, b) in t.equaled then (True, t)
        else
          var (answer, u) := Compare(h, cached, t.(descended := t.descended + [(a, b)]), a, b, depth + 1, false,
                                     path + [0]);
          if cached && answer == True then (answer, u.(equaled := u.equaled + {(a, b)})) else (answer, u)
      case Each(parts, f, t) => CompareAll(h, cached, t, parts, depth + 1, f, path, 0)
  }

  /** The loops: one comparison after another, up to the first that is not true. */
  function CompareAll(
    h: Heap, cached: bool, s: State, parts: seq<Part>, depth: nat, field: bool, path: seq<nat>, at: nat)
    : (Answer, State)
    requires h.Typed() && PartsMatch(h, parts)
    decreases Height(depth), 2, |parts|
  {
    if parts == [] then (True, s)
    else if parts[0].Missing? then (False, s)
    else
      var (answer, t) := Compare(h, cached, s, parts[0].left, parts[0].right, depth, field, path + [at]);
      if answer == True then CompareAll(h, cached, t, parts[1..], depth, field, path, at + 1) else (answer, t)
  }
}
