/** What the answers of the native comparison mean: true is structural equality to a finite depth, false is a structural
    difference, the two exclude each other, and an endless structure is never true. */
module NativeEqualityMeaning {
  import opened NativeEquality

  // ----- equality and difference, without order, budgets or a cache

  /** The nil rules allow two collections or pointers of one kind to be compared part by part. */
  predicate SamePresence(x: Shape, y: Shape, field: bool) {
    match x
    case Pointer(a) => y.Pointer? && a.None? == y.target.None?
    case Blob(isNil, _) => field ==> y.Blob? && isNil == y.isNil
    case List(a) => field ==> y.List? && a.None? == y.elements.None?
    case Table(a) => field ==> y.Table? && a.None? == y.entries.None?
    case _ => true
  }

  function ByteLength(x: Shape): nat
    requires x.Text? || x.Blob?
  {
    match x
    case Text(n) => n
    case Blob(isNil, n) => if isNil then 0 else n
  }

  /** Structurally equal within `k` levels; a leaf is equal when the adapter says so, even to itself. */
  ghost predicate Same(h: Heap, l: nat, r: nat, field: bool, k: nat)
    requires h.Typed() && h.Match(l, r)
    decreases k
  {
    k > 0 && assert h.Alike(l, r);
    var x, y := h.Shape(l), h.Shape(r);
    && SamePresence(x, y, field)
    && match x
       case Scalar => h.leaf(l, r) == True
       case Text(n) => n == y.length && h.leaf(l, r) == True
       case Blob(isNil, _) => (isNil && y.isNil) || (ByteLength(x) == ByteLength(y) && h.leaf(l, r) == True)
       case Pointer(a) => a.Some? ==> Same(h, a.value, y.target.value, false, k - 1)
       case Record(fs) => forall i :: 0 <= i < |fs| ==> Same(h, fs[i], y.fields[i], true, k - 1)
       case List(_) =>
         && |Elements(x)| == |Elements(y)|
         && forall i :: 0 <= i < |Elements(x)| ==> Same(h, Elements(x)[i], Elements(y)[i], false, k - 1)
       case Table(_) =>
         && |Entries(x)| == |Entries(y)|
         && forall e :: e in Entries(x) ==>
                          && h.lookup(r, e.key).Some?
                          && Same(h, e.key, e.key, false, k - 1)
                          && Same(h, e.value, h.lookup(r, e.key).value, false, k - 1)
  }

  /** Structurally different within `k` levels. */
  ghost predicate Differ(h: Heap, l: nat, r: nat, field: bool, k: nat)
    requires h.Typed() && h.Match(l, r)
    decreases k
  {
    k > 0 && assert h.Alike(l, r);
    var x, y := h.Shape(l), h.Shape(r);
    || !SamePresence(x, y, field)
    || match x
       case Scalar => h.leaf(l, r) == False
       case Text(n) => n != y.length || h.leaf(l, r) == False
       case Blob(isNil, _) => !(isNil && y.isNil) && (ByteLength(x) != ByteLength(y) || h.leaf(l, r) == False)
       case Pointer(a) => a.Some? && y.target.Some? && Differ(h, a.value, y.target.value, false, k - 1)
       case Record(fs) => exists i :: 0 <= i < |fs| && Differ(h, fs[i], y.fields[i], true, k - 1)
       case List(_) =>
         || |Elements(x)| != |Elements(y)|
         || exists i :: 0 <= i < |Elements(x)| && Differ(h, Elements(x)[i], Elements(y)[i], false, k - 1)
       case Table(_) =>
         || |Entries(x)| != |Entries(y)|
         || exists e :: e in Entries(x)
                        && (|| h.lookup(r, e.key).None?
                            || Differ(h, e.key, e.key, false, k - 1)
                            || Differ(h, e.value, h.lookup(r, e.key).value, false, k - 1))
  }

  ghost predicate Equal(h: Heap, l: nat, r: nat, field: bool)
    requires h.Typed() && h.Match(l, r)
  {
    exists k: nat :: Same(h, l, r, field, k)
  }

  // ----- the same, over the parts a visit is planned to compare

  ghost predicate PartsSame(h: Heap, parts: seq<Part>, field: bool, k: nat)
    requires h.Typed() && PartsMatch(h, parts)
  {
    forall i :: 0 <= i < |parts| ==> parts[i].Pair? && Same(h, parts[i].left, parts[i].right, field, k)
  }

  ghost predicate PartDiffers(h: Heap, p: Part, field: bool, k: nat)
    requires h.Typed() && (p.Pair? ==> h.Match(p.left, p.right))
  {
    p.Missing? || Differ(h, p.left, p.right, field, k)
  }

  ghost predicate PartsDiffer(h: Heap, parts: seq<Part>, field: bool, k: nat)
    requires h.Typed() && PartsMatch(h, parts)
  {
    exists i :: 0 <= i < |parts| && PartDiffers(h, parts[i], field, k)
  }

  /** The parts of an entry are among the parts of the map, and every part belongs to an entry. */
  ghost predicate EntryPart(h: Heap, e: Entry, r: nat, p: Part) {
    match h.lookup(r, e.key)
    case None => p == Missing
    case Some(v) => p == Pair(e.key, e.key) || p == Pair(e.value, v)
  }

  lemma {:induction false} PartsOfEntries(h: Heap, entries: seq<Entry>, r: nat)
    ensures forall e, p :: e in entries && EntryPart(h, e, r, p) ==> p in EntryParts(h, entries, r)
    ensures forall p :: p in EntryParts(h, entries, r) ==> exists e :: e in entries && EntryPart(h, e, r, p)
  {
    if entries != [] {
      var rest := EntryParts(h, entries[1..], r);
      PartsOfEntries(h, entries[1..], r);
      forall e, p | e in entries && EntryPart(h, e, r, p) ensures p in EntryParts(h, entries, r) {
        if e != entries[0] {
          assert e in entries[1..];
        }
      }
      forall p | p in EntryParts(h, entries, r) ensures exists e :: e in entries && EntryPart(h, e, r, p) {
        if p in rest {
          var e :| e in entries[1..] && EntryPart(h, e, r, p);
          assert e in entries;
        } else {
          assert EntryPart(h, entries[0], r, p);
        }
      }
    }
  }

  /** The parts a map is planned to compare, in whatever order it is ranged over, are those of its entries. */
  lemma {:induction false} PartsOfTable(h: Heap, l: nat, r: nat, path: seq<nat>)
    requires h.Typed() && h.Match(l, r) && h.Shape(l).Table?
    ensures forall e, p :: e in Entries(h.Shape(l)) && EntryPart(h, e, r, p) ==> p in EntryParts(h, h.order(path, l), r)
    ensures forall p :: p in EntryParts(h, h.order(path, l), r) ==>
              exists e :: e in Entries(h.Shape(l)) && EntryPart(h, e, r, p)
  {
    var entries := h.order(path, l);
    assert h.Ranges(l);
    PartsOfEntries(h, entries, r);
    assert forall e :: e in entries <==> e in multiset(entries);
    assert forall e :: e in Entries(h.Shape(l)) <==> e in multiset(Entries(h.Shape(l)));
    forall p | p in EntryParts(h, entries, r)
      ensures exists e :: e in Entries(h.Shape(l)) && EntryPart(h, e, r, p)
    {
      var e :| e in entries && EntryPart(h, e, r, p);
      assert e in Entries(h.Shape(l));
    }
  }

  /** What a visit plans means what the structure means, one level down. */
  ghost predicate PlanMeans(h: Heap, plan: Plan, l: nat, r: nat, field: bool, k: nat)
    requires h.Typed() && h.Match(l, r)
    requires plan.Follow? ==> h.Match(plan.left, plan.right)
    requires plan.Each? ==> PartsMatch(h, plan.parts)
  {
    match plan
    case Decided(a, _) =>
      && (a == True ==> Same(h, l, r, field, k + 1)) && (a == False ==> Differ(h, l, r, field, k + 1))
      && (Same(h, l, r, field, k + 1) ==> a == True || a == Limit)
    case Follow(a, b, _) =>
      && (Same(h, l, r, field, k + 1) <==> Same(h, a, b, false, k))
      && (Differ(h, l, r, field, k + 1) <==> Differ(h, a, b, false, k))
    case Each(parts, f, _) =>
      && (Same(h, l, r, field, k + 1) <==> PartsSame(h, parts, f, k))
      && (Differ(h, l, r, field, k + 1) <==> PartsDiffer(h, parts, f, k))
  }

  lemma {:induction false} ZipMeans(h: Heap, a: seq<nat>, b: seq<nat>, f: bool, k: nat)
    requires h.Typed() && |a| == |b| && forall i :: 0 <= i < |a| ==> h.Match(a[i], b[i])
    ensures PartsMatch(h, Zip(a, b))
    ensures (forall i :: 0 <= i < |a| ==> Same(h, a[i], b[i], f, k)) <==> PartsSame(h, Zip(a, b), f, k)
    ensures (exists i :: 0 <= i < |a| && Differ(h, a[i], b[i], f, k)) <==> PartsDiffer(h, Zip(a, b), f, k)
  {
    hide Same, Differ;
    var parts := Zip(a, b);
    assert forall i :: 0 <= i < |a| ==> parts[i] == Pair(a[i], b[i]);
    if i :| 0 <= i < |a| && Differ(h, a[i], b[i], f, k) {
      assert PartDiffers(h, parts[i], f, k);
    }
    if PartsDiffer(h, parts, f, k) {
      var i :| 0 <= i < |parts| && PartDiffers(h, parts[i], f, k);
      assert Differ(h, a[i], b[i], f, k);
    }
    if PartsSame(h, parts, f, k) {
      forall i | 0 <= i < |a| ensures Same(h, a[i], b[i], f, k) {
        assert parts[i].Pair? && Same(h, parts[i].left, parts[i].right, f, k);
      }
    }
  }

  /** An entry is equal when its key is found, equal to itself, and its values are equal. */
  ghost predicate EntrySame(h: Heap, e: Entry, r: nat, k: nat)
    requires h.Typed() && e.key < |h.places|
    requires h.lookup(r, e.key).Some? ==> h.Match(e.value, h.lookup(r, e.key).value)
  {
    && h.lookup(r, e.key).Some? && Same(h, e.key, e.key, false, k)
    && Same(h, e.value, h.lookup(r, e.key).value, false, k)
  }

  lemma {:induction false} TableSame(h: Heap, l: nat, r: nat, field: bool, path: seq<nat>, k: nat)
    requires h.Typed() && h.Match(l, r) && h.Alike(l, r) && h.Shape(l).Table?
    requires SamePresence(h.Shape(l), h.Shape(r), field) && |Entries(h.Shape(l))| == |Entries(h.Shape(r))|
    requires PartsMatch(h, EntryParts(h, h.order(path, l), r))
    ensures Same(h, l, r, field, k + 1) <==> PartsSame(h, EntryParts(h, h.order(path, l), r), false, k)
  {
    var parts := EntryParts(h, h.order(path, l), r);
    PartsOfTable(h, l, r, path);
    if Same(h, l, r, field, k + 1) {
      forall i | 0 <= i < |parts| ensures parts[i].Pair? && Same(h, parts[i].left, parts[i].right, false, k) {
        assert parts[i] in parts;
        var e :| e in Entries(h.Shape(l)) && EntryPart(h, e, r, parts[i]);
        assert EntrySame(h, e, r, k);
      }
    }
    if PartsSame(h, parts, false, k) {
      forall e | e in Entries(h.Shape(l)) ensures EntrySame(h, e, r, k) {
        EntryIn(h, parts, e, r, k);
      }
    }
  }

  lemma {:induction false} EntryIn(h: Heap, parts: seq<Part>, e: Entry, r: nat, k: nat)
    requires h.Typed() && PartsMatch(h, parts) && PartsSame(h, parts, false, k) && e.key < |h.places|
    requires h.lookup(r, e.key).Some? ==> h.Match(e.value, h.lookup(r, e.key).value)
    requires forall p :: EntryPart(h, e, r, p) ==> p in parts
    ensures EntrySame(h, e, r, k)
  {
    match h.lookup(r, e.key)
    case None =>
      assert EntryPart(h, e, r, Missing);
    case Some(v) =>
      assert EntryPart(h, e, r, Pair(e.key, e.key)) && EntryPart(h, e, r, Pair(e.value, v));
  }

  ghost predicate EntryDiffers(h: Heap, e: Entry, r: nat, k: nat)
    requires h.Typed() && e.key < |h.places|
    requires h.lookup(r, e.key).Some? ==> h.Match(e.value, h.lookup(r, e.key).value)
  {
    || h.lookup(r, e.key).None? || Differ(h, e.key, e.key, false, k)
    || Differ(h, e.value, h.lookup(r, e.key).value, false, k)
  }

  lemma {:induction false} DifferentPart(h: Heap, parts: seq<Part>, e: Entry, r: nat, k: nat)
    requires h.Typed() && PartsMatch(h, parts) && e.key < |h.places|
    requires h.lookup(r, e.key).Some? ==> h.Match(e.value, h.lookup(r, e.key).value)
    requires EntryDiffers(h, e, r, k) && forall p :: EntryPart(h, e, r, p) ==> p in parts
    ensures PartsDiffer(h, parts, false, k)
  {
    hide Differ;
    var p := if h.lookup(r, e.key).None? then Missing
             else if Differ(h, e.key, e.key, false, k) then Pair(e.key, e.key)
             else Pair(e.value, h.lookup(r, e.key).value);
    assert EntryPart(h, e, r, p);
    var i :| 0 <= i < |parts| && parts[i] == p;
    assert PartDiffers(h, parts[i], false, k);
  }

  lemma {:induction false} TableDiffers(h: Heap, l: nat, r: nat, field: bool, path: seq<nat>, k: nat)
    requires h.Typed() && h.Match(l, r) && h.Alike(l, r) && h.Shape(l).Table?
    requires SamePresence(h.Shape(l), h.Shape(r), field) && |Entries(h.Shape(l))| == |Entries(h.Shape(r))|
    requires PartsMatch(h, EntryParts(h, h.order(path, l), r))
    ensures Differ(h, l, r, field, k + 1) <==> PartsDiffer(h, EntryParts(h, h.order(path, l), r), false, k)
  {
    var parts := EntryParts(h, h.order(path, l), r);
    PartsOfTable(h, l, r, path);
    if Differ(h, l, r, field, k + 1) {
      var e :| e in Entries(h.Shape(l)) && EntryDiffers(h, e, r, k);
      DifferentPart(h, parts, e, r, k);
    }
    if PartsDiffer(h, parts, false, k) {
      var i :| 0 <= i < |parts| && PartDiffers(h, parts[i], false, k);
      assert parts[i] in parts;
      var e :| e in Entries(h.Shape(l)) && EntryPart(h, e, r, parts[i]);
      assert EntryDiffers(h, e, r, k);
    }
  }

  lemma {:induction false} PlansMean(h: Heap, s: State, l: nat, r: nat, field: bool, path: seq<nat>, k: nat)
    requires h.Typed() && h.Match(l, r)
    ensures var plan := Decide(h, s, l, r, field, path);
            && (plan.Follow? ==> h.Match(plan.left, plan.right))
            && (plan.Each? ==> PartsMatch(h, plan.parts))
            && PlanMeans(h, plan, l, r, field, k)
  {
    hide PartsSame, PartsDiffer;
    PlanMatches(h, s, l, r, field, path);
    assert h.Alike(l, r);
    var x, y := h.Shape(l), h.Shape(r);
    if NilAnswer(x, y, field).None? {
      if x.Record? {
        ZipMeans(h, x.fields, y.fields, true, k);
      } else if x.List? && |Elements(x)| == |Elements(y)| {
        ZipMeans(h, Elements(x), Elements(y), false, k);
      } else if x.Table? && |Entries(x)| == |Entries(y)| && |Entries(x)| <= s.items {
        TableSame(h, l, r, field, path, k);
        TableDiffers(h, l, r, field, path, k);
      }
    }
  }

  // ----- equality and difference exclude each other

  /** Structural equality needs no particular depth beyond enough of it. */
  lemma {:induction false} SameDeeper(h: Heap, l: nat, r: nat, field: bool, k: nat, deeper: nat)
    requires h.Typed() && h.Match(l, r) && k <= deeper && Same(h, l, r, field, k)
    ensures Same(h, l, r, field, deeper)
    decreases k
  {
    assert h.Alike(l, r);
    var x, y := h.Shape(l), h.Shape(r);
    match x
    case Pointer(a) =>
      if a.Some? {
        SameDeeper(h, a.value, y.target.value, false, k - 1, deeper - 1);
      }
    case Record(fs) =>
      forall i | 0 <= i < |fs| ensures Same(h, fs[i], y.fields[i], true, deeper - 1) {
        SameDeeper(h, fs[i], y.fields[i], true, k - 1, deeper - 1);
      }
    case List(_) =>
      forall i | 0 <= i < |Elements(x)| ensures Same(h, Elements(x)[i], Elements(y)[i], false, deeper - 1) {
        SameDeeper(h, Elements(x)[i], Elements(y)[i], false, k - 1, deeper - 1);
      }
    case Table(_) =>
      forall e | e in Entries(x) ensures EntrySame(h, e, r, deeper - 1) {
        SameDeeper(h, e.key, e.key, false, k - 1, deeper - 1);
        SameDeeper(h, e.value, h.lookup(r, e.key).value, false, k - 1, deeper - 1);
      }
    case _ =>
  }

  /** Nothing is both structurally equal and structurally different, at whatever depths. */
  lemma {:induction false} EqualityExcludesDifference(h: Heap, l: nat, r: nat, field: bool, k: nat, j: nat)
    requires h.Typed() && h.Match(l, r) && Same(h, l, r, field, k)
    ensures !Differ(h, l, r, field, j)
    decreases k, 1
  {
    if Differ(h, l, r, field, j) {
      assert h.Alike(l, r);
      var x, y := h.Shape(l), h.Shape(r);
      match x
      case Pointer(a) =>
        EqualityExcludesDifference(h, a.value, y.target.value, false, k - 1, j - 1);
      case Record(fs) =>
        var i :| 0 <= i < |fs| && Differ(h, fs[i], y.fields[i], true, j - 1);
        EqualityExcludesDifference(h, fs[i], y.fields[i], true, k - 1, j - 1);
      case List(_) =>
        var i :| 0 <= i < |Elements(x)| && Differ(h, Elements(x)[i], Elements(y)[i], false, j - 1);
        EqualityExcludesDifference(h, Elements(x)[i], Elements(y)[i], false, k - 1, j - 1);
      case Table(_) =>
        TableExcludes(h, l, r, field, k, j);
      case _ =>
    }
  }

  lemma {:induction false} TableExcludes(h: Heap, l: nat, r: nat, field: bool, k: nat, j: nat)
    requires h.Typed() && h.Match(l, r) && Same(h, l, r, field, k) && h.Shape(l).Table?
    ensures !Differ(h, l, r, field, j)
    decreases k, 0
  {
    assert h.Alike(l, r);
    if j > 0 {
      forall e | e in Entries(h.Shape(l)) ensures !EntryDiffers(h, e, r, j - 1) {
        EqualityExcludesDifference(h, e.key, e.key, false, k - 1, j - 1);
        EqualityExcludesDifference(h, e.value, h.lookup(r, e.key).value, false, k - 1, j - 1);
      }
    }
  }

  /** One depth serves all the parts. */
  lemma {:induction false} PartsEqual(h: Heap, parts: seq<Part>, field: bool) returns (k: nat)
    requires h.Typed() && PartsMatch(h, parts)
    requires forall i :: 0 <= i < |parts| ==> parts[i].Pair? && Equal(h, parts[i].left, parts[i].right, field)
    ensures PartsSame(h, parts, field, k)
  {
    hide Same;
    k := 0;
    if parts != [] {
      var rest := PartsEqual(h, parts[1..], field);
      var first: nat :| Same(h, parts[0].left, parts[0].right, field, first);
      k := if first < rest then rest else first;
      SameDeeper(h, parts[0].left, parts[0].right, field, first, k);
      forall i | 0 <= i < |parts| ensures parts[i].Pair? && Same(h, parts[i].left, parts[i].right, field, k) {
        if i > 0 {
          assert parts[i] == parts[1..][i - 1];
          SameDeeper(h, parts[i].left, parts[i].right, field, rest, k);
        }
      }
    }
  }

  // ----- the answers

  /** Every completed pair is structurally equal to a finite depth. */
  ghost predicate Sound(h: Heap, equaled: set<(nat, nat)>)
    requires h.Typed()
  {
    forall p :: p in equaled ==> h.Match(p.0, p.1) && Equal(h, p.0, p.1, false)
  }

  /** True is finite-depth structural equality and false is a structural difference, with the cache and without it; what
      is cached stays sound. */
  lemma {:induction false} AnswersAreSound(
    h: Heap, cached: bool, s: State, l: nat, r: nat, depth: nat, field: bool, path: seq<nat>)
    requires h.Typed() && h.Match(l, r) && Sound(h, s.equaled)
    ensures var (a, t) := Compare(h, cached, s, l, r, depth, field, path);
            && Sound(h, t.equaled)
            && (a == True ==> Equal(h, l, r, field))
            && (a == False ==> Differ(h, l, r, field, Height(depth)))
    decreases Height(depth), 1, 0
  {
    hide Same, Differ, Decide, PartsSame, PartsDiffer;
    if depth <= MAX_DEPTH && s.nodes > 0 {
      var s1 := s.(nodes := s.nodes - 1);
      PlanStates(h, s1, l, r, field, path);
      PlansMean(h, s1, l, r, field, path, Height(depth) - 1);
      match Decide(h, s1, l, r, field, path)
      case Decided(a, t) =>
      case Follow(a, b, t) =>
        FollowIsSound(h, cached, s, l, r, depth, field, path);
      case Each(parts, f, t) =>
        PartsAreSound(h, cached, t, parts, depth + 1, f, path, 0);
        if CompareAll(h, cached, t, parts, depth + 1, f, path, 0).0 == True {
          var k := PartsEqual(h, parts, f);
          PlansMean(h, s1, l, r, field, path, k);
        }
    }
  }

  /** Planning a visit spends, but neither completes nor descends. */
  lemma {:induction false} PlanStates(h: Heap, s: State, l: nat, r: nat, field: bool, path: seq<nat>)
    requires h.Typed() && h.Match(l, r)
    ensures var t := Decide(h, s, l, r, field, path).state;
            t == s.(bytes := t.bytes, items := t.items) && t.bytes <= s.bytes && t.items <= s.items
  {
    assert h.Alike(l, r);
  }

  lemma {:induction false} FollowIsSound(
    h: Heap, cached: bool, s: State, l: nat, r: nat, depth: nat, field: bool, path: seq<nat>)
    requires h.Typed() && h.Match(l, r) && Sound(h, s.equaled) && depth <= MAX_DEPTH && s.nodes > 0
    requires Decide(h, s.(nodes := s.nodes - 1), l, r, field, path).Follow?
    ensures var (a, t) := Compare(h, cached, s, l, r, depth, field, path);
            && Sound(h, t.equaled)
            && (a == True ==> Equal(h, l, r, field))
            && (a == False ==> Differ(h, l, r, field, Height(depth)))
    decreases Height(depth), 0, 0
  {
    hide Same, Differ, Decide;
    var s1 := s.(nodes := s.nodes - 1);
    PlanStates(h, s1, l, r, field, path);
    PlansMean(h, s1, l, r, field, path, Height(depth) - 1);
    var plan := Decide(h, s1, l, r, field, path);
    var (a, b, t) := (plan.left, plan.right, plan.state);
    if !(cached && (a, b) in t.equaled) {
      AnswersAreSound(h, cached, t.(descended := t.descended + [(a, b)]), a, b, depth + 1, false, path + [0]);
    }
    if Equal(h, a, b, false) {
      var k: nat :| Same(h, a, b, false, k);
      PlansMean(h, s1, l, r, field, path, k);
      assert Same(h, l, r, field, k + 1);
    }
  }

  lemma {:induction false} PartsAreSound(
    h: Heap, cached: bool, s: State, parts: seq<Part>, depth: nat, field: bool, path: seq<nat>, at: nat)
    requires h.Typed() && PartsMatch(h, parts) && Sound(h, s.equaled)
    ensures var (a, t) := CompareAll(h, cached, s, parts, depth, field, path, at);
            && Sound(h, t.equaled)
            && (a == True ==>
                  forall i :: 0 <= i < |parts| ==> parts[i].Pair? && Equal(h, parts[i].left, parts[i].right, field))
            && (a == False ==> PartsDiffer(h, parts, field, Height(depth)))
    decreases Height(depth), 2, |parts|
  {
    hide Same, Differ, Decide;
    if parts != [] {
      if parts[0].Missing? {
        assert PartDiffers(h, parts[0], field, Height(depth));
      } else {
        AnswersAreSound(h, cached, s, parts[0].left, parts[0].right, depth, field, path + [at]);
        var (a, t) := Compare(h, cached, s, parts[0].left, parts[0].right, depth, field, path + [at]);
        if a == True {
          PartsAreSound(h, cached, t, parts[1..], depth, field, path, at + 1);
          RestDiffers(h, parts, field, Height(depth));
        } else if a == False {
          assert PartDiffers(h, parts[0], field, Height(depth));
        }
      }
    }
  }

  lemma {:induction false} RestDiffers(h: Heap, parts: seq<Part>, field: bool, k: nat)
    requires h.Typed() && PartsMatch(h, parts) && parts != []
    ensures PartsDiffer(h, parts[1..], field, k) ==> PartsDiffer(h, parts, field, k)
  {
    if PartsDiffer(h, parts[1..], field, k) {
      var i :| 0 <= i < |parts[1..]| && PartDiffers(h, parts[1..][i], field, k);
      assert PartDiffers(h, parts[i + 1], field, k);
    }
  }
}
