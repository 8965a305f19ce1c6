/** What structural equality and difference are, shape by shape: pairs of values as the heap holds them, nil or not,
    with the leaf relation, the map lookup and the parts one level down, and nothing else. */
module NativeEqualityShapes {
  import opened Facts
  import opened NativeEquality
  import opened NativeEqualityMeaning

  ghost predicate BothSame(h: Heap, a: nat, b: nat, field: bool, k: nat)
    requires h.Typed()
  {
    h.Match(a, b) && Same(h, a, b, field, k)
  }

  ghost predicate BothDiffer(h: Heap, a: nat, b: nat, field: bool, k: nat)
    requires h.Typed()
  {
    h.Match(a, b) && Differ(h, a, b, field, k)
  }

  // ----- leaves

  lemma {:induction false} LeavesMean(h: Heap, l: nat, r: nat, field: bool, k: nat)
    requires h.Typed() && h.Match(l, r)
    ensures h.Shape(l).Scalar? ==>
              && (Same(h, l, r, field, k + 1) <==> h.leaf(l, r) == True)
              && (Differ(h, l, r, field, k + 1) <==> h.leaf(l, r) == False)
    ensures h.Shape(l).Text? ==>
              && h.Shape(r).Text?
              && (Same(h, l, r, field, k + 1) <==>
                    h.Shape(l).length == h.Shape(r).length && h.leaf(l, r) == True)
              && (Differ(h, l, r, field, k + 1) <==>
                    h.Shape(l).length != h.Shape(r).length || h.leaf(l, r) == False)
  {
    assert h.Alike(l, r);
  }

  /** Byte slices: as fields, nil and non-nil differ; otherwise nil counts as empty. */
  lemma {:induction false} BlobsMean(h: Heap, l: nat, r: nat, field: bool, k: nat, a: bool, n: nat, b: bool, m: nat)
    requires h.Typed() && h.Match(l, r) && h.Shape(l) == Blob(a, n) && h.Shape(r) == Blob(b, m)
    ensures a && b ==> Same(h, l, r, field, k + 1) && !Differ(h, l, r, field, k + 1)
    ensures a != b && field ==> !Same(h, l, r, field, k + 1) && Differ(h, l, r, field, k + 1)
    ensures !(a && b) && !(a != b && field) ==>
              var x, y := if a then 0 else n, if b then 0 else m;
              && (Same(h, l, r, field, k + 1) <==> x == y && h.leaf(l, r) == True)
              && (Differ(h, l, r, field, k + 1) <==> x != y || h.leaf(l, r) == False)
  {}

  // ----- pointers and structs

  /** A nil pointer equals only a nil pointer, as a field or not. */
  lemma {:induction false} PointersMean(
    h: Heap, l: nat, r: nat, field: bool, k: nat, a: Option<nat>, b: Option<nat>)
    requires h.Typed() && h.Match(l, r) && h.Shape(l) == Pointer(a) && h.Shape(r) == Pointer(b)
    ensures a == None && b == None ==> Same(h, l, r, field, k + 1) && !Differ(h, l, r, field, k + 1)
    ensures (a == None) != (b == None) ==> !Same(h, l, r, field, k + 1) && Differ(h, l, r, field, k + 1)
    ensures a.Some? && b.Some? ==>
              && (Same(h, l, r, field, k + 1) <==> BothSame(h, a.value, b.value, false, k))
              && (Differ(h, l, r, field, k + 1) <==> BothDiffer(h, a.value, b.value, false, k))
  {
    assert h.Alike(l, r);
  }

  lemma {:induction false} RecordsMean(h: Heap, l: nat, r: nat, field: bool, k: nat, xs: seq<nat>, ys: seq<nat>)
    requires h.Typed() && h.Match(l, r) && h.Shape(l) == Record(xs) && h.Shape(r) == Record(ys)
    ensures |xs| == |ys|
    ensures Same(h, l, r, field, k + 1) <==> forall i :: 0 <= i < |xs| ==> BothSame(h, xs[i], ys[i], true, k)
    ensures Differ(h, l, r, field, k + 1) <==> exists i :: 0 <= i < |xs| && BothDiffer(h, xs[i], ys[i], true, k)
  {
    assert h.Alike(l, r);
    if Differ(h, l, r, field, k + 1) {
      var i :| 0 <= i < |xs| && Differ(h, xs[i], ys[i], true, k);
      assert BothDiffer(h, xs[i], ys[i], true, k);
    }
  }

  // ----- lists

  /** Slices: as fields, nil and non-nil differ; otherwise nil counts as empty. */
  lemma {:induction false} ListsMean(
    h: Heap, l: nat, r: nat, field: bool, k: nat, a: Option<seq<nat>>, b: Option<seq<nat>>)
    requires h.Typed() && h.Match(l, r) && h.Shape(l) == List(a) && h.Shape(r) == List(b)
    ensures (a == None) != (b == None) && field ==> !Same(h, l, r, field, k + 1) && Differ(h, l, r, field, k + 1)
    ensures !((a == None) != (b == None) && field) ==>
              var xs, ys := if a == None then [] else a.value, if b == None then [] else b.value;
              && (Same(h, l, r, field, k + 1) <==>
                    |xs| == |ys| && forall i :: 0 <= i < |xs| ==> BothSame(h, xs[i], ys[i], false, k))
              && (Differ(h, l, r, field, k + 1) <==>
                    |xs| != |ys| || exists i :: 0 <= i < |xs| && BothDiffer(h, xs[i], ys[i], false, k))
  {
    assert h.Alike(l, r);
    var xs, ys := if a == None then [] else a.value, if b == None then [] else b.value;
    assert Elements(h.Shape(l)) == xs && Elements(h.Shape(r)) == ys;
    if Differ(h, l, r, field, k + 1) && SamePresence(h.Shape(l), h.Shape(r), field) && |xs| == |ys| {
      var i :| 0 <= i < |xs| && Differ(h, xs[i], ys[i], false, k);
      assert BothDiffer(h, xs[i], ys[i], false, k);
    }
  }

  // ----- maps

  /** An entry of the left map is found in the right one by its key; the key equals itself and the values are equal. */
  ghost predicate EntryFound(h: Heap, e: Entry, r: nat, k: nat)
    requires h.Typed()
  {
    match h.lookup(r, e.key)
    case None => false
    case Some(v) => BothSame(h, e.key, e.key, false, k) && BothSame(h, e.value, v, false, k)
  }

  ghost predicate EntryLost(h: Heap, e: Entry, r: nat, k: nat)
    requires h.Typed()
  {
    match h.lookup(r, e.key)
    case None => true
    case Some(v) => BothDiffer(h, e.key, e.key, false, k) || BothDiffer(h, e.value, v, false, k)
  }

  /** Maps: as fields, nil and non-nil differ; otherwise nil counts as empty. */
  lemma {:induction false} TablesMean(
    h: Heap, l: nat, r: nat, field: bool, k: nat, a: Option<seq<Entry>>, b: Option<seq<Entry>>)
    requires h.Typed() && h.Match(l, r) && h.Shape(l) == Table(a) && h.Shape(r) == Table(b)
    ensures (a == None) != (b == None) && field ==> !Same(h, l, r, field, k + 1) && Differ(h, l, r, field, k + 1)
    ensures !((a == None) != (b == None) && field) ==>
              var es, fs := if a == None then [] else a.value, if b == None then [] else b.value;
              && (Same(h, l, r, field, k + 1) <==> |es| == |fs| && forall e :: e in es ==> EntryFound(h, e, r, k))
              && (Differ(h, l, r, field, k + 1) <==> |es| != |fs| || exists e :: e in es && EntryLost(h, e, r, k))
  {
    assert h.Alike(l, r);
    var es, fs := if a == None then [] else a.value, if b == None then [] else b.value;
    assert Entries(h.Shape(l)) == es && Entries(h.Shape(r)) == fs;
    forall e | e in es
      ensures EntrySame(h, e, r, k) <==> EntryFound(h, e, r, k)
      ensures EntryDiffers(h, e, r, k) <==> EntryLost(h, e, r, k)
    {
      KeyMatches(h, e.key);
    }
    if !((a == None) != (b == None) && field) && |es| == |fs| {
      if Differ(h, l, r, field, k + 1) {
        var e :| e in es && EntryDiffers(h, e, r, k);
        assert EntryLost(h, e, r, k);
      }
      if e :| e in es && EntryLost(h, e, r, k) {
        assert EntryDiffers(h, e, r, k);
      }
      if Same(h, l, r, field, k + 1) {
        forall e | e in es ensures EntryFound(h, e, r, k) {
          assert EntrySame(h, e, r, k);
        }
      }
    }
  }

  lemma {:induction false} KeyMatches(h: Heap, x: nat)
    requires x < |h.places|
    ensures h.Match(x, x)
  {}

  // ----- the answers that nil decides

  /** Of two values one of which is nil: whether presence alone makes them different. */
  ghost predicate PresenceDiffers(x: Shape, y: Shape, field: bool) {
    match (x, y)
    case (Pointer(a), Pointer(b)) => (a == None) != (b == None)
    case (Blob(a, _), Blob(b, _)) => field && a != b
    case (List(a), List(b)) => field && (a == None) != (b == None)
    case (Table(a), Table(b)) => field && (a == None) != (b == None)
    case _ => false
  }

  ghost predicate BothNil(x: Shape, y: Shape) {
    match (x, y)
    case (Pointer(None), Pointer(None)) => true
    case (Blob(true, _), Blob(true, _)) => true
    case (List(None), List(None)) => true
    case (Table(None), Table(None)) => true
    case _ => false
  }

  /** A visit answers false at once when presence differs, and true at once when both values are nil, with the cache or
      without it; otherwise nil decides nothing. */
  lemma {:induction false} NilDecides(
    h: Heap, cached: bool, s: State, l: nat, r: nat, depth: nat, field: bool, path: seq<nat>)
    requires h.Typed() && h.Match(l, r) && depth <= 32 && s.nodes > 0
    ensures PresenceDiffers(h.Shape(l), h.Shape(r), field) ==>
              Compare(h, cached, s, l, r, depth, field, path) == (False, s.(nodes := s.nodes - 1))
    ensures BothNil(h.Shape(l), h.Shape(r)) ==>
              Compare(h, cached, s, l, r, depth, field, path) == (True, s.(nodes := s.nodes - 1))
  {
    assert h.Alike(l, r);
    hide CompareAll;
  }

  /** A nil and an empty collection of one kind, at the root, in a list or in a map, are equal and compare true. */
  lemma {:induction false} NilIsEmpty(h: Heap, cached: bool, s: State, l: nat, r: nat, depth: nat, path: seq<nat>)
    requires h.Typed() && h.Match(l, r) && depth <= 32 && s.nodes > 0
    requires || (h.Shape(l) in {List(None), List(Some([]))} && h.Shape(r) in {List(None), List(Some([]))})
             || (h.Shape(l) in {Table(None), Table(Some([]))} && h.Shape(r) in {Table(None), Table(Some([]))})
    ensures Same(h, l, r, false, 1) && Compare(h, cached, s, l, r, depth, false, path).0 == True
  {
    assert h.Alike(l, r);
    if h.Shape(l).Table? {
      assert h.Ranges(l);
      assert |h.order(path, l)| == |multiset(h.order(path, l))| == 0;
    }
  }

  // ----- what a visit charges

  /** A visit takes one node, and none is left or too deep a place is a limit. */
  lemma {:induction false} VisitsCharge(
    h: Heap, cached: bool, s: State, l: nat, r: nat, depth: nat, field: bool, path: seq<nat>)
    requires h.Typed() && h.Match(l, r)
    ensures depth > 32 || s.nodes == 0 ==> Compare(h, cached, s, l, r, depth, field, path) == (Limit, s)
    ensures depth <= 32 && s.nodes > 0 && h.Shape(l).Scalar? ==>
              Compare(h, cached, s, l, r, depth, field, path) == (h.leaf(l, r), s.(nodes := s.nodes - 1))
  {
    assert h.Alike(l, r);
  }

  /** Strings of one length take that many bytes before the leaves are compared, and too many are a limit. */
  lemma {:induction false} TextsCharge(
    h: Heap, cached: bool, s: State, l: nat, r: nat, depth: nat, field: bool, path: seq<nat>, n: nat)
    requires h.Typed() && h.Match(l, r) && depth <= 32 && s.nodes > 0
    requires h.Shape(l) == h.Shape(r) && h.Shape(l) in {Text(n), Blob(false, n)}
    ensures var (a, t) := Compare(h, cached, s, l, r, depth, field, path);
            if n > s.bytes then a == Limit
            else a == h.leaf(l, r) && t == s.(nodes := s.nodes - 1, bytes := s.bytes - n)
  {
    assert h.Alike(l, r);
  }

  /** Slices of one length take that many items before their elements are compared in order, and too many are a
      limit. */
  lemma {:induction false} ListsCharge(
    h: Heap, cached: bool, s: State, l: nat, r: nat, depth: nat, field: bool, path: seq<nat>, xs: seq<nat>,
    ys: seq<nat>)
    requires h.Typed() && h.Match(l, r) && depth <= 32 && s.nodes > 0
    requires h.Shape(l) == List(Some(xs)) && h.Shape(r) == List(Some(ys))
    ensures var (a, t) := Compare(h, cached, s, l, r, depth, field, path);
            if |xs| != |ys| then a == False
            else if |xs| > s.items then a == Limit
            else
              && PartsMatch(h, Zip(xs, ys))
              && (a, t) == CompareAll(h, cached, s.(nodes := s.nodes - 1, items := s.items - |xs|), Zip(xs, ys),
                                      depth + 1, false, path, 0)
  {
    hide CompareAll;
    assert h.Alike(l, r);
    PlanMatches(h, s.(nodes := s.nodes - 1), l, r, field, path);
  }

  /** Maps of one size take that many items before any entry is compared, and too many are a limit. */
  lemma {:induction false} TablesCharge(
    h: Heap, cached: bool, s: State, l: nat, r: nat, depth: nat, field: bool, path: seq<nat>, es: seq<Entry>,
    fs: seq<Entry>)
    requires h.Typed() && h.Match(l, r) && depth <= 32 && s.nodes > 0
    requires h.Shape(l) == Table(Some(es)) && h.Shape(r) == Table(Some(fs))
    ensures var (a, t) := Compare(h, cached, s, l, r, depth, field, path);
            if |es| != |fs| then a == False
            else if |es| > s.items then a == Limit
            else
              var parts := EntryParts(h, h.order(path, l), r);
              && PartsMatch(h, parts)
              && (a, t) == CompareAll(h, cached, s.(nodes := s.nodes - 1, items := s.items - |es|), parts,
                                      depth + 1, false, path, 0)
  {
    hide CompareAll;
    assert h.Alike(l, r);
    PlanMatches(h, s.(nodes := s.nodes - 1), l, r, field, path);
  }
}
