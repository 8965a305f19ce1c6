/** A graph a comparison can really meet where the cache decides the answer: a chain of records, each with two pointers
    to the next. Its depth is within the limit, but the paths through it are too many to visit one by one. */
module NativeEqualityChain {
  import opened Facts
  import opened NativeEquality
  import opened NativeEqualityMeaning
  import opened NativeEqualityWork
  import opened NativeEqualitySharing
  import opened NativeEqualityBudget

  const LEVELS := 16
  const LAST := 48

  /** Level `i` is the record at `3 * i` and its two pointers behind it; the last place is a leaf that equals itself. */
  function ChainPlace(x: nat): Place {
    if x >= LAST then Place(2 * LEVELS, Scalar)
    else if x % 3 == 0 then Place(2 * (x / 3), Record([x + 1, x + 2]))
    else Place(2 * (x / 3) + 1, Pointer(Some(3 * (x / 3) + 3)))
  }

  function ChainPlaces(): (places: seq<Place>)
    ensures |places| == LAST + 1 && forall x: nat :: x <= LAST ==> places[x] == ChainPlace(x)
  {
    seq(LAST + 1, x requires 0 <= x <= LAST => ChainPlace(x))
  }

  const CHAIN := Heap(ChainPlaces(), (_, _) => True, (_, _) => None, (_, _) => [])

  ghost predicate Chain(h: Heap) {
    && |h.places| == LAST + 1 && (forall x: nat :: x <= LAST ==> h.places[x] == ChainPlace(x))
    && (forall x, y :: h.leaf(x, y) == True)
  }

  lemma {:induction false} ChainIsChain()
    ensures Chain(CHAIN)
  {
    assert CHAIN.places == ChainPlaces();
  }

  lemma {:induction false} ChainTyped(h: Heap)
    requires Chain(h)
    ensures h.Typed()
  {
    forall x | 0 <= x < |h.places| ensures h.Ranges(x) {
      assert h.places[x] == ChainPlace(x);
    }
    forall l: nat, r: nat | h.Match(l, r) ensures h.Alike(l, r) {
      ChainAlike(h, l, r);
    }
  }

  /** Places of one type are on one level: the same record, its two pointers, or the leaf. */
  lemma {:induction false} ChainAlike(h: Heap, l: nat, r: nat)
    requires Chain(h) && h.Match(l, r)
    ensures h.Alike(l, r)
  {
    hide Chain;
    assert h.places[l] == ChainPlace(l) && h.places[r] == ChainPlace(r) by { ChainAt(h, l); ChainAt(h, r); }
    assert |h.places| == LAST + 1 by { ChainAt(h, l); }
    assert l / 3 == r / 3 || (l == LAST && r == LAST);
    if h.Shape(l).Record? {
      assert l == r;
      assert h.Match(l + 1, l + 1) && h.Match(l + 2, l + 2);
    }
  }

  lemma {:induction false} ChainAt(h: Heap, x: nat)
    requires Chain(h) && x < |h.places|
    ensures |h.places| == LAST + 1 && h.places[x] == ChainPlace(x)
  {}

  lemma {:induction false} ChainShapes(h: Heap, i: nat)
    requires Chain(h) && i < LEVELS
    ensures h.Shape(3 * i) == Record([3 * i + 1, 3 * i + 2])
    ensures h.Shape(3 * i + 1) == Pointer(Some(3 * (i + 1))) && h.Shape(3 * i + 2) == Pointer(Some(3 * (i + 1)))
  {
    assert (3 * i + 1) / 3 == i && (3 * i + 2) / 3 == i;
    assert h.places[3 * i] == ChainPlace(3 * i);
    assert h.places[3 * i + 1] == ChainPlace(3 * i + 1) && h.places[3 * i + 2] == ChainPlace(3 * i + 2);
  }

  // ----- one visit at a time

  lemma {:induction false} RecordPlan(h: Heap, i: nat, s: State, field: bool, path: seq<nat>)
    requires Chain(h) && h.Typed() && i < LEVELS
    ensures Decide(h, s, 3 * i, 3 * i, field, path)
            == Each([Pair(3 * i + 1, 3 * i + 1), Pair(3 * i + 2, 3 * i + 2)], true, s)
  {
    ChainShapes(h, i);
    assert Zip([3 * i + 1, 3 * i + 2], [3 * i + 1, 3 * i + 2])
      == [Pair(3 * i + 1, 3 * i + 1), Pair(3 * i + 2, 3 * i + 2)];
  }

  lemma {:induction false} PointerPlan(h: Heap, i: nat, l: nat, s: State, field: bool, path: seq<nat>)
    requires Chain(h) && h.Typed() && i < LEVELS && 3 * i < l <= 3 * i + 2
    ensures Decide(h, s, l, l, field, path) == Follow(3 * (i + 1), 3 * (i + 1), s)
  {
    ChainShapes(h, i);
  }

  lemma {:induction false} LeafPlan(h: Heap, s: State, field: bool, path: seq<nat>)
    requires Chain(h) && h.Typed()
    ensures Decide(h, s, LAST, LAST, field, path) == Decided(True, s)
  {
    LastShape(h);
  }

  /** A loop over two comparisons. */
  lemma {:induction false} BothOf(h: Heap, cached: bool, s: State, l: nat, r: nat, depth: nat, path: seq<nat>)
    requires h.Typed() && h.Match(l, l) && h.Match(r, r) && PartsMatch(h, [Pair(l, l), Pair(r, r)])
    ensures var (a, t) := Compare(h, cached, s, l, l, depth, true, path + [0]);
            CompareAll(h, cached, s, [Pair(l, l), Pair(r, r)], depth, true, path, 0)
            == if a == True then Compare(h, cached, t, r, r, depth, true, path + [1]) else (a, t)
  {
    hide Compare;
    var parts := [Pair(l, l), Pair(r, r)];
    var (a, t) := Compare(h, cached, s, l, l, depth, true, path + [0]);
    assert parts[1..] == [Pair(r, r)] && parts[1..][1..] == [];
    if a == True {
      var (b, u) := Compare(h, cached, t, r, r, depth, true, path + [1]);
      assert CompareAll(h, cached, t, parts[1..], depth, true, path, 1) == (b, u);
    }
  }

  // ----- the plain traversal

  /** The visits of a chain of `n` levels when every path is followed. */
  function Paths(n: nat): nat { if n == 0 then 1 else 3 + 2 * Paths(n - 1) }

  /** True within the budget, and a limit without it. */
  ghost predicate Costs(s: State, a: Answer, t: State, visits: nat) {
    if s.nodes >= visits then a == True && t.nodes == s.nodes - visits else a == Limit
  }

  lemma {:induction false} PlainRecord(h: Heap, i: nat, s: State, field: bool, path: seq<nat>)
    requires Chain(h) && h.Typed() && i <= LEVELS
    ensures h.Match(3 * i, 3 * i)
    ensures var (a, t) := Compare(h, false, s, 3 * i, 3 * i, 2 * i, field, path);
            Costs(s, a, t, Paths(LEVELS - i))
    decreases LEVELS - i, 1
  {
    hide Chain, Decide, CompareAll;
    var l := 3 * i;
    ChainSize(h);
    if s.nodes > 0 {
      var s1 := s.(nodes := s.nodes - 1);
      if i == LEVELS {
        LeafPlan(h, s1, field, path);
      } else {
        RecordPlan(h, i, s1, field, path);
        PlanMatches(h, s1, l, l, field, path);
        BothOf(h, false, s1, l + 1, l + 2, 2 * i + 1, path);
        PlainPointer(h, i, l + 1, s1, path + [0]);
        var (a, t) := Compare(h, false, s1, l + 1, l + 1, 2 * i + 1, true, path + [0]);
        if a == True {
          PlainPointer(h, i, l + 2, t, path + [1]);
        }
      }
    }
  }

  lemma {:induction false} ChainSize(h: Heap)
    requires Chain(h)
    ensures |h.places| == LAST + 1
  {}

  lemma {:induction false} PlainPointer(h: Heap, i: nat, l: nat, s: State, path: seq<nat>)
    requires Chain(h) && h.Typed() && i < LEVELS && 3 * i < l <= 3 * i + 2
    ensures h.Match(l, l)
    ensures var (a, t) := Compare(h, false, s, l, l, 2 * i + 1, true, path);
            Costs(s, a, t, 1 + Paths(LEVELS - i - 1))
    decreases LEVELS - i, 0
  {
    hide Chain, Decide, CompareAll, Paths;
    ChainSize(h);
    if s.nodes > 0 {
      var s1 := s.(nodes := s.nodes - 1);
      PointerPlan(h, i, l, s1, true, path);
      PlanMatches(h, s1, l, l, true, path);
      var next := 3 * (i + 1);
      PlainRecord(h, i + 1, s1.(descended := s1.descended + [(next, next)]), false, path + [0]);
    }
  }

  // ----- the cached traversal

  /** Parts lie further down the chain. */
  function Rank(): nat -> nat { (x: nat) => if x <= LAST then LAST - x else 0 }

  ghost function Met(): set<(nat, nat)> { set x: nat | x <= LAST :: (x, x) }

  /** The pairs of pointees from level `i` on, one for each level. */
  function Pointees(i: nat): seq<(nat, nat)>
    requires i <= LEVELS
    decreases LEVELS - i
  {
    if i == LEVELS then [] else [(3 * (i + 1), 3 * (i + 1))] + Pointees(i + 1)
  }

  lemma {:induction false} PointeesAre(i: nat)
    requires i <= LEVELS
    ensures |Pointees(i)| == LEVELS - i
    ensures forall k :: 0 <= k < |Pointees(i)| ==> Pointees(i)[k] == (3 * (i + k + 1), 3 * (i + k + 1))
    decreases LEVELS - i
  {
    if i < LEVELS {
      PointeesAre(i + 1);
    }
  }

  lemma {:induction false} ChainDescends(h: Heap)
    requires Chain(h)
    ensures Acyclic(h, Rank())
  {
    forall x | 0 <= x < |h.places| ensures Descends(h, Rank(), x) {
      assert h.places[x] == ChainPlace(x);
    }
  }

  /** A place without parts costs its visit. */
  lemma {:induction false} BareFlat(h: Heap, rank: nat -> nat, x: nat)
    requires x < |h.places| && (h.Shape(x).Pointer? || h.Shape(x).Scalar?)
    ensures Flat(h, rank, x) == VISIT
  {
    hide *;
    FlatOf(h, rank, x);
    BareKids(h, rank, h.Shape(x), rank(x));
    PlusNothing(VISIT);
  }

  lemma {:induction false} BareKids(h: Heap, rank: nat -> nat, x: Shape, bound: nat)
    requires x.Pointer? || x.Scalar?
    ensures Own(x) == ZERO && FlatKids(h, rank, x, bound) == ZERO
  {
    hide Flat, FlatAll, FlatEntries, FlatBelow;
  }

  lemma {:induction false} PlusNothing(c: Cost)
    ensures c.Plus(ZERO) == c
  {}

  lemma {:induction false} PointerFlat(h: Heap, rank: nat -> nat, x: nat, bound: nat)
    requires x < |h.places| && h.Shape(x).Pointer?
    ensures FlatBelow(h, rank, x, bound).Within(VISIT)
  {
    BareFlat(h, rank, x);
    hide Flat;
  }

  lemma {:induction false} FlatAllFirst(h: Heap, rank: nat -> nat, x: nat, rest: seq<nat>, bound: nat)
    ensures FlatAll(h, rank, [], bound) == ZERO
    ensures FlatAll(h, rank, [x] + rest, bound) == FlatBelow(h, rank, x, bound).Plus(FlatAll(h, rank, rest, bound))
  {
    hide FlatBelow;
    var xs := [x] + rest;
    assert xs[0] == x && xs[1..] == rest;
  }

  lemma {:induction false} TwoFlat(h: Heap, rank: nat -> nat, l: nat, r: nat, bound: nat)
    requires FlatBelow(h, rank, l, bound).Within(VISIT) && FlatBelow(h, rank, r, bound).Within(VISIT)
    ensures FlatAll(h, rank, [l, r], bound).Within(Cost(2, 0, 0))
  {
    hide FlatBelow, FlatAll;
    assert [l] + [r] == [l, r] && [r] + [] == [r];
    FlatAllFirst(h, rank, l, [r], bound);
    FlatAllFirst(h, rank, r, [], bound);
  }

  /** A record holds itself and its two pointers. */
  lemma {:induction false} RecordFlat(h: Heap, i: nat)
    requires Chain(h) && i <= LEVELS
    ensures Flat(h, Rank(), 3 * i).Within(Cost(3, 0, 0))
  {
    hide Chain, ChainPlace, Flat, Rank;
    ChainSize(h);
    if i < LEVELS {
      ChainShapes(h, i);
      PairFlat(h, Rank(), 3 * i, 3 * i + 1, 3 * i + 2);
    } else {
      LastShape(h);
      BareFlat(h, Rank(), 3 * i);
    }
  }

  lemma {:induction false} PairFlat(h: Heap, rank: nat -> nat, x: nat, l: nat, r: nat)
    requires x < |h.places| && l < |h.places| && r < |h.places| && h.Shape(x) == Record([l, r])
    requires h.Shape(l).Pointer? && h.Shape(r).Pointer?
    ensures Flat(h, rank, x).Within(Cost(3, 0, 0))
  {
    hide FlatAll, Flat, FlatBelow, FlatEntries, FlatKids;
    FlatOf(h, rank, x);
    PointerFlat(h, rank, l, rank(x));
    PointerFlat(h, rank, r, rank(x));
    TwoFlat(h, rank, l, r, rank(x));
    FieldsFlat(h, rank, [l, r], rank(x));
  }

  lemma {:induction false} FieldsFlat(h: Heap, rank: nat -> nat, fs: seq<nat>, bound: nat)
    ensures FlatKids(h, rank, Record(fs), bound) == FlatAll(h, rank, fs, bound)
  {
    hide FlatAll;
  }

  lemma {:induction false} LastShape(h: Heap)
    requires Chain(h)
    ensures |h.places| == LAST + 1 && h.Shape(LAST) == Scalar
  {
    assert h.places[LAST] == ChainPlace(LAST);
  }

  lemma {:induction false} PointeesFlat(h: Heap, i: nat)
    requires Chain(h) && i <= LEVELS
    ensures FlatPairs(h, Rank(), Pointees(i)).Within(Cost(3 * (LEVELS - i), 0, 0))
    decreases LEVELS - i
  {
    hide Chain, Flat;
    if i < LEVELS {
      PointeesFlat(h, i + 1);
      RecordFlat(h, i + 1);
      var rest := Pointees(i + 1);
      assert ([(3 * (i + 1), 3 * (i + 1))] + rest)[1..] == rest;
    }
  }

  lemma {:induction false} ChainFits(h: Heap, i: nat, levels: nat)
    requires Chain(h) && i <= LEVELS && levels >= 2 * (LEVELS - i) + 1
    ensures Fits(h, 3 * i, levels)
    decreases LEVELS - i
  {
    hide Chain;
    ChainSize(h);
    ChainAt(h, 3 * i);
    if i < LEVELS {
      ChainAt(h, 3 * i + 1);
      ChainAt(h, 3 * i + 2);
      ChainFits(h, i + 1, levels - 2);
      PointerFits(h, 3 * i + 1, 3 * (i + 1), levels - 1);
      PointerFits(h, 3 * i + 2, 3 * (i + 1), levels - 1);
    }
  }

  lemma {:induction false} PointerFits(h: Heap, x: nat, y: nat, levels: nat)
    requires x < |h.places| && h.Shape(x) == Pointer(Some(y)) && levels > 0 && Fits(h, y, levels - 1)
    ensures Fits(h, x, levels)
  {}

  /** A comparison of the chain with itself only meets places with themselves. */
  lemma {:induction false} ChainMeets(h: Heap)
    requires Chain(h) && h.Typed()
    ensures Meets(h, Met(), Pointees(0))
  {
    var met := Met();
    forall p | p in met ensures h.Match(p.0, p.1) {
      ChainAt(h, p.0);
    }
    forall p, q | p in met && Leads(h, p, q) ensures q in met && (h.Shape(p.0).Pointer? ==> q in Pointees(0)) {
      ChainLeads(h, p.0, q);
    }
  }

  lemma {:induction false} ChainLeads(h: Heap, x: nat, q: (nat, nat))
    requires Chain(h) && h.Typed() && h.Match(x, x) && Leads(h, (x, x), q)
    ensures q.0 == q.1 <= LAST && (h.Shape(x).Pointer? ==> q in Pointees(0))
  {
    hide Chain, Pointees;
    ChainAt(h, x);
    PointeesAre(0);
    var level := x / 3;
    if h.Shape(x).Pointer? {
      assert q == (3 * (level + 1), 3 * (level + 1)) == Pointees(0)[level];
    }
  }

  lemma {:induction false} PointeesDiffer()
    ensures NoRepeats(Pointees(0))
  {
    hide Pointees;
    PointeesAre(0);
  }

  /** So the chain is within what a comparison can afford, although its paths are not. */
  lemma {:induction false} ChainIsAffordable()
    ensures CHAIN.Typed() && Affordable(CHAIN, 0, 0)
  {
    ChainIsChain();
    ChainTyped(CHAIN);
    ChainAffords(CHAIN);
  }

  lemma {:induction false} ChainAffords(h: Heap)
    requires Chain(h) && h.Typed()
    ensures Affordable(h, 0, 0)
  {
    hide Chain, Acyclic, Fits, Meets, Flat, FlatPairs, NoRepeats, Pointees, Rank;
    ChainDescends(h);
    ChainFits(h, 0, MAX_DEPTH + 1);
    ChainMeets(h);
    PointeesDiffer();
    RecordFlat(h, 0);
    PointeesFlat(h, 0);
    assert (0, 0) in Met();
    assert Enough(h, 0, 0, Rank(), Met(), Pointees(0));
  }

  lemma {:induction false} ChainSame(h: Heap, i: nat, field: bool)
    requires Chain(h) && h.Typed() && i <= LEVELS
    ensures h.Match(3 * i, 3 * i) && Same(h, 3 * i, 3 * i, field, 2 * (LEVELS - i) + 1)
    decreases LEVELS - i
  {
    hide Chain, Same;
    ChainSize(h);
    if i < LEVELS {
      ChainSame(h, i + 1, false);
      ChainShapes(h, i);
      PointerSame(h, 3 * i + 1, 3 * (i + 1), 2 * (LEVELS - i));
      PointerSame(h, 3 * i + 2, 3 * (i + 1), 2 * (LEVELS - i));
      RecordSame(h, 3 * i, field, 2 * (LEVELS - i) + 1);
    } else {
      LastSame(h, field);
    }
  }

  lemma {:induction false} RecordSame(h: Heap, x: nat, field: bool, k: nat)
    requires h.Typed() && x + 2 < |h.places| && h.Shape(x) == Record([x + 1, x + 2])
    requires k > 0 && Same(h, x + 1, x + 1, true, k - 1) && Same(h, x + 2, x + 2, true, k - 1)
    ensures Same(h, x, x, field, k)
  {}

  lemma {:induction false} LastSame(h: Heap, field: bool)
    requires Chain(h) && h.Typed()
    ensures Same(h, LAST, LAST, field, 1)
  {
    LastShape(h);
  }

  lemma {:induction false} PointerSame(h: Heap, x: nat, y: nat, k: nat)
    requires Chain(h) && h.Typed() && x < |h.places| && h.Shape(x) == Pointer(Some(y))
    requires k > 0 && h.Match(y, y) && Same(h, y, y, false, k - 1)
    ensures h.Match(x, x) && Same(h, x, x, true, k)
  {}

  // ----- the budget every comparison starts from

  lemma {:induction false} TooManyPaths()
    ensures Paths(LEVELS) > START.nodes
  {
    assert Paths(4) == 61;
    assert Paths(8) == 1021;
    assert Paths(12) == 16381;
  }

  /** From the budget every comparison starts with, the cached comparison of the chain with itself is true and the plain
      traversal runs out. */
  lemma {:induction false} CacheAnswersMore()
    ensures CHAIN.Typed() && CHAIN.Match(0, 0)
    ensures Compare(CHAIN, false, START, 0, 0, 0, false, []).0 == Limit
    ensures Compare(CHAIN, true, START, 0, 0, 0, false, []).0 == True
  {
    hide Compare, Paths, Same, Affordable;
    ChainIsChain();
    ChainIsAffordable();
    TooManyPaths();
    PlainRecord(CHAIN, 0, START, false, []);
    ChainSame(CHAIN, 0, false);
    AffordableIsDecided(CHAIN, 0, 0, false);
  }
}
