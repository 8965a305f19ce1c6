/** What the cache of completed pairs buys and what it never changes: it keeps every answer the plain traversal reaches,
    and on an acyclic graph no pair of pointees is descended into twice, so visits do not multiply with the number of
    paths. */
module NativeEqualityWork {
  import opened NativeEquality
  import opened NativeEqualityMeaning
  import opened Permutations

  // ----- budgets

  ghost predicate NoLess(t: State, s: State) { t.bytes >= s.bytes && t.items >= s.items && t.nodes >= s.nodes }

  /** A comparison only spends, whatever the graph: its visits are at most the nodes it was given. */
  lemma {:induction false} ComparisonsSpend(
    h: Heap, cached: bool, s: State, l: nat, r: nat, depth: nat, field: bool, path: seq<nat>)
    requires h.Typed() && h.Match(l, r)
    ensures var t := Compare(h, cached, s, l, r, depth, field, path).1;
            NoLess(s, t) && s.descended <= t.descended
    decreases Height(depth), 1, 0
  {
    hide Decide;
    if depth <= MAX_DEPTH && s.nodes > 0 {
      var s1 := s.(nodes := s.nodes - 1);
      PlanMatches(h, s1, l, r, field, path);
      PlanStates(h, s1, l, r, field, path);
      match Decide(h, s1, l, r, field, path)
      case Decided(a, t) =>
      case Follow(a, b, t) =>
        if !(cached && (a, b) in t.equaled) {
          ComparisonsSpend(h, cached, t.(descended := t.descended + [(a, b)]), a, b, depth + 1, false, path + [0]);
        }
      case Each(parts, f, t) =>
        LoopsSpend(h, cached, t, parts, depth + 1, f, path, 0);
    }
  }

  lemma {:induction false} LoopsSpend(
    h: Heap, cached: bool, s: State, parts: seq<Part>, depth: nat, field: bool, path: seq<nat>, at: nat)
    requires h.Typed() && PartsMatch(h, parts)
    ensures var t := CompareAll(h, cached, s, parts, depth, field, path, at).1;
            NoLess(s, t) && s.descended <= t.descended
    decreases Height(depth), 2, |parts|
  {
    if parts != [] && parts[0].Pair? {
      ComparisonsSpend(h, cached, s, parts[0].left, parts[0].right, depth, field, path + [at]);
      var (a, t) := Compare(h, cached, s, parts[0].left, parts[0].right, depth, field, path + [at]);
      if a == True {
        LoopsSpend(h, cached, t, parts[1..], depth, field, path, at + 1);
      }
    }
  }

  // ----- equal structures are never denied

  lemma {:induction false} EqualNeverDenied(
    h: Heap, cached: bool, s: State, l: nat, r: nat, depth: nat, field: bool, path: seq<nat>, k: nat)
    requires h.Typed() && h.Match(l, r) && Same(h, l, r, field, k)
    ensures Compare(h, cached, s, l, r, depth, field, path).0 in {True, Limit}
    decreases Height(depth), 1, 0
  {
    hide Decide, Same, Differ, PartsDiffer;
    if depth <= MAX_DEPTH && s.nodes > 0 {
      var s1 := s.(nodes := s.nodes - 1);
      SamePositive(h, l, r, field, k);
      PlansMean(h, s1, l, r, field, path, k - 1);
      match Decide(h, s1, l, r, field, path)
      case Decided(a, t) =>
      case Follow(a, b, t) =>
        if !(cached && (a, b) in t.equaled) {
          EqualNeverDenied(h, cached, t.(descended := t.descended + [(a, b)]), a, b, depth + 1, false, path + [0],
                           k - 1);
        }
      case Each(parts, f, t) =>
        PartsNeverDenied(h, cached, t, parts, depth + 1, f, path, 0, k - 1);
    }
  }

  lemma {:induction false} SamePositive(h: Heap, l: nat, r: nat, field: bool, k: nat)
    requires h.Typed() && h.Match(l, r) && Same(h, l, r, field, k)
    ensures k > 0
  {}

  lemma {:induction false} PartsNeverDenied(
    h: Heap, cached: bool, s: State, parts: seq<Part>, depth: nat, field: bool, path: seq<nat>, at: nat, k: nat)
    requires h.Typed() && PartsMatch(h, parts) && PartsSame(h, parts, field, k)
    ensures CompareAll(h, cached, s, parts, depth, field, path, at).0 in {True, Limit}
    decreases Height(depth), 2, |parts|
  {
    hide Same;
    if parts != [] {
      assert parts[0].Pair?;
      EqualNeverDenied(h, cached, s, parts[0].left, parts[0].right, depth, field, path + [at], k);
      var (a, t) := Compare(h, cached, s, parts[0].left, parts[0].right, depth, field, path + [at]);
      if a == True {
        PartsNeverDenied(h, cached, t, parts[1..], depth, field, path, at + 1, k);
      }
    }
  }

  // ----- the cache changes no answer

  /** With no less budget a visit plans the same, unless the smaller budget already ran out. */
  lemma {:induction false} RicherPlans(h: Heap, s: State, c: State, l: nat, r: nat, field: bool, path: seq<nat>)
    requires h.Typed() && h.Match(l, r) && NoLess(c, s)
    ensures var p := Decide(h, s, l, r, field, path);
            var q := Decide(h, c, l, r, field, path);
            match p
            case Decided(a, t) => a != Limit ==> q.Decided? && q.answer == a && NoLess(q.state, t)
            case Follow(a, b, t) => q.Follow? && q.left == a && q.right == b && NoLess(q.state, t)
            case Each(parts, f, t) => q.Each? && q.parts == parts && q.field == f && NoLess(q.state, t)
  {
    assert h.Alike(l, r);
  }

  /** Whenever the plain traversal answers anything but a limit, the cached one gives the same answer, with at least as
      much of every budget left, on every heap and from every sound cache. */
  lemma {:induction false} CacheKeepsAnswers(
    h: Heap, s: State, c: State, l: nat, r: nat, depth: nat, field: bool, path: seq<nat>)
    requires h.Typed() && h.Match(l, r) && NoLess(c, s) && Sound(h, c.equaled)
    ensures var (a, t) := Compare(h, false, s, l, r, depth, field, path);
            var (b, u) := Compare(h, true, c, l, r, depth, field, path);
            a != Limit ==> b == a && NoLess(u, t)
    decreases Height(depth), 1, 0
  {
    hide Decide, Same;
    if depth <= MAX_DEPTH && s.nodes > 0 {
      var s1, c1 := s.(nodes := s.nodes - 1), c.(nodes := c.nodes - 1);
      PlanMatches(h, s1, l, r, field, path);
      PlanStates(h, c1, l, r, field, path);
      RicherPlans(h, s1, c1, l, r, field, path);
      var q := Decide(h, c1, l, r, field, path);
      match Decide(h, s1, l, r, field, path)
      case Decided(a, t) =>
      case Follow(a, b, t) =>
        FollowedPairAgrees(h, t, q.state, a, b, depth + 1, path + [0]);
      case Each(parts, f, t) =>
        CacheKeepsLoops(h, t, q.state, parts, depth + 1, f, path, 0);
    }
  }

  lemma {:induction false} FollowedPairAgrees(h: Heap, s: State, c: State, a: nat, b: nat, depth: nat, path: seq<nat>)
    requires h.Typed() && h.Match(a, b) && NoLess(c, s) && Sound(h, c.equaled)
    ensures var (x, t) := Compare(h, false, s.(descended := s.descended + [(a, b)]), a, b, depth, false, path);
            var (y, u) := if (a, b) in c.equaled then (True, c)
                          else Compare(h, true, c.(descended := c.descended + [(a, b)]), a, b, depth, false, path);
            x != Limit ==> y == x && NoLess(u, t)
    decreases Height(depth), 2, 0
  {
    hide Same;
    var s1 := s.(descended := s.descended + [(a, b)]);
    if (a, b) in c.equaled {
      var k: nat :| Same(h, a, b, false, k);
      EqualNeverDenied(h, false, s1, a, b, depth, false, path, k);
      ComparisonsSpend(h, false, s1, a, b, depth, false, path);
    } else {
      CacheKeepsAnswers(h, s1, c.(descended := c.descended + [(a, b)]), a, b, depth, false, path);
    }
  }

  lemma {:induction false} CacheKeepsLoops(
    h: Heap, s: State, c: State, parts: seq<Part>, depth: nat, field: bool, path: seq<nat>, at: nat)
    requires h.Typed() && PartsMatch(h, parts) && NoLess(c, s) && Sound(h, c.equaled)
    ensures var (a, t) := CompareAll(h, false, s, parts, depth, field, path, at);
            var (b, u) := CompareAll(h, true, c, parts, depth, field, path, at);
            a != Limit ==> b == a && NoLess(u, t)
    decreases Height(depth), 2, |parts|
  {
    hide Same, Decide;
    if parts != [] && parts[0].Pair? {
      var l, r, p := parts[0].left, parts[0].right, path + [at];
      CacheKeepsAnswers(h, s, c, l, r, depth, field, p);
      AnswersAreSound(h, true, c, l, r, depth, field, p);
      var (a, t) := Compare(h, false, s, l, r, depth, field, p);
      var (b, u) := Compare(h, true, c, l, r, depth, field, p);
      if a == True {
        CacheKeepsLoops(h, t, u, parts[1..], depth, field, path, at + 1);
      }
    }
  }

  // ----- endless comparisons

  /** The comparison of the first pair includes that of the second. */
  ghost predicate Leads(h: Heap, p: (nat, nat), q: (nat, nat))
    requires h.Typed() && h.Match(p.0, p.1)
  {
    assert h.Alike(p.0, p.1);
    var x, y := h.Shape(p.0), h.Shape(p.1);
    match x
    case Pointer(a) => a.Some? && y.target.Some? && q == (a.value, y.target.value)
    case Record(fs) => exists i :: 0 <= i < |fs| && q == (fs[i], y.fields[i])
    case List(_) => exists i :: 0 <= i < |Elements(x)| && i < |Elements(y)| && q == (Elements(x)[i], Elements(y)[i])
    case Table(_) =>
      exists e :: e in Entries(x) && h.lookup(p.1, e.key).Some?
                  && (q == (e.key, e.key) || q == (e.value, h.lookup(p.1, e.key).value))
    case _ => false
  }

  /** From every pair of the set the comparison goes on to another of the set: a cycle, however it is reached. */
  ghost predicate Endless(h: Heap, pairs: set<(nat, nat)>)
    requires h.Typed()
  {
    forall p :: p in pairs ==> h.Match(p.0, p.1) && Continues(h, pairs, p)
  }

  ghost predicate Continues(h: Heap, pairs: set<(nat, nat)>, p: (nat, nat))
    requires h.Typed() && h.Match(p.0, p.1)
  {
    exists q :: q in pairs && Leads(h, p, q)
  }

  lemma {:induction false} Continue(h: Heap, pairs: set<(nat, nat)>, p: (nat, nat)) returns (q: (nat, nat))
    requires h.Typed() && h.Match(p.0, p.1) && Continues(h, pairs, p)
    ensures q in pairs && Leads(h, p, q)
  {
    q :| q in pairs && Leads(h, p, q);
  }

  lemma {:induction false} SameLeads(h: Heap, p: (nat, nat), q: (nat, nat), field: bool, k: nat)
    requires h.Typed() && h.Match(p.0, p.1) && h.Match(q.0, q.1) && Leads(h, p, q) && Same(h, p.0, p.1, field, k)
    ensures k > 0 && (Same(h, q.0, q.1, false, k - 1) || Same(h, q.0, q.1, true, k - 1))
  {
    assert h.Alike(p.0, p.1);
    var x, y := h.Shape(p.0), h.Shape(p.1);
    if x.Table? {
      var e :| e in Entries(x) && h.lookup(p.1, e.key).Some?
               && (q == (e.key, e.key) || q == (e.value, h.lookup(p.1, e.key).value));
      assert EntrySame(h, e, p.1, k - 1);
    }
  }

  lemma {:induction false} EndlessNeverSame(h: Heap, pairs: set<(nat, nat)>, p: (nat, nat), field: bool, k: nat)
    requires h.Typed() && Endless(h, pairs) && p in pairs
    ensures !Same(h, p.0, p.1, field, k)
    decreases k
  {
    hide Same, Leads, Continues;
    if Same(h, p.0, p.1, field, k) {
      var q := Continue(h, pairs, p);
      SameLeads(h, p, q, field, k);
      EndlessNeverSame(h, pairs, q, false, k - 1);
      EndlessNeverSame(h, pairs, q, true, k - 1);
    }
  }

  /** A cyclic comparison is never answered true. */
  lemma {:induction false} EndlessNeverTrue(
    h: Heap, cached: bool, s: State, pairs: set<(nat, nat)>, p: (nat, nat), depth: nat, field: bool, path: seq<nat>)
    requires h.Typed() && Endless(h, pairs) && p in pairs && Sound(h, s.equaled)
    ensures Compare(h, cached, s, p.0, p.1, depth, field, path).0 != True
  {
    hide Same;
    AnswersAreSound(h, cached, s, p.0, p.1, depth, field, path);
    if Equal(h, p.0, p.1, field) {
      var k: nat :| Same(h, p.0, p.1, field, k);
      EndlessNeverSame(h, pairs, p, field, k);
    }
  }

  // ----- work on acyclic graphs

  /** Every part of a place ranks below it; only the left graph needs to be acyclic. */
  ghost predicate Acyclic(h: Heap, rank: nat -> nat) {
    forall x :: 0 <= x < |h.places| ==> Descends(h, rank, x)
  }

  ghost predicate Descends(h: Heap, rank: nat -> nat, x: nat)
    requires x < |h.places|
  {
    match h.Shape(x)
    case Pointer(a) => a.Some? ==> a.value < |h.places| && rank(a.value) < rank(x)
    case Record(fs) => forall i :: 0 <= i < |fs| ==> fs[i] < |h.places| && rank(fs[i]) < rank(x)
    case List(_) =>
      forall i :: 0 <= i < |Elements(h.Shape(x))| ==>
                    Elements(h.Shape(x))[i] < |h.places| && rank(Elements(h.Shape(x))[i]) < rank(x)
    case Table(_) =>
      forall e :: e in Entries(h.Shape(x)) ==>
                    && e.key < |h.places| && e.value < |h.places| && rank(e.key) < rank(x) && rank(e.value) < rank(x)
    case _ => true
  }

  ghost predicate Below(h: Heap, rank: nat -> nat, parts: seq<Part>, bound: nat) {
    forall i :: 0 <= i < |parts| && parts[i].Pair? ==> parts[i].left < |h.places| && rank(parts[i].left) < bound
  }

  lemma {:induction false} EntryPartsBelow(h: Heap, rank: nat -> nat, entries: seq<Entry>, r: nat, bound: nat)
    requires forall e :: e in entries ==>
               e.key < |h.places| && e.value < |h.places| && rank(e.key) < bound && rank(e.value) < bound
    ensures Below(h, rank, EntryParts(h, entries, r), bound)
  {
    if entries != [] {
      assert entries[0] in entries;
      EntryPartsBelow(h, rank, entries[1..], r, bound);
    }
  }

  lemma {:induction false} PlansDescend(
    h: Heap, rank: nat -> nat, s: State, l: nat, r: nat, field: bool, path: seq<nat>)
    requires h.Typed() && h.Match(l, r) && Acyclic(h, rank)
    ensures match Decide(h, s, l, r, field, path)
            case Decided(_, _) => true
            case Follow(a, _, _) => rank(a) < rank(l)
            case Each(parts, _, _) => Below(h, rank, parts, rank(l))
  {
    assert h.Alike(l, r) && Descends(h, rank, l);
    if h.Shape(l).Table? {
      assert h.Ranges(l);
      var entries := h.order(path, l);
      forall e | e in entries ensures e in Entries(h.Shape(l)) {
        assert e in multiset(entries);
      }
      EntryPartsBelow(h, rank, entries, r, rank(l));
    }
  }

  /** No pair is logged twice, and a pair not yet completed is still being compared: it ranks at or above `bound`. */
  ghost predicate Once(s: State, rank: nat -> nat, bound: nat) {
    && (forall i, j :: 0 <= i < j < |s.descended| ==> s.descended[i] != s.descended[j])
    && (forall p :: p in s.descended ==> p in s.equaled || rank(p.0) >= bound)
  }

  /** What a comparison adds to the log, when it answers true, is completed. */
  ghost predicate Settles(s: State, t: State, answer: Answer) {
    && s.descended <= t.descended && s.equaled <= t.equaled
    && (forall i, j :: 0 <= i < j < |t.descended| ==> t.descended[i] != t.descended[j])
    && (answer == True ==> forall i :: |s.descended| <= i < |t.descended| ==> t.descended[i] in t.equaled)
  }

  lemma {:induction false} StillOnce(s: State, t: State, rank: nat -> nat, bound: nat)
    requires Once(s, rank, bound) && Settles(s, t, True)
    ensures Once(t, rank, bound)
  {
    forall p | p in t.descended ensures p in t.equaled || rank(p.0) >= bound {
      var i :| 0 <= i < |t.descended| && t.descended[i] == p;
      if i < |s.descended| {
        assert s.descended[i] == p;
      }
    }
  }

  lemma {:induction false} SettlesOn(s: State, t: State, u: State, answer: Answer)
    requires Settles(s, t, True) && Settles(t, u, answer)
    ensures Settles(s, u, answer)
  {}

  /** On an acyclic graph the cached traversal descends into the pointees of a pair at most once. */
  lemma {:induction false} DescendsOnce(
    h: Heap, rank: nat -> nat, s: State, l: nat, r: nat, depth: nat, field: bool, path: seq<nat>, bound: nat)
    requires h.Typed() && h.Match(l, r) && Acyclic(h, rank) && rank(l) <= bound && Once(s, rank, bound)
    ensures var (a, t) := Compare(h, true, s, l, r, depth, field, path);
            Settles(s, t, a)
    decreases Height(depth), 1, 0
  {
    hide Decide, Once;
    if depth <= MAX_DEPTH && s.nodes > 0 {
      var s1 := s.(nodes := s.nodes - 1);
      PlanMatches(h, s1, l, r, field, path);
      PlanStates(h, s1, l, r, field, path);
      PlansDescend(h, rank, s1, l, r, field, path);
      match Decide(h, s1, l, r, field, path)
      case Decided(a, t) =>
        SameLog(s, t, rank, bound);
      case Follow(a, b, t) =>
        SameLog(s, t, rank, bound);
        FollowsOnce(h, rank, t, a, b, depth + 1, path + [0], bound);
      case Each(parts, f, t) =>
        SameLog(s, t, rank, bound);
        LoopsDescendOnce(h, rank, t, parts, depth + 1, f, path, 0, bound);
    } else {
      SameLog(s, s, rank, bound);
    }
  }

  lemma {:induction false} SameLog(s: State, t: State, rank: nat -> nat, bound: nat)
    requires Once(s, rank, bound) && t.equaled == s.equaled && t.descended == s.descended
    ensures Once(t, rank, bound)
    ensures forall i, j :: 0 <= i < j < |s.descended| ==> s.descended[i] != s.descended[j]
  {}

  lemma {:induction false} LoopsDescendOnce(
    h: Heap, rank: nat -> nat, s: State, parts: seq<Part>, depth: nat, field: bool, path: seq<nat>, at: nat, bound: nat)
    requires h.Typed() && PartsMatch(h, parts) && Acyclic(h, rank) && Below(h, rank, parts, bound)
             && Once(s, rank, bound)
    ensures var (a, t) := CompareAll(h, true, s, parts, depth, field, path, at);
            Settles(s, t, a)
    decreases Height(depth), 2, |parts|
  {
    if parts == [] || parts[0].Missing? {
      SameLog(s, s, rank, bound);
    } else {
      DescendsOnce(h, rank, s, parts[0].left, parts[0].right, depth, field, path + [at], bound);
      var (a, t) := Compare(h, true, s, parts[0].left, parts[0].right, depth, field, path + [at]);
      if a == True {
        StillOnce(s, t, rank, bound);
        LoopsDescendOnce(h, rank, t, parts[1..], depth, field, path, at + 1, bound);
        var (b, u) := CompareAll(h, true, t, parts[1..], depth, field, path, at + 1);
        SettlesOn(s, t, u, b);
      }
    }
  }

  lemma {:induction false} FollowsOnce(
    h: Heap, rank: nat -> nat, s: State, a: nat, b: nat, depth: nat, path: seq<nat>, bound: nat)
    requires h.Typed() && h.Match(a, b) && Acyclic(h, rank) && rank(a) < bound && Once(s, rank, bound)
    ensures var (x, t) :=
              if (a, b) in s.equaled then (True, s)
              else
                var (y, u) := Compare(h, true, s.(descended := s.descended + [(a, b)]), a, b, depth, false, path);
                (y, if y == True then u.(equaled := u.equaled + {(a, b)}) else u);
            Settles(s, t, x)
    decreases Height(depth), 2, 0
  {
    if (a, b) !in s.equaled {
      var s1 := s.(descended := s.descended + [(a, b)]);
      assert Once(s1, rank, rank(a));
      DescendsOnce(h, rank, s1, a, b, depth, false, path, rank(a));
    }
  }

  // ----- what a comparison spends

  /** What comparing one place can take of every budget when pointers are not followed. */
  ghost function Flat(h: Heap, rank: nat -> nat, x: nat): Cost
    decreases rank(x), 1, 0
  {
    if x >= |h.places| then ZERO
    else VISIT.Plus(Own(h.Shape(x))).Plus(FlatKids(h, rank, h.Shape(x), rank(x)))
  }

  ghost function FlatKids(h: Heap, rank: nat -> nat, x: Shape, bound: nat): Cost
    decreases bound, 0, 1
  {
    match x
    case Record(fs) => FlatAll(h, rank, fs, bound)
    case List(_) => FlatAll(h, rank, Elements(x), bound)
    case Table(_) => FlatEntries(h, rank, Entries(x), bound)
    case _ => ZERO
  }

  ghost function FlatBelow(h: Heap, rank: nat -> nat, x: nat, bound: nat): Cost
    decreases bound, 0, 0, 0
  {
    if rank(x) < bound then Flat(h, rank, x) else ZERO
  }

  ghost function FlatAll(h: Heap, rank: nat -> nat, xs: seq<nat>, bound: nat): Cost
    decreases bound, 0, 0, 1 + |xs|
  {
    if xs == [] then ZERO else FlatBelow(h, rank, xs[0], bound).Plus(FlatAll(h, rank, xs[1..], bound))
  }

  ghost function FlatEntries(h: Heap, rank: nat -> nat, es: seq<Entry>, bound: nat): Cost
    decreases bound, 0, 0, 1 + |es|
  {
    if es == [] then ZERO
    else
      FlatBelow(h, rank, es[0].key, bound).Plus(FlatBelow(h, rank, es[0].value, bound))
      .Plus(FlatEntries(h, rank, es[1..], bound))
  }

  ghost function FlatParts(h: Heap, rank: nat -> nat, parts: seq<Part>): Cost {
    if parts == [] then ZERO
    else (if parts[0].Pair? then Flat(h, rank, parts[0].left) else ZERO).Plus(FlatParts(h, rank, parts[1..]))
  }

  ghost function FlatPairs(h: Heap, rank: nat -> nat, pairs: seq<(nat, nat)>): Cost {
    if pairs == [] then ZERO else Flat(h, rank, pairs[0].0).Plus(FlatPairs(h, rank, pairs[1..]))
  }

  /** No budget fell by more than this. */
  ghost predicate Paid(s: State, t: State, c: Cost) { Left(s).Within(Left(t).Plus(c)) }

  lemma {:induction false} FlatPairsFirst(h: Heap, rank: nat -> nat, pairs: seq<(nat, nat)>)
    requires pairs != []
    ensures FlatPairs(h, rank, pairs) == Flat(h, rank, pairs[0].0).Plus(FlatPairs(h, rank, pairs[1..]))
  {
    hide Flat;
  }

  lemma {:induction false} FlatPairsAppend(h: Heap, rank: nat -> nat, a: seq<(nat, nat)>, b: seq<(nat, nat)>)
    ensures FlatPairs(h, rank, a + b) == FlatPairs(h, rank, a).Plus(FlatPairs(h, rank, b))
  {
    hide Flat, FlatPairs;
    if a == [] {
      assert a + b == b;
      NoPairs(h, rank);
    } else {
      var rest := a[1..] + b;
      assert (a + b)[0] == a[0] && (a + b)[1..] == rest;
      FlatPairsAppend(h, rank, a[1..], b);
      FlatPairsFirst(h, rank, a);
      FlatPairsFirst(h, rank, a + b);
    }
  }

  lemma {:induction false} NoPairs(h: Heap, rank: nat -> nat)
    ensures FlatPairs(h, rank, []) == ZERO
  {}

  lemma {:induction false} FlatPartsFirst(h: Heap, rank: nat -> nat, p: Part, rest: seq<Part>)
    ensures FlatParts(h, rank, [p] + rest)
            == (if p.Pair? then Flat(h, rank, p.left) else ZERO).Plus(FlatParts(h, rank, rest))
  {
    hide Flat;
    assert ([p] + rest)[0] == p && ([p] + rest)[1..] == rest;
  }

  lemma {:induction false} FlatEntriesMiddle(
    h: Heap, rank: nat -> nat, a: seq<Entry>, e: Entry, b: seq<Entry>, bound: nat)
    ensures FlatEntries(h, rank, a + [e] + b, bound)
            == FlatBelow(h, rank, e.key, bound).Plus(FlatBelow(h, rank, e.value, bound))
               .Plus(FlatEntries(h, rank, a + b, bound))
  {
    hide FlatBelow;
    if a == [] {
      assert a + [e] + b == [e] + b && a + b == b && ([e] + b)[1..] == b;
    } else {
      FlatEntriesMiddle(h, rank, a[1..], e, b, bound);
      assert (a + [e] + b)[1..] == a[1..] + [e] + b;
      assert (a + b)[1..] == a[1..] + b;
    }
  }

  /** Ranging over a map in another order takes as much. */
  lemma {:induction false} FlatEntriesPermuted(h: Heap, rank: nat -> nat, a: seq<Entry>, b: seq<Entry>, bound: nat)
    requires multiset(a) == multiset(b)
    ensures FlatEntries(h, rank, a, bound) == FlatEntries(h, rank, b, bound)
  {
    hide FlatBelow;
    assert |a| == |multiset(a)| == |multiset(b)| == |b|;
    if a != [] {
      var j := PermutedRest(a, b);
      FlatEntriesPermuted(h, rank, a[1..], b[..j] + b[j + 1..], bound);
      FlatEntriesMiddle(h, rank, b[..j], b[j], b[j + 1..], bound);
      assert b[..j] + [b[j]] + b[j + 1..] == b;
    }
  }

  lemma {:induction false} ZipFlat(h: Heap, rank: nat -> nat, a: seq<nat>, b: seq<nat>, bound: nat)
    requires |a| == |b| && forall i :: 0 <= i < |a| ==> rank(a[i]) < bound
    ensures FlatParts(h, rank, Zip(a, b)) == FlatAll(h, rank, a, bound)
  {
    hide Flat;
    if a != [] {
      assert Zip(a, b)[1..] == Zip(a[1..], b[1..]);
      ZipFlat(h, rank, a[1..], b[1..], bound);
    }
  }

  lemma {:induction false} EntryPartsFlat(h: Heap, rank: nat -> nat, es: seq<Entry>, r: nat, bound: nat)
    requires forall e :: e in es ==> rank(e.key) < bound && rank(e.value) < bound
    ensures FlatParts(h, rank, EntryParts(h, es, r)).Within(FlatEntries(h, rank, es, bound))
  {
    hide Flat, FlatParts;
    NoParts(h, rank);
    if es != [] {
      assert es[0] in es;
      EntryPartsFlat(h, rank, es[1..], r, bound);
      var rest := EntryParts(h, es[1..], r);
      match h.lookup(r, es[0].key)
      case None =>
        FlatPartsFirst(h, rank, Missing, rest);
      case Some(v) =>
        var p, q := Pair(es[0].key, es[0].key), Pair(es[0].value, v);
        assert [p, q] + rest == [p] + ([q] + rest);
        FlatPartsFirst(h, rank, p, [q] + rest);
        FlatPartsFirst(h, rank, q, rest);
    }
  }

  lemma {:induction false} NoParts(h: Heap, rank: nat -> nat)
    ensures FlatParts(h, rank, []) == ZERO
  {}

  /** What one visit settles takes no more than what the place holds itself. */
  lemma {:induction false} PlansPay(h: Heap, s: State, l: nat, r: nat, field: bool, path: seq<nat>)
    requires h.Typed() && h.Match(l, r)
    ensures Paid(s, Decide(h, s, l, r, field, path).state, Own(h.Shape(l)))
  {
    assert h.Alike(l, r);
  }

  lemma {:induction false} FlatOf(h: Heap, rank: nat -> nat, x: nat)
    requires x < |h.places|
    ensures Flat(h, rank, x) == VISIT.Plus(Own(h.Shape(x))).Plus(FlatKids(h, rank, h.Shape(x), rank(x)))
  {
    hide FlatKids, Own;
  }

  lemma {:induction false} TablePlansFlat(h: Heap, rank: nat -> nat, l: nat, r: nat, path: seq<nat>)
    requires h.Typed() && h.Match(l, r) && Acyclic(h, rank) && h.Shape(l).Table?
    ensures FlatParts(h, rank, EntryParts(h, h.order(path, l), r)).Within(FlatKids(h, rank, h.Shape(l), rank(l)))
  {
    hide FlatParts, FlatEntries;
    assert Descends(h, rank, l) && h.Ranges(l);
    var es := h.order(path, l);
    forall e | e in es ensures rank(e.key) < rank(l) && rank(e.value) < rank(l) {
      assert e in multiset(es);
    }
    EntryPartsFlat(h, rank, es, r, rank(l));
    FlatEntriesPermuted(h, rank, es, Entries(h.Shape(l)), rank(l));
  }

  lemma {:induction false} PartsFlat(h: Heap, rank: nat -> nat, s: State, l: nat, r: nat, field: bool, path: seq<nat>)
    requires h.Typed() && h.Match(l, r) && Acyclic(h, rank)
    ensures var plan := Decide(h, s, l, r, field, path);
            plan.Each? ==> FlatParts(h, rank, plan.parts).Within(FlatKids(h, rank, h.Shape(l), rank(l)))
  {
    hide Flat, FlatAll, FlatEntries, FlatParts;
    assert h.Alike(l, r) && Descends(h, rank, l);
    NoParts(h, rank);
    var x, y := h.Shape(l), h.Shape(r);
    if Decide(h, s, l, r, field, path).Each? {
      match x
      case Record(fs) =>
        ZipFlat(h, rank, fs, y.fields, rank(l));
      case List(_) =>
        ZipFlat(h, rank, Elements(x), Elements(y), rank(l));
      case Table(_) =>
        TablePlansFlat(h, rank, l, r, path);
    }
  }

  /** What a visit plans to compare is no more than the place holds without following pointers. */
  lemma {:induction false} PlansFlat(h: Heap, rank: nat -> nat, s: State, l: nat, r: nat, field: bool, path: seq<nat>)
    requires h.Typed() && h.Match(l, r) && Acyclic(h, rank)
    ensures VISIT.Plus(Own(h.Shape(l))).Within(Flat(h, rank, l))
    ensures var plan := Decide(h, s, l, r, field, path);
            plan.Each? ==> VISIT.Plus(Own(h.Shape(l))).Plus(FlatParts(h, rank, plan.parts)).Within(Flat(h, rank, l))
  {
    hide Decide, Flat, FlatKids, FlatParts, Own;
    FlatOf(h, rank, l);
    PartsFlat(h, rank, s, l, r, field, path);
  }

  /** A visit pays for itself, for what its place holds, and for what follows. */
  lemma {:induction false} VisitPays(s: State, t: State, u: State, own: Cost, next: Cost)
    requires s.nodes > 0 && Paid(s.(nodes := s.nodes - 1), t, own) && Paid(t, u, next)
    ensures Paid(s, u, VISIT.Plus(own).Plus(next))
  {}

  lemma {:induction false} PaidLess(s: State, t: State, some: Cost, more: Cost)
    requires Paid(s, t, some) && some.Within(more)
    ensures Paid(s, t, more)
  {}

  lemma {:induction false} VisitsBounded(
    h: Heap, rank: nat -> nat, s: State, l: nat, r: nat, depth: nat, field: bool, path: seq<nat>)
    requires h.Typed() && h.Match(l, r) && Acyclic(h, rank)
    ensures var t := Compare(h, true, s, l, r, depth, field, path).1;
            && s.descended <= t.descended
            && Paid(s, t, Flat(h, rank, l).Plus(FlatPairs(h, rank, t.descended[|s.descended|..])))
    decreases Height(depth), 1, 0
  {
    hide Decide, Flat, FlatParts, FlatPairs, Paid, Own;
    ComparisonsSpend(h, true, s, l, r, depth, field, path);
    var flat, whole := Flat(h, rank, l), Compare(h, true, s, l, r, depth, field, path).1;
    var log := FlatPairs(h, rank, whole.descended[|s.descended|..]);
    if depth <= MAX_DEPTH && s.nodes > 0 {
      var s1, own := s.(nodes := s.nodes - 1), Own(h.Shape(l));
      PlanMatches(h, s1, l, r, field, path);
      PlanStates(h, s1, l, r, field, path);
      PlansFlat(h, rank, s1, l, r, field, path);
      PlansPay(h, s1, l, r, field, path);
      match Decide(h, s1, l, r, field, path)
      case Decided(a, t) =>
        PaidNothing(t);
        VisitPays(s, t, t, own, ZERO);
        PaidLess(s, t, VISIT.Plus(own).Plus(ZERO), flat.Plus(log));
      case Follow(a, b, t) =>
        var next := ZERO;
        if (a, b) !in t.equaled {
          var t1 := t.(descended := t.descended + [(a, b)]);
          VisitsBounded(h, rank, t1, a, b, depth + 1, false, path + [0]);
          FollowedFlat(h, rank, s.descended, (a, b), whole.descended);
          next := log;
          SameBudgets(t1, t, whole, Compare(h, true, t1, a, b, depth + 1, false, path + [0]).1, log);
        } else {
          PaidNothing(t);
        }
        VisitPays(s, t, whole, own, next);
        PaidLess(s, whole, VISIT.Plus(own).Plus(next), flat.Plus(log));
      case Each(parts, f, t) =>
        LoopVisitsBounded(h, rank, t, parts, depth + 1, f, path, 0);
        VisitPays(s, t, whole, own, FlatParts(h, rank, parts).Plus(log));
        PaidLess(s, whole, VISIT.Plus(own).Plus(FlatParts(h, rank, parts).Plus(log)), flat.Plus(log));
    } else {
      PaidNothing(s);
      PaidLess(s, s, ZERO, flat.Plus(log));
    }
  }

  lemma {:induction false} PaidNothing(s: State)
    ensures Paid(s, s, ZERO)
  {}

  lemma {:induction false} SameBudgets(s: State, s': State, t: State, t': State, c: Cost)
    requires Paid(s, t', c) && Left(s) == Left(s') && Left(t) == Left(t')
    ensures Paid(s', t, c)
  {}

  lemma {:induction false} FollowedFlat(
    h: Heap, rank: nat -> nat, before: seq<(nat, nat)>, p: (nat, nat), after: seq<(nat, nat)>)
    requires before + [p] <= after
    ensures FlatPairs(h, rank, after[|before|..])
            == Flat(h, rank, p.0).Plus(FlatPairs(h, rank, after[|before + [p]|..]))
  {
    hide Flat;
    var tail := after[|before|..];
    assert tail[0] == after[|before|] == (before + [p])[|before|] == p;
    assert tail[1..] == after[|before| + 1..];
  }

  lemma {:induction false} LoopVisitsBounded(
    h: Heap, rank: nat -> nat, s: State, parts: seq<Part>, depth: nat, field: bool, path: seq<nat>, at: nat)
    requires h.Typed() && PartsMatch(h, parts) && Acyclic(h, rank)
    ensures var t := CompareAll(h, true, s, parts, depth, field, path, at).1;
            && s.descended <= t.descended
            && Paid(s, t, FlatParts(h, rank, parts).Plus(FlatPairs(h, rank, t.descended[|s.descended|..])))
    decreases Height(depth), 2, |parts|
  {
    hide Flat, FlatPairs;
    LoopsSpend(h, true, s, parts, depth, field, path, at);
    if parts != [] && parts[0].Pair? {
      var l, r, p := parts[0].left, parts[0].right, path + [at];
      VisitsBounded(h, rank, s, l, r, depth, field, p);
      var (a, t) := Compare(h, true, s, l, r, depth, field, p);
      if a == True {
        LoopVisitsBounded(h, rank, t, parts[1..], depth, field, path, at + 1);
        var u := CompareAll(h, true, t, parts[1..], depth, field, path, at + 1).1;
        FlatPairsAppend(h, rank, t.descended[|s.descended|..], u.descended[|t.descended|..]);
        assert t.descended[|s.descended|..] + u.descended[|t.descended|..] == u.descended[|s.descended|..];
      }
    }
  }

  /** A whole comparison on an acyclic graph: no pair of pointees is descended into twice, and the visits, bytes and
      items are at most what the operand and each distinct pair hold without following pointers, however many paths lead
      there. */
  lemma {:induction false} VisitsFollowPairsNotPaths(h: Heap, rank: nat -> nat, l: nat, r: nat, field: bool)
    requires h.Typed() && h.Match(l, r) && Acyclic(h, rank)
    ensures var t := Compare(h, true, START, l, r, 0, field, []).1;
            && (forall i, j :: 0 <= i < j < |t.descended| ==> t.descended[i] != t.descended[j])
            && Paid(START, t, Flat(h, rank, l).Plus(FlatPairs(h, rank, t.descended)))
  {
    hide Compare, Flat, FlatPairs;
    DescendsOnce(h, rank, START, l, r, 0, field, [], rank(l));
    VisitsBounded(h, rank, START, l, r, 0, field, []);
    var t := Compare(h, true, START, l, r, 0, field, []).1;
    assert t.descended[|START.descended|..] == t.descended;
  }
}
