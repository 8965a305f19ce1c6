/** Where the cache of completed pairs makes no difference: a comparison that meets no pair of pointees twice has the
    same answer and leaves the same budgets with the cache and without it, and on a graph without sharing none does. */
module NativeEqualitySharing {
  import opened NativeEquality
  import opened NativeEqualityMeaning
  import opened NativeEqualityWork
  import opened Permutations

  // ----- without repeated pairs the cache changes nothing

  ghost predicate NoRepeats(log: seq<(nat, nat)>) {
    forall i, j :: 0 <= i < j < |log| ==> log[i] != log[j]
  }

  /** The same budgets and log, and nothing completed that is not in the log. */
  ghost predicate Twins(s: State, c: State) {
    && c.bytes == s.bytes && c.items == s.items && c.nodes == s.nodes && c.descended == s.descended
    && forall p :: p in c.equaled ==> p in c.descended
  }

  lemma {:induction false} TwinPlans(h: Heap, s: State, c: State, l: nat, r: nat, field: bool, path: seq<nat>)
    requires h.Typed() && h.Match(l, r) && Twins(s, c)
    ensures var p := Decide(h, s, l, r, field, path);
            var q := Decide(h, c, l, r, field, path);
            && Twins(p.state, q.state) && q.state.descended == c.descended && q.state.equaled == c.equaled
            && match p
               case Decided(a, _) => q.Decided? && q.answer == a
               case Follow(a, b, _) => q.Follow? && q.left == a && q.right == b
               case Each(parts, f, _) => q.Each? && q.parts == parts && q.field == f
  {
    assert h.Alike(l, r);
  }

  /** If the plain traversal logs no pair twice, the cached one gives the same answer and leaves the same budgets and
      log. */
  lemma {:induction false} SameWithoutRepeats(
    h: Heap, s: State, c: State, l: nat, r: nat, depth: nat, field: bool, path: seq<nat>)
    requires h.Typed() && h.Match(l, r) && Twins(s, c)
    requires NoRepeats(Compare(h, false, s, l, r, depth, field, path).1.descended)
    ensures var (a, t) := Compare(h, false, s, l, r, depth, field, path);
            var (b, u) := Compare(h, true, c, l, r, depth, field, path);
            b == a && Twins(t, u)
    decreases Height(depth), 1, 0
  {
    hide Decide, NoRepeats;
    if depth <= MAX_DEPTH && s.nodes > 0 {
      var s1, c1 := s.(nodes := s.nodes - 1), c.(nodes := c.nodes - 1);
      PlanMatches(h, s1, l, r, field, path);
      PlanMatches(h, c1, l, r, field, path);
      TwinPlans(h, s1, c1, l, r, field, path);
      var q := Decide(h, c1, l, r, field, path);
      match Decide(h, s1, l, r, field, path)
      case Decided(a, t) =>
      case Follow(a, b, t) =>
        SameFollowed(h, t, q.state, a, b, depth + 1, path + [0]);
      case Each(parts, f, t) =>
        SameLoops(h, t, q.state, parts, depth + 1, f, path, 0);
    }
  }

  lemma {:induction false} SameFollowed(h: Heap, s: State, c: State, a: nat, b: nat, depth: nat, path: seq<nat>)
    requires h.Typed() && h.Match(a, b) && Twins(s, c)
    requires var descending := s.(descended := s.descended + [(a, b)]);
             NoRepeats(Compare(h, false, descending, a, b, depth, false, path).1.descended)
    ensures (a, b) !in c.equaled
    ensures var (x, t) := Compare(h, false, s.(descended := s.descended + [(a, b)]), a, b, depth, false, path);
            var (y, u) := Compare(h, true, c.(descended := c.descended + [(a, b)]), a, b, depth, false, path);
            y == x && Twins(t, if y == True then u.(equaled := u.equaled + {(a, b)}) else u)
    decreases Height(depth), 2, 0
  {
    var s1, c1 := s.(descended := s.descended + [(a, b)]), c.(descended := c.descended + [(a, b)]);
    ComparisonsSpend(h, false, s1, a, b, depth, false, path);
    var log := Compare(h, false, s1, a, b, depth, false, path).1.descended;
    assert log[|s.descended|] == (a, b);
    forall i | 0 <= i < |s.descended| ensures s.descended[i] != (a, b) {
      assert log[i] == s1.descended[i] == s.descended[i];
    }
    SameWithoutRepeats(h, s1, c1, a, b, depth, false, path);
  }

  lemma {:induction false} SameLoops(
    h: Heap, s: State, c: State, parts: seq<Part>, depth: nat, field: bool, path: seq<nat>, at: nat)
    requires h.Typed() && PartsMatch(h, parts) && Twins(s, c)
    requires NoRepeats(CompareAll(h, false, s, parts, depth, field, path, at).1.descended)
    ensures var (a, t) := CompareAll(h, false, s, parts, depth, field, path, at);
            var (b, u) := CompareAll(h, true, c, parts, depth, field, path, at);
            b == a && Twins(t, u)
    decreases Height(depth), 2, |parts|
  {
    hide Decide;
    if parts != [] && parts[0].Pair? {
      var l, r, p := parts[0].left, parts[0].right, path + [at];
      var (a, t) := Compare(h, false, s, l, r, depth, field, p);
      if a == True {
        LoopsSpend(h, false, t, parts[1..], depth, field, path, at + 1);
        PrefixNoRepeats(t.descended, CompareAll(h, false, s, parts, depth, field, path, at).1.descended);
      }
      SameWithoutRepeats(h, s, c, l, r, depth, field, p);
      var u := Compare(h, true, c, l, r, depth, field, p).1;
      if a == True {
        SameLoops(h, t, u, parts[1..], depth, field, path, at + 1);
      }
    }
  }

  lemma {:induction false} PrefixNoRepeats(some: seq<(nat, nat)>, log: seq<(nat, nat)>)
    requires some <= log && NoRepeats(log)
    ensures NoRepeats(some)
  {
    forall i, j | 0 <= i < j < |some| ensures some[i] != some[j] {
      assert log[i] == some[i] && log[j] == some[j];
    }
  }

  // ----- graphs without sharing

  /** Every place that a place's value is made of, directly or not, and itself. */
  ghost function Region(h: Heap, rank: nat -> nat, x: nat): set<nat>
    decreases rank(x), 2, 0
  {
    {x} + Inside(h, rank, x)
  }

  ghost function Inside(h: Heap, rank: nat -> nat, x: nat): set<nat>
    decreases rank(x), 1, 0
  {
    if x < |h.places| then RegionOfAll(h, rank, Kids(h.Shape(x)), rank(x)) else {}
  }

  ghost function RegionOfAll(h: Heap, rank: nat -> nat, xs: seq<nat>, bound: nat): set<nat>
    decreases bound, 0, |xs|
  {
    if xs == [] then {}
    else (if rank(xs[0]) < bound then Region(h, rank, xs[0]) else {}) + RegionOfAll(h, rank, xs[1..], bound)
  }

  ghost predicate Apart(h: Heap, rank: nat -> nat, xs: seq<nat>) {
    forall i, j :: 0 <= i < j < |xs| ==> Region(h, rank, xs[i]) !! Region(h, rank, xs[j])
  }

  /** The parts of every place of the region have no place in common: each is reached in one way only. */
  ghost predicate Unshared(h: Heap, rank: nat -> nat, x: nat)
    decreases rank(x)
  {
    && x < |h.places| && Apart(h, rank, Kids(h.Shape(x)))
    && forall y :: y in Kids(h.Shape(x)) && rank(y) < rank(x) ==> Unshared(h, rank, y)
  }

  lemma {:induction false} RegionMembers(h: Heap, rank: nat -> nat, xs: seq<nat>, bound: nat, y: nat)
    ensures y in RegionOfAll(h, rank, xs, bound) <==>
              exists i :: 0 <= i < |xs| && rank(xs[i]) < bound && y in Region(h, rank, xs[i])
  {
    hide Region;
    if xs != [] {
      RegionMembers(h, rank, xs[1..], bound, y);
      if i :| 0 <= i < |xs[1..]| && rank(xs[1..][i]) < bound && y in Region(h, rank, xs[1..][i]) {
        assert y in Region(h, rank, xs[i + 1]);
      }
      if i :| 0 <= i < |xs| && rank(xs[i]) < bound && y in Region(h, rank, xs[i]) {
        assert i > 0 ==> xs[i] == xs[1..][i - 1];
      }
    }
  }

  lemma {:induction false} RegionRanks(h: Heap, rank: nat -> nat, x: nat, y: nat)
    requires y in Region(h, rank, x)
    ensures rank(y) <= rank(x)
    decreases rank(x)
  {
    if y != x {
      var kids := Kids(h.Shape(x));
      RegionMembers(h, rank, kids, rank(x), y);
      var i :| 0 <= i < |kids| && rank(kids[i]) < rank(x) && y in Region(h, rank, kids[i]);
      RegionRanks(h, rank, kids[i], y);
    }
  }

  /** A part's region is inside, and the place itself is not. */
  lemma {:induction false} PartInside(h: Heap, rank: nat -> nat, x: nat, y: nat)
    requires x < |h.places| && y in Kids(h.Shape(x)) && rank(y) < rank(x)
    ensures Region(h, rank, y) <= Inside(h, rank, x)
    ensures y !in Inside(h, rank, y)
  {
    var kids := Kids(h.Shape(x));
    forall z | z in Region(h, rank, y) ensures z in Inside(h, rank, x) {
      RegionMembers(h, rank, kids, rank(x), z);
    }
    if y < |h.places| {
      RegionMembers(h, rank, Kids(h.Shape(y)), rank(y), y);
      forall i | 0 <= i < |Kids(h.Shape(y))| && rank(Kids(h.Shape(y))[i]) < rank(y)
        ensures y !in Region(h, rank, Kids(h.Shape(y))[i])
      {
        if y in Region(h, rank, Kids(h.Shape(y))[i]) {
          RegionRanks(h, rank, Kids(h.Shape(y))[i], y);
        }
      }
    }
  }

  lemma {:induction false} UnsharedApart(h: Heap, rank: nat -> nat, x: nat)
    requires Unshared(h, rank, x)
    ensures x < |h.places| && Apart(h, rank, Kids(h.Shape(x)))
  {}

  // ----- what a visit of such a place compares

  ghost predicate PartsApart(h: Heap, rank: nat -> nat, parts: seq<Part>) {
    forall i, j :: 0 <= i < j < |parts| && parts[i].Pair? && parts[j].Pair? ==>
                     Region(h, rank, parts[i].left) !! Region(h, rank, parts[j].left)
  }

  /** The left operands are parts of the place. */
  ghost predicate PartsOf(h: Heap, rank: nat -> nat, parts: seq<Part>, x: nat)
    requires x < |h.places|
  {
    forall i :: 0 <= i < |parts| && parts[i].Pair? ==>
                  parts[i].left in Kids(h.Shape(x)) && rank(parts[i].left) < rank(x)
  }

  lemma {:induction false} LeftsOfEntries(h: Heap, es: seq<Entry>, r: nat)
    ensures forall i :: 0 <= i < |EntryParts(h, es, r)| && EntryParts(h, es, r)[i].Pair? ==>
                          EntryParts(h, es, r)[i].left in Flatten(es)
  {
    if es != [] {
      LeftsOfEntries(h, es[1..], r);
    }
  }

  lemma {:induction false} EntryPartsApart(h: Heap, rank: nat -> nat, es: seq<Entry>, r: nat)
    requires Apart(h, rank, Flatten(es))
    ensures PartsApart(h, rank, EntryParts(h, es, r))
  {
    hide Region;
    if es != [] {
      var flat, rest, parts := Flatten(es), Flatten(es[1..]), EntryParts(h, es[1..], r);
      assert flat == [es[0].key, es[0].value] + rest;
      assert flat[0] == es[0].key && flat[1] == es[0].value;
      forall k | 0 <= k < |rest| ensures flat[k + 2] == rest[k] {}
      forall i, j | 0 <= i < j < |rest| ensures Region(h, rank, rest[i]) !! Region(h, rank, rest[j]) {
        assert flat[i + 2] == rest[i] && flat[j + 2] == rest[j];
      }
      EntryPartsApart(h, rank, es[1..], r);
      LeftsOfEntries(h, es[1..], r);
      forall j | 0 <= j < |parts| && parts[j].Pair?
        ensures Region(h, rank, es[0].key) !! Region(h, rank, parts[j].left)
        ensures Region(h, rank, es[0].value) !! Region(h, rank, parts[j].left)
      {
        var k :| 0 <= k < |rest| && rest[k] == parts[j].left;
        assert flat[k + 2] == rest[k];
      }
    }
  }

  /** Ranging over a map in another order keeps its parts apart. */
  lemma {:induction false} ApartPermuted(h: Heap, rank: nat -> nat, a: seq<Entry>, b: seq<Entry>)
    requires multiset(a) == multiset(b) && Apart(h, rank, Flatten(b))
    ensures Apart(h, rank, Flatten(a))
  {
    hide Region, Flatten;
    FlattenLength(a);
    FlattenLength(b);
    var x, y := Flatten(a), Flatten(b);
    forall i, j | 0 <= i < j < |x| ensures Region(h, rank, x[i]) !! Region(h, rank, x[j]) {
      FlattenAt(a, i / 2);
      FlattenAt(a, j / 2);
      var p, q := i / 2, i / 2;
      if i / 2 == j / 2 {
        assert a[i / 2] in multiset(b);
        p :| 0 <= p < |b| && b[p] == a[i / 2];
        q := p;
      } else {
        p, q := PermutedPlaces(a, b, i / 2, j / 2);
      }
      FlattenAt(b, p);
      FlattenAt(b, q);
      var i', j' := 2 * p + i % 2, 2 * q + j % 2;
      assert y[i'] == x[i] && y[j'] == x[j] && i' != j';
      if i' < j' {
        assert Region(h, rank, y[i']) !! Region(h, rank, y[j']);
      } else {
        assert Region(h, rank, y[j']) !! Region(h, rank, y[i']);
      }
    }
  }

  lemma {:induction false} KidsDescend(h: Heap, rank: nat -> nat, x: nat)
    requires x < |h.places| && Descends(h, rank, x)
    ensures forall y :: y in Kids(h.Shape(x)) ==> y < |h.places| && rank(y) < rank(x)
  {
    if h.Shape(x).Table? {
      var es := Entries(h.Shape(x));
      FlattenLength(es);
      forall k | 0 <= k < |Flatten(es)| ensures Flatten(es)[k] < |h.places| && rank(Flatten(es)[k]) < rank(x) {
        FlattenAt(es, k / 2);
        assert es[k / 2] in es;
      }
    }
  }

  lemma {:induction false} PlansApart(h: Heap, rank: nat -> nat, s: State, l: nat, r: nat, field: bool, path: seq<nat>)
    requires h.Typed() && h.Match(l, r) && Acyclic(h, rank) && Apart(h, rank, Kids(h.Shape(l)))
    ensures match Decide(h, s, l, r, field, path)
            case Decided(_, _) => true
            case Follow(a, _, _) => a in Kids(h.Shape(l)) && rank(a) < rank(l)
            case Each(parts, _, _) => PartsApart(h, rank, parts) && PartsOf(h, rank, parts, l)
  {
    hide Region, Flatten;
    assert h.Alike(l, r) && Descends(h, rank, l);
    KidsDescend(h, rank, l);
    if h.Shape(l).Table? {
      assert h.Ranges(l);
      var es := h.order(path, l);
      ApartPermuted(h, rank, es, Entries(h.Shape(l)));
      EntryPartsApart(h, rank, es, r);
      LeftsOfEntries(h, es, r);
      PermutedKids(es, Entries(h.Shape(l)));
    }
  }

  // ----- so no pair repeats

  ghost predicate Outside(log: seq<(nat, nat)>, places: set<nat>) {
    forall p :: p in log ==> p.0 !in places
  }

  /** The log grew, without repeats, by pairs whose left places are among these. */
  ghost predicate GrewWithin(before: seq<(nat, nat)>, after: seq<(nat, nat)>, places: set<nat>) {
    && before <= after && NoRepeats(after)
    && forall i :: |before| <= i < |after| ==> after[i].0 in places
  }

  lemma {:induction false} UnsharedLog(
    h: Heap, rank: nat -> nat, s: State, l: nat, r: nat, depth: nat, field: bool, path: seq<nat>)
    requires h.Typed() && h.Match(l, r) && Acyclic(h, rank) && Unshared(h, rank, l)
    requires NoRepeats(s.descended) && Outside(s.descended, Inside(h, rank, l))
    ensures GrewWithin(s.descended, Compare(h, false, s, l, r, depth, field, path).1.descended, Inside(h, rank, l))
    decreases Height(depth), 1, 0
  {
    hide Decide, Region, Inside, NoRepeats, Outside, PartsApart, PartsOf, PartsReady, Unshared, Acyclic, Apart;
    if depth <= MAX_DEPTH && s.nodes > 0 {
      var s1 := s.(nodes := s.nodes - 1);
      PlanMatches(h, s1, l, r, field, path);
      PlanStates(h, s1, l, r, field, path);
      UnsharedApart(h, rank, l);
      PlansApart(h, rank, s1, l, r, field, path);
      match Decide(h, s1, l, r, field, path)
      case Decided(a, t) =>
      case Follow(a, b, t) =>
        UnsharedFollow(h, rank, t, l, a, b, depth + 1, path + [0]);
      case Each(parts, f, t) =>
        UnsharedParts(h, rank, parts, l, t.descended);
        UnsharedLoop(h, rank, t, parts, depth + 1, f, path, 0, Inside(h, rank, l));
    }
  }

  lemma {:induction false} UnsharedFollow(
    h: Heap, rank: nat -> nat, s: State, l: nat, a: nat, b: nat, depth: nat, path: seq<nat>)
    requires h.Typed() && h.Match(a, b) && Acyclic(h, rank) && Unshared(h, rank, l)
    requires a in Kids(h.Shape(l)) && rank(a) < rank(l)
    requires NoRepeats(s.descended) && Outside(s.descended, Inside(h, rank, l))
    ensures var s1 := s.(descended := s.descended + [(a, b)]);
            GrewWithin(s.descended, Compare(h, false, s1, a, b, depth, false, path).1.descended, Inside(h, rank, l))
    decreases Height(depth), 2, 0
  {
    PartInside(h, rank, l, a);
    assert a in Region(h, rank, a);
    hide Region, Inside, Compare;
    var s1 := s.(descended := s.descended + [(a, b)]);
    assert NoRepeats(s1.descended);
    assert Outside(s1.descended, Inside(h, rank, a)) by {
      InsideRegion(h, rank, a);
    }
    UnsharedLog(h, rank, s1, a, b, depth, false, path);
    InsideRegion(h, rank, a);
  }

  lemma {:induction false} InsideRegion(h: Heap, rank: nat -> nat, x: nat)
    ensures Inside(h, rank, x) <= Region(h, rank, x) && x in Region(h, rank, x)
  {}

  ghost predicate PartsReady(h: Heap, rank: nat -> nat, parts: seq<Part>, log: seq<(nat, nat)>, places: set<nat>) {
    forall i :: 0 <= i < |parts| && parts[i].Pair? ==>
                  && Unshared(h, rank, parts[i].left) && Region(h, rank, parts[i].left) <= places
                  && Outside(log, Region(h, rank, parts[i].left))
  }

  lemma {:induction false} UnsharedParts(h: Heap, rank: nat -> nat, parts: seq<Part>, l: nat, log: seq<(nat, nat)>)
    requires Unshared(h, rank, l) && PartsOf(h, rank, parts, l) && Outside(log, Inside(h, rank, l))
    ensures PartsReady(h, rank, parts, log, Inside(h, rank, l))
  {
    hide Region, Inside;
    forall i | 0 <= i < |parts| && parts[i].Pair?
      ensures Unshared(h, rank, parts[i].left) && Region(h, rank, parts[i].left) <= Inside(h, rank, l)
    {
      PartInside(h, rank, l, parts[i].left);
    }
  }

  lemma {:induction false} UnsharedLoop(
    h: Heap, rank: nat -> nat, s: State, parts: seq<Part>, depth: nat, field: bool, path: seq<nat>, at: nat,
    places: set<nat>)
    requires h.Typed() && PartsMatch(h, parts) && Acyclic(h, rank) && PartsApart(h, rank, parts)
    requires NoRepeats(s.descended) && PartsReady(h, rank, parts, s.descended, places)
    ensures GrewWithin(s.descended, CompareAll(h, false, s, parts, depth, field, path, at).1.descended, places)
    decreases Height(depth), 2, |parts|
  {
    hide Region, Inside, Compare, Unshared, NoRepeats;
    if parts != [] && parts[0].Pair? {
      var l, r := parts[0].left, parts[0].right;
      InsideRegion(h, rank, l);
      UnsharedLog(h, rank, s, l, r, depth, field, path + [at]);
      var (a, t) := Compare(h, false, s, l, r, depth, field, path + [at]);
      if a == True {
        assert parts[1..] != [] ==> parts[1..][0] == parts[1];
        forall i | 0 <= i < |parts[1..]| && parts[1..][i].Pair?
          ensures Outside(t.descended, Region(h, rank, parts[1..][i].left))
        {
          StaysOutside(s.descended, t.descended, Region(h, rank, l), Region(h, rank, parts[i + 1].left));
        }
        UnsharedLoop(h, rank, t, parts[1..], depth, field, path, at + 1, places);
      }
    }
  }

  lemma {:induction false} StaysOutside(
    before: seq<(nat, nat)>, after: seq<(nat, nat)>, places: set<nat>, others: set<nat>)
    requires GrewWithin(before, after, places) && Outside(before, others) && places !! others
    ensures Outside(after, others)
  {
    forall p | p in after ensures p.0 !in others {
      var i :| 0 <= i < |after| && after[i] == p;
      assert i < |before| ==> before[i] == p;
    }
  }

  /** On a graph without sharing the cache changes nothing: the cached and the plain comparison give the same answer and
      leave the same of every budget. */
  lemma {:induction false} UnsharedComparesTheSame(h: Heap, rank: nat -> nat, l: nat, r: nat, field: bool)
    requires h.Typed() && h.Match(l, r) && Acyclic(h, rank) && Unshared(h, rank, l)
    ensures var (a, t) := Compare(h, false, START, l, r, 0, field, []);
            var (b, u) := Compare(h, true, START, l, r, 0, field, []);
            b == a && u.bytes == t.bytes && u.items == t.items && u.nodes == t.nodes
  {
    hide Compare, Unshared, Inside;
    UnsharedLog(h, rank, START, l, r, 0, field, []);
    SameWithoutRepeats(h, START, START, l, r, 0, field, []);
  }
}
