/** Acceptance of a parameter schema does not bound the length of its walks, and depends on the order of a struct's
    fields: a type met early is not descended into again, however deep it is met later. */
module ParamSchemaOrder {
  import opened Facts
  import opened ParamSchema

  /** A chain of 30 pointers that ends in a basic type, and a struct with fields of two types of the chain. */
  function Schema(first: nat, second: nat): seq<Type> {
    seq(30, i requires 0 <= i < 30 => Type(Pointer(i + 1), 8, false, false))
    + [Type(Basic, 8, false, false),
       Type(Struct([Field("A", "", true, false, first), Field("B", "", true, false, second)]), 16, false, false)]
  }

  const LEAF := 30
  const ROOT := 31

  /** The middle of the chain first, then its start; and the other way around. */
  const FORWARD := Schema(15, 0)
  const SWAPPED := Schema(0, 15)

  ghost predicate Chained(types: seq<Type>, first: nat, second: nat) {
    && |types| == 32 && first < LEAF && second < LEAF
    && (forall i :: 0 <= i < LEAF ==> types[i] == Type(Pointer(i + 1), 8, false, false))
    && types[LEAF] == Type(Basic, 8, false, false)
    && types[ROOT]
       == Type(Struct([Field("A", "", true, false, first), Field("B", "", true, false, second)]), 16, false, false)
  }

  lemma {:induction false} SchemasChained()
    ensures Chained(FORWARD, 15, 0) && Chained(SWAPPED, 0, 15)
  {}

  lemma {:induction false} ChainChildren(types: seq<Type>, first: nat, second: nat)
    requires Chained(types, first, second)
    ensures forall i :: 0 <= i < LEAF ==> Children(types, i) == [i + 1]
    ensures Children(types, LEAF) == [] && Children(types, ROOT) == [first, second]
    ensures Closed(types)
  {
    hide FieldTypes;
    RootChildren(first, second);
  }

  lemma {:induction false} RootChildren(first: nat, second: nat)
    ensures FieldTypes([Field("A", "", true, false, first), Field("B", "", true, false, second)]) == [first, second]
  {
    var a, b := Field("A", "", true, false, first), Field("B", "", true, false, second);
    assert [a, b][1..] == [b] && [b][1..] == [];
    assert TypesOf(a) == [first] && TypesOf(b) == [second];
    assert FieldTypes([b]) == [second];
  }

  // ----- every type is good

  function Backwards(): (order: seq<nat>)
    ensures |order| == 32 && order[LEAF + 1] == ROOT && forall i :: 0 <= i <= LEAF ==> order[i] == LEAF - i
  {
    seq(LEAF + 1, i requires 0 <= i <= LEAF => LEAF - i) + [ROOT]
  }

  lemma {:induction false} RootPasses(types: seq<Type>, first: nat, second: nat)
    requires Chained(types, first, second)
    ensures Passes(types, ROOT)
  {
    var fields := types[ROOT].kind.fields;
    assert JsonName(fields[0]) == "A" && JsonName(fields[1]) == "B";
    assert Names(fields[..0]) == {};
    assert Names(fields[..1]) == {"A"} by {
      OneMoreField(fields, 0);
    }
    assert FieldFault(fields, 0) == None && FieldFault(fields, 1) == None;
    assert FirstFieldFault(fields, 2) == None;
    assert FirstFieldFault(fields, 1) == None;
  }

  lemma {:induction false} ChainIsGood(types: seq<Type>, first: nat, second: nat)
    requires Chained(types, first, second)
    ensures GoodSchema(types, ROOT)
  {
    var finished := Backwards();
    ChainChildren(types, first, second);
    RootPasses(types, first, second);
    forall i | 0 <= i < |finished| ensures FinishedAt(types, finished, i) {
      if i <= LEAF {
        assert i > 0 ==> finished[..i][i - 1] == finished[i] + 1;
      } else {
        assert finished[..i][LEAF - first] == first && finished[..i][LEAF - second] == second;
      }
    }
    forall t | Reachable(types, ROOT, t) ensures Passes(types, t) && !OnCycle(types, t) {
      FinishedIsAcyclic(types, finished, ROOT, t);
    }
  }

  // ----- where each is first met

  function Run(i: nat, stop: nat, depth: nat): map<nat, nat> {
    map j | j in Below(stop) && i <= j :: depth + (j - i)
  }

  lemma {:induction false} RunStep(seen: map<nat, nat>, i: nat, stop: nat, depth: nat)
    requires i < stop
    ensures seen + Run(i, stop, depth) == seen[i := depth] + Run(i + 1, stop, depth + 1)
  {}

  lemma {:induction false} NoRun(i: nat, depth: nat)
    ensures Run(i, i, depth) == map[]
  {}

  /** Walking down the chain from `i` meets everything up to a type met before, or up to the end. */
  lemma {:induction false} ChainVisits(
    types: seq<Type>, first: nat, second: nat, i: nat, stop: nat, depth: nat, seen: map<nat, nat>)
    requires Chained(types, first, second) && i <= stop <= LEAF + 1 && i <= LEAF
    requires (stop <= LEAF ==> stop in seen) && forall j :: i <= j < stop ==> j !in seen
    ensures FirstVisits(types, i, depth, seen) == seen + Run(i, stop, depth)
    decreases stop - i
  {
    hide FirstVisits, FirstVisitsOfAll, Children, Run;
    FirstVisitsStep(types, i, depth, seen);
    ChainChildren(types, first, second);
    if i == stop {
      NoRun(i, depth);
    } else {
      var now := seen[i := depth];
      RunStep(seen, i, stop, depth);
      if i < LEAF {
        FirstVisitsOfOne(types, i + 1, depth + 1, now);
        ChainVisits(types, first, second, i + 1, stop, depth + 1, now);
      } else {
        NoVisits(types, depth + 1, now);
        NoRun(i + 1, depth + 1);
      }
    }
  }

  lemma {:induction false} NoVisits(types: seq<Type>, depth: nat, seen: map<nat, nat>)
    ensures FirstVisitsOfAll(types, [], depth, seen) == seen
  {}

  lemma {:induction false} RootVisits(types: seq<Type>, first: nat, second: nat)
    requires Chained(types, first, second)
    ensures FirstVisits(types, ROOT, 0, map[])
         == FirstVisits(types, second, 1, FirstVisits(types, first, 1, map[ROOT := 0]))
  {
    hide FirstVisits, FirstVisitsOfAll;
    FirstVisitsStep(types, ROOT, 0, map[]);
    ChainChildren(types, first, second);
    assert [first] + [second] == [first, second];
    FirstVisitsSplit(types, [first], [second], 1, map[ROOT := 0]);
    FirstVisitsOfOne(types, first, 1, map[ROOT := 0]);
    FirstVisitsOfOne(types, second, 1, FirstVisits(types, first, 1, map[ROOT := 0]));
  }

  lemma {:induction false} BelowSize(n: nat)
    ensures |Below(n)| == n
  {
    if n > 0 {
      BelowSize(n - 1);
    }
  }

  lemma {:induction false} SizeBelow(s: set<nat>, n: nat)
    requires forall x :: x in s ==> x < n
    ensures |s| <= n
  {
    BelowSize(n);
    SubsetSize(s, Below(n));
  }

  ghost function ForwardVisits(): map<nat, nat> {
    map[ROOT := 0] + Run(15, LEAF + 1, 1) + Run(0, 15, 1)
  }

  lemma {:induction false} ForwardDepths(t: nat)
    requires t in ForwardVisits()
    ensures t < 32 && (t < LEAF ==> ForwardVisits()[t] < MAX_TYPE_DEPTH) && ForwardVisits()[ROOT] == 0
  {}

  lemma {:induction false} ForwardIsShallow(types: seq<Type>)
    requires Chained(types, 15, 0)
    ensures !Blocked(types, ForwardVisits())
  {
    hide ForwardVisits, Run, Children, Chained;
    var visits := ForwardVisits();
    forall t | t in visits.Keys ensures t < 32 {
      ForwardDepths(t);
    }
    SizeBelow(visits.Keys, 32);
    ChainChildren(types, 15, 0);
    forall t | t in visits ensures !TooDeep(types, t, visits[t]) {
      ForwardDepths(t);
    }
  }

  lemma {:induction false} ForwardAccepted()
    ensures Acceptable(FORWARD, ROOT)
  {
    hide FirstVisits, Blocked, GoodSchema;
    SchemasChained();
    ChainIsGood(FORWARD, 15, 0);
    RootVisits(FORWARD, 15, 0);
    ChainVisits(FORWARD, 15, 0, 15, LEAF + 1, 1, map[ROOT := 0]);
    var half := map[ROOT := 0] + Run(15, LEAF + 1, 1);
    ChainVisits(FORWARD, 15, 0, 0, 15, 1, half);
    ForwardIsShallow(FORWARD);
  }

  lemma {:induction false} MetAt(seen: map<nat, nat>, i: nat, stop: nat, depth: nat, j: nat)
    requires i <= j < stop
    ensures j in seen + Run(i, stop, depth) && (seen + Run(i, stop, depth))[j] == depth + (j - i)
  {}

  lemma {:induction false} SwappedIsDeep(types: seq<Type>)
    requires Chained(types, 0, 15)
    ensures Blocked(types, FirstVisits(types, ROOT, 0, map[]))
  {
    hide FirstVisits, Run, Children;
    RootVisits(types, 0, 15);
    ChainVisits(types, 0, 15, 0, LEAF + 1, 1, map[ROOT := 0]);
    var half := map[ROOT := 0] + Run(0, LEAF + 1, 1);
    MetAt(map[ROOT := 0], 0, LEAF + 1, 1, 15);
    ChainVisits(types, 0, 15, 15, 15, 1, half);
    NoRun(15, 1);
    assert half + map[] == half;
    ChainChildren(types, 0, 15);
    assert TooDeep(types, 15, half[15]);
  }

  lemma {:induction false} SwappedRefused()
    ensures GoodSchema(SWAPPED, ROOT) && !Acceptable(SWAPPED, ROOT)
  {
    hide FirstVisits, Blocked, GoodSchema;
    SchemasChained();
    ChainIsGood(SWAPPED, 0, 15);
    SwappedIsDeep(SWAPPED);
  }

  lemma {:induction false} LongWalk(types: seq<Type>, first: nat, second: nat) returns (p: seq<nat>)
    requires Chained(types, first, second) && second == 0
    ensures |p| == 32 && WalkTo(types, ROOT, p, LEAF)
  {
    p := [ROOT] + seq(LEAF + 1, i requires 0 <= i <= LEAF => i);
    ChainChildren(types, first, second);
  }

  /** Two structs with the same two fields in the two orders, both good and with a walk of 32 types: the one is
      accepted, the other is not. */
  lemma {:induction false} FieldOrderDecides()
    ensures Closed(FORWARD) && Acceptable(FORWARD, ROOT)
    ensures exists p :: WalkTo(FORWARD, ROOT, p, LEAF) && |p| == 32
    ensures Closed(SWAPPED) && GoodSchema(SWAPPED, ROOT) && !Acceptable(SWAPPED, ROOT)
  {
    hide Acceptable, GoodSchema, Closed;
    SchemasChained();
    ChainChildren(FORWARD, 15, 0);
    ChainChildren(SWAPPED, 0, 15);
    ForwardAccepted();
    SwappedRefused();
    var p := LongWalk(FORWARD, 15, 0);
  }
}
