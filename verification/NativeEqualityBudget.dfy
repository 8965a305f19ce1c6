/** Where the budget suffices: a condition on two graphs alone under which a comparison never ends in a limit, so that
    it decides structural equality. The cost counts each distinct pair of pointees once, however many paths lead to
    it. */
module NativeEqualityBudget {
  import opened NativeEquality
  import opened NativeEqualityMeaning
  import opened NativeEqualityWork
  import opened NativeEqualitySharing

  // ----- the condition

  /** From every pair that is met the comparison leads to pairs that are met, through pointers only to listed ones. */
  ghost predicate Meets(h: Heap, met: set<(nat, nat)>, pairs: seq<(nat, nat)>)
    requires h.Typed()
  {
    && (forall p :: p in met ==> h.Match(p.0, p.1))
    && (forall p, q :: p in met && Leads(h, p, q) ==> q in met && (h.Shape(p.0).Pointer? ==> q in pairs))
  }

  /** The left value is acyclic and no deeper than the limit, and what the operand and each listed pair hold without
      following pointers is together within the budgets. */
  ghost predicate Enough(h: Heap, l: nat, r: nat, rank: nat -> nat, met: set<(nat, nat)>, pairs: seq<(nat, nat)>)
    requires h.Typed()
  {
    && Acyclic(h, rank) && Fits(h, l, 33)
    && (l, r) in met && Meets(h, met, pairs) && NoRepeats(pairs)
    && Flat(h, rank, l).Plus(FlatPairs(h, rank, pairs)).Within(Cost(65536, 65536, 4096))
  }

  ghost predicate Affordable(h: Heap, l: nat, r: nat)
    requires h.Typed()
  {
    exists rank, met, pairs :: Enough(h, l, r, rank, met, pairs)
  }

  /** Every leaf comparison gives one of these answers, and so do the rules for nil and for lengths. */
  ghost predicate Answering(h: Heap, answers: Answer -> bool) {
    answers(True) && answers(False) && forall x, y :: answers(h.leaf(x, y))
  }

  // ----- the listed pairs not yet descended into

  ghost function Rest(h: Heap, rank: nat -> nat, pairs: seq<(nat, nat)>, done: seq<(nat, nat)>): Cost {
    if pairs == [] then ZERO
    else (if pairs[0] in done then ZERO else Flat(h, rank, pairs[0].0)).Plus(Rest(h, rank, pairs[1..], done))
  }

  lemma {:induction false} NothingDone(h: Heap, rank: nat -> nat, pairs: seq<(nat, nat)>)
    ensures Rest(h, rank, pairs, []) == FlatPairs(h, rank, pairs)
  {
    hide Flat;
    if pairs != [] {
      NothingDone(h, rank, pairs[1..]);
    }
  }

  lemma {:induction false} OtherDone(
    h: Heap, rank: nat -> nat, pairs: seq<(nat, nat)>, done: seq<(nat, nat)>, p: (nat, nat))
    requires p !in pairs
    ensures Rest(h, rank, pairs, done + [p]) == Rest(h, rank, pairs, done)
  {
    hide Flat;
    if pairs != [] {
      assert pairs[0] in done + [p] <==> pairs[0] in done;
      OtherDone(h, rank, pairs[1..], done, p);
    }
  }

  lemma {:induction false} OneMoreDone(
    h: Heap, rank: nat -> nat, pairs: seq<(nat, nat)>, done: seq<(nat, nat)>, p: (nat, nat))
    requires NoRepeats(pairs) && p in pairs && p !in done
    ensures Rest(h, rank, pairs, done) == Flat(h, rank, p.0).Plus(Rest(h, rank, pairs, done + [p]))
  {
    hide Flat;
    var tail := pairs[1..];
    assert p in done + [p] && (pairs[0] in done + [p] <==> pairs[0] in done || pairs[0] == p);
    forall i | 0 <= i < |tail| ensures tail[i] == pairs[i + 1] && tail[i] != pairs[0] {}
    if pairs[0] == p {
      OtherDone(h, rank, tail, done, p);
    } else {
      OneMoreDone(h, rank, tail, done, p);
    }
  }

  // ----- what a visit plans

  ghost predicate PartsMet(h: Heap, met: set<(nat, nat)>, parts: seq<Part>, levels: nat) {
    forall i :: 0 <= i < |parts| && parts[i].Pair? ==>
                  (parts[i].left, parts[i].right) in met && Fits(h, parts[i].left, levels)
  }

  lemma {:induction false} EntryPartsMet(
    h: Heap, met: set<(nat, nat)>, es: seq<Entry>, l: nat, r: nat, pairs: seq<(nat, nat)>, levels: nat)
    requires h.Typed() && Meets(h, met, pairs) && (l, r) in met && h.Shape(l).Table?
    requires forall e :: e in es ==>
               e in Entries(h.Shape(l)) && Fits(h, e.key, levels) && Fits(h, e.value, levels)
    ensures PartsMet(h, met, EntryParts(h, es, r), levels)
  {
    hide Fits;
    if es != [] {
      assert es[0] in es;
      EntryPartsMet(h, met, es[1..], l, r, pairs, levels);
      match h.lookup(r, es[0].key)
      case None =>
      case Some(v) =>
        assert Leads(h, (l, r), (es[0].key, es[0].key)) && Leads(h, (l, r), (es[0].value, v));
    }
  }

  lemma {:induction false} EntryFits(h: Heap, x: nat, e: Entry, levels: nat)
    requires levels > 0 && Fits(h, x, levels) && h.Shape(x).Table? && e in Entries(h.Shape(x))
    ensures Fits(h, e.key, levels - 1) && Fits(h, e.value, levels - 1)
  {
    var es := Entries(h.Shape(x));
    var i :| 0 <= i < |es| && es[i] == e;
    FlattenAt(es, i);
    assert Flatten(es)[2 * i] in Kids(h.Shape(x)) && Flatten(es)[2 * i + 1] in Kids(h.Shape(x));
  }

  lemma {:induction false} TablePlansMet(
    h: Heap, met: set<(nat, nat)>, pairs: seq<(nat, nat)>, l: nat, r: nat, path: seq<nat>, levels: nat)
    requires h.Typed() && Meets(h, met, pairs) && (l, r) in met && h.Shape(l).Table?
    requires levels > 0 && Fits(h, l, levels)
    ensures PartsMet(h, met, EntryParts(h, h.order(path, l), r), levels - 1)
  {
    hide Fits, Meets;
    assert h.Match(l, r) by { MetMatches(h, met, pairs, (l, r)); }
    assert h.Ranges(l);
    var es := h.order(path, l);
    forall e | e in es ensures e in Entries(h.Shape(l)) && Fits(h, e.key, levels - 1) && Fits(h, e.value, levels - 1) {
      assert e in multiset(es);
      EntryFits(h, l, e, levels);
    }
    EntryPartsMet(h, met, es, l, r, pairs, levels - 1);
  }

  lemma {:induction false} MetMatches(h: Heap, met: set<(nat, nat)>, pairs: seq<(nat, nat)>, p: (nat, nat))
    requires h.Typed() && Meets(h, met, pairs) && p in met
    ensures h.Match(p.0, p.1)
  {}

  /** What a visit plans is met, and fits one level less. */
  lemma {:induction false} PlansMet(
    h: Heap, met: set<(nat, nat)>, pairs: seq<(nat, nat)>, s: State, l: nat, r: nat, field: bool, path: seq<nat>,
    levels: nat)
    requires h.Typed() && Meets(h, met, pairs) && (l, r) in met && levels > 0 && Fits(h, l, levels)
    ensures h.Match(l, r)
    ensures match Decide(h, s, l, r, field, path)
            case Decided(_, _) => true
            case Follow(a, b, _) => (a, b) in met && (a, b) in pairs && Fits(h, a, levels - 1)
            case Each(parts, _, _) => PartsMet(h, met, parts, levels - 1)
  {
    assert h.Match(l, r) && h.Alike(l, r);
    var x, y := h.Shape(l), h.Shape(r);
    match x
    case Pointer(a) =>
      if a.Some? && y.target.Some? {
        assert a.value in Kids(x) && Leads(h, (l, r), (a.value, y.target.value));
      }
    case Record(fs) =>
      forall i | 0 <= i < |fs| ensures (fs[i], y.fields[i]) in met && Fits(h, fs[i], levels - 1) {
        assert fs[i] in Kids(x) && Leads(h, (l, r), (fs[i], y.fields[i]));
      }
    case List(_) =>
      forall i | 0 <= i < |Elements(x)| && i < |Elements(y)|
        ensures (Elements(x)[i], Elements(y)[i]) in met && Fits(h, Elements(x)[i], levels - 1)
      {
        assert Elements(x)[i] in Kids(x) && Leads(h, (l, r), (Elements(x)[i], Elements(y)[i]));
      }
    case Table(_) =>
      TablePlansMet(h, met, pairs, l, r, path, levels);
    case _ =>
  }

  /** With enough left for what the place holds, a visit settles nothing with a limit. */
  lemma {:induction false} PlansAfford(
    h: Heap, answers: Answer -> bool, s: State, l: nat, r: nat, field: bool, path: seq<nat>)
    requires h.Typed() && h.Match(l, r) && Answering(h, answers) && Own(h.Shape(l)).Within(Left(s))
    ensures var plan := Decide(h, s, l, r, field, path);
            plan.Decided? ==> answers(plan.answer)
  {
    assert h.Alike(l, r);
  }

  // ----- the whole traversal

  /** What a comparison that was true took is covered: the place's own cost, and that of the pairs it descended into. */
  ghost predicate Covered(h: Heap, rank: nat -> nat, pairs: seq<(nat, nat)>, s: State, t: State, c: Cost) {
    Left(s).Plus(Rest(h, rank, pairs, t.descended)).Within(Left(t).Plus(c).Plus(Rest(h, rank, pairs, s.descended)))
  }

  ghost predicate Suffices(h: Heap, rank: nat -> nat, pairs: seq<(nat, nat)>, s: State, c: Cost) {
    c.Plus(Rest(h, rank, pairs, s.descended)).Within(Left(s))
  }

  lemma {:induction false} NeverLimited(
    h: Heap, answers: Answer -> bool, rank: nat -> nat, met: set<(nat, nat)>, pairs: seq<(nat, nat)>,
    s: State, l: nat, r: nat, depth: nat, field: bool, path: seq<nat>, bound: nat)
    requires h.Typed() && Answering(h, answers) && Acyclic(h, rank) && Meets(h, met, pairs) && NoRepeats(pairs)
    requires (l, r) in met && Fits(h, l, Height(depth)) && rank(l) <= bound && Once(s, rank, bound)
    requires Suffices(h, rank, pairs, s, Flat(h, rank, l))
    ensures h.Match(l, r)
    ensures var (a, t) := Compare(h, true, s, l, r, depth, field, path);
            answers(a) && (a == True ==> Covered(h, rank, pairs, s, t, Flat(h, rank, l)))
    decreases Height(depth), 1, 0
  {
    hide Decide, Flat, FlatParts, Own, Once, Meets, NoRepeats, Acyclic, Fits, PartsMet, Paid, Covered, Suffices,
         Answering;
    MetMatches(h, met, pairs, (l, r));
    FitsAtDepth(h, l, depth);
    var s1, own, flat := if s.nodes > 0 then s.(nodes := s.nodes - 1) else s, Own(h.Shape(l)), Flat(h, rank, l);
    PlansFlat(h, rank, s1, l, r, field, path);
    SomeLeft(h, rank, pairs, s, own, flat);
    PlanMatches(h, s1, l, r, field, path);
    PlanStates(h, s1, l, r, field, path);
    PlansPay(h, s1, l, r, field, path);
    PlansAfford(h, answers, s1, l, r, field, path);
    PlansDescend(h, rank, s1, l, r, field, path);
    PlansMet(h, met, pairs, s1, l, r, field, path, Height(depth));
    var t := Decide(h, s1, l, r, field, path).state;
    SameLog(s, t, rank, bound);
    match Decide(h, s1, l, r, field, path)
    case Decided(a, _) =>
      NextSuffices(h, rank, pairs, s, t, own, ZERO, flat);
      CoversNothing(h, rank, pairs, t);
      NextCovered(h, rank, pairs, s, t, t, own, ZERO, flat);
    case Follow(a, b, _) =>
      NextSuffices(h, rank, pairs, s, t, own, ZERO, flat);
      FollowNeverLimited(h, answers, rank, met, pairs, t, a, b, depth + 1, path + [0], bound);
      var (x, u) := if (a, b) in t.equaled then (True, t)
                    else Compare(h, true, t.(descended := t.descended + [(a, b)]), a, b, depth + 1, false, path + [0]);
      if x == True {
        NextCovered(h, rank, pairs, s, t, u, own, ZERO, flat);
        CoveredCompleted(h, rank, pairs, s, u, u.(equaled := u.equaled + {(a, b)}), flat);
      }
    case Each(parts, f, _) =>
      var next := FlatParts(h, rank, parts);
      NextSuffices(h, rank, pairs, s, t, own, next, flat);
      LoopNeverLimited(h, answers, rank, met, pairs, t, parts, depth + 1, f, path, 0, bound);
      var (x, u) := CompareAll(h, true, t, parts, depth + 1, f, path, 0);
      if x == True {
        NextCovered(h, rank, pairs, s, t, u, own, next, flat);
      }
  }

  lemma {:induction false} SomeLeft(h: Heap, rank: nat -> nat, pairs: seq<(nat, nat)>, s: State, own: Cost, flat: Cost)
    requires Suffices(h, rank, pairs, s, flat) && VISIT.Plus(own).Within(flat)
    ensures s.nodes > 0 && own.Within(Left(s.(nodes := s.nodes - 1)))
  {
    hide Rest;
  }

  lemma {:induction false} NextSuffices(
    h: Heap, rank: nat -> nat, pairs: seq<(nat, nat)>, s: State, t: State, own: Cost, next: Cost, flat: Cost)
    requires s.nodes > 0 && Suffices(h, rank, pairs, s, flat) && VISIT.Plus(own).Plus(next).Within(flat)
    requires Paid(s.(nodes := s.nodes - 1), t, own) && t.descended == s.descended
    ensures Suffices(h, rank, pairs, t, next)
  {
    hide Rest;
  }

  lemma {:induction false} NextCovered(
    h: Heap, rank: nat -> nat, pairs: seq<(nat, nat)>, s: State, t: State, u: State, own: Cost, next: Cost, flat: Cost)
    requires s.nodes > 0 && VISIT.Plus(own).Plus(next).Within(flat)
    requires Paid(s.(nodes := s.nodes - 1), t, own) && t.descended == s.descended && Covered(h, rank, pairs, t, u, next)
    ensures Covered(h, rank, pairs, s, u, flat)
  {
    hide Rest;
  }

  lemma {:induction false} CoversNothing(h: Heap, rank: nat -> nat, pairs: seq<(nat, nat)>, s: State)
    ensures Covered(h, rank, pairs, s, s, ZERO)
  {
    hide Rest;
  }

  lemma {:induction false} CoveredCompleted(
    h: Heap, rank: nat -> nat, pairs: seq<(nat, nat)>, s: State, t: State, u: State, c: Cost)
    requires Covered(h, rank, pairs, s, t, c) && u == t.(equaled := u.equaled)
    ensures Covered(h, rank, pairs, s, u, c)
  {
    hide Rest;
  }

  lemma {:induction false} FitsAtDepth(h: Heap, x: nat, depth: nat)
    requires Fits(h, x, Height(depth))
    ensures depth <= MAX_DEPTH && Height(depth + 1) == Height(depth) - 1
  {}

  /** A pointer: a completed pair costs nothing; another is listed and was never descended into, so it is paid for. */
  lemma {:induction false} FollowNeverLimited(
    h: Heap, answers: Answer -> bool, rank: nat -> nat, met: set<(nat, nat)>, pairs: seq<(nat, nat)>,
    s: State, a: nat, b: nat, depth: nat, path: seq<nat>, bound: nat)
    requires h.Typed() && Answering(h, answers) && Acyclic(h, rank) && Meets(h, met, pairs) && NoRepeats(pairs)
    requires (a, b) in met && (a, b) in pairs && Fits(h, a, Height(depth)) && rank(a) < bound && Once(s, rank, bound)
    requires Suffices(h, rank, pairs, s, ZERO)
    ensures h.Match(a, b)
    ensures var (x, t) :=
              if (a, b) in s.equaled then (True, s)
              else Compare(h, true, s.(descended := s.descended + [(a, b)]), a, b, depth, false, path);
            answers(x) && (x == True ==> Covered(h, rank, pairs, s, t, ZERO))
    decreases Height(depth), 2, 0
  {
    hide Flat, Rest, Meets, NoRepeats, Acyclic, Fits;
    MetMatches(h, met, pairs, (a, b));
    if (a, b) !in s.equaled {
      var s1 := s.(descended := s.descended + [(a, b)]);
      assert Once(s1, rank, rank(a));
      OneMoreDone(h, rank, pairs, s.descended, (a, b));
      hide Once;
      NeverLimited(h, answers, rank, met, pairs, s1, a, b, depth, false, path, rank(a));
    }
  }

  lemma {:induction false} LoopNeverLimited(
    h: Heap, answers: Answer -> bool, rank: nat -> nat, met: set<(nat, nat)>, pairs: seq<(nat, nat)>,
    s: State, parts: seq<Part>, depth: nat, field: bool, path: seq<nat>, at: nat, bound: nat)
    requires h.Typed() && Answering(h, answers) && Acyclic(h, rank) && Meets(h, met, pairs) && NoRepeats(pairs)
    requires PartsMatch(h, parts) && PartsMet(h, met, parts, Height(depth)) && Below(h, rank, parts, bound)
    requires Once(s, rank, bound) && Suffices(h, rank, pairs, s, FlatParts(h, rank, parts))
    ensures var (a, t) := CompareAll(h, true, s, parts, depth, field, path, at);
            answers(a) && (a == True ==> Covered(h, rank, pairs, s, t, FlatParts(h, rank, parts)))
    decreases Height(depth), 2, |parts|
  {
    hide Flat, Rest, Once, Meets, NoRepeats, Acyclic, Fits;
    if parts != [] && parts[0].Pair? {
      var l, r, p := parts[0].left, parts[0].right, path + [at];
      NeverLimited(h, answers, rank, met, pairs, s, l, r, depth, field, p, bound);
      var (a, t) := Compare(h, true, s, l, r, depth, field, p);
      if a == True {
        DescendsOnce(h, rank, s, l, r, depth, field, p, bound);
        StillOnce(s, t, rank, bound);
        LoopNeverLimited(h, answers, rank, met, pairs, t, parts[1..], depth, field, path, at + 1, bound);
      }
    }
  }

  /** Graphs that can be afforded are compared without a limit: every answer is one that the leaves, the nil rules or
      the lengths give. */
  lemma {:induction false} AffordableIsAnswered(h: Heap, l: nat, r: nat, field: bool, answers: Answer -> bool)
    requires h.Typed() && h.Match(l, r) && Affordable(h, l, r) && Answering(h, answers)
    ensures answers(Compare(h, true, START, l, r, 0, field, []).0)
  {
    hide Acyclic, Fits, Meets, NoRepeats, Flat, FlatPairs, Rest, Compare;
    var rank, met, pairs :| Enough(h, l, r, rank, met, pairs);
    NothingDone(h, rank, pairs);
    NeverLimited(h, answers, rank, met, pairs, START, l, r, 0, field, [], rank(l));
  }

  /** So when the leaves never answer a limit, the comparison is true exactly for structural equality; and when they
      only answer true or false, it decides it. */
  lemma {:induction false} AffordableIsDecided(h: Heap, l: nat, r: nat, field: bool)
    requires h.Typed() && h.Match(l, r) && Affordable(h, l, r) && forall x, y :: h.leaf(x, y) != Limit
    ensures var a := Compare(h, true, START, l, r, 0, field, []).0;
            && a != Limit && (a == True <==> Equal(h, l, r, field))
            && ((forall x, y :: h.leaf(x, y) in {True, False}) ==> (a == False <==> !Equal(h, l, r, field)))
  {
    hide Compare, Same, Differ, Affordable;
    AffordableIsAnswered(h, l, r, field, a => a != Limit);
    if forall x, y :: h.leaf(x, y) in {True, False} {
      AffordableIsAnswered(h, l, r, field, a => a in {True, False});
    }
    AnswersAreSound(h, true, START, l, r, 0, field, []);
    if Equal(h, l, r, field) {
      var k: nat :| Same(h, l, r, field, k);
      EqualNeverDenied(h, true, START, l, r, 0, field, [], k);
    }
  }
}
