/** The budget that bounds reading a native input: depth, places visited, string and byte lengths, and collection
    sizes. */
module InputBudget {
  import opened NativeEquality
  import opened Permutations

  const MAX_INPUT_BYTES := 65536
  const MAX_LIST_ITEMS := 4096
  const MAX_NODES := 65536

  // ----- the unfolding of a value

  const BUDGET := Cost(MAX_NODES, MAX_INPUT_BYTES, MAX_LIST_ITEMS)

  /** The cost of the unfolding, counting a shared place once for each path to it. */
  ghost function Total(h: Heap, x: nat, levels: nat): Cost
    decreases levels, 0
  {
    if levels == 0 || x >= |h.places| then ZERO
    else VISIT.Plus(Own(h.Shape(x)).Plus(Sum(h, Kids(h.Shape(x)), levels - 1)))
  }

  ghost function Sum(h: Heap, xs: seq<nat>, levels: nat): Cost
    decreases levels, 1 + |xs|
  {
    if xs == [] then ZERO else Total(h, xs[0], levels).Plus(Sum(h, xs[1..], levels))
  }

  ghost predicate AllFit(h: Heap, xs: seq<nat>, levels: nat) {
    forall y :: y in xs ==> Fits(h, y, levels)
  }

  /** Every place refers to places of the heap, and ranging over a map yields each of its entries once. */
  ghost predicate WellFormed(h: Heap) {
    forall x :: 0 <= x < |h.places| ==> h.Ranges(x) && forall y :: y in Kids(h.Shape(x)) ==> y < |h.places|
  }

  lemma {:induction false} SumAppend(h: Heap, a: seq<nat>, b: seq<nat>, levels: nat)
    ensures Sum(h, a + b, levels) == Sum(h, a, levels).Plus(Sum(h, b, levels))
  {
    hide Total;
    if a == [] {
      assert a + b == b;
    } else {
      var rest := a[1..] + b;
      assert (a + b)[0] == a[0] && (a + b)[1..] == rest;
      SumAppend(h, a[1..], b, levels);
      NextFirst(h, a, levels);
      NextFirst(h, a + b, levels);
    }
  }

  lemma {:induction false} NextFirst(h: Heap, xs: seq<nat>, levels: nat)
    requires xs != []
    ensures Sum(h, xs, levels) == Total(h, xs[0], levels).Plus(Sum(h, xs[1..], levels))
  {}

  lemma {:induction false} FlattenAppend(a: seq<Entry>, b: seq<Entry>)
    ensures Flatten(a + b) == Flatten(a) + Flatten(b)
  {
    if a == [] {
      assert a + b == b;
    } else {
      var rest := a[1..] + b;
      FlattenAppend(a[1..], b);
      assert (a + b)[0] == a[0] && (a + b)[1..] == rest;
    }
  }

  /** Ranging over a map in another order meets the same places, at the same cost. */
  lemma {:induction false} FlattenPermuted(h: Heap, a: seq<Entry>, b: seq<Entry>, levels: nat)
    requires multiset(a) == multiset(b)
    ensures Sum(h, Flatten(a), levels) == Sum(h, Flatten(b), levels)
    ensures AllFit(h, Flatten(a), levels) <==> AllFit(h, Flatten(b), levels)
  {
    hide Total, Fits, Sum;
    assert |a| == |multiset(a)| == |multiset(b)| == |b|;
    if a != [] {
      var j := PermutedRest(a, b);
      var front, back, one := b[..j], b[j + 1..], [b[j]];
      FlattenPermuted(h, a[1..], front + back, levels);
      assert b == front + one + back && a == one + a[1..];
      FlattenAppend(front + one, back);
      FlattenAppend(front, one);
      FlattenAppend(front, back);
      FlattenAppend(one, a[1..]);
      SumsPermuted(h, Flatten(front), Flatten(one), Flatten(back), Flatten(a[1..]), levels);
    }
  }

  lemma {:induction false} SumsPermuted(h: Heap, x: seq<nat>, y: seq<nat>, z: seq<nat>, w: seq<nat>, levels: nat)
    requires Sum(h, w, levels) == Sum(h, x + z, levels)
    requires AllFit(h, w, levels) <==> AllFit(h, x + z, levels)
    ensures Sum(h, y + w, levels) == Sum(h, x + y + z, levels)
    ensures AllFit(h, y + w, levels) <==> AllFit(h, x + y + z, levels)
  {
    hide Fits, Total, Sum;
    SumAppend(h, y, w, levels);
    SumAppend(h, x + y, z, levels);
    SumAppend(h, x, y, levels);
    SumAppend(h, x, z, levels);
  }

  // ----- the traversal

  function Levels(depth: nat): nat { if depth > MAX_DEPTH then 0 else MAX_DEPTH + 1 - depth }

  /** What a traversal ends with: nothing wrong, the input limit, or the error of a context that was done. */
  datatype Outcome = Fine | OverLimit | Canceled

  /** The context as the sequence of answers its checks get: whether it was done at the n-th check. */
  type Context = nat -> bool

  /** The budget left, and the context checks made so far. */
  datatype Purse = Purse(left: Cost, checks: nat)

  /** The context is checked whenever the nodes left become a multiple of 16: this many times below `nodes`. */
  function ChecksBelow(nodes: nat): nat { (nodes + 15) / 16 }

  function Spend(p: Purse, c: Cost): Purse
    requires c.Within(p.left)
  {
    var left := Cost(p.left.nodes - c.nodes, p.left.bytes - c.bytes, p.left.items - c.items);
    ChecksGrow(left.nodes, p.left.nodes);
    Purse(left, p.checks + ChecksBelow(p.left.nodes) - ChecksBelow(left.nodes))
  }

  lemma {:induction false} ChecksGrow(n: nat, m: nat)
    requires n <= m
    ensures ChecksBelow(n) <= ChecksBelow(m)
  {}

  ghost predicate Quiet(ctx: Context, from: nat, to: nat) {
    forall i :: from <= i < to ==> !ctx(i)
  }

  /** The budget suffices, and no context check on the way finds the context done. */
  ghost predicate Affords(ctx: Context, p: Purse, c: Cost) {
    c.Within(p.left) && Quiet(ctx, p.checks, Spend(p, c).checks)
  }

  /** The outcome is fine exactly when what was visited fits and its cost was affordable, and then that was spent; a
      limit means that it does not fit or the budget is too small, a cancellation that the last check found the context
      done. */
  ghost predicate Spent(ctx: Context, before: Purse, after: Purse, out: Outcome, fits: bool, cost: Cost) {
    && (out == Fine <==> fits && Affords(ctx, before, cost))
    && (out == Fine ==> after == Spend(before, cost))
    && (out == OverLimit ==> !(fits && cost.Within(before.left)))
    && (out == Canceled ==> before.checks < after.checks && ctx(after.checks - 1))
  }

  lemma {:induction false} QuietParts(ctx: Context, from: nat, middle: nat, to: nat)
    requires from <= middle <= to
    ensures Quiet(ctx, from, to) <==> Quiet(ctx, from, middle) && Quiet(ctx, middle, to)
  {}

  lemma {:induction false} AffordsPlus(ctx: Context, p: Purse, a: Cost, b: Cost)
    ensures Affords(ctx, p, a.Plus(b)) <==> Affords(ctx, p, a) && Affords(ctx, Spend(p, a), b)
    ensures a.Plus(b).Within(p.left) ==> a.Within(p.left) && b.Within(Spend(p, a).left)
                                         && Spend(Spend(p, a), b) == Spend(p, a.Plus(b))
  {
    if a.Plus(b).Within(p.left) {
      ChecksGrow(p.left.nodes - a.nodes, p.left.nodes);
      ChecksGrow(p.left.nodes - a.nodes - b.nodes, p.left.nodes - a.nodes);
      QuietParts(ctx, p.checks, Spend(p, a).checks, Spend(Spend(p, a), b).checks);
    }
  }

  lemma {:induction false} AffordsLess(ctx: Context, p: Purse, some: Cost, whole: Cost)
    requires Affords(ctx, p, whole) && some.Within(whole)
    ensures Affords(ctx, p, some)
  {
    ChecksGrow(p.left.nodes - whole.nodes, p.left.nodes - some.nodes);
  }

  /** One traversal after another that went well. */
  lemma {:induction false} SpentThen(
    ctx: Context, p: Purse, q: Purse, r: Purse, fits: bool, cost: Cost, out: Outcome, then': bool, more: Cost)
    requires Spent(ctx, p, q, Fine, fits, cost) && Spent(ctx, q, r, out, then', more)
    ensures Spent(ctx, p, r, out, fits && then', cost.Plus(more))
  {
    AffordsPlus(ctx, p, cost, more);
    ChecksGrow(q.left.nodes, p.left.nodes);
    hide Quiet;
  }

  /** What stopped a part stops the whole. */
  lemma {:induction false} SpentStops(
    ctx: Context, p: Purse, q: Purse, out: Outcome, fits: bool, cost: Cost, all: bool, whole: Cost)
    requires Spent(ctx, p, q, out, fits, cost) && out != Fine && (all ==> fits) && cost.Within(whole)
    ensures Spent(ctx, p, q, out, all, whole)
  {
    if Affords(ctx, p, whole) {
      AffordsLess(ctx, p, cost, whole);
    }
    hide Affords, Quiet;
  }

  lemma {:induction false} SpentNothing(ctx: Context, p: Purse)
    ensures Spent(ctx, p, p, Fine, true, ZERO)
  {}

  class Budget {
    const ctx: Context
    var bytes: int
    var items: int
    var nodes: int
    var checks: nat

    constructor (ctx: Context)
      ensures this.ctx == ctx && Valid() && Now() == Purse(BUDGET, 0)
    {
      this.ctx := ctx;
      bytes, items, nodes, checks := MAX_INPUT_BYTES, MAX_LIST_ITEMS, MAX_NODES, 0;
    }

    ghost predicate Valid()
      reads this
    {
      bytes >= 0 && items >= 0 && nodes >= 0
    }

    ghost function Now(): Purse
      requires Valid()
      reads this
    {
      Purse(Cost(nodes, bytes, items), checks)
    }

    method CheckContext() returns (out: Outcome)
      requires Valid()
      modifies `checks
      ensures Now() == old(Now()).(checks := old(checks) + 1)
      ensures out == if ctx(old(checks)) then Canceled else Fine
    {
      out := if ctx(checks) then Canceled else Fine;
      checks := checks + 1;
    }

    /** One visit: refused past the depth limit or without nodes, and at every sixteenth node it checks the context. */
    method Visit(depth: nat) returns (out: Outcome)
      requires Valid()
      modifies this
      ensures Valid() && Spent(ctx, old(Now()), Now(), out, depth <= MAX_DEPTH, VISIT)
    {
      if depth > MAX_DEPTH || nodes <= 0 {
        return OverLimit;
      }
      SixteenthNode(nodes);
      nodes := nodes - 1;
      if nodes % 16 == 0 {
        out := CheckContext();
      } else {
        out := Fine;
      }
    }

    method TakeBytes(n: nat) returns (out: Outcome)
      requires Valid()
      modifies this
      ensures Valid() && Spent(ctx, old(Now()), Now(), out, true, Cost(0, n, 0))
    {
      if n > bytes {
        return OverLimit;
      }
      bytes := bytes - n;
      return Fine;
    }

    method TakeItems(n: nat) returns (out: Outcome)
      requires Valid()
      modifies this
      ensures Valid() && Spent(ctx, old(Now()), Now(), out, true, Cost(0, 0, n))
    {
      if n > items {
        return OverLimit;
      }
      items := items - n;
      return Fine;
    }

    /** Accepts a place exactly when its unfolding fits the levels and its whole cost is affordable, and then takes
        it. */
    method Native(h: Heap, x: nat, depth: nat, path: seq<nat>) returns (out: Outcome)
      requires Valid() && WellFormed(h) && x < |h.places|
      modifies this
      ensures Valid() && Spent(ctx, old(Now()), Now(), out, Fits(h, x, Levels(depth)), Total(h, x, Levels(depth)))
      decreases Levels(depth), 1, 0
    {
      hide Sum, AllFit, Fits, Total, Own, Kids, Spent;
      Unfold(h, x, Levels(depth));
      ghost var start := Now();
      out := Visit(depth);
      ghost var visited := Now();
      if out == Fine {
        SpentFits(ctx, start, visited, depth <= MAX_DEPTH, VISIT);
        out := Parts(h, x, depth + 1, path);
        ghost var parts := Own(h.Shape(x)).Plus(Sum(h, Kids(h.Shape(x)), Levels(depth + 1)));
        SpentThen(ctx, start, visited, Now(), true, VISIT, out, AllFit(h, Kids(h.Shape(x)), Levels(depth + 1)), parts);
      } else if depth <= MAX_DEPTH {
        SpentStops(ctx, start, visited, out, true, VISIT, Fits(h, x, Levels(depth)), Total(h, x, Levels(depth)));
      } else {
        SpentNever(ctx, start, visited, out, VISIT, Total(h, x, Levels(depth)));
      }
    }

    method Parts(h: Heap, x: nat, depth: nat, path: seq<nat>) returns (out: Outcome)
      requires Valid() && WellFormed(h) && x < |h.places| && depth <= MAX_DEPTH + 1
      modifies this
      ensures Valid() && Spent(ctx, old(Now()), Now(), out, AllFit(h, Kids(h.Shape(x)), Levels(depth)),
                               Own(h.Shape(x)).Plus(Sum(h, Kids(h.Shape(x)), Levels(depth))))
      decreases Levels(depth), 3, 0
    {
      hide Sum, AllFit, Fits, Total, WellFormed, Spent;
      var shape := h.Shape(x);
      KidsInside(h, x);
      SpentNothing(ctx, Now());
      if Kids(shape) == [] {
        PartsOfLeaf(h, shape, Levels(depth));
      }
      match shape
      case Scalar =>
        out := Fine;
      case Pointer(a) =>
        out := Fine;
        if a.Some? {
          assert a.value in Kids(shape);
          PartsOfPointer(h, shape, Levels(depth));
          out := Native(h, a.value, depth, path + [0]);
        }
      case Text(n) =>
        out := TakeBytes(n);
      case Blob(isNil, n) =>
        out := TakeBytes(if isNil then 0 else n);
      case Record(fs) =>
        out := All(h, fs, depth, path);
      case List(_) =>
        out := Items(h, Elements(shape), depth, path);
      case Table(_) =>
        out := Pairs(h, x, depth, path);
    }

    method Items(h: Heap, xs: seq<nat>, depth: nat, path: seq<nat>) returns (out: Outcome)
      requires Valid() && WellFormed(h) && depth <= MAX_DEPTH + 1 && forall y :: y in xs ==> y < |h.places|
      modifies this
      ensures Valid() && Spent(ctx, old(Now()), Now(), out, AllFit(h, xs, Levels(depth)),
                               Cost(0, 0, |xs|).Plus(Sum(h, xs, Levels(depth))))
      decreases Levels(depth), 2, 1
    {
      hide Sum, AllFit, Fits, Total, WellFormed, Spent;
      ghost var start := Now();
      out := TakeItems(|xs|);
      ghost var taken := Now();
      if out == Fine {
        out := All(h, xs, depth, path);
        SpentThen(ctx, start, taken, Now(), true, Cost(0, 0, |xs|), out, AllFit(h, xs, Levels(depth)),
                  Sum(h, xs, Levels(depth)));
      } else {
        SpentStops(ctx, start, taken, out, true, Cost(0, 0, |xs|), AllFit(h, xs, Levels(depth)),
                   Cost(0, 0, |xs|).Plus(Sum(h, xs, Levels(depth))));
      }
    }

    method Pairs(h: Heap, x: nat, depth: nat, path: seq<nat>) returns (out: Outcome)
      requires Valid() && WellFormed(h) && x < |h.places| && h.Shape(x).Table? && depth <= MAX_DEPTH + 1
      modifies this
      ensures var xs := Flatten(Entries(h.Shape(x)));
              Valid() && Spent(ctx, old(Now()), Now(), out, AllFit(h, xs, Levels(depth)),
                               Cost(0, 0, |Entries(h.Shape(x))|).Plus(Sum(h, xs, Levels(depth))))
      decreases Levels(depth), 2, 1
    {
      hide Sum, AllFit, Fits, Total, Flatten, Spent;
      var entries, n := h.order(path, x), |Entries(h.Shape(x))|;
      assert h.Ranges(x) && Kids(h.Shape(x)) == Flatten(Entries(h.Shape(x)));
      ghost var xs := Flatten(Entries(h.Shape(x)));
      FlattenPermuted(h, entries, Entries(h.Shape(x)), Levels(depth));
      PermutedInside(h, entries, Entries(h.Shape(x)));
      ghost var start := Now();
      out := TakeItems(n);
      ghost var taken := Now();
      if out == Fine {
        out := AllEntries(h, entries, depth, path);
        SpentThen(ctx, start, taken, Now(), true, Cost(0, 0, n), out, AllFit(h, xs, Levels(depth)),
                  Sum(h, xs, Levels(depth)));
      } else {
        SpentStops(ctx, start, taken, out, true, Cost(0, 0, n), AllFit(h, xs, Levels(depth)),
                   Cost(0, 0, n).Plus(Sum(h, xs, Levels(depth))));
      }
    }

    method All(h: Heap, xs: seq<nat>, depth: nat, path: seq<nat>) returns (out: Outcome)
      requires Valid() && WellFormed(h) && forall y :: y in xs ==> y < |h.places|
      modifies this
      ensures Valid() && Spent(ctx, old(Now()), Now(), out, AllFit(h, xs, Levels(depth)), Sum(h, xs, Levels(depth)))
      decreases Levels(depth), 2, 0
    {
      hide Fits, Total, Sum, AllFit, WellFormed, Spent;
      ghost var start, n := Now(), Levels(depth);
      var i := 0;
      assert xs[..0] == [];
      NoSum(h, n);
      SpentNothing(ctx, start);
      while i < |xs|
        invariant i <= |xs| && Valid() && AllFit(h, xs[..i], n)
        invariant Spent(ctx, start, Now(), Fine, true, Sum(h, xs[..i], n))
      {
        ghost var before := Now();
        assert xs[i] in xs;
        out := Native(h, xs[i], depth, path + [i]);
        NextSpent(ctx, h, xs, i, n, start, before, Now(), out);
        if out != Fine {
          return;
        }
        i := i + 1;
      }
      assert xs[..i] == xs;
      return Fine;
    }

    method AllEntries(h: Heap, entries: seq<Entry>, depth: nat, path: seq<nat>) returns (out: Outcome)
      requires Valid() && WellFormed(h) && forall y :: y in Flatten(entries) ==> y < |h.places|
      modifies this
      ensures Valid() && Spent(ctx, old(Now()), Now(), out, AllFit(h, Flatten(entries), Levels(depth)),
                               Sum(h, Flatten(entries), Levels(depth)))
      decreases Levels(depth), 2, 0
    {
      hide Fits, Total, Sum, Flatten, AllFit, WellFormed, Spent;
      ghost var start, n, xs := Now(), Levels(depth), Flatten(entries);
      var i := 0;
      assert xs[..0] == [];
      NoSum(h, n);
      SpentNothing(ctx, start);
      FlattenLength(entries);
      while i < |entries|
        invariant i <= |entries| && Valid() && AllFit(h, xs[..2 * i], n)
        invariant Spent(ctx, start, Now(), Fine, true, Sum(h, xs[..2 * i], n))
      {
        FlattenAt(entries, i);
        assert xs[2 * i] in xs && xs[2 * i + 1] in xs;
        ghost var before := Now();
        out := Native(h, entries[i].key, depth, path + [2 * i]);
        NextSpent(ctx, h, xs, 2 * i, n, start, before, Now(), out);
        if out != Fine {
          return;
        }
        before := Now();
        out := Native(h, entries[i].value, depth, path + [2 * i + 1]);
        NextSpent(ctx, h, xs, 2 * i + 1, n, start, before, Now(), out);
        if out != Fine {
          return;
        }
        i := i + 1;
      }
      assert xs[..2 * i] == xs;
      return Fine;
    }
  }

  /** Taking one node makes one more multiple of 16 pass exactly when what is left is one. */
  lemma {:induction false} SixteenthNode(nodes: nat)
    requires nodes > 0
    ensures ChecksBelow(nodes) == ChecksBelow(nodes - 1) + (if (nodes - 1) % 16 == 0 then 1 else 0)
  {}

  lemma {:induction false} SpentFits(ctx: Context, p: Purse, q: Purse, fits: bool, cost: Cost)
    requires Spent(ctx, p, q, Fine, fits, cost)
    ensures fits
  {}

  lemma {:induction false} SpentNever(ctx: Context, p: Purse, q: Purse, out: Outcome, cost: Cost, whole: Cost)
    requires Spent(ctx, p, q, out, false, cost)
    ensures out != Fine && Spent(ctx, p, q, out, false, whole)
  {}

  /** One more place after those before it: all of them spent, or the outcome that stops the whole. */
  lemma {:induction false} NextSpent(
    ctx: Context, h: Heap, xs: seq<nat>, i: nat, levels: nat, start: Purse, before: Purse, after: Purse, out: Outcome)
    requires i < |xs| && AllFit(h, xs[..i], levels)
    requires Spent(ctx, start, before, Fine, true, Sum(h, xs[..i], levels))
    requires Spent(ctx, before, after, out, Fits(h, xs[i], levels), Total(h, xs[i], levels))
    ensures out == Fine ==>
              && AllFit(h, xs[..i + 1], levels)
              && Spent(ctx, start, after, Fine, true, Sum(h, xs[..i + 1], levels))
    ensures out != Fine ==> Spent(ctx, start, after, out, AllFit(h, xs, levels), Sum(h, xs, levels))
  {
    hide Fits, Total, Sum, AllFit, Spent;
    NextSum(h, xs, i, levels);
    SpentThen(ctx, start, before, after, true, Sum(h, xs[..i], levels), out, Fits(h, xs[i], levels),
              Total(h, xs[i], levels));
    if out == Fine {
      SpentFits(ctx, before, after, Fits(h, xs[i], levels), Total(h, xs[i], levels));
    } else {
      SpentStops(ctx, start, after, out, Fits(h, xs[i], levels), Sum(h, xs[..i + 1], levels), AllFit(h, xs, levels),
                 Sum(h, xs, levels));
    }
  }

  lemma {:induction false} NoSum(h: Heap, levels: nat)
    ensures Sum(h, [], levels) == ZERO && AllFit(h, [], levels)
  {}

  /** A place with no parts takes only what it holds itself. */
  lemma {:induction false} PartsOfLeaf(h: Heap, x: Shape, levels: nat)
    requires Kids(x) == []
    ensures Own(x).Plus(Sum(h, Kids(x), levels)) == Own(x) && AllFit(h, Kids(x), levels)
  {
    hide Own, Kids;
    NoSum(h, levels);
  }

  lemma {:induction false} PartsOfPointer(h: Heap, x: Shape, levels: nat)
    requires x.Pointer? && x.target.Some?
    ensures Own(x).Plus(Sum(h, Kids(x), levels)) == Total(h, x.target.value, levels)
    ensures AllFit(h, Kids(x), levels) <==> Fits(h, x.target.value, levels)
  {
    hide Sum, AllFit, Fits, Total;
    OneSum(h, x.target.value, levels);
    assert Kids(x) == [x.target.value] && Own(x) == ZERO;
  }

  lemma {:induction false} KidsInside(h: Heap, x: nat)
    requires WellFormed(h) && x < |h.places|
    ensures forall y :: y in Kids(h.Shape(x)) ==> y < |h.places|
  {}

  lemma {:induction false} Unfold(h: Heap, x: nat, levels: nat)
    requires x < |h.places|
    ensures levels == 0 ==> !Fits(h, x, levels)
    ensures levels > 0 ==> (Fits(h, x, levels) <==> AllFit(h, Kids(h.Shape(x)), levels - 1))
    ensures levels > 0 ==>
              Total(h, x, levels) == VISIT.Plus(Own(h.Shape(x)).Plus(Sum(h, Kids(h.Shape(x)), levels - 1)))
  {}

  lemma {:induction false} OneSum(h: Heap, x: nat, levels: nat)
    ensures Sum(h, [x], levels) == Total(h, x, levels)
    ensures AllFit(h, [x], levels) <==> Fits(h, x, levels)
  {
    hide Total;
    assert [x][1..] == [];
  }

  /** The next place's cost comes on top, within the whole. */
  lemma {:induction false} NextSum(h: Heap, xs: seq<nat>, i: nat, levels: nat)
    requires i < |xs|
    ensures Sum(h, xs[..i + 1], levels) == Sum(h, xs[..i], levels).Plus(Total(h, xs[i], levels))
    ensures Sum(h, xs[..i + 1], levels).Within(Sum(h, xs, levels))
    ensures AllFit(h, xs[..i + 1], levels) <==> AllFit(h, xs[..i], levels) && Fits(h, xs[i], levels)
    ensures AllFit(h, xs, levels) ==> Fits(h, xs[i], levels)
  {
    hide Total, Fits, Sum;
    assert xs[..i + 1] == xs[..i] + [xs[i]];
    SumAppend(h, xs[..i], [xs[i]], levels);
    OneSum(h, xs[i], levels);
    assert xs == xs[..i + 1] + xs[i + 1..];
    SumAppend(h, xs[..i + 1], xs[i + 1..], levels);
  }

  lemma {:induction false} PermutedInside(h: Heap, a: seq<Entry>, b: seq<Entry>)
    requires multiset(a) == multiset(b) && forall y :: y in Flatten(b) ==> y < |h.places|
    ensures forall y :: y in Flatten(a) ==> y < |h.places|
  {
    hide Flatten;
    PermutedKids(a, b);
  }

  // ----- what is accepted

  /** What projecting a binding answers: an error, an untyped nil, or a native value. */
  datatype Binding = Failing | Nil | Value(place: nat)

  datatype Projection = Projected | ProjectionError | NilBinding | InputLimit | ContextError

  /** A native value that is not a nil pointer. */
  predicate Present(h: Heap, b: Binding) {
    b.Value? && b.place < |h.places| && (h.Shape(b.place).Pointer? ==> h.Shape(b.place).target.Some?)
  }

  predicate NilPointer(x: Shape) { x.Pointer? && x.target.None? }

  function Places(bindings: seq<Binding>): seq<nat> {
    if bindings == [] then []
    else Places(bindings[..|bindings| - 1])
         + match bindings[|bindings| - 1] case Value(x) => [x] case _ => []
  }

  /** Exactly what is accepted: only native values, none of them a nil pointer, each within the depth, together within
      the budget, and no context check among the two around every projection and those the traversals make finds the
      context done. */
  ghost predicate Projectable(ctx: Context, h: Heap, bindings: seq<Binding>) {
    && (forall i :: 0 <= i < |bindings| ==> Present(h, bindings[i]))
    && AllFit(h, Places(bindings), MAX_DEPTH + 1)
    && Sum(h, Places(bindings), MAX_DEPTH + 1).Within(BUDGET)
    && Quiet(ctx, 0, 2 * |bindings| + Spend(Purse(BUDGET, 0), Sum(h, Places(bindings), MAX_DEPTH + 1)).checks)
  }

  /** The budget left and the checks made once these bindings were projected. */
  ghost function PurseAfter(h: Heap, bindings: seq<Binding>): Purse
    requires Sum(h, Places(bindings), MAX_DEPTH + 1).Within(BUDGET)
  {
    var p := Spend(Purse(BUDGET, 0), Sum(h, Places(bindings), MAX_DEPTH + 1));
    p.(checks := p.checks + 2 * |bindings|)
  }

  /** The next binding is a native value that fits and is affordable, and neither check around its projection fails. */
  ghost predicate Takes(ctx: Context, h: Heap, p: Purse, b: Binding) {
    && Present(h, b) && !ctx(p.checks) && !ctx(p.checks + 1) && Fits(h, b.place, MAX_DEPTH + 1)
    && Affords(ctx, p.(checks := p.checks + 2), Total(h, b.place, MAX_DEPTH + 1))
  }

  lemma {:induction false} ProjectableStep(ctx: Context, h: Heap, bs: seq<Binding>, b: Binding)
    ensures Projectable(ctx, h, bs + [b]) ==> Projectable(ctx, h, bs)
    ensures Projectable(ctx, h, bs) ==>
              && (Projectable(ctx, h, bs + [b]) <==> Takes(ctx, h, PurseAfter(h, bs), b))
              && (Takes(ctx, h, PurseAfter(h, bs), b) ==>
                    PurseAfter(h, bs + [b])
                    == Spend(PurseAfter(h, bs).(checks := PurseAfter(h, bs).checks + 2),
                             Total(h, b.place, MAX_DEPTH + 1)))
  {
    hide Sum, Total, Fits, AllFit, Spend, Quiet, Places, Present;
    var more := bs + [b];
    PresentMore(h, bs, b);
    PlacesMore(bs, b);
    if b.Value? {
      PlacesSumMore(h, Places(bs), b.place, MAX_DEPTH + 1);
      StepAfford(ctx, |bs|, Sum(h, Places(bs), MAX_DEPTH + 1), Total(h, b.place, MAX_DEPTH + 1));
    } else {
      NilNotPresent(h, b);
    }
  }

  lemma {:induction false} PresentMore(h: Heap, bs: seq<Binding>, b: Binding)
    ensures (forall i :: 0 <= i < |bs + [b]| ==> Present(h, (bs + [b])[i]))
            <==> (forall i :: 0 <= i < |bs| ==> Present(h, bs[i])) && Present(h, b)
  {
    hide Present;
    var more := bs + [b];
    assert more[|bs|] == b;
    assert forall i :: 0 <= i < |bs| ==> more[i] == bs[i];
  }

  lemma {:induction false} NilNotPresent(h: Heap, b: Binding)
    requires !b.Value?
    ensures !Present(h, b)
  {}

  lemma {:induction false} PlacesMore(bs: seq<Binding>, b: Binding)
    ensures Places(bs + [b]) == if b.Value? then Places(bs) + [b.place] else Places(bs)
  {
    var more := bs + [b];
    assert more[..|more| - 1] == bs && more[|more| - 1] == b;
  }

  lemma {:induction false} PlacesSumMore(h: Heap, xs: seq<nat>, x: nat, levels: nat)
    ensures Sum(h, xs + [x], levels) == Sum(h, xs, levels).Plus(Total(h, x, levels))
    ensures AllFit(h, xs + [x], levels) <==> AllFit(h, xs, levels) && Fits(h, x, levels)
  {
    hide Sum, Total, Fits;
    SumAppend(h, xs, [x], levels);
    OneSum(h, x, levels);
    AllFitMore(h, xs, x, levels);
  }

  /** The checks around one more projection, and what its traversal can afford behind those before it. */
  lemma {:induction false} StepAfford(ctx: Context, n: nat, cost: Cost, next: Cost)
    ensures cost.Plus(next).Within(BUDGET) ==>
              && cost.Within(BUDGET)
              && var p := Spend(Purse(BUDGET, 0), cost);
                 var q := Purse(p.left, p.checks + 2 * n);
                 var r := Spend(Purse(BUDGET, 0), cost.Plus(next));
                 && next.Within(q.left)
                 && Spend(Purse(q.left, q.checks + 2), next) == Purse(r.left, r.checks + 2 * (n + 1))
                 && (Quiet(ctx, 0, 2 * (n + 1) + r.checks) <==>
                       && Quiet(ctx, 0, q.checks) && !ctx(q.checks) && !ctx(q.checks + 1)
                       && Quiet(ctx, q.checks + 2, r.checks + 2 * (n + 1)))
    ensures cost.Within(BUDGET) && !cost.Plus(next).Within(BUDGET) ==>
              !next.Within(Spend(Purse(BUDGET, 0), cost).left)
  {
    if cost.Plus(next).Within(BUDGET) {
      var p := Spend(Purse(BUDGET, 0), cost);
      var c, end := p.checks + 2 * n, 2 * (n + 1) + Spend(Purse(BUDGET, 0), cost.Plus(next)).checks;
      ChecksGrow(BUDGET.nodes - cost.nodes - next.nodes, BUDGET.nodes - cost.nodes);
      QuietParts(ctx, 0, c, end);
      QuietParts(ctx, c, c + 2, end);
      NextTwo(ctx, c);
    }
  }

  lemma {:induction false} NextTwo(ctx: Context, c: nat)
    ensures Quiet(ctx, c, c + 2) <==> !ctx(c) && !ctx(c + 1)
  {}

  lemma {:induction false} AllFitMore(h: Heap, xs: seq<nat>, x: nat, levels: nat)
    ensures AllFit(h, xs + [x], levels) <==> AllFit(h, xs, levels) && Fits(h, x, levels)
  {
    hide Fits;
    assert x in xs + [x];
    assert forall y :: y in xs + [x] <==> y in xs || y == x;
  }

  lemma {:induction false} ProjectablePrefix(ctx: Context, h: Heap, bindings: seq<Binding>, i: nat)
    requires i <= |bindings| && Projectable(ctx, h, bindings)
    ensures Projectable(ctx, h, bindings[..i])
    decreases |bindings| - i
  {
    hide Projectable;
    if i == |bindings| {
      assert bindings[..i] == bindings;
    } else {
      ProjectablePrefix(ctx, h, bindings, i + 1);
      assert bindings[..i + 1] == bindings[..i] + [bindings[i]];
      ProjectableStep(ctx, h, bindings[..i], bindings[i]);
    }
  }

  /** One binding: the context before and after its projection, its presence, and its traversal. */
  method ProjectBinding(h: Heap, b: Binding, budget: Budget) returns (r: Projection)
    requires budget.Valid() && WellFormed(h) && (b.Value? ==> b.place < |h.places|)
    modifies budget
    ensures budget.Valid()
    ensures r == Projected <==> Takes(budget.ctx, h, old(budget.Now()), b)
    ensures Told(h, old(budget.Now()), b, budget.Now(), r)
    ensures r == ProjectionError ==> b == Failing
    ensures r == NilBinding ==> b != Failing && !Present(h, b)
    ensures r == ContextError ==> exists n :: budget.ctx(n)
  {
    hide Fits, Total, WellFormed;
    var out := budget.CheckContext();
    if out != Fine {
      return ContextError;
    }
    if b == Failing {
      return ProjectionError;
    }
    out := budget.CheckContext();
    if out != Fine {
      return ContextError;
    }
    if b == Nil || NilPointer(h.Shape(b.place)) {
      return NilBinding;
    }
    out := budget.Native(h, b.place, 0, []);
    match out
    case Fine => return Projected;
    case OverLimit => return InputLimit;
    case Canceled => return ContextError;
  }

  /** The bindings of one evaluation share one budget. They are accepted if and only if they are projectable, whatever
      order maps are ranged over; so neither a nil nor a cyclic value is ever accepted, and while the context is never
      done the unfolding's depth and cost alone decide. A refusal names the reason. */
  method ProjectBindings(ctx: Context, h: Heap, bindings: seq<Binding>) returns (r: Projection)
    requires WellFormed(h) && forall i :: 0 <= i < |bindings| && bindings[i].Value? ==> bindings[i].place < |h.places|
    ensures r == Projected <==> Projectable(ctx, h, bindings)
    ensures r == ProjectionError ==> Failing in bindings
    ensures r == NilBinding ==> exists b :: b in bindings && !Present(h, b)
    ensures r == ContextError ==> exists n :: ctx(n)
    ensures r == InputLimit ==> !(AllFit(h, Places(bindings), MAX_DEPTH + 1)
                                  && Sum(h, Places(bindings), MAX_DEPTH + 1).Within(BUDGET))
  {
    hide Fits, Total, Sum, AllFit, WellFormed, Takes, Projectable, PurseAfter, Told;
    var budget := new Budget(ctx);
    var i := 0;
    assert bindings[..0] == [];
    NoneProjected(ctx, h);
    while i < |bindings|
      invariant i <= |bindings| && budget.ctx == ctx && budget.Valid() && Projectable(ctx, h, bindings[..i])
      invariant Sum(h, Places(bindings[..i]), MAX_DEPTH + 1).Within(BUDGET)
      invariant budget.Now() == PurseAfter(h, bindings[..i])
    {
      ghost var before := budget.Now();
      r := ProjectBinding(h, bindings[i], budget);
      AfterBinding(ctx, h, bindings, i, before, budget.Now(), r);
      if r != Projected {
        return;
      }
      i := i + 1;
    }
    assert bindings[..i] == bindings;
    return Projected;
  }

  lemma {:induction false} NoneProjected(ctx: Context, h: Heap)
    ensures Projectable(ctx, h, []) && Sum(h, Places([]), MAX_DEPTH + 1).Within(BUDGET)
    ensures PurseAfter(h, []) == Purse(BUDGET, 0)
  {
    hide Sum, Total, Fits, AllFit, Spend, Places;
    NoPlaces();
    NoSum(h, MAX_DEPTH + 1);
    NothingSpent(Purse(BUDGET, 0));
  }

  lemma {:induction false} NoPlaces()
    ensures Places([]) == []
  {}

  lemma {:induction false} NothingSpent(p: Purse)
    ensures ZERO.Within(p.left) && Spend(p, ZERO) == p
  {}

  /** What one binding's projection says of all bindings up to it. */
  lemma {:induction false} AfterBinding(
    ctx: Context, h: Heap, bindings: seq<Binding>, i: nat, before: Purse, after: Purse, r: Projection)
    requires i < |bindings| && Projectable(ctx, h, bindings[..i])
    requires Sum(h, Places(bindings[..i]), MAX_DEPTH + 1).Within(BUDGET) && before == PurseAfter(h, bindings[..i])
    requires r == Projected <==> Takes(ctx, h, before, bindings[i])
    requires Told(h, before, bindings[i], after, r)
    ensures r == Projected ==>
              && Projectable(ctx, h, bindings[..i + 1])
              && Sum(h, Places(bindings[..i + 1]), MAX_DEPTH + 1).Within(BUDGET)
              && after == PurseAfter(h, bindings[..i + 1])
    ensures r != Projected ==> !Projectable(ctx, h, bindings)
    ensures r == InputLimit ==> !(AllFit(h, Places(bindings), MAX_DEPTH + 1)
                                  && Sum(h, Places(bindings), MAX_DEPTH + 1).Within(BUDGET))
  {
    hide Fits, Total, Sum, AllFit, Projectable, PurseAfter;
    assert bindings[..i + 1] == bindings[..i] + [bindings[i]];
    ProjectableStep(ctx, h, bindings[..i], bindings[i]);
    if r == Projected {
      ProjectableMeans(ctx, h, bindings[..i + 1]);
    } else {
      NotProjectable(ctx, h, bindings, i);
      if r == InputLimit {
        LimitStays(h, bindings, i);
      }
    }
  }

  /** What a projected binding spent, and what a refusal for the limit means. */
  ghost predicate Told(h: Heap, before: Purse, b: Binding, after: Purse, r: Projection) {
    && (r == Projected ==>
          && b.Value? && Total(h, b.place, MAX_DEPTH + 1).Within(before.left)
          && after == Spend(before.(checks := before.checks + 2), Total(h, b.place, MAX_DEPTH + 1)))
    && (r == InputLimit ==>
          b.Value? && !(Fits(h, b.place, MAX_DEPTH + 1) && Total(h, b.place, MAX_DEPTH + 1).Within(before.left)))
  }

  lemma {:induction false} ProjectableMeans(ctx: Context, h: Heap, bindings: seq<Binding>)
    requires Projectable(ctx, h, bindings)
    ensures Sum(h, Places(bindings), MAX_DEPTH + 1).Within(BUDGET)
  {}

  lemma {:induction false} NotProjectable(ctx: Context, h: Heap, bindings: seq<Binding>, i: nat)
    requires i < |bindings| && !Projectable(ctx, h, bindings[..i + 1])
    ensures !Projectable(ctx, h, bindings)
  {
    hide Projectable;
    if Projectable(ctx, h, bindings) {
      ProjectablePrefix(ctx, h, bindings, i + 1);
    }
  }

  lemma {:induction false} PlacesPrefix(bindings: seq<Binding>, i: nat)
    requires i <= |bindings|
    ensures Places(bindings[..i]) <= Places(bindings)
  {
    if i < |bindings| {
      var shorter := bindings[..|bindings| - 1];
      PlacesPrefix(shorter, i);
      assert shorter[..i] == bindings[..i];
    } else {
      assert bindings[..i] == bindings;
    }
  }

  /** A value that does not fit in what the values before it left keeps the whole from fitting. */
  lemma {:induction false} LimitStays(h: Heap, bindings: seq<Binding>, i: nat)
    requires i < |bindings| && bindings[i].Value? && Sum(h, Places(bindings[..i]), MAX_DEPTH + 1).Within(BUDGET)
    requires !(Fits(h, bindings[i].place, MAX_DEPTH + 1)
               && Total(h, bindings[i].place, MAX_DEPTH + 1).Within(PurseAfter(h, bindings[..i]).left))
    ensures !(AllFit(h, Places(bindings), MAX_DEPTH + 1) && Sum(h, Places(bindings), MAX_DEPTH + 1).Within(BUDGET))
  {
    hide Total, Fits, Sum;
    var xs, some, x, n := Places(bindings), Places(bindings[..i]), bindings[i].place, MAX_DEPTH + 1;
    assert bindings[..i + 1][..i] == bindings[..i] && bindings[..i + 1][i] == bindings[i];
    assert Places(bindings[..i + 1]) == some + [x];
    PlacesPrefix(bindings, i + 1);
    assert xs[|some|] == x && xs[..|some|] == some;
    NextSum(h, xs, |some|, n);
    assert x in xs;
  }

  /** Each place of the set refers to another of it: a cycle, however it is reached. */
  ghost predicate Cyclic(h: Heap, xs: set<nat>) {
    forall x :: x in xs ==> x < |h.places| && Continues(h, xs, x)
  }

  ghost predicate Continues(h: Heap, xs: set<nat>, x: nat)
    requires x < |h.places|
  {
    exists y :: y in xs && y in Kids(h.Shape(x))
  }

  /** A cyclic value fits no depth, so it is always rejected. */
  lemma {:induction false} CyclicNeverFits(h: Heap, xs: set<nat>, x: nat, levels: nat)
    requires Cyclic(h, xs) && x in xs
    ensures !Fits(h, x, levels)
    decreases levels
  {
    hide Continues;
    if Fits(h, x, levels) {
      var y := Continue(h, xs, x);
      CyclicNeverFits(h, xs, y, levels - 1);
    }
  }

  /** So it is never projected. */
  lemma {:induction false} CyclicNeverProjected(ctx: Context, h: Heap, xs: set<nat>, bindings: seq<Binding>, i: nat)
    requires Cyclic(h, xs) && i < |bindings| && bindings[i].Value? && bindings[i].place in xs
    ensures !Projectable(ctx, h, bindings)
  {
    hide Fits, Cyclic, Sum;
    var x := bindings[i].place;
    CyclicNeverFits(h, xs, x, MAX_DEPTH + 1);
    PlacesPrefix(bindings, i + 1);
    assert bindings[..i + 1][..i] == bindings[..i];
    var some := Places(bindings[..i]);
    assert Places(bindings[..i + 1]) == some + [x];
    assert Places(bindings)[|some|] == x;
  }

  lemma {:induction false} Continue(h: Heap, xs: set<nat>, x: nat) returns (y: nat)
    requires x < |h.places| && Continues(h, xs, x)
    ensures y in xs && y in Kids(h.Shape(x))
  {
    y :| y in xs && y in Kids(h.Shape(x));
  }

  // ----- what an unfolding is, shape by shape

  /** The cost of map entries: of every key and every value. */
  ghost function EntriesTotal(h: Heap, es: seq<Entry>, levels: nat): Cost {
    if es == [] then ZERO
    else
      Total(h, es[0].key, levels).Plus(Total(h, es[0].value, levels)).Plus(EntriesTotal(h, es[1..], levels))
  }

  lemma {:induction false} EntriesTotalMeans(h: Heap, es: seq<Entry>, levels: nat)
    ensures Sum(h, Flatten(es), levels) == EntriesTotal(h, es, levels)
    ensures AllFit(h, Flatten(es), levels) <==>
              forall e :: e in es ==> Fits(h, e.key, levels) && Fits(h, e.value, levels)
  {
    hide Total, Fits;
    if es != [] {
      var flat, rest := Flatten(es), Flatten(es[1..]);
      EntriesTotalMeans(h, es[1..], levels);
      assert flat[0] == es[0].key && flat[1..][0] == es[0].value && flat[1..][1..] == rest;
      NextFirst(h, flat, levels);
      NextFirst(h, flat[1..], levels);
      assert forall y :: y in flat <==> y == es[0].key || y == es[0].value || y in rest;
      assert forall e :: e in es <==> e == es[0] || e in es[1..];
    }
  }

  lemma {:induction false} PlusMeans(own: Cost, parts: Cost)
    ensures VISIT.Plus(own.Plus(parts))
         == Cost(1 + own.nodes + parts.nodes, own.bytes + parts.bytes, own.items + parts.items)
  {}

  /** Level by level, a place costs what it holds itself and its parts. */
  lemma {:induction false} UnfoldParts(h: Heap, x: nat, levels: nat, own: Cost, kids: seq<nat>)
    requires x < |h.places| && own == Own(h.Shape(x)) && kids == Kids(h.Shape(x))
    ensures !Fits(h, x, 0) && (Fits(h, x, levels + 1) <==> AllFit(h, kids, levels))
    ensures var s := Sum(h, kids, levels);
            Total(h, x, levels + 1) == Cost(1 + own.nodes + s.nodes, own.bytes + s.bytes, own.items + s.items)
  {
    hide *;
    Unfold(h, x, levels + 1);
    Unfold(h, x, 0);
    PlusMeans(own, Sum(h, kids, levels));
  }

  /** Leaves cost their visit, strings and byte slices their bytes as well, a nil one none. */
  lemma {:induction false} LeavesUnfold(h: Heap, x: nat, levels: nat)
    requires x < |h.places|
    ensures var t := Total(h, x, levels + 1);
            match h.Shape(x)
            case Scalar => Fits(h, x, levels + 1) && t == Cost(1, 0, 0)
            case Text(n) => Fits(h, x, levels + 1) && t == Cost(1, n, 0)
            case Blob(isNil, n) => Fits(h, x, levels + 1) && t == Cost(1, if isNil then 0 else n, 0)
            case _ => true
  {
    hide Fits, Total, Sum, EntriesTotal, Flatten, AllFit, Cost.Plus;
    UnfoldParts(h, x, levels, Own(h.Shape(x)), Kids(h.Shape(x)));
    NoSum(h, levels);
  }

  /** Pointers and structs cost their visit and their parts. */
  lemma {:induction false} RecordsUnfold(h: Heap, x: nat, levels: nat)
    requires x < |h.places|
    ensures var t := Total(h, x, levels + 1);
            match h.Shape(x)
            case Pointer(target) =>
              if target.Some? then
                var s := Total(h, target.value, levels);
                (Fits(h, x, levels + 1) <==> Fits(h, target.value, levels)) && t == Cost(1 + s.nodes, s.bytes, s.items)
              else Fits(h, x, levels + 1) && t == Cost(1, 0, 0)
            case Record(fs) =>
              var s := Sum(h, fs, levels);
              (Fits(h, x, levels + 1) <==> AllFit(h, fs, levels)) && t == Cost(1 + s.nodes, s.bytes, s.items)
            case _ => true
  {
    hide Fits, Total, Sum, EntriesTotal, Flatten, AllFit, Cost.Plus;
    UnfoldParts(h, x, levels, Own(h.Shape(x)), Kids(h.Shape(x)));
    NoSum(h, levels);
    if h.Shape(x).Pointer? && h.Shape(x).target.Some? {
      OneSum(h, h.Shape(x).target.value, levels);
    }
  }

  /** Slices and maps cost their visit, one item for each element or entry, and their parts: elements, or keys and
      values. */
  lemma {:induction false} CollectionsUnfold(h: Heap, x: nat, levels: nat)
    requires x < |h.places|
    ensures var t := Total(h, x, levels + 1);
            match h.Shape(x)
            case List(elements) =>
              if elements.Some? then
                var xs, s := elements.value, Sum(h, elements.value, levels);
                (Fits(h, x, levels + 1) <==> AllFit(h, xs, levels)) && t == Cost(1 + s.nodes, s.bytes, |xs| + s.items)
              else Fits(h, x, levels + 1) && t == Cost(1, 0, 0)
            case Table(entries) =>
              if entries.Some? then
                var es, s := entries.value, EntriesTotal(h, entries.value, levels);
                && (Fits(h, x, levels + 1) <==> forall e :: e in es ==>
                    Fits(h, e.key, levels) && Fits(h, e.value, levels))
                && t == Cost(1 + s.nodes, s.bytes, |es| + s.items)
              else Fits(h, x, levels + 1) && t == Cost(1, 0, 0)
            case _ => true
  {
    hide Fits, Total, Sum, EntriesTotal, Flatten, AllFit, Cost.Plus;
    UnfoldParts(h, x, levels, Own(h.Shape(x)), Kids(h.Shape(x)));
    NoSum(h, levels);
    NoFlat();
    if h.Shape(x).Table? && h.Shape(x).entries.Some? {
      EntriesTotalMeans(h, h.Shape(x).entries.value, levels);
    }
  }

  lemma {:induction false} NoFlat()
    ensures Flatten([]) == []
  {}

  /** Without cancellation the values alone decide: present, at most 33 levels each, and together at most 65536 visits,
      65536 bytes and 4096 items. */
  lemma {:induction false} UncanceledMeans(ctx: Context, h: Heap, bindings: seq<Binding>)
    requires forall n :: !ctx(n)
    ensures var cost := Sum(h, Places(bindings), 33);
            Projectable(ctx, h, bindings) <==>
              && (forall i :: 0 <= i < |bindings| ==> Present(h, bindings[i]))
              && (forall x :: x in Places(bindings) ==> Fits(h, x, 33))
              && cost.nodes <= 65536 && cost.bytes <= 65536 && cost.items <= 4096
  {
    hide Fits, Sum, Places, Present;
  }
}
