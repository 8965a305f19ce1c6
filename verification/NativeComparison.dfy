/** The comparison as it runs: one object holding the budget and the completed pairs, both updated through the
    recursion. */
module NativeComparison {
  import opened NativeEquality
  import opened NativeEqualityMeaning
  import opened NativeEqualityWork
  import opened NativeEqualityBudget

  class Comparison {
    const heap: Heap
    var bytes: nat
    var items: nat
    var nodes: nat
    var equaled: map<(nat, nat), bool>
    ghost var descended: seq<(nat, nat)>

    constructor (heap: Heap)
      ensures this.heap == heap && Snapshot() == START
    {
      this.heap := heap;
      bytes, items, nodes, equaled, descended := 65536, 4096, 65536, map[], [];
    }

    ghost function Completed(): set<(nat, nat)>
      reads this
    {
      set p | p in equaled && equaled[p]
    }

    ghost function Snapshot(): State
      reads this
    {
      State(bytes, items, nodes, Completed(), descended)
    }

    method Visit(depth: nat) returns (ok: bool)
      modifies this
      ensures ok == (depth <= MAX_DEPTH && old(nodes) > 0)
      ensures Snapshot() == if ok then old(Snapshot()).(nodes := old(nodes) - 1) else old(Snapshot())
    {
      if depth > MAX_DEPTH || nodes == 0 {
        return false;
      }
      nodes := nodes - 1;
      return true;
    }

    method TakeBytes(n: nat) returns (ok: bool)
      modifies this
      ensures ok == (n <= old(bytes))
      ensures Snapshot() == if ok then old(Snapshot()).(bytes := old(bytes) - n) else old(Snapshot())
    {
      if n > bytes {
        return false;
      }
      bytes := bytes - n;
      return true;
    }

    method TakeItems(n: nat) returns (ok: bool)
      modifies this
      ensures ok == (n <= old(items))
      ensures Snapshot() == if ok then old(Snapshot()).(items := old(items) - n) else old(Snapshot())
    {
      if n > items {
        return false;
      }
      items := items - n;
      return true;
    }

    /** Compares two places of one type; `path` is the position of this visit, which a map's iteration order may depend
        on. */
    method Equal(left: nat, right: nat, depth: nat, field: bool, path: seq<nat>) returns (answer: Answer)
      requires heap.Typed() && heap.Match(left, right)
      modifies this
      ensures (answer, Snapshot()) == Compare(heap, true, old(Snapshot()), left, right, depth, field, path)
      decreases Height(depth), 1, 0
    {
      hide CompareAll;
      var visited := Visit(depth);
      if !visited {
        return Limit;
      }
      ghost var s := Snapshot();
      PlanMatches(heap, s, left, right, field, path);
      assert heap.Alike(left, right);
      var x, y := heap.Shape(left), heap.Shape(right);
      var nilAnswer := NilAnswer(x, y, field);
      if nilAnswer.Some? {
        return nilAnswer.value;
      }
      match x
      case Pointer(a) =>
        answer := EqualPointees(a.value, y.target.value, depth + 1, path);
      case Record(fs) =>
        answer := EqualFields(fs, y.fields, depth + 1, path);
      case Text(n) =>
        answer := EqualBytes(left, right, n, y.length);
      case Blob(isNil, n) =>
        answer := EqualBytes(left, right, if isNil then 0 else n, if y.isNil then 0 else y.length);
      case List(_) =>
        answer := EqualElements(Elements(x), Elements(y), depth + 1, path);
      case Table(_) =>
        answer := EqualEntries(|Entries(x)|, |Entries(y)|, heap.order(path, left), right, depth + 1, path);
      case Scalar =>
        answer := heap.leaf(left, right);
    }

    /** A completed pair is equal; an unfinished one is descended into, and completed if the answer is true. */
    method EqualPointees(left: nat, right: nat, depth: nat, path: seq<nat>) returns (answer: Answer)
      requires heap.Typed() && heap.Match(left, right)
      modifies this
      ensures var s := old(Snapshot());
              var descending := s.(descended := s.descended + [(left, right)]);
              var (a, t) := Compare(heap, true, descending, left, right, depth, false, path + [0]);
              (answer, Snapshot()) ==
              if (left, right) in s.equaled then (True, s)
              else (a, if a == True then t.(equaled := t.equaled + {(left, right)}) else t)
      decreases Height(depth), 2, 0
    {
      hide Compare;
      var pair := (left, right);
      if pair in equaled && equaled[pair] {
        return True;
      }
      descended := descended + [pair];
      answer := Equal(left, right, depth, false, path + [0]);
      if answer == True {
        ghost var before := Completed();
        equaled := equaled[pair := true];
        assert Completed() == before + {pair};
      }
    }

    method EqualBytes(left: nat, right: nat, n: nat, m: nat) returns (answer: Answer)
      modifies this
      ensures Decided(answer, Snapshot()) == NativeEquality.TakeBytes(heap, old(Snapshot()), left, right, n, m)
    {
      if n != m {
        return False;
      }
      var taken := TakeBytes(n);
      if !taken {
        return Limit;
      }
      answer := heap.leaf(left, right);
    }

    method EqualFields(left: seq<nat>, right: seq<nat>, depth: nat, path: seq<nat>) returns (answer: Answer)
      requires heap.Typed() && |left| == |right| && PartsMatch(heap, Zip(left, right))
      modifies this
      ensures (answer, Snapshot()) == CompareAll(heap, true, old(Snapshot()), Zip(left, right), depth, true, path, 0)
      decreases Height(depth), 2, 0
    {
      hide Compare;
      ghost var parts := Zip(left, right);
      ghost var whole := CompareAll(heap, true, Snapshot(), parts, depth, true, path, 0);
      var i := 0;
      while i < |left|
        invariant i <= |left| && PartsMatch(heap, parts[i..])
        invariant CompareAll(heap, true, Snapshot(), parts[i..], depth, true, path, i) == whole
      {
        assert parts[i..][0] == Pair(left[i], right[i]) && parts[i..][1..] == parts[i + 1..];
        answer := Equal(left[i], right[i], depth, true, path + [i]);
        if answer != True {
          return;
        }
        i := i + 1;
      }
      return True;
    }

    method EqualElements(left: seq<nat>, right: seq<nat>, depth: nat, path: seq<nat>) returns (answer: Answer)
      requires heap.Typed() && (|left| == |right| ==> PartsMatch(heap, Zip(left, right)))
      modifies this
      ensures var s := old(Snapshot());
              (answer, Snapshot()) ==
              if |left| != |right| then (False, s)
              else if |left| > s.items then (Limit, s)
              else CompareAll(heap, true, s.(items := s.items - |left|), Zip(left, right), depth, false, path, 0)
      decreases Height(depth), 2, 0
    {
      hide Compare;
      if |left| != |right| {
        return False;
      }
      var taken := TakeItems(|left|);
      if !taken {
        return Limit;
      }
      ghost var parts := Zip(left, right);
      ghost var whole := CompareAll(heap, true, Snapshot(), parts, depth, false, path, 0);
      var i := 0;
      while i < |left|
        invariant i <= |left| && PartsMatch(heap, parts[i..])
        invariant CompareAll(heap, true, Snapshot(), parts[i..], depth, false, path, i) == whole
      {
        assert parts[i..][0] == Pair(left[i], right[i]) && parts[i..][1..] == parts[i + 1..];
        answer := Equal(left[i], right[i], depth, false, path + [i]);
        if answer != True {
          return;
        }
        i := i + 1;
      }
      return True;
    }

    method EqualEntries(
      n: nat, m: nat, entries: seq<Entry>, right: nat, depth: nat, path: seq<nat>) returns (answer: Answer)
      requires heap.Typed() && (n == m && n <= items ==> PartsMatch(heap, EntryParts(heap, entries, right)))
      modifies this
      ensures var s := old(Snapshot());
              (answer, Snapshot()) ==
              if n != m then (False, s)
              else if n > s.items then (Limit, s)
              else CompareAll(heap, true, s.(items := s.items - n), EntryParts(heap, entries, right), depth, false,
                              path, 0)
      decreases Height(depth), 2, 0
    {
      hide Compare;
      if n != m {
        return False;
      }
      var taken := TakeItems(n);
      if !taken {
        return Limit;
      }
      ghost var whole := CompareAll(heap, true, Snapshot(), EntryParts(heap, entries, right), depth, false, path, 0);
      var i := 0;
      assert entries[i..] == entries;
      while i < |entries|
        invariant i <= |entries| && PartsMatch(heap, EntryParts(heap, entries[i..], right))
        invariant CompareAll(heap, true, Snapshot(), EntryParts(heap, entries[i..], right), depth, false, path, 2 * i)
                  == whole
      {
        var e := entries[i];
        ghost var rest := EntryParts(heap, entries[i + 1..], right);
        assert entries[i..][0] == e && entries[i..][1..] == entries[i + 1..];
        var value := heap.lookup(right, e.key);
        if value.None? {
          return False;
        }
        ghost var parts := [Pair(e.key, e.key), Pair(e.value, value.value)] + rest;
        assert EntryParts(heap, entries[i..], right) == parts;
        assert parts[0] == Pair(e.key, e.key) && parts[1..] == [Pair(e.value, value.value)] + rest;
        assert parts[1] == parts[1..][0] && parts[1..][1..] == rest;
        answer := Equal(e.key, e.key, depth, false, path + [2 * i]);
        if answer != True {
          return;
        }
        answer := Equal(e.value, value.value, depth, false, path + [2 * i + 1]);
        if answer != True {
          return;
        }
        i := i + 1;
      }
      return True;
    }
  }

  /** A whole comparison of two values. Values of different types are never equal. Of one type, true is finite-depth
      structural equality, false is a structural difference, equal values are never denied, any answer the plain
      traversal reaches within its budget is the answer given, and graphs that can be afforded are answered. */
  method NativeEqual(h: Heap, left: nat, right: nat) returns (answer: Answer)
    requires h.Typed() && left < |h.places| && right < |h.places|
    ensures !h.Match(left, right) ==> answer == False
    ensures h.Match(left, right) && answer == True ==> Equal(h, left, right, false)
    ensures h.Match(left, right) && Equal(h, left, right, false) ==> answer in {True, Limit}
    ensures h.Match(left, right) && answer == False ==> Differ(h, left, right, false, Height(0))
    ensures h.Match(left, right) ==>
              var plain := Compare(h, false, START, left, right, 0, false, []).0;
              plain != Limit ==> answer == plain
    ensures h.Match(left, right) && Affordable(h, left, right) && (forall x, y :: h.leaf(x, y) != Limit) ==>
              answer != Limit && (answer == True <==> Equal(h, left, right, false))
  {
    hide Same, Differ, Compare, Affordable;
    if h.places[left].typ != h.places[right].typ {
      return False;
    }
    var comparison := new Comparison(h);
    answer := comparison.Equal(left, right, 0, false, []);
    AnswersAreSound(h, true, START, left, right, 0, false, []);
    CacheKeepsAnswers(h, START, START, left, right, 0, false, []);
    if Equal(h, left, right, false) {
      var k: nat :| Same(h, left, right, false, k);
      EqualNeverDenied(h, true, START, left, right, 0, false, [], k);
    }
    if Affordable(h, left, right) && forall x, y :: h.leaf(x, y) != Limit {
      AffordableIsDecided(h, left, right, false);
    }
  }
}
