/** Two shapes of the same rules: without groups the engine runs one span over all rules, with groups it runs one
    entry per rule. Both are the same execution; and the hierarchical views list exactly the flat ones. */
module FlatPath {
  import opened Facts
  import opened DenseInterpreter
  import opened Compression
  import opened Ledger
  import Compilation
  import Validation

  /** One singleton entry for each rule. */
  function Singletons(n: nat): (entries: seq<CompiledEntry>)
    ensures |entries| == n && forall i :: 0 <= i < n ==> entries[i] == CompiledEntry(i, i + 1, None)
  {
    seq(n, i requires 0 <= i < n => CompiledEntry(i, i + 1, None))
  }

  ghost predicate Ungrouped(m: Metadata) {
    m.groups == [] && forall o :: 0 <= o < |m.rules| ==> m.rules[o].group == None && m.rules[o].id != ""
  }

  lemma {:induction false} SingletonsTile(m: Metadata, i: nat)
    requires Ungrouped(m) && i <= |m.rules|
    ensures Tiled(m, Singletons(|m.rules|), i, i, 0)
    decreases |m.rules| - i
  {
    if i < |m.rules| {
      SingletonsTile(m, i + 1);
    }
  }

  /** Adjacent spans compose: running `a..c` is running `a..b` and, if that advances, `b..c`. */
  lemma {:induction false} SpanSplits(p: Program, a: nat, b: nat, c: nat, checked: bool, t: Track)
    requires a < b <= c <= |p.meta.rules|
    ensures var first := RunSpan(p, a, b, checked, t);
            Resumes(RunSpan(p, a, c, checked, t), first.views,
                    if first.next.Advance? then RunSpan(p, b, c, false, first.t) else first.(views := []))
    decreases b - a
  {
    hide RunRule, RunSpan;
    SpanCons(p, a, c, checked, t);
    SpanCons(p, a, b, checked, t);
    var one := RunSpan(p, a, a + 1, checked, t);
    if one.next.Advance? {
      if a + 1 < b {
        SpanSplits(p, a + 1, b, c, false, one.t);
        var first, rest := RunSpan(p, a + 1, b, false, one.t), RunSpan(p, a + 1, c, false, one.t);
        var tail := if first.next.Advance? then RunSpan(p, b, c, false, first.t) else first.(views := []);
        assert one.views + (first.views + tail.views) == one.views + first.views + tail.views;
      } else {
        SpanNone(p, b, one.t);
        assert one.views + [] == one.views;
      }
    } else {
      assert one.views + [] == one.views;
    }
  }

  lemma {:induction false} SpanNone(p: Program, o: nat, t: Track)
    requires o <= |p.meta.rules|
    ensures RunSpan(p, o, o, false, t) == Span([], "", Advance, t)
  {}

  lemma {:induction false} EntriesNone(p: Program, entries: seq<CompiledEntry>, start: nat, g: nat, t: Track)
    requires start <= |p.meta.rules| && g <= |p.meta.groups| && Tiled(p.meta, entries, |entries|, start, g)
    ensures RunEntries(p, entries, |entries|, start, g, t) == Run([], [], StopCompleted, Alive, t)
  {}

  /** What one span over the rules from `i` gives, as a run. */
  ghost function FlatRun(p: Program, i: nat, t: Track): Run
    requires i <= |p.meta.rules| && p.meta.groups == []
  {
    var s := RunSpan(p, i, |p.meta.rules|, false, t);
    if s.next.Halt? then
      Run(s.views + Fill(|p.meta.rules| - i - |s.views|, ExecutionStopped), [], s.next.stop, s.next.context, s.t)
    else Run(s.views, [], StopCompleted, Alive, s.t)
  }

  lemma {:induction false} SingletonsRun(p: Program, i: nat, t: Track)
    requires Ungrouped(p.meta) && i <= |p.meta.rules|
    requires Tiled(p.meta, Singletons(|p.meta.rules|), i, i, 0)
    ensures RunEntries(p, Singletons(|p.meta.rules|), i, i, 0, t) == FlatRun(p, i, t)
    decreases |p.meta.rules| - i
  {
    hide RunRule, RunSpan, RunEntries;
    var n := |p.meta.rules|;
    var entries := Singletons(n);
    if i == n {
      SpanNone(p, n, t);
      EntriesNone(p, entries, n, 0, t);
    } else {
      RulesEntryRun(p, entries, i, i, 0, t);
      RulesEntryShape(p, entries[i], i, t);
      SpanCons(p, i, n, false, t);
      var one := RunSpan(p, i, i + 1, false, t);
      var whole := RunSpan(p, i, n, false, t);
      if one.next.Halt? {
        assert whole.views == one.views + [] == one.views;
      } else {
        SingletonsRun(p, i + 1, one.t);
        var rest := RunSpan(p, i + 1, n, false, one.t);
        if rest.next.Halt? {
          assert one.views + (rest.views + Fill(n - i - 1 - |rest.views|, ExecutionStopped))
              == whole.views + Fill(n - i - |whole.views|, ExecutionStopped);
        }
        assert [] + FlatRun(p, i + 1, one.t).groups == [];
      }
    }
  }

  lemma {:induction false} PseudoEntryRun(p: Program, t: Track)
    requires Ungrouped(p.meta) && p.meta.entries == [] && WellFormed(p.meta)
    ensures RunEntries(p, EntriesOf(p.meta), 0, 0, 0, t) == FlatRun(p, 0, t)
  {
    var entries := EntriesOf(p.meta);
    assert Tiled(p.meta, entries, 1, |p.meta.rules|, 0);
    RulesEntryRun(p, entries, 0, 0, 0, t);
    RulesEntryShape(p, entries[0], 0, t);
    hide RunRule, RunSpan;
    var s := RunSpan(p, 0, |p.meta.rules|, false, t);
    if !s.next.Halt? {
      assert s.views + [] == s.views;
    }
  }

  // ----- the program with its entries spelled out

  ghost function Spelled(p: Program): Program {
    p.(meta := p.meta.(entries := Singletons(|p.meta.rules|)))
  }

  lemma {:induction false} RuleIgnoresEntries(p: Program, q: Program, o: nat, t: Track)
    requires q == p.(meta := p.meta.(entries := q.meta.entries)) && o < |p.meta.rules|
    ensures RunRule(p, o, t) == RunRule(q, o, t)
  {
    hide Notify, Check;
  }

  lemma {:induction false} SpanIgnoresEntries(p: Program, q: Program, a: nat, b: nat, checked: bool, t: Track)
    requires q == p.(meta := p.meta.(entries := q.meta.entries)) && a <= b <= |p.meta.rules|
    ensures RunSpan(p, a, b, checked, t) == RunSpan(q, a, b, checked, t)
    decreases b - a
  {
    hide RunRule;
    if a < b {
      var c := if checked then Boundary(Alive, t) else Check(p.env, t);
      if !c.answer.Done? {
        RuleIgnoresEntries(p, q, a, c.t);
        SpanIgnoresEntries(p, q, a + 1, b, false, RunRule(p, a, c.t).t);
      }
    }
  }

  /** The single span over all rules is the same run as one entry per rule. */
  lemma {:induction false} FlatPathEqualsEntryPath(p: Program, observing: bool)
    requires Ungrouped(p.meta) && p.meta.entries == [] && WellFormed(p.meta)
    ensures WellFormed(Spelled(p).meta) && Interpret(Spelled(p), observing) == Interpret(p, observing)
  {
    var q := Spelled(p);
    SingletonsTile(q.meta, 0);
    if p.meta.rules == [] {
      assert q == p;
    } else {
      assert EntriesOf(q.meta) == Singletons(|p.meta.rules|);
      var c := Check(p.env, Notify(p.env, ExecutionStarted(StartCounts(p.meta)), Track([], observing, [])));
      PseudoEntryRun(p, c.t);
      SingletonsRun(q, 0, c.t);
      SpanIgnoresEntries(p, q, 0, |p.meta.rules|, false, c.t);
    }
  }

  // ----- hierarchical views over the flat ledger

  /** The number of top-level views: compiled entries, or rules when there are no groups. */
  function EntryCount(r: Result): nat {
    if r.meta.entries != [] then |r.meta.entries| else r.counts.total
  }

  function EntryAt(r: Result, order: nat): CompiledEntry
    requires order < EntryCount(r)
  {
    if r.meta.entries != [] then r.meta.entries[order] else CompiledEntry(order, order + 1, None)
  }

  /** A top-level view's own rule outcome, unless it is a group's. */
  function EntryRule(r: Result, e: CompiledEntry): Option<RuleView>
    requires r.Indexed() && (e.group.None? ==> e.start < |r.meta.rules|)
  {
    if e.group.Some? then None else Some(r.RuleAt(e.start))
  }

  /** A group's member outcomes; none for a rule. */
  function Members(r: Result, e: CompiledEntry): seq<RuleView>
    requires r.Indexed() && (e.group.Some? ==> e.start <= e.end <= |r.meta.rules|)
  {
    if e.group.None? then [] else seq(e.end - e.start, k requires 0 <= k < e.end - e.start => r.RuleAt(e.start + k))
  }

  predicate InRange(r: Result, e: CompiledEntry) {
    e.start <= e.end <= |r.meta.rules| && (e.group.None? ==> e.start < |r.meta.rules|)
  }

  /** What a reader of one top-level view sees: its rule, or its members. */
  function ViewsBelow(r: Result, e: CompiledEntry): seq<RuleView>
    requires r.Indexed() && InRange(r, e)
  {
    (match EntryRule(r, e) case Some(v) => [v] case None => []) + Members(r, e)
  }

  function ViewsFrom(r: Result, start: nat): seq<RuleView>
    requires r.Indexed() && start <= |r.meta.rules|
  {
    seq(|r.meta.rules| - start, k requires 0 <= k < |r.meta.rules| - start => r.RuleAt(start + k))
  }

  ghost predicate EntriesInRange(r: Result) {
    forall order :: 0 <= order < EntryCount(r) ==> InRange(r, EntryAt(r, order))
  }

  function Listed(r: Result, from: nat): seq<RuleView>
    requires r.Indexed() && EntriesInRange(r) && from <= EntryCount(r)
    decreases EntryCount(r) - from
  {
    if from == EntryCount(r) then [] else ViewsBelow(r, EntryAt(r, from)) + Listed(r, from + 1)
  }

  lemma {:induction false} TiledInRange(r: Result, i: nat, start: nat, g: nat)
    requires i <= |r.meta.entries| && Tiled(r.meta, r.meta.entries, i, start, g) && SingleRules(r.meta)
    ensures forall k :: i <= k < |r.meta.entries| ==> InRange(r, r.meta.entries[k])
    decreases |r.meta.entries| - i
  {
    if i < |r.meta.entries| {
      var e := r.meta.entries[i];
      TiledInRange(r, i + 1, e.end, if e.group.Some? then g + 1 else g);
    }
  }

  /** The views of an entry that holds one rule, or a group, are those of its range. */
  lemma {:induction false} ViewsThen(r: Result, e: CompiledEntry)
    requires r.Indexed() && InRange(r, e) && (e.group.None? ==> e.end == e.start + 1)
    ensures ViewsBelow(r, e) + ViewsFrom(r, e.end) == ViewsFrom(r, e.start)
  {}

  lemma {:induction false} ListedFrom(r: Result, i: nat, start: nat, g: nat)
    requires r.Indexed() && EntriesInRange(r) && r.meta.entries != [] && i <= |r.meta.entries| && SingleRules(r.meta)
    requires Tiled(r.meta, r.meta.entries, i, start, g) && start <= |r.meta.rules|
    ensures Listed(r, i) == ViewsFrom(r, start)
    decreases |r.meta.entries| - i
  {
    if i < |r.meta.entries| {
      var e := r.meta.entries[i];
      ListedFrom(r, i + 1, e.end, if e.group.Some? then g + 1 else g);
      ViewsThen(r, e);
    }
  }

  lemma {:induction false} ListedFlat(r: Result, i: nat)
    requires r.Indexed() && EntriesInRange(r) && r.meta.entries == []
    requires r.counts.total == |r.meta.rules| && i <= |r.meta.rules|
    ensures Listed(r, i) == ViewsFrom(r, i)
    decreases |r.meta.rules| - i
  {
    if i < |r.meta.rules| {
      ListedFlat(r, i + 1);
      ViewsThen(r, CompiledEntry(i, i + 1, None));
    }
  }

  /** Walking the top-level views, each with its own rule or its members, lists every rule view once, in flat order. */
  lemma {:induction false} HierarchyListsEveryRule(r: Result)
    requires WellFormed(r.meta) && SingleRules(r.meta) && r.Indexed() && r.counts.total == |r.meta.rules|
    ensures EntriesInRange(r) && Listed(r, 0) == ViewsFrom(r, 0)
  {
    if r.meta.entries == [] {
      ListedFlat(r, 0);
    } else {
      TiledInRange(r, 0, 0, 0);
      ListedFrom(r, 0, 0, 0);
    }
  }

  /** So it does for every result of a compiled snapshot. */
  lemma {:induction false} CompiledHierarchyListsEveryRule(
    defs: seq<Validation.Definition>, s: Compilation.Snapshot, r: Result)
    requires Compilation.Faithful(defs, s) && r.meta == s.meta && r.Indexed() && r.counts.total == |r.meta.rules|
    ensures EntriesInRange(r) && Listed(r, 0) == ViewsFrom(r, 0)
  {
    hide Compilation.InOrder, Compilation.Covers, Compilation.Paired, Compilation.Positioned;
    Compilation.StoredRulesAreSingle(defs, s);
    HierarchyListsEveryRule(r);
  }
}
