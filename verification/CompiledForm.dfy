/** The compiler's promises leave no choice: definitions have at most one faithful snapshot, so whatever else
    compilation might do with a rule, a group, an entry, a callback or an index would break one of them. */
module CompiledForm {
  import opened Facts
  import opened Validation
  import opened Compilation

  /** Definitions without groups have no compiled groups, and the other way around. */
  lemma {:induction false} GroupsIffDefined(defs: seq<Definition>, order: seq<nat>, k: nat)
    requires k <= |order| && forall i :: 0 <= i < |order| ==> order[i] < |defs|
    ensures GroupCount(defs, order, k) == 0 <==> forall i :: 0 <= i < k ==> defs[order[i]].TopLevel?
  {
    if k > 0 {
      GroupsIffDefined(defs, order, k - 1);
    }
  }

  /** Every group that is defined is compiled, in a snapshot that keeps the promises. */
  lemma {:induction false} NoGroupIsDropped(defs: seq<Definition>, s: Snapshot, index: nat)
    requires Faithful(defs, s) && index < |defs| && defs[index].Grouped?
    ensures exists g :: 0 <= g < |s.meta.groups| && s.meta.groups[g].registrationIndex == index
  {
    hide TopOrder, InOrder, Covers, Paired, IndexesRules, IndexesGroups;
    var order, m := TopOrder(defs), s.meta;
    assert index in order;
    var k :| 0 <= k < |order| && order[k] == index;
    GroupsIffDefined(defs, order, |order|);
    assert Spans(defs, order, m, k);
    var g := m.entries[k].group.value;
    assert Describes(defs, order, m, g);
  }

  // ----- rules, group memberships and entries

  /** Rules tiled by the same entries belong to the same groups. */
  lemma {:induction false} SameMemberships(
    a: Metadata, b: Metadata, entries: seq<CompiledEntry>, i: nat, start: nat, g: nat, o: nat)
    requires i <= |entries| && Tiled(a, entries, i, start, g) && Tiled(b, entries, i, start, g)
    requires start <= o < |a.rules| == |b.rules|
    ensures a.rules[o].group == b.rules[o].group
    decreases |entries| - i
  {
    if i < |entries| && entries[i].end <= o {
      SameMemberships(a, b, entries, i + 1, entries[i].end, if entries[i].group.Some? then g + 1 else g, o);
    }
  }

  /** Entries that tile, each spanning its definition's rules, are determined one after the other. */
  lemma {:induction false} SameEntries(
    defs: seq<Definition>, order: seq<nat>, a: Metadata, b: Metadata, i: nat, start: nat, g: nat, k: nat)
    requires Proper(defs, order) && i <= k < |order| == |a.entries| == |b.entries|
    requires forall j :: 0 <= j < |order| ==> Spans(defs, order, a, j) && Spans(defs, order, b, j)
    requires Tiled(a, a.entries, i, start, g) && Tiled(b, b.entries, i, start, g)
    ensures a.entries[k] == b.entries[k]
    decreases k - i
  {
    hide Proper;
    assert Spans(defs, order, a, i) && Spans(defs, order, b, i);
    if i < k {
      SameEntries(defs, order, a, b, i + 1, a.entries[i].end, if a.entries[i].group.Some? then g + 1 else g, k);
    }
  }

  /** Each group belongs to an entry. */
  lemma {:induction false} GroupHasEntry(m: Metadata, i: nat, start: nat, g: nat, wanted: nat) returns (k: nat)
    requires i <= |m.entries| && Tiled(m, m.entries, i, start, g) && g <= wanted < |m.groups|
    ensures k < |m.entries| && m.entries[k].group == Some(wanted)
    decreases |m.entries| - i
  {
    var e := m.entries[i];
    if e.group == Some(wanted) {
      k := i;
    } else {
      k := GroupHasEntry(m, i + 1, e.end, if e.group.Some? then g + 1 else g, wanted);
    }
  }

  lemma {:induction false} SameGroups(defs: seq<Definition>, order: seq<nat>, a: Metadata, b: Metadata, g: nat)
    requires Positioned(defs, order, a) && Positioned(defs, order, b) && WellFormed(a)
    requires a.entries == b.entries && g < |a.groups|
    ensures g < |b.groups| && a.groups[g] == b.groups[g]
  {
    hide Proper, Placed;
    var k := GroupHasEntry(a, 0, 0, 0, g);
    assert Spans(defs, order, a, k) && Spans(defs, order, b, k);
    assert Describes(defs, order, a, g) && Describes(defs, order, b, g);
  }

  lemma {:induction false} SameTiling(defs: seq<Definition>, order: seq<nat>, a: Metadata, b: Metadata)
    requires Positioned(defs, order, a) && Positioned(defs, order, b) && WellFormed(a) && WellFormed(b)
    requires |a.rules| == |b.rules|
    ensures a.entries == b.entries && a.groups == b.groups
    ensures forall o :: 0 <= o < |a.rules| ==> a.rules[o].group == b.rules[o].group
  {
    hide Proper, Placed, Describes, Spans;
    if a.groups != [] {
      forall k | 0 <= k < |order| ensures a.entries[k] == b.entries[k] {
        SameEntries(defs, order, a, b, 0, 0, 0, k);
      }
    }
    assert a.entries == b.entries && EntriesOf(a) == EntriesOf(b);
    forall g | 0 <= g < |a.groups| ensures a.groups[g] == b.groups[g] {
      SameGroups(defs, order, a, b, g);
    }
    forall o | 0 <= o < |a.rules| ensures a.rules[o].group == b.rules[o].group {
      SameMemberships(a, b, EntriesOf(a), 0, 0, 0, o);
    }
  }

  // ----- identities

  /** A list of distinct identities has one exact index. */
  lemma {:induction false} SameIndex(a: map<RuleId, nat>, b: map<RuleId, nat>, rules: seq<RuleMeta>)
    requires IndexesRules(a, rules) && IndexesRules(b, rules)
    ensures a == b
  {
    forall id ensures id in a <==> id in b {
      assert id in a ==> rules[a[id]].id in b;
      assert id in b ==> rules[b[id]].id in a;
    }
    forall id | id in a ensures a[id] == b[id] {
      assert b[rules[a[id]].id] == a[id];
    }
  }

  lemma {:induction false} SameGroupIndex(a: map<GroupId, nat>, b: map<GroupId, nat>, groups: seq<GroupMeta>)
    requires IndexesGroups(a, groups) && IndexesGroups(b, groups)
    ensures a == b
  {
    forall id ensures id in a <==> id in b {
      assert id in a ==> groups[a[id]].id in b;
      assert id in b ==> groups[b[id]].id in a;
    }
    forall id | id in a ensures a[id] == b[id] {
      assert b[groups[a[id]].id] == a[id];
    }
  }

  // ----- the whole snapshot

  lemma {:induction false} SameRules(defs: seq<Definition>, order: seq<nat>, a: seq<RuleMeta>, b: seq<RuleMeta>)
    requires Proper(defs, order) && Placed(order, |order|, a) && Placed(order, |order|, b)
    requires InOrder(defs, a) && Covers(defs, a) && InOrder(defs, b) && Covers(defs, b) && |a| == |b|
    requires forall o :: 0 <= o < |a| ==> a[o].group == b[o].group
    ensures a == b
  {
    hide InOrder, Covers;
    OrderIsUnique(defs, a, b);
    PlacesDiffer(defs, order);
    forall o | 0 <= o < |a| ensures a[o] == b[o] {
      assert Places(a)[o] == Places(b)[o];
    }
  }

  lemma {:induction false} SameCallbacks(
    defs: seq<Definition>, rules: seq<RuleMeta>, a: seq<Callbacks>, b: seq<Callbacks>)
    requires Paired(defs, rules, a) && Paired(defs, rules, b)
    ensures a == b
  {}

  /** Definitions determine the snapshot: two that keep the compiler's promises are the same. */
  lemma {:induction false} FaithfulIsUnique(defs: seq<Definition>, s: Snapshot, t: Snapshot)
    requires Faithful(defs, s) && Faithful(defs, t)
    ensures s == t
  {
    hide TopOrder, InOrder, Covers, Paired, IndexesRules, IndexesGroups, WellFormed, Placed, Proper, Describes, Spans,
         Places;
    var order := TopOrder(defs);
    OrderIsUnique(defs, s.meta.rules, t.meta.rules);
    assert |Places(s.meta.rules)| == |Places(t.meta.rules)|;
    SameTiling(defs, order, s.meta, t.meta);
    SameRules(defs, order, s.meta.rules, t.meta.rules);
    SameIndex(s.meta.byID, t.meta.byID, s.meta.rules);
    SameGroupIndex(s.meta.byGroupID, t.meta.byGroupID, s.meta.groups);
    SameCallbacks(defs, s.meta.rules, s.callbacks, t.callbacks);
  }
}
