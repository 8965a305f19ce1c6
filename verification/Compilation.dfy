/** Compilation: two levels of stable sorting, groups flattened into contiguous ranges, and the identity indexes. */
module Compilation {
  import opened Facts
  import opened Validation
  import StableSort

  datatype Callbacks = Callbacks(condition: Option<nat>, action: Option<nat>)

  datatype Snapshot = Snapshot(meta: Metadata, callbacks: seq<Callbacks>)

  datatype Compiled = Accepted(snapshot: Snapshot) | Rejected(error: ValidationError)

  function PriorityOf(d: Definition): int {
    match d
    case TopLevel(rule) => rule.priority
    case Grouped(_, _, priority, _) => priority
  }

  /** Registration indexes in compiled top-level order. */
  function TopOrder(defs: seq<Definition>): (order: seq<nat>)
    ensures |order| == |defs|
  {
    StableSort.Sort(Indexes(|defs|), TopPriority(defs))
  }

  function Indexes(n: nat): (all: seq<nat>)
    ensures |all| == n && forall i :: 0 <= i < n ==> all[i] == i
  {
    seq(n, i requires 0 <= i < n => i)
  }

  function TopPriority(defs: seq<Definition>): nat -> int {
    (i: nat) => if i < |defs| then PriorityOf(defs[i]) else 0
  }

  // ----- the flattened rules

  function MemberMetas(members: seq<RuleDef>, index: nat, top: nat, g: nat): seq<RuleMeta> {
    seq(|members|, m requires 0 <= m < |members| =>
      RuleMeta(members[m].id, members[m].priority, index, top, m, Some(g)))
  }

  const PRIORITY := (r: RuleMeta) => r.priority

  /** The rules of one definition, in compiled order. */
  function EntryRules(d: Definition, index: nat, top: nat, g: nat): seq<RuleMeta> {
    match d
    case TopLevel(rule) => [RuleMeta(rule.id, rule.priority, index, top, 0, None)]
    case Grouped(_, _, _, members) => StableSort.Sort(MemberMetas(members, index, top, g), PRIORITY)
  }

  /** The groups among the first `k` compiled top-level entries. */
  function GroupCount(defs: seq<Definition>, order: seq<nat>, k: nat): nat
    requires k <= |order| && forall i :: 0 <= i < |order| ==> order[i] < |defs|
  {
    if k == 0 then 0 else GroupCount(defs, order, k - 1) + (if defs[order[k - 1]].Grouped? then 1 else 0)
  }

  function FlatRules(defs: seq<Definition>, order: seq<nat>, k: nat): seq<RuleMeta>
    requires k <= |order| && forall i :: 0 <= i < |order| ==> order[i] < |defs|
  {
    if k == 0 then []
    else
      FlatRules(defs, order, k - 1)
      + EntryRules(defs[order[k - 1]], order[k - 1], k - 1, GroupCount(defs, order, k - 1))
  }

  /** The definition a compiled rule came from. */
  predicate Locates(defs: seq<Definition>, r: RuleMeta) {
    && r.registrationIndex < |defs|
    && match defs[r.registrationIndex]
       case TopLevel(_) => r.memberIndex == 0
       case Grouped(_, _, _, members) => r.memberIndex < |members|
  }

  function Source(defs: seq<Definition>, r: RuleMeta): RuleDef
    requires Locates(defs, r)
  {
    match defs[r.registrationIndex]
    case TopLevel(rule) => rule
    case Grouped(_, _, _, members) => members[r.memberIndex]
  }

  /** The first definition's own priority, a rule's or a group's, is the greater one. */
  ghost predicate Above(a: Definition, b: Definition) {
    match (a, b)
    case (TopLevel(r), TopLevel(q)) => q.priority < r.priority
    case (TopLevel(r), Grouped(_, _, priority, _)) => priority < r.priority
    case (Grouped(_, _, priority, _), TopLevel(q)) => q.priority < priority
    case (Grouped(_, _, priority, _), Grouped(_, _, other, _)) => other < priority
  }

  /** The compiled order of two rules: top-level priority, registration, member priority, member registration. */
  ghost predicate Precedes(defs: seq<Definition>, a: RuleMeta, b: RuleMeta)
    requires Locates(defs, a) && Locates(defs, b)
  {
    var x, y := defs[a.registrationIndex], defs[b.registrationIndex];
    || Above(x, y)
    || (!Above(y, x) && a.registrationIndex < b.registrationIndex)
    || (a.registrationIndex == b.registrationIndex
        && (Source(defs, b).priority < Source(defs, a).priority
            || (Source(defs, a).priority == Source(defs, b).priority && a.memberIndex < b.memberIndex)))
  }

  /** A compiled rule list in its specified order, holding each definition's rules exactly once with their own data. */
  ghost predicate InOrder(defs: seq<Definition>, rules: seq<RuleMeta>) {
    && (forall o :: 0 <= o < |rules| ==> Locates(defs, rules[o]))
    && (forall o :: 0 <= o < |rules| ==>
          rules[o].id == Source(defs, rules[o]).id && rules[o].priority == Source(defs, rules[o]).priority)
    && (forall o, q :: 0 <= o < q < |rules| ==> Precedes(defs, rules[o], rules[q]))
  }

  ghost predicate Covers(defs: seq<Definition>, rules: seq<RuleMeta>) {
    forall index: nat, member: nat :: index < |defs| && member < RuleCount(defs[index]) ==> Holds(rules, index, member)
  }

  /** Some compiled rule is the one registered at `index`, as member `member`. */
  ghost predicate Holds(rules: seq<RuleMeta>, index: nat, member: nat) {
    exists o :: 0 <= o < |rules| && rules[o].registrationIndex == index && rules[o].memberIndex == member
  }

  function RuleCount(d: Definition): nat { if d.TopLevel? then 1 else |d.members| }

  // ----- the sorted top-level order

  ghost predicate Permutes(order: seq<nat>, n: nat) {
    && (forall i :: 0 <= i < |order| ==> order[i] < n)
    && (forall x: nat :: x < n ==> x in order)
  }

  ghost predicate TopSorted(defs: seq<Definition>, order: seq<nat>) {
    && (forall i :: 0 <= i < |order| ==> order[i] < |defs|)
    && (forall i, j :: 0 <= i < j < |order| ==>
          var a, b := defs[order[i]], defs[order[j]];
          Above(a, b) || (!Above(b, a) && order[i] < order[j]))
  }

  lemma {:induction false} TopOrderSorted(defs: seq<Definition>)
    ensures Permutes(TopOrder(defs), |defs|) && TopSorted(defs, TopOrder(defs))
  {
    var all := Indexes(|defs|);
    var place := (i: nat) => i;
    var order := TopOrder(defs);
    StableSort.SortOrders(all, TopPriority(defs), place);
    forall x: nat ensures x in order <==> x in all {
      StableSort.SortKeeps(all, TopPriority(defs), x);
    }
    forall x: nat | x < |defs| ensures x in order {
      assert all[x] == x;
    }
    assert forall i :: 0 <= i < |order| ==> order[i] in all;
    TopBefore(defs, order);
  }

  lemma {:induction false} TopBefore(defs: seq<Definition>, order: seq<nat>)
    requires StableSort.Ordered(order, TopPriority(defs), (i: nat) => i)
    requires forall i :: 0 <= i < |order| ==> order[i] < |defs|
    ensures TopSorted(defs, order)
  {
    forall i, j | 0 <= i < j < |order|
      ensures var a, b := defs[order[i]], defs[order[j]];
              Above(a, b) || (!Above(b, a) && order[i] < order[j])
    {
      assert StableSort.Before(order[i], order[j], TopPriority(defs), (i: nat) => i);
    }
  }

  // ----- the rules of one definition

  /** Rules of one definition, sorted among themselves, at the given place. */
  ghost predicate EntryOrdered(d: Definition, index: nat, top: nat, g: nat, rules: seq<RuleMeta>) {
    && |rules| == RuleCount(d)
    && (forall k :: 0 <= k < |rules| ==>
          var r := rules[k];
          && r.registrationIndex == index && r.topLevelOrder == top && r.memberIndex < RuleCount(d)
          && r.group == (if d.TopLevel? then None else Some(g))
          && (match d case TopLevel(rule) => r.id == rule.id && r.priority == rule.priority
                      case Grouped(_, _, _, ms) =>
                        r.id == ms[r.memberIndex].id && r.priority == ms[r.memberIndex].priority))
    && (forall j, k :: 0 <= j < k < |rules| ==>
          || rules[k].priority < rules[j].priority
          || (rules[j].priority == rules[k].priority && rules[j].memberIndex < rules[k].memberIndex))
    && (forall m: nat :: m < RuleCount(d) ==> Holds(rules, index, m))
  }

  lemma {:induction false} EntryRulesOrdered(d: Definition, index: nat, top: nat, g: nat)
    ensures EntryOrdered(d, index, top, g, EntryRules(d, index, top, g))
  {
    var rules := EntryRules(d, index, top, g);
    if d.TopLevel? {
      assert rules[0].memberIndex == 0;
      assert Holds(rules, index, 0);
    } else {
      var metas := MemberMetas(d.members, index, top, g);
      var place := (r: RuleMeta) => r.memberIndex;
      StableSort.SortOrders(metas, PRIORITY, place);
      forall k | 0 <= k < |rules| ensures rules[k] in metas {
        StableSort.SortKeeps(metas, PRIORITY, rules[k]);
      }
      forall m: nat | m < |d.members| ensures Holds(rules, index, m) {
        StableSort.SortKeeps(metas, PRIORITY, metas[m]);
        var k :| 0 <= k < |rules| && rules[k] == metas[m];
      }
      forall j, k | 0 <= j < k < |rules|
        ensures rules[k].priority < rules[j].priority
                || (rules[j].priority == rules[k].priority && rules[j].memberIndex < rules[k].memberIndex)
      {
        assert StableSort.Before(rules[j], rules[k], PRIORITY, place);
      }
    }
  }

  // ----- all rules

  ghost predicate Proper(defs: seq<Definition>, order: seq<nat>) {
    Permutes(order, |defs|) && TopSorted(defs, order)
  }

  /** Where each compiled rule sits: its top-level position is the place of its definition in the order. */
  ghost predicate Placed(order: seq<nat>, k: nat, rules: seq<RuleMeta>)
    requires k <= |order|
  {
    forall o :: 0 <= o < |rules| ==>
      rules[o].topLevelOrder < k && order[rules[o].topLevelOrder] == rules[o].registrationIndex
  }

  lemma {:induction false} EntryLocates(defs: seq<Definition>, index: nat, top: nat, g: nat)
    requires index < |defs|
    ensures InOrder(defs, EntryRules(defs[index], index, top, g))
    ensures forall r :: r in EntryRules(defs[index], index, top, g) ==>
            r.registrationIndex == index && r.topLevelOrder == top
  {
    EntryRulesOrdered(defs[index], index, top, g);
  }

  lemma {:induction false} FlatInOrder(defs: seq<Definition>, order: seq<nat>, k: nat)
    requires Proper(defs, order) && k <= |order|
    ensures InOrder(defs, FlatRules(defs, order, k)) && Placed(order, k, FlatRules(defs, order, k))
  {
    hide EntryRules, Precedes, Locates, GroupCount;
    if k > 0 {
      FlatInOrder(defs, order, k - 1);
      EntryLocates(defs, order[k - 1], k - 1, GroupCount(defs, order, k - 1));
      JoinInOrder(defs, order, k, FlatRules(defs, order, k - 1),
                  EntryRules(defs[order[k - 1]], order[k - 1], k - 1, GroupCount(defs, order, k - 1)));
    }
  }

  lemma {:induction false} JoinInOrder(
    defs: seq<Definition>, order: seq<nat>, k: nat, before: seq<RuleMeta>, own: seq<RuleMeta>)
    requires Proper(defs, order) && 0 < k <= |order|
    requires InOrder(defs, before) && Placed(order, k - 1, before) && InOrder(defs, own)
    requires forall r :: r in own ==> r.registrationIndex == order[k - 1] && r.topLevelOrder == k - 1
    ensures InOrder(defs, before + own) && Placed(order, k, before + own)
  {
    var all := before + own;
    forall o | 0 <= o < |all|
      ensures Locates(defs, all[o]) && all[o].id == Source(defs, all[o]).id
              && all[o].priority == Source(defs, all[o]).priority
    {
      if o >= |before| {
        assert all[o] == own[o - |before|];
      }
    }
    forall o, q | 0 <= o < q < |all| ensures Precedes(defs, all[o], all[q]) {
      if q < |before| {
        assert Precedes(defs, before[o], before[q]);
      } else {
        assert all[q] == own[q - |before|] && own[q - |before|] in own;
        if o >= |before| {
          assert Precedes(defs, own[o - |before|], own[q - |before|]);
        }
      }
    }
    forall o | 0 <= o < |all|
      ensures all[o].topLevelOrder < k && order[all[o].topLevelOrder] == all[o].registrationIndex
    {
      if o >= |before| {
        assert all[o] == own[o - |before|] && own[o - |before|] in own;
      }
    }
  }

  lemma {:induction false} HoldsMore(before: seq<RuleMeta>, own: seq<RuleMeta>, index: nat, member: nat)
    requires Holds(before, index, member) || Holds(own, index, member)
    ensures Holds(before + own, index, member)
  {
    var all := before + own;
    if Holds(before, index, member) {
      var o :| 0 <= o < |before| && before[o].registrationIndex == index && before[o].memberIndex == member;
      assert all[o] == before[o];
    } else {
      var o :| 0 <= o < |own| && own[o].registrationIndex == index && own[o].memberIndex == member;
      assert all[|before| + o] == own[o];
    }
  }

  lemma {:induction false} FlatHolds(defs: seq<Definition>, order: seq<nat>, k: nat, j: nat, member: nat)
    requires Proper(defs, order) && j < k <= |order| && member < RuleCount(defs[order[j]])
    ensures Holds(FlatRules(defs, order, k), order[j], member)
  {
    var own := EntryRules(defs[order[k - 1]], order[k - 1], k - 1, GroupCount(defs, order, k - 1));
    if j == k - 1 {
      EntryRulesOrdered(defs[order[j]], order[j], j, GroupCount(defs, order, j));
    } else {
      FlatHolds(defs, order, k - 1, j, member);
    }
    HoldsMore(FlatRules(defs, order, k - 1), own, order[j], member);
  }

  lemma {:induction false} FlatCovers(defs: seq<Definition>, order: seq<nat>)
    requires Proper(defs, order)
    ensures Covers(defs, FlatRules(defs, order, |order|))
  {
    forall index: nat, member: nat | index < |defs| && member < RuleCount(defs[index])
      ensures Holds(FlatRules(defs, order, |order|), index, member)
    {
      assert index in order;
      var j :| 0 <= j < |order| && order[j] == index;
      FlatHolds(defs, order, |order|, j, member);
    }
  }

  // ----- the order is unique

  datatype Place = Place(index: nat, member: nat)

  ghost function Places(rules: seq<RuleMeta>): (places: seq<Place>)
    ensures |places| == |rules|
    ensures forall o :: 0 <= o < |rules| ==> places[o] == Place(rules[o].registrationIndex, rules[o].memberIndex)
  {
    seq(|rules|, o requires 0 <= o < |rules| => Place(rules[o].registrationIndex, rules[o].memberIndex))
  }

  ghost function MetaAt(defs: seq<Definition>, a: Place): RuleMeta {
    RuleMeta("", 0, a.index, 0, a.member, None)
  }

  ghost function PlaceOrder(defs: seq<Definition>): (Place, Place) -> bool {
    (a: Place, b: Place) =>
      && Locates(defs, MetaAt(defs, a)) && Locates(defs, MetaAt(defs, b))
      && Precedes(defs, MetaAt(defs, a), MetaAt(defs, b))
  }

  lemma {:induction false} PlaceOrderStrict(defs: seq<Definition>)
    ensures StableSort.StrictOrder(PlaceOrder(defs))
  {}

  lemma {:induction false} SameSource(defs: seq<Definition>, a: RuleMeta, b: RuleMeta)
    requires Locates(defs, a) && Locates(defs, b) && Precedes(defs, a, b)
    ensures PlaceOrder(defs)(Place(a.registrationIndex, a.memberIndex), Place(b.registrationIndex, b.memberIndex))
  {
    var x := MetaAt(defs, Place(a.registrationIndex, a.memberIndex));
    var y := MetaAt(defs, Place(b.registrationIndex, b.memberIndex));
    assert Locates(defs, x) && Source(defs, x) == Source(defs, a);
    assert Locates(defs, y) && Source(defs, y) == Source(defs, b);
    assert Precedes(defs, x, y);
  }

  /** Whatever lists every definition's rules in the specified order lists them as the compiler does. */
  lemma {:induction false} OrderIsUnique(defs: seq<Definition>, a: seq<RuleMeta>, b: seq<RuleMeta>)
    requires InOrder(defs, a) && Covers(defs, a) && InOrder(defs, b) && Covers(defs, b)
    ensures Places(a) == Places(b)
    ensures forall o :: 0 <= o < |a| ==> a[o].id == b[o].id && a[o].priority == b[o].priority
  {
    PlaceOrderStrict(defs);
    PlacesAscend(defs, a);
    PlacesAscend(defs, b);
    forall x: Place ensures x in Places(a) <==> x in Places(b) {
      PlacesMembers(defs, a, x);
      PlacesMembers(defs, b, x);
    }
    StableSort.AscendingIsUnique(Places(a), Places(b), PlaceOrder(defs));
    forall o | 0 <= o < |a| ensures a[o].id == b[o].id && a[o].priority == b[o].priority {
      assert Places(a)[o] == Places(b)[o];
      assert Source(defs, a[o]) == Source(defs, b[o]);
    }
  }

  lemma {:induction false} PlacesAscend(defs: seq<Definition>, rules: seq<RuleMeta>)
    requires InOrder(defs, rules)
    ensures StableSort.Ascending(Places(rules), PlaceOrder(defs))
  {
    forall i, j | 0 <= i < j < |rules| ensures PlaceOrder(defs)(Places(rules)[i], Places(rules)[j]) {
      SameSource(defs, rules[i], rules[j]);
    }
  }

  lemma {:induction false} PlacesMembers(defs: seq<Definition>, rules: seq<RuleMeta>, x: Place)
    requires InOrder(defs, rules) && Covers(defs, rules)
    ensures x in Places(rules) <==> x.index < |defs| && x.member < RuleCount(defs[x.index])
  {
    if x in Places(rules) {
      var o :| 0 <= o < |rules| && Places(rules)[o] == x;
      assert Locates(defs, rules[o]);
    }
    if x.index < |defs| && x.member < RuleCount(defs[x.index]) {
      assert Holds(rules, x.index, x.member);
      var o :| 0 <= o < |rules| && rules[o].registrationIndex == x.index && rules[o].memberIndex == x.member;
      assert Places(rules)[o] == x;
    }
  }

  // ----- entries and groups

  function EntryGroup(defs: seq<Definition>, order: seq<nat>, k: nat): Option<nat>
    requires k < |order| && forall i :: 0 <= i < |order| ==> order[i] < |defs|
  {
    if defs[order[k]].Grouped? then Some(GroupCount(defs, order, k)) else None
  }

  /** The contiguous range of the `k`-th top-level entry. */
  function EntryFor(defs: seq<Definition>, order: seq<nat>, k: nat): CompiledEntry
    requires k < |order| && forall i :: 0 <= i < |order| ==> order[i] < |defs|
  {
    CompiledEntry(|FlatRules(defs, order, k)|, |FlatRules(defs, order, k + 1)|, EntryGroup(defs, order, k))
  }

  function FlatEntries(defs: seq<Definition>, order: seq<nat>, k: nat): (entries: seq<CompiledEntry>)
    requires k <= |order| && forall i :: 0 <= i < |order| ==> order[i] < |defs|
    ensures |entries| == k && forall i :: 0 <= i < k ==> entries[i] == EntryFor(defs, order, i)
  {
    seq(k, i requires 0 <= i < k => EntryFor(defs, order, i))
  }

  /** The group compiled from the `k`-th top-level entry. */
  function GroupFor(defs: seq<Definition>, order: seq<nat>, k: nat): GroupMeta
    requires k < |order| && forall i :: 0 <= i < |order| ==> order[i] < |defs|
    requires defs[order[k]].Grouped?
  {
    var d := defs[order[k]];
    GroupMeta(d.id, d.kind, d.priority, order[k], k, GroupCount(defs, order, k),
              |FlatRules(defs, order, k)|, |FlatRules(defs, order, k + 1)|)
  }

  function FlatGroups(defs: seq<Definition>, order: seq<nat>, k: nat): (groups: seq<GroupMeta>)
    requires k <= |order| && forall i :: 0 <= i < |order| ==> order[i] < |defs|
    ensures |groups| == GroupCount(defs, order, k)
  {
    if k == 0 then []
    else FlatGroups(defs, order, k - 1) + (if defs[order[k - 1]].Grouped? then [GroupFor(defs, order, k - 1)] else [])
  }

  lemma {:induction false} FlatPrefix(defs: seq<Definition>, order: seq<nat>, j: nat, k: nat)
    requires j <= k <= |order| && forall i :: 0 <= i < |order| ==> order[i] < |defs|
    ensures FlatRules(defs, order, j) <= FlatRules(defs, order, k)
    ensures FlatGroups(defs, order, j) <= FlatGroups(defs, order, k)
    ensures GroupCount(defs, order, j) <= GroupCount(defs, order, k)
  {
    hide EntryRules, GroupFor;
    if j < k {
      FlatPrefix(defs, order, j, k - 1);
    }
  }

  lemma {:induction false} FlatGroupsStep(defs: seq<Definition>, order: seq<nat>, k: nat)
    requires k < |order| && forall i :: 0 <= i < |order| ==> order[i] < |defs|
    ensures GroupCount(defs, order, k + 1)
            == GroupCount(defs, order, k) + (if EntryGroup(defs, order, k).Some? then 1 else 0)
    ensures FlatGroups(defs, order, k + 1)
         == FlatGroups(defs, order, k) + (if EntryGroup(defs, order, k).Some? then [GroupFor(defs, order, k)] else [])
  {}

  /** The rules of the `k`-th entry, inside the whole list. */
  lemma {:induction false} EntryRange(defs: seq<Definition>, order: seq<nat>, k: nat)
    requires k < |order| && forall i :: 0 <= i < |order| ==> order[i] < |defs|
    ensures var e := EntryFor(defs, order, k);
            var rules := FlatRules(defs, order, |order|);
            && e.start <= e.end <= |rules|
            && e.end - e.start == RuleCount(defs[order[k]])
            && (forall o :: e.start <= o < e.end ==>
                rules[o].group == e.group && rules[o].registrationIndex == order[k])
            && (e.group.Some? ==>
                  var groups := FlatGroups(defs, order, |order|);
                  e.group.value < |groups| && groups[e.group.value] == GroupFor(defs, order, k))
  {
    hide EntryRules, FlatRules, FlatGroups, GroupFor, GroupCount;
    FlatPrefix(defs, order, k, k + 1);
    FlatPrefix(defs, order, k + 1, |order|);
    FlatRulesStep(defs, order, k);
    FlatGroupsStep(defs, order, k);
    EntryRulesOrdered(defs[order[k]], order[k], k, GroupCount(defs, order, k));
    var own := EntryRules(defs[order[k]], order[k], k, GroupCount(defs, order, k));
    var before, upTo := FlatRules(defs, order, k), FlatRules(defs, order, k + 1);
    var rules := FlatRules(defs, order, |order|);
    forall o | |before| <= o < |upTo|
      ensures rules[o].group == EntryGroup(defs, order, k) && rules[o].registrationIndex == order[k]
    {
      assert rules[o] == upTo[o] == own[o - |before|];
    }
  }

  lemma {:induction false} EntriesTile(defs: seq<Definition>, order: seq<nat>, m: Metadata, k: nat)
    requires k <= |order| && forall i :: 0 <= i < |order| ==> order[i] < |defs|
    requires m.rules == FlatRules(defs, order, |order|) && m.groups == FlatGroups(defs, order, |order|)
    ensures Tiled(m, FlatEntries(defs, order, |order|), k, |FlatRules(defs, order, k)|, GroupCount(defs, order, k))
    decreases |order| - k
  {
    hide EntryRules, FlatRules, FlatGroups, GroupCount, FlatEntries;
    if k < |order| {
      EntriesTile(defs, order, m, k + 1);
      EntryRange(defs, order, k);
      FlatGroupsStep(defs, order, k);
      assert FlatEntries(defs, order, |order|)[k] == EntryFor(defs, order, k);
    }
  }

  lemma {:induction false} NoGroups(defs: seq<Definition>, order: seq<nat>, k: nat)
    requires k <= |order| && forall i :: 0 <= i < |order| ==> order[i] < |defs|
    requires GroupCount(defs, order, k) == 0
    ensures forall o :: 0 <= o < |FlatRules(defs, order, k)| ==> FlatRules(defs, order, k)[o].group == None
  {
    if k > 0 {
      NoGroups(defs, order, k - 1);
    }
  }

  /** What execution relies on: the compiled metadata tiles its rules, and every identity is nonempty. */
  lemma {:induction false} CompiledIsWellFormed(defs: seq<Definition>, order: seq<nat>, m: Metadata)
    requires Proper(defs, order) && Acceptable(Occurrences(defs, |defs|))
    requires m.rules == FlatRules(defs, order, |order|) && m.groups == FlatGroups(defs, order, |order|)
    requires m.entries == if m.groups == [] then [] else FlatEntries(defs, order, |order|)
    ensures WellFormed(m)
  {
    EntriesTile(defs, order, m, 0);
    FlatInOrder(defs, order, |order|);
    forall o | 0 <= o < |m.rules| ensures m.rules[o].id != "" {
      var _ := SourceOccurs(defs, |defs|, m.rules[o]);
    }
    if m.groups == [] {
      NoGroups(defs, order, |order|);
      assert Tiled(m, EntriesOf(m), 1, |m.rules|, 0);
    } else {
      FlatPrefix(defs, order, 0, |order|);
    }
  }

  // ----- identities

  /** The registered rule behind a compiled one. */
  lemma {:induction false} SourceOccurs(defs: seq<Definition>, n: nat, r: RuleMeta) returns (k: nat)
    requires n <= |defs| && Locates(defs, r) && r.registrationIndex < n
    ensures k < |Occurrences(defs, n)|
    ensures var o := Occurrences(defs, n)[k];
            o.index == r.registrationIndex && o.member == r.memberIndex && o.rule == Source(defs, r)
  {
    var before, own := Occurrences(defs, n - 1), OccurrencesOf(defs[n - 1], n - 1);
    if r.registrationIndex == n - 1 {
      k := |before| + r.memberIndex;
      assert Occurrences(defs, n)[k] == own[r.memberIndex];
    } else {
      k := SourceOccurs(defs, n - 1, r);
      assert Occurrences(defs, n)[k] == before[k];
    }
  }

  lemma {:induction false} OccurrenceIsPlaced(defs: seq<Definition>, n: nat, k: nat)
    requires n <= |defs| && k < |Occurrences(defs, n)|
    ensures var o := Occurrences(defs, n)[k];
            o.index < n && o.member < RuleCount(defs[o.index])
            && o.rule == (match defs[o.index] case TopLevel(rule) => rule case Grouped(_, _, _, ms) => ms[o.member])
  {
    var before, own := Occurrences(defs, n - 1), OccurrencesOf(defs[n - 1], n - 1);
    if k < |before| {
      OccurrenceIsPlaced(defs, n - 1, k);
      assert Occurrences(defs, n)[k] == before[k];
    } else {
      assert Occurrences(defs, n)[k] == own[k - |before|];
    }
  }

  ghost predicate DistinctIds(rules: seq<RuleMeta>) {
    forall o, q :: 0 <= o < q < |rules| ==> rules[o].id != rules[q].id
  }

  lemma {:induction false} AcceptedIdsDistinct(defs: seq<Definition>, rules: seq<RuleMeta>)
    requires InOrder(defs, rules) && Acceptable(Occurrences(defs, |defs|))
    ensures DistinctIds(rules)
  {
    forall o, q | 0 <= o < q < |rules| ensures rules[o].id != rules[q].id {
      assert Precedes(defs, rules[o], rules[q]);
      var j := SourceOccurs(defs, |defs|, rules[o]);
      var k := SourceOccurs(defs, |defs|, rules[q]);
      assert j != k;
    }
  }

  ghost predicate IndexesRules(byID: map<RuleId, nat>, rules: seq<RuleMeta>) {
    && (forall o :: 0 <= o < |rules| ==> rules[o].id in byID && byID[rules[o].id] == o)
    && (forall id :: id in byID ==> byID[id] < |rules| && rules[byID[id]].id == id)
  }

  ghost predicate IndexesGroups(byGroupID: map<GroupId, nat>, groups: seq<GroupMeta>) {
    && (forall g :: 0 <= g < |groups| ==> groups[g].id in byGroupID && byGroupID[groups[g].id] == g)
    && (forall id :: id in byGroupID ==> byGroupID[id] < |groups| && groups[byGroupID[id]].id == id)
  }

  // ----- the compiler

  /** Each rule keeps its own callbacks. */
  ghost predicate Paired(defs: seq<Definition>, rules: seq<RuleMeta>, callbacks: seq<Callbacks>) {
    && |callbacks| == |rules|
    && forall o :: 0 <= o < |rules| ==>
         && Locates(defs, rules[o])
         && callbacks[o].condition == Source(defs, rules[o]).condition
         && callbacks[o].action == Source(defs, rules[o]).action
  }

  /** Positions are current for the rules placed so far, and no identity was added or dropped. */
  ghost predicate Current(byID: map<RuleId, nat>, rules: seq<RuleMeta>, ids: set<RuleId>) {
    byID.Keys == ids && forall o :: 0 <= o < |rules| ==> rules[o].id in byID && byID[rules[o].id] == o
  }

  /** Point the index and the callback slots of the rules `from..` at their compiled order. */
  method PlaceRules(
    defs: seq<Definition>, rules: seq<RuleMeta>, from: nat, byID: map<RuleId, nat>, callbacks: seq<Callbacks>)
    returns (byID': map<RuleId, nat>, callbacks': seq<Callbacks>)
    requires from <= |rules| && InOrder(defs, rules) && DistinctIds(rules)
    requires Paired(defs, rules[..from], callbacks) && Current(byID, rules[..from], byID.Keys)
    requires forall o :: 0 <= o < |rules| ==> rules[o].id in byID
    ensures Paired(defs, rules, callbacks') && Current(byID', rules, byID.Keys)
  {
    byID', callbacks' := byID, callbacks;
    for order := from to |rules|
      invariant Paired(defs, rules[..order], callbacks') && Current(byID', rules[..order], byID.Keys)
    {
      var definition := Source(defs, rules[order]);
      callbacks' := callbacks' + [Callbacks(definition.condition, definition.action)];
      byID' := byID'[rules[order].id := order];
    }
    assert rules[..|rules|] == rules;
  }

  lemma {:induction false} KeysAreRules(
    defs: seq<Definition>, rules: seq<RuleMeta>, first: map<RuleId, nat>, id: RuleId)
    requires InOrder(defs, rules) && Covers(defs, rules) && Acceptable(Occurrences(defs, |defs|))
    requires FirstIndexes(first, Occurrences(defs, |defs|))
    ensures id in first <==> exists o :: 0 <= o < |rules| && rules[o].id == id
  {
    var os := Occurrences(defs, |defs|);
    FirstIndexNone(os, id);
    assert FirstIndex(os, id) == if id in first then Some(first[id]) else None;
    if id in first {
      var k :| 0 <= k < |os| && Registers(os[k], id);
      OccurrenceIsPlaced(defs, |defs|, k);
      assert Holds(rules, os[k].index, os[k].member);
      var o :| 0 <= o < |rules| && rules[o].registrationIndex == os[k].index && rules[o].memberIndex == os[k].member;
      assert rules[o].id == Source(defs, rules[o]).id;
    }
    if exists o :: 0 <= o < |rules| && rules[o].id == id {
      var o :| 0 <= o < |rules| && rules[o].id == id;
      RuleIsKnown(defs, rules[o], first);
    }
  }

  lemma {:induction false} RuleIsKnown(defs: seq<Definition>, r: RuleMeta, first: map<RuleId, nat>)
    requires Locates(defs, r) && r.id == Source(defs, r).id && Acceptable(Occurrences(defs, |defs|))
    requires FirstIndexes(first, Occurrences(defs, |defs|))
    ensures r.id in first
  {
    var os := Occurrences(defs, |defs|);
    FirstIndexNone(os, r.id);
    assert FirstIndex(os, r.id) == if r.id in first then Some(first[r.id]) else None;
    var k := SourceOccurs(defs, |defs|, r);
    assert Registers(os[k], r.id);
  }

  /** Every key is some rule's identity, so positions that are current make the index exact: nothing is left over from
      validation, where the map held registration indexes. */
  lemma {:induction false} CurrentIsExact(
    defs: seq<Definition>, rules: seq<RuleMeta>, first: map<RuleId, nat>, byID: map<RuleId, nat>)
    requires InOrder(defs, rules) && Covers(defs, rules) && Acceptable(Occurrences(defs, |defs|))
    requires FirstIndexes(first, Occurrences(defs, |defs|)) && Current(byID, rules, first.Keys)
    ensures IndexesRules(byID, rules)
  {
    hide InOrder, Covers, Acceptable, FirstIndexes;
    forall id | id in byID ensures byID[id] < |rules| && rules[byID[id]].id == id {
      KeysAreRules(defs, rules, first, id);
      var o :| 0 <= o < |rules| && rules[o].id == id;
      assert byID[rules[o].id] == o;
    }
  }

  ghost predicate CurrentGroups(byGroupID: map<GroupId, nat>, groups: seq<GroupMeta>, ids: set<GroupId>) {
    byGroupID.Keys == ids && forall g :: 0 <= g < |groups| ==> groups[g].id in byGroupID && byGroupID[groups[g].id] == g
  }

  lemma {:induction false} GroupPlaced(defs: seq<Definition>, order: seq<nat>, k: nat, j: nat) returns (g: nat)
    requires j < k <= |order| && (forall i :: 0 <= i < |order| ==> order[i] < |defs|) && defs[order[j]].Grouped?
    ensures g < |FlatGroups(defs, order, k)| && FlatGroups(defs, order, k)[g] == GroupFor(defs, order, j)
  {
    hide GroupFor, EntryRules;
    if j == k - 1 {
      g := GroupCount(defs, order, j);
    } else {
      g := GroupPlaced(defs, order, k - 1, j);
    }
  }

  lemma {:induction false} GroupSource(defs: seq<Definition>, order: seq<nat>, k: nat, g: nat) returns (j: nat)
    requires k <= |order| && (forall i :: 0 <= i < |order| ==> order[i] < |defs|) && g < |FlatGroups(defs, order, k)|
    ensures j < k && defs[order[j]].Grouped? && FlatGroups(defs, order, k)[g] == GroupFor(defs, order, j)
    ensures g == GroupCount(defs, order, j)
  {
    hide GroupFor, EntryRules;
    if g < |FlatGroups(defs, order, k - 1)| {
      j := GroupSource(defs, order, k - 1, g);
    } else {
      j := k - 1;
    }
  }

  lemma {:induction false} FirstGroupIs(defs: seq<Definition>, n: nat, id: GroupId)
    requires n <= |defs| && FirstGroup(defs, n, id).Some?
    ensures ValidId(id) && exists k :: 0 <= k < n && defs[k].Grouped? && defs[k].id == id
  {
    if FirstGroup(defs, n - 1, id).Some? {
      FirstGroupIs(defs, n - 1, id);
    }
  }

  lemma {:induction false} CurrentGroupsExact(
    defs: seq<Definition>, order: seq<nat>, first: map<GroupId, nat>, byGroupID: map<GroupId, nat>)
    requires Proper(defs, order) && FirstGroups(first, defs, |defs|)
    requires CurrentGroups(byGroupID, FlatGroups(defs, order, |order|), first.Keys)
    ensures IndexesGroups(byGroupID, FlatGroups(defs, order, |order|))
  {
    var groups := FlatGroups(defs, order, |order|);
    hide FlatGroups, GroupCount, EntryRules, FlatRules;
    forall id | id in byGroupID ensures byGroupID[id] < |groups| && groups[byGroupID[id]].id == id {
      assert FirstGroup(defs, |defs|, id) == Some(first[id]);
      FirstGroupIs(defs, |defs|, id);
      var k :| 0 <= k < |defs| && defs[k].Grouped? && defs[k].id == id;
      assert k in order;
      var j :| 0 <= j < |order| && order[j] == k;
      var g := GroupPlaced(defs, order, |order|, j);
      assert groups[g].id == id;
    }
  }

  /** The identities of the groups compiled so far are known to the validator and differ from the next one. */
  lemma {:induction false} NextGroupIsNew(defs: seq<Definition>, order: seq<nat>, first: map<GroupId, nat>, k: nat)
    requires Proper(defs, order) && AcceptableGroups(defs, |defs|) && FirstGroups(first, defs, |defs|)
    requires k < |order| && defs[order[k]].Grouped?
    ensures defs[order[k]].id in first
    ensures forall g :: 0 <= g < |FlatGroups(defs, order, k)| ==> FlatGroups(defs, order, k)[g].id != defs[order[k]].id
  {
    var id := defs[order[k]].id;
    FirstGroupNone(defs, |defs|, id);
    assert FirstGroup(defs, |defs|, id) == if id in first then Some(first[id]) else None;
    forall g | 0 <= g < |FlatGroups(defs, order, k)| ensures FlatGroups(defs, order, k)[g].id != id {
      var j := GroupSource(defs, order, k, g);
      assert order[j] != order[k];
      if order[j] < order[k] {
        assert defs[order[j]].id != defs[order[k]].id;
      } else {
        assert defs[order[k]].id != defs[order[j]].id;
      }
    }
  }

  /** The compiler's promises about what it accepts. */
  ghost predicate Faithful(defs: seq<Definition>, s: Snapshot) {
    && WellFormed(s.meta)
    && InOrder(defs, s.meta.rules) && Covers(defs, s.meta.rules)
    && Paired(defs, s.meta.rules, s.callbacks)
    && IndexesRules(s.meta.byID, s.meta.rules) && IndexesGroups(s.meta.byGroupID, s.meta.groups)
    && Positioned(defs, TopOrder(defs), s.meta)
  }

  /** Every rule, group and stored entry is at its definition's place in the sorted top-level order, and every group
      that is defined is there. */
  ghost predicate Positioned(defs: seq<Definition>, order: seq<nat>, m: Metadata) {
    && Proper(defs, order) && Placed(order, |order|, m.rules)
    && |m.groups| == GroupCount(defs, order, |order|)
    && (forall g :: 0 <= g < |m.groups| ==> Describes(defs, order, m, g))
    && (m.groups == [] ==> m.entries == [])
    && (m.groups != [] ==>
          |m.entries| == |order| && forall k :: 0 <= k < |order| ==> Spans(defs, order, m, k))
  }

  /** A stored entry is one definition's: the range of exactly its rules, and its group if it is one. */
  ghost predicate Spans(defs: seq<Definition>, order: seq<nat>, m: Metadata, k: nat)
    requires Proper(defs, order) && k < |order| == |m.entries|
  {
    var e := m.entries[k];
    && e.start <= e.end <= |m.rules| && e.end - e.start == RuleCount(defs[order[k]])
    && (forall o :: e.start <= o < e.end ==> m.rules[o].topLevelOrder == k && m.rules[o].group == e.group)
    && match e.group
       case None => defs[order[k]].TopLevel?
       case Some(g) =>
         && defs[order[k]].Grouped? && g < |m.groups|
         && m.groups[g].topLevelOrder == k && m.groups[g].start == e.start && m.groups[g].end == e.end
  }

  /** A compiled group carries its definition and its place, and its range holds exactly that definition's rules. */
  ghost predicate Describes(defs: seq<Definition>, order: seq<nat>, m: Metadata, g: nat)
    requires g < |m.groups|
  {
    var group := m.groups[g];
    && group.topLevelOrder < |order| && order[group.topLevelOrder] == group.registrationIndex
    && group.index == g && group.registrationIndex < |defs| && group.start <= group.end <= |m.rules|
    && (match defs[group.registrationIndex]
        case TopLevel(_) => false
        case Grouped(id, kind, priority, members) =>
          group.id == id && group.kind == kind && group.priority == priority && group.end - group.start == |members|)
    && (forall o :: group.start <= o < group.end ==>
          m.rules[o].registrationIndex == group.registrationIndex && m.rules[o].group == Some(g))
  }

  lemma {:induction false} GroupsDescribed(defs: seq<Definition>, order: seq<nat>, m: Metadata, g: nat)
    requires Proper(defs, order) && g < |m.groups|
    requires m.rules == FlatRules(defs, order, |order|) && m.groups == FlatGroups(defs, order, |order|)
    ensures Describes(defs, order, m, g)
  {
    hide FlatRules, FlatGroups, EntryRules, GroupCount;
    var j := GroupSource(defs, order, |order|, g);
    EntryRange(defs, order, j);
  }

  /** The compiler's state after the first `k` top-level entries. */
  ghost predicate Building(
    defs: seq<Definition>, order: seq<nat>, k: nat, first: map<RuleId, nat>, firstGroups: map<GroupId, nat>,
    meta: Metadata, callbacks: seq<Callbacks>)
  {
    && Proper(defs, order) && k <= |order|
    && meta.rules == FlatRules(defs, order, k) && meta.groups == FlatGroups(defs, order, k)
    && meta.entries == FlatEntries(defs, order, k)
    && Paired(defs, meta.rules, callbacks)
    && Current(meta.byID, meta.rules, first.Keys) && CurrentGroups(meta.byGroupID, meta.groups, firstGroups.Keys)
  }

  /** The validator's maps, for definitions without issues. */
  ghost predicate Validated(defs: seq<Definition>, first: map<RuleId, nat>, firstGroups: map<GroupId, nat>) {
    && Acceptable(Occurrences(defs, |defs|)) && AcceptableGroups(defs, |defs|)
    && FirstIndexes(first, Occurrences(defs, |defs|)) && FirstGroups(firstGroups, defs, |defs|)
  }

  lemma {:induction false} NextRulesFit(
    defs: seq<Definition>, order: seq<nat>, k: nat, first: map<RuleId, nat>, firstGroups: map<GroupId, nat>)
    requires Proper(defs, order) && k <= |order| && Validated(defs, first, firstGroups)
    ensures var rules := FlatRules(defs, order, k);
            && InOrder(defs, rules) && DistinctIds(rules)
            && forall o :: 0 <= o < |rules| ==> rules[o].id in first
  {
    FlatInOrder(defs, order, k);
    var rules := FlatRules(defs, order, k);
    AcceptedIdsDistinct(defs, rules);
    forall o | 0 <= o < |rules| ensures rules[o].id in first {
      RuleIsKnown(defs, rules[o], first);
    }
  }

  /** Append the rules of one definition in compiled order, and its group under the next group index. */
  method AppendDefinition(
    defs: seq<Definition>, order: seq<nat>, k: nat, meta: Metadata, ghost first: map<RuleId, nat>,
    ghost firstGroups: map<GroupId, nat>)
    returns (rules: seq<RuleMeta>, groups: seq<GroupMeta>, byGroupID: map<GroupId, nat>, group: Option<nat>)
    requires k < |order| && Proper(defs, order) && Validated(defs, first, firstGroups)
    requires meta.rules == FlatRules(defs, order, k) && meta.groups == FlatGroups(defs, order, k)
    requires CurrentGroups(meta.byGroupID, meta.groups, firstGroups.Keys)
    ensures rules == FlatRules(defs, order, k + 1) && groups == FlatGroups(defs, order, k + 1)
    ensures CurrentGroups(byGroupID, groups, firstGroups.Keys) && group == EntryGroup(defs, order, k)
  {
    hide FlatRules, FlatGroups, GroupCount, Acceptable, AcceptableGroups, FirstIndexes, FirstGroups, CurrentGroups;
    var index, start := order[k], |meta.rules|;
    FlatGroupsStep(defs, order, k);
    FlatRulesStep(defs, order, k);
    rules, groups, byGroupID, group := meta.rules, meta.groups, meta.byGroupID, None;
    match defs[index] {
      case TopLevel(rule) =>
        rules := rules + [RuleMeta(rule.id, rule.priority, index, k, 0, None)];
      case Grouped(id, kind, priority, members) =>
        NextGroupIsNew(defs, order, firstGroups, k);
        var g := |groups|;
        rules := rules + StableSort.Sort(MemberMetas(members, index, k, g), PRIORITY);
        groups := groups + [GroupMeta(id, kind, priority, index, k, g, start, start + |members|)];
        byGroupID := byGroupID[id := g];
        NextGroupIndexed(meta.byGroupID, meta.groups, firstGroups.Keys, groups[g]);
        group := Some(g);
    }
  }

  lemma {:induction false} FlatRulesStep(defs: seq<Definition>, order: seq<nat>, k: nat)
    requires k < |order| && forall i :: 0 <= i < |order| ==> order[i] < |defs|
    ensures FlatRules(defs, order, k + 1)
         == FlatRules(defs, order, k) + EntryRules(defs[order[k]], order[k], k, GroupCount(defs, order, k))
  {}

  lemma {:induction false} NextGroupIndexed(
    byGroupID: map<GroupId, nat>, groups: seq<GroupMeta>, ids: set<GroupId>, next: GroupMeta)
    requires CurrentGroups(byGroupID, groups, ids) && next.id in ids
    requires forall g :: 0 <= g < |groups| ==> groups[g].id != next.id
    ensures CurrentGroups(byGroupID[next.id := |groups|], groups + [next], ids)
  {}

  /** Append one top-level entry: its rules in order, its range, its group, and its identities. */
  method CompileEntry(defs: seq<Definition>, order: seq<nat>, k: nat, meta: Metadata, callbacks: seq<Callbacks>,
                      ghost first: map<RuleId, nat>, ghost firstGroups: map<GroupId, nat>)
    returns (meta': Metadata, callbacks': seq<Callbacks>)
    requires k < |order| && Building(defs, order, k, first, firstGroups, meta, callbacks)
             && Validated(defs, first, firstGroups)
    ensures Building(defs, order, k + 1, first, firstGroups, meta', callbacks')
  {
    hide Acceptable, AcceptableGroups, FirstIndexes, FirstGroups, InOrder, Paired, Current, CurrentGroups, EntryRules,
         FlatGroups;
    NextRulesFit(defs, order, k + 1, first, firstGroups);
    FlatPrefix(defs, order, k, k + 1);
    var rules, groups, byGroupID, group := AppendDefinition(defs, order, k, meta, first, firstGroups);
    assert rules[..|meta.rules|] == meta.rules;
    KnownKeys(meta.byID, meta.rules, rules, first);
    var byID;
    byID, callbacks' := PlaceRules(defs, rules, |meta.rules|, meta.byID, callbacks);
    meta' := Metadata(rules, byID, groups, byGroupID, meta.entries + [CompiledEntry(|meta.rules|, |rules|, group)]);
  }

  lemma {:induction false} KnownKeys(
    byID: map<RuleId, nat>, placed: seq<RuleMeta>, rules: seq<RuleMeta>, first: map<RuleId, nat>)
    requires Current(byID, placed, first.Keys) && forall o :: 0 <= o < |rules| ==> rules[o].id in first
    ensures byID.Keys == first.Keys && forall o :: 0 <= o < |rules| ==> rules[o].id in byID
  {
    assert forall id :: id in byID <==> id in byID.Keys;
  }

  lemma {:induction false} EntriesSpan(defs: seq<Definition>, order: seq<nat>, m: Metadata, k: nat)
    requires Proper(defs, order) && k < |order|
    requires m.rules == FlatRules(defs, order, |order|) && m.groups == FlatGroups(defs, order, |order|)
    requires m.entries == FlatEntries(defs, order, |order|)
    ensures Spans(defs, order, m, k)
  {
    hide FlatRules, FlatGroups, FlatEntries, EntryRules, GroupCount;
    EntryRange(defs, order, k);
    FlatInOrder(defs, order, |order|);
    assert m.entries[k] == EntryFor(defs, order, k);
    PlaceOf(defs, order, m.rules, k);
  }

  /** No two places of the order hold the same definition. */
  lemma {:induction false} PlacesDiffer(defs: seq<Definition>, order: seq<nat>)
    requires TopSorted(defs, order)
    ensures forall i, j :: 0 <= i < j < |order| ==> order[i] != order[j]
  {}

  lemma {:induction false} PlaceOf(defs: seq<Definition>, order: seq<nat>, rules: seq<RuleMeta>, k: nat)
    requires Proper(defs, order) && Placed(order, |order|, rules) && k < |order|
    ensures forall o :: 0 <= o < |rules| && rules[o].registrationIndex == order[k] ==> rules[o].topLevelOrder == k
  {
    PlacesDiffer(defs, order);
  }

  lemma {:induction false} BuiltIsPositioned(defs: seq<Definition>, order: seq<nat>, m: Metadata)
    requires Proper(defs, order)
    requires m.rules == FlatRules(defs, order, |order|) && m.groups == FlatGroups(defs, order, |order|)
    requires m.entries == if m.groups == [] then [] else FlatEntries(defs, order, |order|)
    ensures Positioned(defs, order, m)
  {
    hide FlatRules, FlatGroups, FlatEntries, Describes, Spans, InOrder;
    FlatInOrder(defs, order, |order|);
    forall g | 0 <= g < |m.groups| ensures Describes(defs, order, m, g) {
      GroupsDescribed(defs, order, m, g);
    }
    if m.groups != [] {
      forall k | 0 <= k < |order| ensures Spans(defs, order, m, k) {
        EntriesSpan(defs, order, m, k);
      }
    }
  }

  lemma {:induction false} BuiltIsFaithful(
    defs: seq<Definition>, order: seq<nat>, first: map<RuleId, nat>, firstGroups: map<GroupId, nat>, built: Metadata,
    callbacks: seq<Callbacks>)
    requires Building(defs, order, |order|, first, firstGroups, built, callbacks) && Validated(defs, first, firstGroups)
    requires order == TopOrder(defs)
    ensures Faithful(defs, Snapshot(built.(entries := if built.groups == [] then [] else built.entries), callbacks))
  {
    hide TopOrder, InOrder, Covers, Acceptable, FirstIndexes, FirstGroups, Current, CurrentGroups;
    hide FlatRules, FlatGroups, FlatEntries, Paired, Positioned, Placed;
    var m := built.(entries := if built.groups == [] then [] else built.entries);
    FlatInOrder(defs, order, |order|);
    FlatCovers(defs, order);
    CompiledIsWellFormed(defs, order, m);
    CurrentIsExact(defs, m.rules, first, m.byID);
    CurrentGroupsExact(defs, order, firstGroups, m.byGroupID);
    BuiltIsPositioned(defs, order, m);
  }

  lemma {:induction false} NothingBuilt(
    defs: seq<Definition>, order: seq<nat>, first: map<RuleId, nat>, firstGroups: map<GroupId, nat>)
    requires Proper(defs, order)
    ensures Building(defs, order, 0, first, firstGroups, Metadata([], first, [], firstGroups, []), [])
  {}

  /** Sorts and flattens definitions without issues, overwriting the first registration indexes with compiled orders. */
  method CompileValidated(defs: seq<Definition>, first: map<RuleId, nat>, firstGroups: map<GroupId, nat>)
    returns (snapshot: Snapshot)
    requires Validated(defs, first, firstGroups)
    ensures Faithful(defs, snapshot)
  {
    hide Validated, Faithful, Building, TopOrder;
    var order := TopOrder(defs);
    TopOrderSorted(defs);
    var meta, callbacks := Metadata([], first, [], firstGroups, []), [];
    NothingBuilt(defs, order, first, firstGroups);
    for top := 0 to |order|
      invariant Building(defs, order, top, first, firstGroups, meta, callbacks)
    {
      meta, callbacks := CompileEntry(defs, order, top, meta, callbacks, first, firstGroups);
    }
    BuiltIsFaithful(defs, order, first, firstGroups, meta, callbacks);
    return Snapshot(meta.(entries := if meta.groups == [] then [] else meta.entries), callbacks);
  }

  ghost function SortsBefore(defs: seq<Definition>): (nat, nat) -> bool {
    (a: nat, b: nat) =>
      if a < |defs| && b < |defs| && (Above(defs[a], defs[b]) || Above(defs[b], defs[a]))
      then Above(defs[a], defs[b])
      else a < b
  }

  lemma {:induction false} SortedAscends(defs: seq<Definition>, order: seq<nat>)
    requires TopSorted(defs, order)
    ensures StableSort.Ascending(order, SortsBefore(defs))
  {
    forall i, j | 0 <= i < j < |order| ensures SortsBefore(defs)(order[i], order[j]) {
      var a, b := defs[order[i]], defs[order[j]];
      assert Above(a, b) || (!Above(b, a) && order[i] < order[j]);
    }
  }

  /** The sorted top-level order is the only one. */
  lemma {:induction false} TopOrderIsUnique(defs: seq<Definition>, order: seq<nat>)
    requires Proper(defs, order)
    ensures order == TopOrder(defs)
  {
    hide TopOrder;
    TopOrderSorted(defs);
    SortedAscends(defs, order);
    SortedAscends(defs, TopOrder(defs));
    forall x ensures x in order <==> x in TopOrder(defs) {}
    StableSort.AscendingIsUnique(order, TopOrder(defs), SortsBefore(defs));
  }

  /** What compilation stores for a top-level rule is that rule alone. */
  lemma {:induction false} StoredRulesAreSingle(defs: seq<Definition>, s: Snapshot)
    requires Faithful(defs, s)
    ensures SingleRules(s.meta)
  {
    hide WellFormed, InOrder, Covers, Paired, Placed, Proper, Describes;
    forall k | 0 <= k < |s.meta.entries| && s.meta.entries[k].group == None
      ensures s.meta.entries[k].end == s.meta.entries[k].start + 1
    {
      assert Spans(defs, TopOrder(defs), s.meta, k);
    }
  }

  /** Compilation either reports exactly the specified issues, indexed by identity, or yields a faithful snapshot; it
      fails if and only if some identity is invalid or repeated, or some callback is nil. */
  method Compile(defs: seq<Definition>) returns (c: Compiled)
    ensures c.Accepted? <==> Acceptable(Occurrences(defs, |defs|)) && AcceptableGroups(defs, |defs|)
    ensures c.Rejected? ==> c.error.issues == AllIssues(defs, |defs|) && c.error.Indexed()
    ensures c.Accepted? ==> Faithful(defs, c.snapshot)
  {
    hide Acceptable, AcceptableGroups, FirstIndexes, FirstGroups, Faithful, AllIssues;
    var issues, byID, byGroupID := Validate(defs);
    NoIssuesIffAcceptable(defs, |defs|);
    if issues != [] {
      var error := NewValidationError(issues);
      return Rejected(error);
    }
    var snapshot := CompileValidated(defs, byID, byGroupID);
    return Accepted(snapshot);
  }
}
