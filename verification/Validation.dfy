/** Construction errors: every definition is checked, in registration order, before anything is compiled. */
module Validation {
  import opened Facts

  /** A nil callback is None. */
  datatype RuleDef = RuleDef(id: RuleId, priority: int, condition: Option<nat>, action: Option<nat>)

  /** A top-level definition: a rule, or a group with members. */
  datatype Definition =
    | TopLevel(rule: RuleDef)
    | Grouped(id: GroupId, kind: GroupKind, priority: int, members: seq<RuleDef>)

  /** Identities are 1 to 128 bytes: a lower-case letter or digit first, then also dot, underscore, slash and dash. */
  predicate ValidId(id: string) {
    && 1 <= |id| <= 128
    && forall k :: 0 <= k < |id| ==> ValidByte(id[k], k == 0)
  }

  predicate ValidByte(c: char, first: bool) {
    'a' <= c <= 'z' || '0' <= c <= '9' || (!first && (c == '.' || c == '_' || c == '/' || c == '-'))
  }

  datatype IssueCause =
    | InvalidRuleId
    | DuplicateRuleId(first: nat)
    | NilCondition
    | NilAction
    | InvalidGroupId
    | DuplicateGroupId(firstGroup: nat)

  datatype Issue = Issue(index: nat, rule: RuleId, cause: IssueCause, group: GroupId, member: nat, inGroup: bool,
                         groupIssue: bool)

  // ----- what the issues are, stated over the registration order alone

  /** One registered rule: where it was registered, and under which valid group identity. */
  datatype Occurrence = Occurrence(index: nat, member: nat, group: GroupId, inGroup: bool, rule: RuleDef)

  function KnownGroup(id: GroupId): GroupId { if ValidId(id) then id else "" }

  function OccurrencesOf(d: Definition, index: nat): seq<Occurrence> {
    match d
    case TopLevel(rule) => [Occurrence(index, 0, "", false, rule)]
    case Grouped(id, _, _, members) =>
      seq(|members|, m requires 0 <= m < |members| => Occurrence(index, m, KnownGroup(id), true, members[m]))
  }

  /** Every rule of the first `n` definitions, members included, in registration order. */
  function Occurrences(defs: seq<Definition>, n: nat): seq<Occurrence>
    requires n <= |defs|
  {
    if n == 0 then [] else Occurrences(defs, n - 1) + OccurrencesOf(defs[n - 1], n - 1)
  }

  predicate Registers(o: Occurrence, id: RuleId) { o.rule.id == id && ValidId(id) }

  /** The registration index at which a valid identity first occurs. */
  function FirstIndex(os: seq<Occurrence>, id: RuleId): Option<nat> {
    if os == [] then None
    else if Registers(os[0], id) then Some(os[0].index)
    else FirstIndex(os[1..], id)
  }

  function IssueAt(o: Occurrence, cause: IssueCause): Issue {
    Issue(o.index, if ValidId(o.rule.id) then o.rule.id else "", cause, o.group, o.member, o.inGroup, false)
  }

  /** The issues of one rule, given the rules registered before it: identity, then condition, then action. */
  function RuleIssues(before: seq<Occurrence>, o: Occurrence): seq<Issue> {
    (if !ValidId(o.rule.id) then [IssueAt(o, InvalidRuleId)]
     else match FirstIndex(before, o.rule.id)
          case Some(first) => [IssueAt(o, DuplicateRuleId(first))]
          case None => [])
    + (if o.rule.condition.None? then [IssueAt(o, NilCondition)] else [])
    + (if o.rule.action.None? then [IssueAt(o, NilAction)] else [])
  }

  /** The issues of the rules `os`, registered after `before`. */
  function RulesIssues(before: seq<Occurrence>, os: seq<Occurrence>): seq<Issue> {
    if os == [] then []
    else RulesIssues(before, os[..|os| - 1]) + RuleIssues(before + os[..|os| - 1], os[|os| - 1])
  }

  function FirstGroup(defs: seq<Definition>, n: nat, id: GroupId): Option<nat>
    requires n <= |defs|
  {
    if n == 0 then None
    else
      match FirstGroup(defs, n - 1, id)
      case Some(first) => Some(first)
      case None => if defs[n - 1].Grouped? && defs[n - 1].id == id && ValidId(id) then Some(n - 1) else None
  }

  /** A group's own issue comes before its members' issues. */
  function GroupIssues(defs: seq<Definition>, n: nat): seq<Issue>
    requires n < |defs|
  {
    if defs[n].TopLevel? then []
    else if !ValidId(defs[n].id) then [Issue(n, "", InvalidGroupId, "", 0, false, true)]
    else match FirstGroup(defs, n, defs[n].id)
         case Some(first) => [Issue(n, "", DuplicateGroupId(first), defs[n].id, 0, false, true)]
         case None => []
  }

  function AllIssues(defs: seq<Definition>, n: nat): seq<Issue>
    requires n <= |defs|
  {
    if n == 0 then []
    else
      AllIssues(defs, n - 1) + GroupIssues(defs, n - 1)
      + RulesIssues(Occurrences(defs, n - 1), OccurrencesOf(defs[n - 1], n - 1))
  }

  // ----- the one-pass validator with its two first-registration maps

  lemma {:induction false} FirstIndexSnoc(os: seq<Occurrence>, o: Occurrence, id: RuleId)
    ensures FirstIndex(os + [o], id)
         == match FirstIndex(os, id)
            case Some(i) => Some(i)
            case None => if Registers(o, id) then Some(o.index) else None
  {
    if os != [] {
      assert (os + [o])[1..] == os[1..] + [o];
      FirstIndexSnoc(os[1..], o, id);
    }
  }

  /** The map holds exactly the valid identities registered so far, each with its first index. */
  ghost predicate FirstIndexes(byID: map<RuleId, nat>, os: seq<Occurrence>) {
    forall id :: FirstIndex(os, id) == if id in byID then Some(byID[id]) else None
  }

  ghost predicate FirstGroups(byGroupID: map<GroupId, nat>, defs: seq<Definition>, n: nat)
    requires n <= |defs|
  {
    forall id :: FirstGroup(defs, n, id) == if id in byGroupID then Some(byGroupID[id]) else None
  }

  method ValidateRule(o: Occurrence, byID: map<RuleId, nat>, issues: seq<Issue>, ghost before: seq<Occurrence>)
    returns (byID': map<RuleId, nat>, issues': seq<Issue>)
    requires FirstIndexes(byID, before)
    ensures FirstIndexes(byID', before + [o]) && issues' == issues + RuleIssues(before, o)
  {
    byID', issues' := byID, issues;
    var id := o.rule.id;
    if !ValidId(id) {
      issues' := issues' + [IssueAt(o, InvalidRuleId)];
    } else if id in byID {
      issues' := issues' + [IssueAt(o, DuplicateRuleId(byID[id]))];
    } else {
      byID' := byID[id := o.index];
    }
    if o.rule.condition.None? {
      issues' := issues' + [IssueAt(o, NilCondition)];
    }
    if o.rule.action.None? {
      issues' := issues' + [IssueAt(o, NilAction)];
    }
    forall id' ensures FirstIndex(before + [o], id') == if id' in byID' then Some(byID'[id']) else None {
      FirstIndexSnoc(before, o, id');
      assert FirstIndex(before, id') == if id' in byID then Some(byID[id']) else None;
    }
  }

  method ValidateMembers(os: seq<Occurrence>, byID: map<RuleId, nat>, issues: seq<Issue>, ghost before: seq<Occurrence>)
    returns (byID': map<RuleId, nat>, issues': seq<Issue>)
    requires FirstIndexes(byID, before)
    ensures FirstIndexes(byID', before + os) && issues' == issues + RulesIssues(before, os)
  {
    byID', issues' := byID, issues;
    assert before + os[..0] == before;
    for m := 0 to |os|
      invariant FirstIndexes(byID', before + os[..m]) && issues' == issues + RulesIssues(before, os[..m])
    {
      byID', issues' := ValidateRule(os[m], byID', issues', before + os[..m]);
      assert before + os[..m] + [os[m]] == before + os[..m + 1];
      assert os[..m + 1][..m] == os[..m];
    }
    assert os[..|os|] == os;
  }

  method ValidateGroup(defs: seq<Definition>, index: nat, byGroupID: map<GroupId, nat>, issues: seq<Issue>)
    returns (byGroupID': map<GroupId, nat>, issues': seq<Issue>)
    requires index < |defs| && FirstGroups(byGroupID, defs, index)
    ensures FirstGroups(byGroupID', defs, index + 1) && issues' == issues + GroupIssues(defs, index)
  {
    byGroupID', issues' := byGroupID, issues;
    if defs[index].Grouped? {
      var id := defs[index].id;
      if KnownGroup(id) == "" {
        issues' := issues' + [Issue(index, "", InvalidGroupId, "", 0, false, true)];
      } else if id in byGroupID {
        issues' := issues' + [Issue(index, "", DuplicateGroupId(byGroupID[id]), id, 0, false, true)];
      } else {
        byGroupID' := byGroupID[id := index];
      }
    }
    forall id' ensures FirstGroup(defs, index + 1, id') == if id' in byGroupID' then Some(byGroupID'[id']) else None {
      assert FirstGroup(defs, index, id') == if id' in byGroupID then Some(byGroupID[id']) else None;
    }
  }

  /** One pass over the definitions finds exactly the specified issues, in the specified order, and leaves the maps with
      the first registration of every valid identity. */
  method Validate(defs: seq<Definition>)
    returns (issues: seq<Issue>, byID: map<RuleId, nat>, byGroupID: map<GroupId, nat>)
    ensures issues == AllIssues(defs, |defs|)
    ensures FirstIndexes(byID, Occurrences(defs, |defs|)) && FirstGroups(byGroupID, defs, |defs|)
  {
    issues, byID, byGroupID := [], map[], map[];
    assert FirstIndexes(byID, Occurrences(defs, 0)) && FirstGroups(byGroupID, defs, 0);
    hide GroupIssues, RulesIssues, OccurrencesOf, RuleIssues, FirstIndexes, FirstGroups;
    for index := 0 to |defs|
      invariant issues == AllIssues(defs, index)
      invariant FirstIndexes(byID, Occurrences(defs, index)) && FirstGroups(byGroupID, defs, index)
    {
      byGroupID, issues := ValidateGroup(defs, index, byGroupID, issues);
      byID, issues := ValidateMembers(OccurrencesOf(defs[index], index), byID, issues, Occurrences(defs, index));
    }
  }

  // ----- what an empty issue list means

  ghost predicate Acceptable(os: seq<Occurrence>) {
    && (forall k :: 0 <= k < |os| ==> ValidId(os[k].rule.id) && os[k].rule.condition.Some? && os[k].rule.action.Some?)
    && (forall j, k :: 0 <= j < k < |os| ==> os[j].rule.id != os[k].rule.id)
  }

  ghost predicate AcceptableGroups(defs: seq<Definition>, n: nat)
    requires n <= |defs|
  {
    && (forall k :: 0 <= k < n && defs[k].Grouped? ==> ValidId(defs[k].id))
    && (forall j, k :: 0 <= j < k < n && defs[j].Grouped? && defs[k].Grouped? ==> defs[j].id != defs[k].id)
  }

  lemma {:induction false} FirstIndexNone(os: seq<Occurrence>, id: RuleId)
    ensures FirstIndex(os, id) == None <==> forall k :: 0 <= k < |os| ==> !Registers(os[k], id)
  {
    if os != [] {
      FirstIndexNone(os[1..], id);
      if FirstIndex(os, id) == None {
        forall k | 0 <= k < |os| ensures !Registers(os[k], id) {
          if k > 0 { assert os[k] == os[1..][k - 1]; }
        }
      } else if !Registers(os[0], id) {
        var k :| 0 <= k < |os[1..]| && Registers(os[1..][k], id);
        assert Registers(os[k + 1], id);
      }
    }
  }

  lemma {:induction false} RulesAccepted(before: seq<Occurrence>, os: seq<Occurrence>)
    requires Acceptable(before)
    ensures RulesIssues(before, os) == [] <==> Acceptable(before + os)
  {
    if os == [] {
      assert before + os == before;
    } else {
      var n := |os| - 1;
      var front, o := os[..n], os[n];
      RulesAccepted(before, front);
      assert before + os == before + front + [o];
      FirstIndexNone(before + front, o.rule.id);
      AcceptOne(before + front, o);
    }
  }

  lemma {:induction false} AcceptOne(os: seq<Occurrence>, o: Occurrence)
    ensures Acceptable(os + [o]) ==> Acceptable(os)
    ensures Acceptable(os) ==> (RuleIssues(os, o) == [] <==> Acceptable(os + [o]))
  {
    var all := os + [o];
    assert forall k :: 0 <= k < |os| ==> all[k] == os[k];
    FirstIndexNone(os, o.rule.id);
    assert all[|os|] == o;
    if Acceptable(os) && RuleIssues(os, o) == [] {
      forall j | 0 <= j < |os| ensures os[j].rule.id != o.rule.id {
        assert !Registers(os[j], o.rule.id);
      }
    }
  }

  lemma {:induction false} FirstGroupNone(defs: seq<Definition>, n: nat, id: GroupId)
    requires n <= |defs| && ValidId(id)
    ensures FirstGroup(defs, n, id) == None <==> forall k :: 0 <= k < n && defs[k].Grouped? ==> defs[k].id != id
  {
    if n > 0 {
      FirstGroupNone(defs, n - 1, id);
    }
  }

  /** Compilation fails if and only if an identity is invalid or repeated, or a callback is nil. */
  lemma {:induction false} NoIssuesIffAcceptable(defs: seq<Definition>, n: nat)
    requires n <= |defs|
    ensures AllIssues(defs, n) == [] <==> Acceptable(Occurrences(defs, n)) && AcceptableGroups(defs, n)
  {
    hide *;
    if n == 0 {
      NoIssuesAtFirst(defs);
    } else {
      NoIssuesIffAcceptable(defs, n - 1);
      NoIssuesStep(defs, n);
    }
  }

  lemma {:induction false} NoIssuesAtFirst(defs: seq<Definition>)
    ensures AllIssues(defs, 0) == [] && Acceptable(Occurrences(defs, 0)) && AcceptableGroups(defs, 0)
  {}

  lemma {:induction false} NoIssuesStep(defs: seq<Definition>, n: nat)
    requires 0 < n <= |defs|
    requires AllIssues(defs, n - 1) == [] <==> Acceptable(Occurrences(defs, n - 1)) && AcceptableGroups(defs, n - 1)
    ensures AllIssues(defs, n) == [] <==> Acceptable(Occurrences(defs, n)) && AcceptableGroups(defs, n)
  {
    hide Acceptable, AcceptableGroups, GroupIssues, RulesIssues, OccurrencesOf, AllIssues;
    var before, os := Occurrences(defs, n - 1), OccurrencesOf(defs[n - 1], n - 1);
    assert Occurrences(defs, n) == before + os;
    AcceptPrefix(before, os);
    AcceptGroup(defs, n);
    IssuesUnfold(defs, n);
    if Acceptable(before) {
      RulesAccepted(before, os);
    }
  }

  lemma {:induction false} IssuesUnfold(defs: seq<Definition>, n: nat)
    requires 0 < n <= |defs|
    ensures AllIssues(defs, n) == [] <==>
              && AllIssues(defs, n - 1) == [] && GroupIssues(defs, n - 1) == []
              && RulesIssues(Occurrences(defs, n - 1), OccurrencesOf(defs[n - 1], n - 1)) == []
  {
    hide GroupIssues, RulesIssues, OccurrencesOf, Occurrences;
  }

  lemma {:induction false} AcceptGroup(defs: seq<Definition>, n: nat)
    requires 0 < n <= |defs|
    ensures AcceptableGroups(defs, n) <==> AcceptableGroups(defs, n - 1) && GroupIssues(defs, n - 1) == []
  {
    if defs[n - 1].Grouped? && ValidId(defs[n - 1].id) {
      FirstGroupNone(defs, n - 1, defs[n - 1].id);
    }
  }

  lemma {:induction false} AcceptPrefix(before: seq<Occurrence>, os: seq<Occurrence>)
    ensures Acceptable(before + os) ==> Acceptable(before)
  {
    assert forall k :: 0 <= k < |before| ==> (before + os)[k] == before[k];
  }

  // ----- the error index

  /** The issues of one rule identity. */
  function IssuesOf(issues: seq<Issue>, id: RuleId): seq<Issue> {
    if issues == [] then []
    else
      var last := issues[|issues| - 1];
      IssuesOf(issues[..|issues| - 1], id) + (if last.rule == id && id != "" then [last] else [])
  }

  /** The positions the index keeps for `id` select exactly its issues. */
  ghost predicate IndexedBy(byID: map<RuleId, seq<nat>>, issues: seq<Issue>) {
    forall id :: && (id in byID ==> forall k :: 0 <= k < |byID[id]| ==> byID[id][k] < |issues|)
                 && Selected(if id in byID then byID[id] else [], issues) == IssuesOf(issues, id)
  }

  ghost function Selected(positions: seq<nat>, issues: seq<Issue>): seq<Issue> {
    seq(|positions|, k requires 0 <= k < |positions| =>
          if positions[k] < |issues| then issues[positions[k]] else Issue(0, "", NilAction, "", 0, false, false))
  }

  lemma {:induction false} SelectedSnoc(kept: seq<nat>, issues: seq<Issue>, issue: Issue, id: RuleId)
    requires (forall k :: 0 <= k < |kept| ==> kept[k] < |issues|) && Selected(kept, issues) == IssuesOf(issues, id)
    ensures Selected(if issue.rule == id && id != "" then kept + [|issues|] else kept, issues + [issue])
            == IssuesOf(issues + [issue], id)
  {
    var all := issues + [issue];
    assert all[..|issues|] == issues;
    assert Selected(kept, all) == Selected(kept, issues);
    assert Selected(kept + [|issues|], all) == Selected(kept, all) + [issue];
  }

  /** What a failed compilation returns: the issues and their index. */
  datatype ValidationError = ValidationError(issues: seq<Issue>, byID: map<RuleId, seq<nat>>) {
    ghost predicate Indexed() { IndexedBy(byID, issues) }
  }

  method NewValidationError(issues: seq<Issue>) returns (e: ValidationError)
    ensures e.issues == issues && e.Indexed()
  {
    var byID: map<RuleId, seq<nat>> := map[];
    for index := 0 to |issues|
      invariant IndexedBy(byID, issues[..index])
    {
      var id := issues[index].rule;
      ghost var was := byID;
      if id != "" {
        byID := byID[id := (if id in byID then byID[id] else []) + [index]];
      }
      forall id'
        ensures id' in byID ==> forall k :: 0 <= k < |byID[id']| ==> byID[id'][k] < |issues[..index + 1]|
        ensures Selected(if id' in byID then byID[id'] else [], issues[..index + 1])
                == IssuesOf(issues[..index + 1], id')
      {
        assert issues[..index + 1] == issues[..index] + [issues[index]];
        var kept := if id' in was then was[id'] else [];
        assert Selected(kept, issues[..index]) == IssuesOf(issues[..index], id');
        SelectedSnoc(kept, issues[..index], issues[index], id');
      }
    }
    assert issues[..|issues|] == issues;
    return ValidationError(issues, byID);
  }

  /** Looking an identity up in an error's index equals filtering its whole issue list; no error has no issues. */
  method IssuesForRule(e: Option<ValidationError>, id: RuleId) returns (found: seq<Issue>)
    requires e.Some? ==> e.value.Indexed()
    ensures found == if e.Some? then IssuesOf(e.value.issues, id) else []
  {
    found := [];
    if e.None? || id !in e.value.byID {
      return;
    }
    var issues, positions := e.value.issues, e.value.byID[id];
    for k := 0 to |positions|
      invariant found == Selected(positions, issues)[..k]
    {
      found := found + [issues[positions[k]]];
    }
  }
}
