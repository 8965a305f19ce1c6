/** What the construction errors mean: exactly which issues are reported, read off the definitions. */
module ValidationMeaning {
  import opened Facts
  import opened Validation

  // ----- identities

  /** The ASCII code of a lower-case letter or a digit. */
  predicate PlainCode(c: int) { 97 <= c <= 122 || 48 <= c <= 57 }

  /** The codes of dash, dot, slash and underscore. */
  predicate MarkCode(c: int) { c == 45 || c == 46 || c == 47 || c == 95 }

  ghost predicate Proper(id: string) {
    && 1 <= |id| <= 128 && PlainCode(id[0] as int)
    && forall k :: 1 <= k < |id| ==> PlainCode(id[k] as int) || MarkCode(id[k] as int)
  }

  lemma {:induction false} BytesMean(c: char, first: bool)
    ensures ValidByte(c, first) <==> PlainCode(c as int) || (!first && MarkCode(c as int))
  {}

  /** Valid identities are 1 to 128 characters: a lower-case letter or digit, then also dash, dot, slash or
      underscore. */
  lemma {:induction false} ValidIdMeans(id: string)
    ensures ValidId(id) <==> Proper(id)
  {
    hide ValidByte, PlainCode, MarkCode;
    forall k | 0 <= k < |id|
      ensures ValidByte(id[k], k == 0) <==> PlainCode(id[k] as int) || (k > 0 && MarkCode(id[k] as int))
    {
      BytesMean(id[k], k == 0);
    }
  }

  // ----- issues

  /** The first rule with this identity is the one at place `j`. */
  ghost predicate FirstWith(os: seq<Occurrence>, id: RuleId, j: nat) {
    j < |os| && os[j].rule.id == id && forall i :: 0 <= i < j ==> os[i].rule.id != id
  }

  /** What is wrong with the rule registered at place `k`. */
  ghost predicate Wrong(os: seq<Occurrence>, k: nat, cause: IssueCause)
    requires k < |os|
  {
    var rule := os[k].rule;
    match cause
    case InvalidRuleId => !Proper(rule.id)
    case DuplicateRuleId(first) =>
      Proper(rule.id) && exists j: nat :: j < k && FirstWith(os, rule.id, j) && os[j].index == first
    case NilCondition => rule.condition == None
    case NilAction => rule.action == None
    case InvalidGroupId => false
    case DuplicateGroupId(_) => false
  }

  /** The issue that tells it. */
  ghost predicate Tells(o: Occurrence, issue: Issue) {
    && issue.index == o.index && issue.member == o.member && issue.inGroup == o.inGroup && issue.group == o.group
    && !issue.groupIssue && issue.rule == (if Proper(o.rule.id) then o.rule.id else "")
  }

  /** What is wrong with the group defined at `i`, told by an issue that names the group if its identity is valid. */
  ghost predicate GroupTold(defs: seq<Definition>, i: nat, issue: Issue)
    requires i < |defs|
  {
    && defs[i].Grouped? && issue.index == i && issue.groupIssue && issue.rule == "" && issue.member == 0
    && !issue.inGroup
    && match issue.cause
       case InvalidGroupId => !Proper(defs[i].id) && issue.group == ""
       case DuplicateGroupId(first) =>
         && Proper(defs[i].id) && issue.group == defs[i].id
         && first < i && defs[first].Grouped? && defs[first].id == defs[i].id
         && forall j :: 0 <= j < first && defs[j].Grouped? ==> defs[j].id != defs[i].id
       case _ => false
  }

  lemma {:induction false} FirstIndexMeans(os: seq<Occurrence>, id: RuleId)
    requires Proper(id)
    ensures FirstIndex(os, id) == None <==> forall j :: 0 <= j < |os| ==> os[j].rule.id != id
    ensures FirstIndex(os, id).Some? ==>
            exists j: nat :: FirstWith(os, id, j) && os[j].index == FirstIndex(os, id).value
  {
    ValidIdMeans(id);
    FirstIndexNone(os, id);
    hide Proper, ValidId;
    if FirstIndex(os, id) == None {
      forall j | 0 <= j < |os| ensures os[j].rule.id != id {
        assert !Registers(os[j], id);
      }
    } else {
      var j := FirstPlace(os, id);
    }
  }

  lemma {:induction false} FirstPlace(os: seq<Occurrence>, id: RuleId) returns (j: nat)
    requires ValidId(id) && FirstIndex(os, id).Some?
    ensures FirstWith(os, id, j) && os[j].index == FirstIndex(os, id).value
  {
    hide ValidId;
    if Registers(os[0], id) {
      j := 0;
    } else {
      var rest := os[1..];
      var i := FirstPlace(rest, id);
      j := i + 1;
      forall k | 0 <= k < j ensures os[k].rule.id != id {
        assert k > 0 ==> os[k] == rest[k - 1];
      }
    }
  }

  lemma {:induction false} OneFirst(os: seq<Occurrence>, id: RuleId, i: nat, j: nat)
    requires FirstWith(os, id, i) && FirstWith(os, id, j)
    ensures i == j
  {}

  /** The issues of one rule. */
  lemma {:induction false} RuleIssuesMean(os: seq<Occurrence>, k: nat, issue: Issue)
    requires k < |os|
    ensures issue in RuleIssues(os[..k], os[k]) <==> Tells(os[k], issue) && Wrong(os, k, issue.cause)
  {
    var o, before := os[k], os[..k];
    ValidIdMeans(o.rule.id);
    hide Proper, ValidId;
    if Proper(o.rule.id) {
      DuplicateMeans(os, k, issue);
    }
  }

  lemma {:induction false} DuplicateMeans(os: seq<Occurrence>, k: nat, issue: Issue)
    requires k < |os| && Proper(os[k].rule.id)
    ensures issue.cause.DuplicateRuleId? ==>
              (FirstIndex(os[..k], os[k].rule.id) == Some(issue.cause.first) <==> Wrong(os, k, issue.cause))
  {
    var id, before := os[k].rule.id, os[..k];
    FirstIndexMeans(before, id);
    hide Proper;
    forall j: nat ensures FirstWith(before, id, j) <==> j < k && FirstWith(os, id, j) {
      assert forall i :: 0 <= i < k ==> before[i] == os[i];
    }
    if issue.cause.DuplicateRuleId? && Wrong(os, k, issue.cause) {
      var j: nat :| j < k && FirstWith(os, id, j) && os[j].index == issue.cause.first;
      assert FirstWith(before, id, j);
      var i: nat :| FirstWith(before, id, i) && before[i].index == FirstIndex(before, id).value;
      OneFirst(before, id, i, j);
    }
  }

  lemma {:induction false} RulesIssuesMean(before: seq<Occurrence>, os: seq<Occurrence>, issue: Issue)
    ensures issue in RulesIssues(before, os)
       <==> exists k :: |before| <= k < |before + os| && IssueOf(before + os, k, issue)
  {
    hide Wrong, Tells, RuleIssues;
    if os != [] {
      var n, all := |os| - 1, before + os;
      var front := before + os[..n];
      RulesIssuesMean(before, os[..n], issue);
      assert all[..|front|] == front && all[|front|] == os[n];
      RuleIssuesMean(all, |front|, issue);
      forall k | 0 <= k < |front| ensures IssueOf(all, k, issue) <==> IssueOf(front, k, issue) {
        EarlierIssue(front, all, k, issue);
      }
      if issue in RulesIssues(before, os) {
        if issue in RulesIssues(before, os[..n]) {
          var k :| |before| <= k < |front| && IssueOf(front, k, issue);
          assert IssueOf(all, k, issue);
        } else {
          assert IssueOf(all, |front|, issue);
        }
      }
    }
  }

  ghost predicate IssueOf(os: seq<Occurrence>, k: nat, issue: Issue) {
    k < |os| && Tells(os[k], issue) && Wrong(os, k, issue.cause)
  }

  /** Later rules do not change what is wrong with an earlier one. */
  lemma {:induction false} EarlierIssue(os: seq<Occurrence>, more: seq<Occurrence>, k: nat, issue: Issue)
    requires os <= more && k < |os|
    ensures IssueOf(more, k, issue) <==> IssueOf(os, k, issue)
  {
    hide Proper, Tells;
    assert more[k] == os[k];
    forall j: nat | j < k
      ensures more[j] == os[j] && (FirstWith(os, os[k].rule.id, j) <==> FirstWith(more, os[k].rule.id, j))
    {
      assert forall i :: 0 <= i < |os| ==> more[i] == os[i];
    }
  }

  lemma {:induction false} FirstGroupMeans(defs: seq<Definition>, n: nat, id: GroupId, first: nat)
    requires n <= |defs| && Proper(id)
    ensures FirstGroup(defs, n, id) == Some(first) <==>
              && first < n && defs[first].Grouped? && defs[first].id == id
              && forall j :: 0 <= j < first && defs[j].Grouped? ==> defs[j].id != id
  {
    ValidIdMeans(id);
    hide Proper, ValidId;
    if n > 0 {
      FirstGroupMeans(defs, n - 1, id, first);
      if FirstGroup(defs, n - 1, id).Some? {
        FirstGroupMeans(defs, n - 1, id, FirstGroup(defs, n - 1, id).value);
      } else {
        FirstGroupNone(defs, n - 1, id);
      }
    }
  }

  lemma {:induction false} GroupIssuesMean(defs: seq<Definition>, i: nat, issue: Issue)
    requires i < |defs|
    ensures issue in GroupIssues(defs, i) <==> GroupTold(defs, i, issue)
  {
    if defs[i].Grouped? {
      ValidIdMeans(defs[i].id);
      hide Proper, ValidId;
      if Proper(defs[i].id) && issue.cause.DuplicateGroupId? {
        FirstGroupMeans(defs, i, defs[i].id, issue.cause.firstGroup);
      }
    }
  }

  ghost predicate RuleIssue(os: seq<Occurrence>, issue: Issue) {
    exists k :: 0 <= k < |os| && IssueOf(os, k, issue)
  }

  ghost predicate GroupIssue(defs: seq<Definition>, n: nat, issue: Issue)
    requires n <= |defs|
  {
    exists i :: 0 <= i < n && GroupTold(defs, i, issue)
  }

  lemma {:induction false} RulesMore(before: seq<Occurrence>, own: seq<Occurrence>, issue: Issue)
    ensures RuleIssue(before + own, issue) <==> RuleIssue(before, issue) || issue in RulesIssues(before, own)
  {
    hide IssueOf, RulesIssues;
    var all := before + own;
    RulesIssuesMean(before, own, issue);
    forall k | 0 <= k < |before| ensures IssueOf(all, k, issue) <==> IssueOf(before, k, issue) {
      EarlierIssue(before, all, k, issue);
    }
    if k :| 0 <= k < |before| && IssueOf(before, k, issue) {
      assert IssueOf(all, k, issue);
    }
  }

  lemma {:induction false} GroupsMore(defs: seq<Definition>, n: nat, issue: Issue)
    requires 0 < n <= |defs|
    ensures GroupIssue(defs, n, issue) <==> GroupIssue(defs, n - 1, issue) || issue in GroupIssues(defs, n - 1)
  {
    hide GroupTold, GroupIssues;
    GroupIssuesMean(defs, n - 1, issue);
  }

  /** The issues reported are exactly these: for each rule its invalid or repeated identity, naming where it was
      registered first, a nil condition and a nil action; for each group its invalid or repeated identity. */
  lemma {:induction false} IssuesMean(defs: seq<Definition>, n: nat, issue: Issue)
    requires n <= |defs|
    ensures issue in AllIssues(defs, n) <==> RuleIssue(Occurrences(defs, n), issue) || GroupIssue(defs, n, issue)
  {
    hide GroupIssue, GroupIssues, RulesIssues, OccurrencesOf, RuleIssue;
    if n == 0 {
      NoIssues(defs, issue);
    } else {
      IssuesMean(defs, n - 1, issue);
      GroupsMore(defs, n, issue);
      RulesMore(Occurrences(defs, n - 1), OccurrencesOf(defs[n - 1], n - 1), issue);
    }
  }

  lemma {:induction false} NoIssues(defs: seq<Definition>, issue: Issue)
    ensures issue !in AllIssues(defs, 0) && !RuleIssue(Occurrences(defs, 0), issue) && !GroupIssue(defs, 0, issue)
  {}

  /** Each of the rules is one of the definitions', a rule's own or a group's member. */
  lemma {:induction false} OccurrenceMeans(defs: seq<Definition>, n: nat, k: nat)
    requires n <= |defs| && k < |Occurrences(defs, n)|
    ensures var o := Occurrences(defs, n)[k];
            && o.index < n
            && match defs[o.index]
               case TopLevel(rule) => o.member == 0 && o.rule == rule && !o.inGroup && o.group == ""
               case Grouped(id, _, _, members) =>
                 && o.member < |members| && o.rule == members[o.member] && o.inGroup
                 && o.group == if Proper(id) then id else ""
  {
    hide Proper, ValidId;
    var before, own := Occurrences(defs, n - 1), OccurrencesOf(defs[n - 1], n - 1);
    var all := Occurrences(defs, n);
    if k < |before| {
      OccurrenceMeans(defs, n - 1, k);
      assert all[k] == before[k];
    } else {
      assert all[k] == own[k - |before|];
      if defs[n - 1].Grouped? {
        ValidIdMeans(defs[n - 1].id);
        assert KnownGroup(defs[n - 1].id) == if Proper(defs[n - 1].id) then defs[n - 1].id else "";
      }
    }
  }

  lemma {:induction false} OwnOccurrence(d: Definition, index: nat, i: nat)
    requires i < |OccurrencesOf(d, index)|
    ensures OccurrencesOf(d, index)[i].index == index && OccurrencesOf(d, index)[i].member == i
  {}

  /** They come in registration order. */
  lemma {:induction false} OccurrencesAscend(defs: seq<Definition>, n: nat, j: nat, k: nat)
    requires n <= |defs| && j < k < |Occurrences(defs, n)|
    ensures var o, q := Occurrences(defs, n)[j], Occurrences(defs, n)[k];
            o.index < q.index || (o.index == q.index && o.member < q.member)
  {
    hide Proper, OccurrencesOf;
    var before, own := Occurrences(defs, n - 1), OccurrencesOf(defs[n - 1], n - 1);
    assert Occurrences(defs, n) == before + own;
    if k < |before| {
      OccurrencesAscend(defs, n - 1, j, k);
    } else {
      OwnOccurrence(defs[n - 1], n - 1, k - |before|);
      if j < |before| {
        OccurrenceMeans(defs, n - 1, j);
      } else {
        OwnOccurrence(defs[n - 1], n - 1, j - |before|);
      }
    }
  }

  /** And every rule of the definitions is among them. */
  lemma {:induction false} EveryRuleOccurs(defs: seq<Definition>, n: nat, index: nat, member: nat)
    requires n <= |defs| && index < n
    requires match defs[index] case TopLevel(_) => member == 0 case Grouped(_, _, _, members) => member < |members|
    ensures exists k :: 0 <= k < |Occurrences(defs, n)| && Occurrences(defs, n)[k].index == index
                        && Occurrences(defs, n)[k].member == member
  {
    var before, own := Occurrences(defs, n - 1), OccurrencesOf(defs[n - 1], n - 1);
    if index == n - 1 {
      assert Occurrences(defs, n)[|before| + member] == own[member];
      assert own[member].index == index && own[member].member == member;
    } else {
      EveryRuleOccurs(defs, n - 1, index, member);
      var k :| 0 <= k < |before| && before[k].index == index && before[k].member == member;
      assert Occurrences(defs, n)[k] == before[k];
    }
  }

  // ----- the order of the issues

  function Rank(cause: IssueCause): int {
    match cause
    case NilCondition => 1
    case NilAction => 2
    case _ => 0
  }

  /** Registration order; a group's own issue before those of its members, and a rule's identity before its
      callbacks. */
  predicate Earlier(a: Issue, b: Issue) {
    || a.index < b.index
    || (a.index == b.index && a.groupIssue && !b.groupIssue)
    || (a.index == b.index && !a.groupIssue && !b.groupIssue
        && (a.member < b.member || (a.member == b.member && Rank(a.cause) < Rank(b.cause))))
  }

  ghost predicate InReportOrder(issues: seq<Issue>) {
    forall i, j :: 0 <= i < j < |issues| ==> Earlier(issues[i], issues[j])
  }

  lemma {:induction false} JoinReports(a: seq<Issue>, b: seq<Issue>)
    requires InReportOrder(a) && InReportOrder(b) && forall x, y :: x in a && y in b ==> Earlier(x, y)
    ensures InReportOrder(a + b)
  {
    hide Earlier;
    var all := a + b;
    forall i, j | 0 <= i < j < |all| ensures Earlier(all[i], all[j]) {
      if j < |a| {
        assert Earlier(a[i], a[j]);
      } else if i >= |a| {
        assert Earlier(b[i - |a|], b[j - |a|]);
      } else {
        assert all[i] in a && all[j] in b;
      }
    }
  }

  /** The issues of the rules of one definition. */
  lemma {:induction false} RulesReportInOrder(before: seq<Occurrence>, os: seq<Occurrence>, index: nat)
    requires forall k :: 0 <= k < |os| ==> os[k].index == index && os[k].member == k
    ensures InReportOrder(RulesIssues(before, os))
    ensures forall x :: x in RulesIssues(before, os) ==> x.index == index && !x.groupIssue && x.member < |os|
  {
    if os != [] {
      var n := |os| - 1;
      RulesReportInOrder(before, os[..n], index);
      RuleReportInOrder(before + os[..n], os[n]);
      JoinReports(RulesIssues(before, os[..n]), RuleIssues(before + os[..n], os[n]));
    }
  }

  lemma {:induction false} RuleReportInOrder(before: seq<Occurrence>, o: Occurrence)
    ensures InReportOrder(RuleIssues(before, o))
    ensures forall x :: x in RuleIssues(before, o) ==> x.index == o.index && !x.groupIssue && x.member == o.member
  {}

  lemma {:induction false} GroupReport(defs: seq<Definition>, n: nat)
    requires n < |defs|
    ensures InReportOrder(GroupIssues(defs, n)) && forall x :: x in GroupIssues(defs, n) ==>
            x.index == n && x.groupIssue
  {}

  /** The issues come in that order, which with `IssuesMean` determines the list. */
  lemma {:induction false} IssuesInOrder(defs: seq<Definition>, n: nat)
    requires n <= |defs|
    ensures InReportOrder(AllIssues(defs, n)) && forall x :: x in AllIssues(defs, n) ==> x.index < n
  {
    hide InReportOrder, GroupIssues, RulesIssues;
    if n == 0 {
      assert InReportOrder([]) by { NothingInOrder(); }
    } else {
      var os := OccurrencesOf(defs[n - 1], n - 1);
      IssuesInOrder(defs, n - 1);
      GroupReport(defs, n - 1);
      RulesReportInOrder(Occurrences(defs, n - 1), os, n - 1);
      JoinReports(AllIssues(defs, n - 1), GroupIssues(defs, n - 1));
      JoinReports(AllIssues(defs, n - 1) + GroupIssues(defs, n - 1), RulesIssues(Occurrences(defs, n - 1), os));
    }
  }

  lemma {:induction false} NothingInOrder()
    ensures InReportOrder([])
  {}
}
