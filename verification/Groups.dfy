/** What every run guarantees about every group. */
module Groups {
  import opened Facts
  import opened DenseInterpreter
  import opened Compression

  /** The local selection criterion, read off a member's view. */
  predicate Meets(kind: GroupKind, v: RuleView) {
    match kind
    case FirstMatch => v.Matched()
    case FirstFire => v.Fired?
  }

  /** At most one member meets the criterion; the group is resolved exactly when one does, and selected that one. */
  ghost predicate SelectsOnce(kind: GroupKind, views: seq<RuleView>, ids: seq<RuleId>, group: GroupView)
    requires |views| == |ids|
  {
    && (forall j, k :: 0 <= j < |views| && 0 <= k < |views| && Meets(kind, views[j]) && Meets(kind, views[k]) ==>
                         j == k)
    && (group.state == GroupSelected <==> exists k :: 0 <= k < |views| && Meets(kind, views[k]))
    && (forall k :: 0 <= k < |views| && Meets(kind, views[k]) ==> group.selected == ids[k])
    && (group.state != GroupSelected ==> group.selected == "")
  }

  /** The called members are a prefix; every other member was bypassed by local selection, or every other member was
      stopped with the execution, as the group's end says. */
  ghost predicate CallsPrefix(kind: GroupKind, views: seq<RuleView>, group: GroupView) {
    && (forall j, k :: 0 <= j < k < |views| && views[k].Evaluated() ==> views[j].Evaluated() && !Meets(kind, views[j]))
    && (forall k :: 0 <= k < |views| && views[k].NotEvaluated? ==>
          views[k].reason == (if group.end == EndResolved then GroupResolved else ExecutionStopped))
    && (group.state == GroupNotEntered ==> forall k :: 0 <= k < |views| ==> !views[k].Evaluated())
    && (group.state == GroupExhausted ==> forall k :: 0 <= k < |views| ==>
        views[k].Evaluated() && !Meets(kind, views[k]))
  }

  /** A group ends by local resolution, by exhaustion, or because the whole execution stopped, under that very stop. */
  ghost predicate EndsAs(group: GroupView, stop: StopReason) {
    && group.end != EndNone
    && (group.end == EndExhausted <==> group.state == GroupExhausted)
    && (group.end == EndResolved ==> group.state == GroupSelected)
    && (group.state == GroupNotEntered || group.state == GroupInterrupted ==> group.end == EndExecutionStopped)
    && (if group.end == EndExecutionStopped
        then group.stop == stop && stop != StopCompleted
        else group.stop == StopNone)
  }

  /** The guarantees for one group: `views` are its members' views, `ids` their identities, `stop` the run's stop. */
  ghost predicate GroupFacts(
    kind: GroupKind, views: seq<RuleView>, ids: seq<RuleId>, group: GroupView, stop: StopReason)
    requires |views| == |ids|
  {
    SelectsOnce(kind, views, ids, group) && CallsPrefix(kind, views, group) && EndsAs(group, stop)
  }

  function Ids(rules: seq<RuleMeta>): (ids: seq<RuleId>)
    ensures |ids| == |rules| && forall k :: 0 <= k < |rules| ==> ids[k] == rules[k].id
  {
    seq(|rules|, k requires 0 <= k < |rules| => rules[k].id)
  }

  // ----- one turn, one span

  /** A member's turn selects exactly when its view meets the criterion; a member that does not meet it never leaves. */
  lemma {:induction false} TurnSelects(p: Program, o: nat, t: Track)
    requires o < |p.meta.rules| && KindAt(p.meta, o).Some?
    ensures var s := RunRule(p, o, t);
            && s.view.Evaluated() && (s.selects <==> Meets(KindAt(p.meta, o).value, s.view))
            && (s.next.Leave? ==> s.selects) && (s.next.Advance? ==> !s.selects)
            && (s.next.Halt? ==> s.next.stop != StopCompleted)
  {
    hide Notify, Check, NotifyResolved;
    var k := KindAt(p.meta, o).value;
    assert k.FirstMatch? || k.FirstFire?;
  }

  /** The members a span of one group reached: all but the last fail the criterion, and the last meets it exactly when
      the group selected it. */
  ghost predicate SpanFacts(kind: GroupKind, s: Span, ids: seq<RuleId>)
    requires |s.views| <= |ids|
  {
    var n := |s.views|;
    && (forall k :: 0 <= k < n ==> s.views[k].Evaluated())
    && (forall k :: 0 <= k < n - 1 ==> !Meets(kind, s.views[k]))
    && (s.selected != "" <==> n > 0 && Meets(kind, s.views[n - 1]))
    && (s.selected != "" ==> s.selected == ids[n - 1])
    && (s.next.Leave? ==> s.selected != "") && (s.next.Advance? ==> s.selected == "")
    && (s.next.Halt? ==> s.next.stop != StopCompleted)
  }

  lemma {:induction false} SpanSelects(p: Program, o: nat, end: nat, checked: bool, t: Track, g: nat)
    requires o <= end <= |p.meta.rules| && g < |p.meta.groups|
    requires forall k :: o <= k < end ==> p.meta.rules[k].group == Some(g) && p.meta.rules[k].id != ""
    ensures SpanFacts(p.meta.groups[g].kind, RunSpan(p, o, end, checked, t), Ids(p.meta.rules[o..end]))
    decreases end - o
  {
    hide RunRule, Meets, Check;
    if o < end {
      var c := if checked then Boundary(Alive, t) else Check(p.env, t);
      StopIsNotCompletion(c.answer);
      if !c.answer.Done? {
        var s := RunRule(p, o, c.t);
        TurnSelects(p, o, c.t);
        if s.next.Advance? {
          SpanSelects(p, o + 1, end, false, s.t, g);
          assert p.meta.rules[o..end][1..] == p.meta.rules[o + 1..end];
          IdsTail(p.meta.rules[o..end]);
          SpanFactsCons(p.meta.groups[g].kind, s.view, RunSpan(p, o + 1, end, false, s.t),
                        Ids(p.meta.rules[o..end]), RunSpan(p, o, end, checked, t));
        }
      }
    }
  }

  lemma {:induction false} SpanFactsCons(kind: GroupKind, v: RuleView, rest: Span, ids: seq<RuleId>, whole: Span)
    requires |rest.views| < |ids| && SpanFacts(kind, rest, ids[1..]) && v.Evaluated() && !Meets(kind, v)
    requires whole == rest.(views := [v] + rest.views)
    ensures SpanFacts(kind, whole, ids)
  {
    hide Meets;
    var n := |rest.views|;
    forall k | 0 <= k < n + 1
      ensures whole.views[k].Evaluated() && (k < n ==> !Meets(kind, whole.views[k]))
    {
      assert whole.views[k] == if k == 0 then v else rest.views[k - 1];
    }
    if n > 0 {
      assert whole.views[n] == rest.views[n - 1] && ids[1..][n - 1] == ids[n];
    }
  }

  lemma {:induction false} IdsTail(rules: seq<RuleMeta>)
    requires rules != []
    ensures Ids(rules[1..]) == Ids(rules)[1..]
  {}

  lemma {:induction false} StopIsNotCompletion(c: ContextAnswer)
    ensures ContextStop(c) != StopCompleted
  {}

  /** A span of a group's members, with the rest of them bypassed or stopped, gives the group's guarantees. */
  lemma {:induction false} SpanGivesGroup(kind: GroupKind, s: Span, ids: seq<RuleId>, stop: StopReason)
    requires |s.views| <= |ids| && SpanFacts(kind, s, ids) && (s.next.Advance? ==> |s.views| == |ids|)
    requires s.next.Halt? ==> stop == s.next.stop
    ensures var reason := if s.next.Halt? then ExecutionStopped else GroupResolved;
            GroupFacts(kind, s.views + Fill(|ids| - |s.views|, reason), ids, GroupOutcome(s), stop)
  {
    var reason := if s.next.Halt? then ExecutionStopped else GroupResolved;
    var views := s.views + Fill(|ids| - |s.views|, reason);
    var n := |s.views|;
    MembersMeet(kind, s, ids, views, reason);
    if s.selected != "" {
      assert Meets(kind, views[n - 1]);
    }
    assert CallsPrefix(kind, views, GroupOutcome(s));
  }

  lemma {:induction false} MembersMeet(
    kind: GroupKind, s: Span, ids: seq<RuleId>, views: seq<RuleView>, reason: NotEvaluatedReason)
    requires |s.views| <= |ids| && SpanFacts(kind, s, ids)
    requires views == s.views + Fill(|ids| - |s.views|, reason)
    ensures forall k :: 0 <= k < |views| ==> (Meets(kind, views[k]) <==> s.selected != "" && k == |s.views| - 1)
    ensures forall k :: 0 <= k < |views| ==> (views[k].Evaluated() <==> k < |s.views|)
    ensures forall k :: |s.views| <= k < |views| ==> views[k] == NotEvaluated(reason)
  {
    assert forall k :: 0 <= k < |s.views| ==> views[k] == s.views[k];
  }

  /** A group that was never entered has them too. */
  lemma {:induction false} UnenteredGroup(kind: GroupKind, ids: seq<RuleId>, stop: StopReason)
    requires stop != StopCompleted
    ensures GroupFacts(kind, Fill(|ids|, ExecutionStopped), ids,
                       GroupView(GroupNotEntered, EndExecutionStopped, stop, ""), stop)
  {}

  // ----- whole runs

  /** Group `k` of `m`, in a run over the rules from `start` and the groups from `g`. */
  ghost predicate HoldsFor(
    m: Metadata, start: nat, g: nat, k: nat, views: seq<RuleView>, groups: seq<GroupView>, stop: StopReason)
    requires start + |views| == |m.rules| && g <= k < |m.groups| && g + |groups| == |m.groups|
  {
    var d := m.groups[k];
    && start <= d.start <= d.end <= |m.rules|
    && GroupFacts(d.kind, views[d.start - start..d.end - start], Ids(m.rules[d.start..d.end]), groups[k - g], stop)
  }

  ghost predicate AllHold(
    m: Metadata, start: nat, g: nat, views: seq<RuleView>, groups: seq<GroupView>, stop: StopReason)
    requires start + |views| == |m.rules| && g + |groups| == |m.groups|
  {
    forall k :: g <= k < |m.groups| ==> HoldsFor(m, start, g, k, views, groups, stop)
  }

  /** The guarantees of later groups do not depend on how far in front of them a run started. */
  lemma {:induction false} Prepended(
    m: Metadata, start: nat, g: nat, own: seq<RuleView>, gown: seq<GroupView>, views: seq<RuleView>,
    groups: seq<GroupView>, stop: StopReason)
    requires start + |own| + |views| == |m.rules| && g + |gown| + |groups| == |m.groups|
    requires AllHold(m, start + |own|, g + |gown|, views, groups, stop)
    ensures forall k :: g + |gown| <= k < |m.groups| ==> HoldsFor(m, start, g, k, own + views, gown + groups, stop)
  {
    hide GroupFacts;
    forall k | g + |gown| <= k < |m.groups|
      ensures HoldsFor(m, start, g, k, own + views, gown + groups, stop)
    {
      assert HoldsFor(m, start + |own|, g + |gown|, k, views, groups, stop);
      var d := m.groups[k];
      assert (own + views)[d.start - start..d.end - start] == views[d.start - start - |own|..d.end - start - |own|];
      assert (gown + groups)[k - g] == groups[k - g - |gown|];
    }
  }

  lemma {:induction false} UnenteredHold(
    m: Metadata, entries: seq<CompiledEntry>, i: nat, start: nat, g: nat, stop: StopReason)
    requires i <= |entries| && start <= |m.rules| && g <= |m.groups| && Tiled(m, entries, i, start, g)
             && stop != StopCompleted
    ensures AllHold(m, start, g, Fill(|m.rules| - start, ExecutionStopped), Unentered(|m.groups| - g, stop), stop)
    decreases |entries| - i
  {
    hide GroupFacts, Ids;
    if i < |entries| {
      var e := entries[i];
      var n, k := e.end - start, if e.group.Some? then 1 else 0;
      UnenteredHold(m, entries, i + 1, e.end, g + k, stop);
      var own, gown := Fill(n, ExecutionStopped), Unentered(k, stop);
      var rest, grest := Fill(|m.rules| - e.end, ExecutionStopped), Unentered(|m.groups| - g - k, stop);
      Prepended(m, start, g, own, gown, rest, grest, stop);
      assert own + rest == Fill(|m.rules| - start, ExecutionStopped);
      assert gown + grest == Unentered(|m.groups| - g, stop);
      if k == 1 {
        UnenteredGroup(m.groups[g].kind, Ids(m.rules[start..e.end]), stop);
        assert (own + rest)[0..n] == own;
        assert HoldsFor(m, start, g, g, own + rest, gown + grest, stop);
      }
    }
  }

  /** One entry in front of a rest whose groups have their guarantees. */
  lemma {:induction false} EntryHolds(p: Program, e: CompiledEntry, s: Span, own: seq<RuleView>, gown: seq<GroupView>,
                   views: seq<RuleView>, groups: seq<GroupView>, g: nat, stop: StopReason)
    requires EntryOf(p.meta, e) && |own| == e.end - e.start && |s.views| <= |own|
    requires e.start + |own| + |views| == |p.meta.rules| && g + |gown| + |groups| == |p.meta.groups|
    requires AllHold(p.meta, e.end, g + |gown|, views, groups, stop)
    requires e.group.Some? ==> g < |p.meta.groups|
    requires if e.group.None? then gown == []
             else
               var d := p.meta.groups[g];
               && gown == [GroupOutcome(s)] && d.start == e.start && d.end == e.end
               && SpanFacts(d.kind, s, Ids(p.meta.rules[e.start..e.end]))
               && (s.next.Halt? ==> stop == s.next.stop) && (s.next.Advance? ==> |s.views| == |own|)
               && own == s.views + Fill(|own| - |s.views|, if s.next.Halt? then ExecutionStopped else GroupResolved)
    ensures AllHold(p.meta, e.start, g, own + views, gown + groups, stop)
  {
    hide GroupFacts, SpanFacts, Ids;
    Prepended(p.meta, e.start, g, own, gown, views, groups, stop);
    if e.group.Some? {
      var d := p.meta.groups[g];
      SpanGivesGroup(d.kind, s, Ids(p.meta.rules[e.start..e.end]), stop);
      assert (own + views)[0..|own|] == own;
      assert HoldsFor(p.meta, e.start, g, g, own + views, gown + groups, stop);
    }
  }

  lemma {:induction false} EntriesHold(p: Program, entries: seq<CompiledEntry>, i: nat, start: nat, g: nat, t: Track)
    requires i <= |entries| && start <= |p.meta.rules| && g <= |p.meta.groups| && Tiled(p.meta, entries, i, start, g)
    requires forall o :: 0 <= o < |p.meta.rules| ==> p.meta.rules[o].id != ""
    ensures var r := RunEntries(p, entries, i, start, g, t);
            AllHold(p.meta, start, g, r.views, r.groups, r.stop)
    decreases |entries| - i
  {
    if i < |entries| {
      TiledStep(p.meta, entries, i, start, g);
      var e := entries[i];
      var c := Check(p.env, t);
      StopIsNotCompletion(c.answer);
      if e.group.None? {
        RulesHold(p, entries, i, start, g, t);
      } else if c.answer.Done? {
        UnenteredHold(p.meta, entries, i, start, g, ContextStop(c.answer));
      } else {
        MembersHold(p, entries, i, start, g, t);
      }
    }
  }

  lemma {:induction false} RulesHold(p: Program, entries: seq<CompiledEntry>, i: nat, start: nat, g: nat, t: Track)
    requires i < |entries| && start <= |p.meta.rules| && g <= |p.meta.groups| && Tiled(p.meta, entries, i, start, g)
    requires forall o :: 0 <= o < |p.meta.rules| ==> p.meta.rules[o].id != ""
    requires EntryOf(p.meta, entries[i]) && entries[i].group.None?
    ensures var r := RunEntries(p, entries, i, start, g, t);
            AllHold(p.meta, start, g, r.views, r.groups, r.stop)
    decreases |entries| - i, 0
  {
    hide RunSpan, RunRule, RunEntries, AllHold, GroupOutcome, Tiled;
    var e := entries[i];
    TiledStep(p.meta, entries, i, start, g);
    RulesEntryRun(p, entries, i, start, g, t);
    var s := RunSpan(p, start, e.end, false, t);
    HaltStops(p, start, e.end, false, t);
    if s.next.Halt? {
      StoppedRulesHold(p, entries, i, s, g);
    } else {
      var rest := RunEntries(p, entries, i + 1, e.end, g, s.t);
      EntriesHold(p, entries, i + 1, e.end, g, s.t);
      EntryHolds(p, e, s, s.views, [], rest.views, rest.groups, g, rest.stop);
    }
  }

  lemma {:induction false} StoppedRulesHold(p: Program, entries: seq<CompiledEntry>, i: nat, s: Span, g: nat)
    requires i < |entries| && g <= |p.meta.groups| && EntryOf(p.meta, entries[i]) && entries[i].group.None?
    requires Tiled(p.meta, entries, i + 1, entries[i].end, g)
    requires |s.views| <= entries[i].end - entries[i].start && s.next.Halt? && s.next.stop != StopCompleted
    ensures AllHold(p.meta, entries[i].start, g,
                    s.views + Fill(|p.meta.rules| - entries[i].start - |s.views|, ExecutionStopped),
                    [] + Unentered(|p.meta.groups| - g, s.next.stop), s.next.stop)
  {
    hide AllHold, GroupOutcome, SpanFacts, Tiled;
    var e := entries[i];
    UnenteredHold(p.meta, entries, i + 1, e.end, g, s.next.stop);
    var own := s.views + Fill(e.end - e.start - |s.views|, ExecutionStopped);
    var rest := Fill(|p.meta.rules| - e.end, ExecutionStopped);
    EntryHolds(p, e, s, own, [], rest, Unentered(|p.meta.groups| - g, s.next.stop), g, s.next.stop);
    assert own + rest == s.views + Fill(|p.meta.rules| - e.start - |s.views|, ExecutionStopped);
  }

  lemma {:induction false} HaltStops(p: Program, o: nat, end: nat, checked: bool, t: Track)
    requires o <= end <= |p.meta.rules|
    ensures var s := RunSpan(p, o, end, checked, t);
            s.next.Halt? ==> s.next.stop != StopCompleted
    decreases end - o
  {
    if o < end {
      var c := if checked then Boundary(Alive, t) else Check(p.env, t);
      StopIsNotCompletion(c.answer);
      if !c.answer.Done? {
        TurnHalts(p, o, c.t);
        hide RunRule;
        if RunRule(p, o, c.t).next.Advance? {
          HaltStops(p, o + 1, end, false, RunRule(p, o, c.t).t);
        }
      }
    }
  }

  lemma {:induction false} TurnHalts(p: Program, o: nat, t: Track)
    requires o < |p.meta.rules|
    ensures RunRule(p, o, t).next.Halt? ==> RunRule(p, o, t).next.stop != StopCompleted
  {
    hide Notify, Check, NotifyResolved;
  }

  lemma {:induction false} GroupRange(m: Metadata, entries: seq<CompiledEntry>, i: nat, start: nat, g: nat)
    requires i < |entries| && Tiled(m, entries, i, start, g) && entries[i].group.Some?
    ensures g < |m.groups| && m.groups[g].start == start && m.groups[g].end == entries[i].end
  {}

  lemma {:induction false} MembersHold(p: Program, entries: seq<CompiledEntry>, i: nat, start: nat, g: nat, t: Track)
    requires i < |entries| && start <= |p.meta.rules| && g < |p.meta.groups| && Tiled(p.meta, entries, i, start, g)
    requires forall o :: 0 <= o < |p.meta.rules| ==> p.meta.rules[o].id != ""
    requires EntryOf(p.meta, entries[i]) && entries[i].group.Some? && !Check(p.env, t).answer.Done?
    ensures var r := RunEntries(p, entries, i, start, g, t);
            AllHold(p.meta, start, g, r.views, r.groups, r.stop)
    decreases |entries| - i, 0
  {
    hide RunSpan, RunRule, RunEntries, AllHold, GroupOutcome, Notify, Tiled, SpanFacts, Check;
    var e := entries[i];
    var n := e.end - start;
    var c := Check(p.env, t);
    TiledStep(p.meta, entries, i, start, g);
    GroupRange(p.meta, entries, i, start, g);
    GroupEntryRun(p, entries, i, start, g, t);
    var s := RunSpan(p, start, e.end, true, c.t);
    SpanSelects(p, start, e.end, true, c.t, g);
    HaltStops(p, start, e.end, true, c.t);
    var view := GroupOutcome(s);
    if s.next.Halt? {
      StoppedMembersHold(p, entries, i, s, view, g);
    } else {
      var after := Notify(p.env, GroupFinished(g, view), s.t);
      var rest := RunEntries(p, entries, i + 1, e.end, g + 1, after);
      EntriesHold(p, entries, i + 1, e.end, g + 1, after);
      EntryHolds(p, e, s, s.views + Fill(n - |s.views|, GroupResolved), [view], rest.views, rest.groups, g, rest.stop);
    }
  }

  lemma {:induction false} StoppedMembersHold(
    p: Program, entries: seq<CompiledEntry>, i: nat, s: Span, view: GroupView, g: nat)
    requires i < |entries| && g < |p.meta.groups| && EntryOf(p.meta, entries[i]) && entries[i].group.Some?
    requires Tiled(p.meta, entries, i + 1, entries[i].end, g + 1) && view == GroupOutcome(s)
    requires var e, d := entries[i], p.meta.groups[g];
             && |s.views| <= e.end - e.start && s.next.Halt? && s.next.stop != StopCompleted
             && d.start == e.start && d.end == e.end && SpanFacts(d.kind, s, Ids(p.meta.rules[e.start..e.end]))
    ensures AllHold(p.meta, entries[i].start, g,
                    s.views + Fill(|p.meta.rules| - entries[i].start - |s.views|, ExecutionStopped),
                    [view] + Unentered(|p.meta.groups| - g - 1, s.next.stop), s.next.stop)
  {
    hide AllHold, GroupOutcome, SpanFacts, Tiled;
    var e := entries[i];
    UnenteredHold(p.meta, entries, i + 1, e.end, g + 1, s.next.stop);
    var own := s.views + Fill(e.end - e.start - |s.views|, ExecutionStopped);
    var rest := Fill(|p.meta.rules| - e.end, ExecutionStopped);
    EntryHolds(p, e, s, own, [view], rest, Unentered(|p.meta.groups| - g - 1, s.next.stop), g, s.next.stop);
    assert own + rest == s.views + Fill(|p.meta.rules| - e.start - |s.views|, ExecutionStopped);
  }

  // ----- the order in which groups are entered

  /** The entered groups are a prefix, and only the last of them can have ended because the execution stopped. */
  ghost predicate Staged(groups: seq<GroupView>) {
    forall j, k :: 0 <= j < k < |groups| && groups[k].state != GroupNotEntered ==>
                     groups[j].state != GroupNotEntered && groups[j].end != EndExecutionStopped
  }

  lemma {:induction false} StagedMore(view: GroupView, groups: seq<GroupView>)
    requires Staged(groups) && view.state != GroupNotEntered && view.end != EndExecutionStopped
    ensures Staged([view] + groups)
  {}

  lemma {:induction false} UnenteredStaged(first: seq<GroupView>, n: nat, stop: StopReason)
    requires |first| <= 1
    ensures Staged(first + Unentered(n, stop))
  {}

  /** A span that did not halt leaves its group ended by itself. */
  lemma {:induction false} PassedGroup(s: Span)
    requires !s.next.Halt?
    ensures GroupOutcome(s).state != GroupNotEntered && GroupOutcome(s).end != EndExecutionStopped
  {}

  lemma {:induction false} EntriesStaged(p: Program, entries: seq<CompiledEntry>, i: nat, start: nat, g: nat, t: Track)
    requires i <= |entries| && start <= |p.meta.rules| && g <= |p.meta.groups| && Tiled(p.meta, entries, i, start, g)
    requires forall o :: 0 <= o < |p.meta.rules| ==> p.meta.rules[o].id != ""
    ensures Staged(RunEntries(p, entries, i, start, g, t).groups)
    decreases |entries| - i
  {
    hide RunSpan, RunRule, RunEntries, Staged, GroupOutcome, Notify, Tiled, Check;
    if i == |entries| {
      NoGroupsStaged(p, entries, start, g, t);
    } else {
      var e := entries[i];
      TiledStep(p.meta, entries, i, start, g);
      if e.group.None? {
        RulesEntryRun(p, entries, i, start, g, t);
        var s := RunSpan(p, start, e.end, false, t);
        if s.next.Halt? {
          UnenteredStaged([], |p.meta.groups| - g, s.next.stop);
        } else {
          EntriesStaged(p, entries, i + 1, e.end, g, s.t);
          assert [] + RunEntries(p, entries, i + 1, e.end, g, s.t).groups
            == RunEntries(p, entries, i + 1, e.end, g, s.t).groups;
        }
      } else {
        GroupEntryStaged(p, entries, i, start, g, t);
      }
    }
  }

  lemma {:induction false} NoGroupsStaged(p: Program, entries: seq<CompiledEntry>, start: nat, g: nat, t: Track)
    requires start <= |p.meta.rules| && g <= |p.meta.groups| && Tiled(p.meta, entries, |entries|, start, g)
    ensures Staged(RunEntries(p, entries, |entries|, start, g, t).groups)
  {}

  lemma {:induction false} GroupEntryStaged(
    p: Program, entries: seq<CompiledEntry>, i: nat, start: nat, g: nat, t: Track)
    requires i < |entries| && start <= |p.meta.rules| && g < |p.meta.groups| && Tiled(p.meta, entries, i, start, g)
    requires (forall o :: 0 <= o < |p.meta.rules| ==> p.meta.rules[o].id != "") && entries[i].group.Some?
    ensures Staged(RunEntries(p, entries, i, start, g, t).groups)
    decreases |entries| - i, 0
  {
    hide RunSpan, RunRule, RunEntries, Staged, GroupOutcome, Notify, Tiled, Check;
    var e := entries[i];
    TiledStep(p.meta, entries, i, start, g);
    GroupEntryRun(p, entries, i, start, g, t);
    var c := Check(p.env, t);
    if c.answer.Done? {
      UnenteredStaged([], |p.meta.groups| - g, ContextStop(c.answer));
    } else {
      var s := RunSpan(p, start, e.end, true, c.t);
      if s.next.Halt? {
        UnenteredStaged([GroupOutcome(s)], |p.meta.groups| - g - 1, s.next.stop);
      } else {
        var finished := Notify(p.env, GroupFinished(g, GroupOutcome(s)), s.t);
        PassedGroup(s);
        EntriesStaged(p, entries, i + 1, e.end, g + 1, finished);
        StagedMore(GroupOutcome(s), RunEntries(p, entries, i + 1, e.end, g + 1, finished).groups);
      }
    }
  }

  /** Every run, whatever its callbacks do, keeps the guarantees of every group; so a completed run entered every group
      and interrupted none. Groups are entered in order, up to the one the execution stopped in. */
  lemma {:induction false} GroupGuarantees(p: Program, observing: bool)
    requires WellFormed(p.meta)
    ensures var r := Interpret(p, observing);
            && AllHold(p.meta, 0, 0, r.views, r.groups, r.stop) && Staged(r.groups)
            && (r.stop == StopCompleted ==>
                  forall k :: 0 <= k < |r.groups| ==>
                    r.groups[k].state == GroupSelected || r.groups[k].state == GroupExhausted)
  {
    var c := Check(p.env, Notify(p.env, ExecutionStarted(StartCounts(p.meta)), Track([], observing, [])));
    StopIsNotCompletion(c.answer);
    hide Notify, RunEntries, Check, SelectsOnce, CallsPrefix, Staged;
    if c.answer.Done? {
      UnenteredHold(p.meta, EntriesOf(p.meta), 0, 0, 0, ContextStop(c.answer));
      UnenteredStaged([], |p.meta.groups|, ContextStop(c.answer));
      assert [] + Unentered(|p.meta.groups|, ContextStop(c.answer))
        == Unentered(|p.meta.groups|, ContextStop(c.answer));
    } else {
      EntriesHold(p, EntriesOf(p.meta), 0, 0, 0, c.t);
      EntriesStaged(p, EntriesOf(p.meta), 0, 0, 0, c.t);
    }
    var r := Interpret(p, observing);
    forall k | 0 <= k < |r.groups| && r.stop == StopCompleted
      ensures r.groups[k].state == GroupSelected || r.groups[k].state == GroupExhausted
    {
      assert HoldsFor(p.meta, 0, 0, k, r.views, r.groups, r.stop);
    }
  }
}
