/** How the sparse ledger grows along with the dense views: one turn, one group and one halt at a time. */
module Compression {
  import opened Facts
  import opened DenseInterpreter
  import opened Counting
  import opened Ledger

  const ONE_CALL := NO_COUNTS.(evaluated := 1)

  /** What an outcome adds to the running counters beside the condition call itself. */
  ghost function OutcomeCounts(v: RuleView): Counts {
    Contribution(v).(total := 0, evaluated := 0, notEvaluated := 0)
  }

  ghost function FailureEntries(v: RuleView): seq<Failure> {
    if v.Failed? then [v.failure] else []
  }

  ghost function FailureErrorEntries(v: RuleView): seq<ErrorCause> {
    if v.Failed? then [FailureOf(v.failure)] else []
  }

  /** The context answer a step stopped at; other steps read a live context. */
  ghost function HaltContext(next: Next): ContextAnswer {
    if next.Halt? then next.context else Alive
  }

  /** The group record a step leaves behind. */
  ghost function GroupAfter(r: GroupRecord, order: nat, id: RuleId, s: Step): GroupRecord {
    var r1 := if s.selects then r.(state := GroupSelected, selected := id) else r;
    if s.next.Leave? then r1.(skippedFrom := order + 1) else r1
  }

  /** A group that was entered and has not selected a member yet. */
  function OpenRecord(end: nat): GroupRecord {
    GroupRecord(GroupInterrupted, EndNone, StopNone, "", end)
  }

  /** The record of an open group once the turn of the member `order` is over. */
  ghost function TurnRecord(order: nat, one: Span, end: nat): GroupRecord {
    GroupRecord(if one.selected != "" then GroupSelected else GroupInterrupted, EndNone, StopNone, one.selected,
                if one.next.Leave? then order + 1 else end)
  }

  ghost function WithRecord(groups: seq<GroupRecord>, group: Option<nat>, record: GroupRecord): seq<GroupRecord>
    requires group.Some? ==> group.value < |groups|
  {
    match group
    case Some(g) => groups[g := record]
    case None => groups
  }

  /** `whole` is what `rest` gives after the rules in `reached`. */
  ghost predicate Resumes(whole: Span, reached: seq<RuleView>, rest: Span) {
    whole == rest.(views := reached + rest.views)
  }

  /** How one step changes the ledger, apart from what the condition call itself already counted. */
  ghost predicate AfterMatch(was: Result, now: Result, order: nat, e: CompiledEntry, s: Step)
    requires order < |was.meta.rules| && (e.group.Some? ==> e.group.value < |was.groups|)
  {
    && now.counts == Add(was.counts, OutcomeCounts(s.view))
    && now.evaluatedThrough == was.evaluatedThrough
    && Wrote(was, now, order, e, s)
  }

  /** How one whole turn changes the ledger. */
  ghost predicate AfterTurn(was: Result, now: Result, order: nat, e: CompiledEntry, s: Step)
    requires order < |was.meta.rules| && (e.group.Some? ==> e.group.value < |was.groups|)
  {
    && now.counts == Add(Add(was.counts, ONE_CALL), OutcomeCounts(s.view))
    && now.evaluatedThrough == order + 1
    && Wrote(was, now, order, e, s)
  }

  ghost predicate Wrote(was: Result, now: Result, order: nat, e: CompiledEntry, s: Step)
    requires order < |was.meta.rules| && (e.group.Some? ==> e.group.value < |was.groups|)
  {
    && now.meta == was.meta
    && now.stop == (if s.next.Halt? then s.next.stop else StopNone)
    && now.records == was.records + RecordsFor(order, s.view, |was.failures|)
    && now.failures == was.failures + FailureEntries(s.view)
    && now.groups == match e.group
                     case Some(g) => was.groups[g := GroupAfter(was.groups[g], order, was.meta.rules[order].id, s)]
                     case None => was.groups
  }

  /** `e` is a compiled entry of `m`: the rules in its range know their group, and `m` describes that group. */
  ghost predicate EntryOf(m: Metadata, e: CompiledEntry) {
    && e.start <= e.end <= |m.rules|
    && (forall o :: e.start <= o < e.end ==> m.rules[o].group == e.group && m.rules[o].id != "")
    && (e.group.Some? ==> e.group.value < |m.groups|)
  }

  lemma {:induction false} TiledEntries(m: Metadata, entries: seq<CompiledEntry>, i: nat, start: nat, g: nat)
    requires i <= |entries| && Tiled(m, entries, i, start, g)
    ensures start <= |m.rules| && g <= |m.groups|
    ensures forall o :: start <= o < |m.rules| && m.rules[o].group.Some? ==> g <= m.rules[o].group.value < |m.groups|
    decreases |entries| - i
  {
    if i < |entries| {
      var e := entries[i];
      TiledEntries(m, entries, i + 1, e.end, if e.group.Some? then g + 1 else g);
    }
  }

  // ----- the shape of a turn and of a span

  lemma {:induction false} TurnShape(p: Program, order: nat, t: Track)
    requires order < |p.meta.rules|
    ensures var s := RunRule(p, order, t);
            && s.view.Evaluated()
            && (s.next.Leave? ==> s.selects)
            && (s.selects ==> KindAt(p.meta, order).Some? && !s.next.Advance?)
  {}

  lemma {:induction false} SpanShape(p: Program, order: nat, end: nat, checked: bool, t: Track)
    requires order <= end <= |p.meta.rules|
    requires forall o :: order <= o < end ==> p.meta.rules[o].id != ""
    ensures var s := RunSpan(p, order, end, checked, t);
            && (forall k :: 0 <= k < |s.views| ==> s.views[k].Evaluated())
            && (s.next.Leave? ==> s.selected != "")
            && (s.next.Advance? ==> s.selected == "")
            && (s.next.Leave? ==> exists o :: order <= o < end && KindAt(p.meta, o).Some?)
    decreases end - order
  {
    hide RunRule;
    if order < end {
      var c := if checked then Boundary(Alive, t) else Check(p.env, t);
      if !c.answer.Done? {
        var s := RunRule(p, order, c.t);
        TurnShape(p, order, c.t);
        if s.next.Advance? {
          SpanShape(p, order + 1, end, false, s.t);
        }
      }
    }
  }

  /** A span runs its first rule and then, unless that rule left or halted, the span of the others. */
  lemma {:induction false} SpanCons(p: Program, order: nat, end: nat, checked: bool, t: Track)
    requires order < end <= |p.meta.rules|
    ensures var one := RunSpan(p, order, order + 1, checked, t);
            Resumes(RunSpan(p, order, end, checked, t), one.views,
                    if one.next.Advance? then RunSpan(p, order + 1, end, false, one.t) else one.(views := []))
  {
    hide RunRule, Check;
    var c := if checked then Boundary(Alive, t) else Check(p.env, t);
    if !c.answer.Done? {
      var s := RunRule(p, order, c.t);
      assert RunSpan(p, order + 1, order + 1, false, s.t) == Span([], "", Advance, s.t);
    }
  }

  lemma {:induction false} NextTurn(
    p: Program, order: nat, end: nat, checked: bool, t: Track, whole: Span, reached: seq<RuleView>)
    requires order < end <= |p.meta.rules| && Resumes(whole, reached, RunSpan(p, order, end, checked, t))
    ensures var one := RunSpan(p, order, order + 1, checked, t);
            var tail := if one.next.Advance? then RunSpan(p, order + 1, end, false, one.t) else one.(views := []);
            Resumes(whole, reached + one.views, tail)
  {
    SpanCons(p, order, end, checked, t);
    var one := RunSpan(p, order, order + 1, checked, t);
    var tail := if one.next.Advance? then RunSpan(p, order + 1, end, false, one.t) else one.(views := []);
    assert reached + (one.views + tail.views) == reached + one.views + tail.views;
  }

  /** A turn that leaves or halts closes the span: nothing more is reached, and its record is final. */
  lemma {:induction false} TurnCloses(
    p: Program, order: nat, e: CompiledEntry, checked: bool, t: Track, whole: Span, reached: seq<RuleView>)
    requires EntryOf(p.meta, e) && e.start <= order < e.end
    requires var one := RunSpan(p, order, order + 1, checked, t);
             && !one.next.Advance? && Resumes(whole, reached, one.(views := []))
             && |reached| == order - e.start + |one.views|
    ensures var one := RunSpan(p, order, order + 1, checked, t);
            && whole == one.(views := reached) && TurnRecord(order, one, e.end) == Closed(whole, e)
  {
    SpanShape(p, order, order + 1, checked, t);
    assert reached + [] == reached;
  }

  /** A turn that advances leaves its group open. */
  lemma {:induction false} TurnRecords(p: Program, order: nat, e: CompiledEntry, checked: bool, t: Track)
    requires EntryOf(p.meta, e) && e.start <= order < e.end
    ensures var one := RunSpan(p, order, order + 1, checked, t);
            one.next.Advance? ==> TurnRecord(order, one, e.end) == OpenRecord(e.end)
  {
    SpanShape(p, order, order + 1, checked, t);
  }

  lemma {:induction false} LastRecordWins(groups: seq<GroupRecord>, group: Option<nat>, a: GroupRecord, b: GroupRecord)
    requires group.Some? ==> group.value < |groups|
    ensures WithRecord(WithRecord(groups, group, a), group, b) == WithRecord(groups, group, b)
  {}

  lemma {:induction false} SpanEmpty(
    p: Program, order: nat, checked: bool, t: Track, whole: Span, reached: seq<RuleView>)
    requires order <= |p.meta.rules| && Resumes(whole, reached, RunSpan(p, order, order, checked, t))
    ensures whole == Span(reached, "", Advance, t)
  {
    assert reached + [] == reached;
  }

  lemma {:induction false} SpanOne(p: Program, order: nat, checked: bool, t: Track)
    requires order < |p.meta.rules|
    ensures var c := if checked then Boundary(Alive, t) else Check(p.env, t);
            !c.answer.Done? ==>
              var s := RunRule(p, order, c.t);
              RunSpan(p, order, order + 1, checked, t)
              == Span([s.view], if s.selects then p.meta.rules[order].id else "", s.next, s.t)
  {
    var c := if checked then Boundary(Alive, t) else Check(p.env, t);
    if !c.answer.Done? {
      TurnShape(p, order, c.t);
      assert RunSpan(p, order + 1, order + 1, false, RunRule(p, order, c.t).t)
          == Span([], "", Advance, RunRule(p, order, c.t).t);
    }
  }

  // ----- records, failures, frontier, counters and errors

  ghost function Running(m: Metadata, views: seq<RuleView>): Counts {
    Tally(views).(total := |m.rules|, notEvaluated := 0)
  }

  /** The sparse facts and the error list are those of `views`, with `context` as the last boundary's answer. */
  ghost predicate Sparse(r: Result, errors: seq<ErrorCause>, views: seq<RuleView>, context: ContextAnswer) {
    && r.records == RecordsIn(views) && r.failures == FailuresIn(views) && r.evaluatedThrough == Frontier(views)
    && r.counts == Running(r.meta, views)
    && errors == FailureErrors(FailuresIn(views)) + ContextErrors(context)
  }

  /** Group records, the stop and diagnostics are no part of the sparse rule facts. */
  lemma {:induction false} SparseFrame(
    was: Result, now: Result, errors: seq<ErrorCause>, views: seq<RuleView>, context: ContextAnswer)
    requires Sparse(was, errors, views, context)
    requires now == was.(groups := now.groups, stop := now.stop, diagnostics := now.diagnostics)
    ensures Sparse(now, errors, views, context)
  {}

  lemma {:induction false} ChargeIsTally(m: Metadata, views: seq<RuleView>, v: RuleView)
    requires v.Evaluated()
    ensures Running(m, views + [v]) == Add(Add(Running(m, views), ONE_CALL), OutcomeCounts(v))
  {
    hide Tally;
    UnfoldTally(views, v);
    ChargeAdds(Tally(views), |m.rules|, v);
  }

  lemma {:induction false} ChargeAdds(c: Counts, total: nat, v: RuleView)
    requires v.Evaluated()
    ensures Add(c, Contribution(v)).(total := total, notEvaluated := 0)
         == Add(Add(c.(total := total, notEvaluated := 0), ONE_CALL), OutcomeCounts(v))
  {}

  lemma {:induction false} TurnExtends(was: Result, now: Result, wasErrors: seq<ErrorCause>, nowErrors: seq<ErrorCause>,
                    views: seq<RuleView>, order: nat, e: CompiledEntry, s: Step)
    requires order == |views| < |was.meta.rules| && (e.group.Some? ==> e.group.value < |was.groups|)
    requires Sparse(was, wasErrors, views, Alive) && AfterTurn(was, now, order, e, s) && s.view.Evaluated()
    requires nowErrors == wasErrors + FailureErrorEntries(s.view) + ContextErrors(HaltContext(s.next))
    ensures Sparse(now, nowErrors, views + [s.view], HaltContext(s.next))
  {
    hide Tally, Running, Add, Contribution, OutcomeCounts, RecordsIn, Frontier, FailuresIn;
    Unfold(views, s.view);
    ChargeIsTally(was.meta, views, s.view);
    assert FailureErrors(FailuresIn(views) + FailureEntries(s.view))
        == FailureErrors(FailuresIn(views)) + FailureErrorEntries(s.view);
  }

  lemma {:induction false} SparseFill(
    r: Result, errors: seq<ErrorCause>, views: seq<RuleView>, n: nat, reason: NotEvaluatedReason,
    context: ContextAnswer)
    requires Sparse(r, errors, views, context)
    ensures Sparse(r, errors, views + Fill(n, reason), context)
  {
    Silent(views, n, reason);
    SilentTally(views, n, reason);
  }

  // ----- groups

  /** The state between two entries: every group before `g` is settled with its final view, every later group is
      untouched, and the bypassed rules before `start` are exactly the resolved holes. */
  ghost predicate Between(r: Result, views: seq<RuleView>, gviews: seq<GroupView>) {
    && |views| <= |r.meta.rules| && |gviews| <= |r.groups| == |r.meta.groups|
    && (forall o :: 0 <= o < |views| ==> (r.Bypassed(o) <==> views[o] == NotEvaluated(GroupResolved)))
    && (forall o :: 0 <= o < |views| ==> views[o] != NotEvaluated(ExecutionStopped))
    && (forall o :: 0 <= o < |views| && r.meta.rules[o].group.Some? ==> r.meta.rules[o].group.value < |gviews|)
    && (forall k :: 0 <= k < |gviews| ==> r.groups[k].state != GroupNotEntered && r.GroupAt(k) == gviews[k])
    && (forall k :: |gviews| <= k < |r.groups| ==> r.groups[k] == NO_GROUP_RECORD)
  }

  /** The group record once its members have run, before and after its end is decided. */
  ghost function Closed(s: Span, e: CompiledEntry): GroupRecord {
    GroupRecord(GroupOutcome(s).state, EndNone, StopNone, s.selected,
                if s.next.Leave? then e.start + |s.views| else e.end)
  }

  ghost function Ended(s: Span, e: CompiledEntry): GroupRecord {
    Closed(s, e).(end := GroupOutcome(s).end, stop := GroupOutcome(s).stop)
  }

  lemma {:induction false} PassRules(
    was: Result, now: Result, views: seq<RuleView>, gviews: seq<GroupView>, e: CompiledEntry, s: Span)
    requires Between(was, views, gviews) && EntryOf(was.meta, e) && e.group.None? && e.start == |views|
    requires now.groups == was.groups && now.meta == was.meta
    requires |s.views| == e.end - e.start && forall k :: 0 <= k < |s.views| ==> s.views[k].Evaluated()
    ensures Between(now, views + s.views, gviews)
  {
    forall o | 0 <= o < |views + s.views|
      ensures now.Bypassed(o) <==> (views + s.views)[o] == NotEvaluated(GroupResolved)
    {
      if o < |views| {
        assert now.Bypassed(o) == was.Bypassed(o);
      }
    }
  }

  lemma {:induction false} PassGroup(
    was: Result, now: Result, views: seq<RuleView>, gviews: seq<GroupView>, e: CompiledEntry, s: Span)
    requires Between(was, views, gviews) && EntryOf(was.meta, e) && e.group == Some(|gviews|) && e.start == |views|
    requires now.meta == was.meta && now.groups == was.groups[|gviews| := Ended(s, e)]
    requires |s.views| <= e.end - e.start && forall k :: 0 <= k < |s.views| ==> s.views[k].Evaluated()
    requires !s.next.Halt? && (s.next.Advance? <==> s.selected == "")
             && (s.next.Advance? ==> |s.views| == e.end - e.start)
    ensures Between(now, views + (s.views + Fill(e.end - e.start - |s.views|, GroupResolved)),
                    gviews + [GroupOutcome(s)])
  {
    var own := s.views + Fill(e.end - e.start - |s.views|, GroupResolved);
    forall o | 0 <= o < |views + own|
      ensures now.Bypassed(o) <==> (views + own)[o] == NotEvaluated(GroupResolved)
      ensures (views + own)[o] != NotEvaluated(ExecutionStopped)
    {
      if o < |views| {
        assert was.Bypassed(o) <==> views[o] == NotEvaluated(GroupResolved);
      } else {
        assert (views + own)[o] == own[o - |views|];
      }
    }
    forall k | 0 <= k < |gviews + [GroupOutcome(s)]|
      ensures now.groups[k].state != GroupNotEntered && now.GroupAt(k) == (gviews + [GroupOutcome(s)])[k]
    {
      if k < |gviews| {
        assert now.groups[k] == was.groups[k];
        assert was.GroupAt(k) == gviews[k];
      }
    }
  }

  // ----- the finished result

  /** `r` rebuilds every view of `run`. */
  ghost predicate Rebuilds(r: Result, run: Run) {
    && Compresses(r, run.views) && r.stop == run.stop
    && |run.groups| == |r.meta.groups| && forall k :: 0 <= k < |run.groups| ==> r.GroupAt(k) == run.groups[k]
  }

  /** Halting in front of the rules after `views`: the rest of the rules were stopped, not bypassed. */
  lemma {:induction false} HaltCompresses(
    r: Result, errors: seq<ErrorCause>, views: seq<RuleView>, context: ContextAnswer)
    requires |views| <= |r.meta.rules| && Sparse(r, errors, views, context)
    requires forall o :: 0 <= o < |views| ==> (r.Bypassed(o) <==> views[o] == NotEvaluated(GroupResolved))
    requires forall o :: |views| <= o < |r.meta.rules| ==> !r.Bypassed(o)
    requires forall o :: 0 <= o < |views| ==> views[o] != NotEvaluated(ExecutionStopped)
    ensures var all := views + Fill(|r.meta.rules| - |views|, ExecutionStopped);
            Compresses(r, all) && Sparse(r, errors, all, context)
  {
    SparseFill(r, errors, views, |r.meta.rules| - |views|, ExecutionStopped, context);
    if views != [] {
      FrontierBounds(views, 0);
    }
  }

  /** Halting with records only for the groups in `gviews`: the rest of the groups were not entered. */
  lemma {:induction false} HaltGroups(r: Result, gviews: seq<GroupView>)
    requires |gviews| <= |r.meta.groups| && |r.groups| <= |r.meta.groups| && |gviews| <= |r.groups|
    requires forall k :: 0 <= k < |gviews| ==> r.groups[k].state != GroupNotEntered && r.GroupAt(k) == gviews[k]
    requires forall k :: |gviews| <= k < |r.groups| ==> r.groups[k] == NO_GROUP_RECORD
    ensures var all := gviews + Unentered(|r.meta.groups| - |gviews|, r.stop);
            forall k :: 0 <= k < |all| ==> r.GroupAt(k) == all[k]
  {
    var all := gviews + Unentered(|r.meta.groups| - |gviews|, r.stop);
    forall k | 0 <= k < |all|
      ensures r.GroupAt(k) == all[k]
    {
      if k < |gviews| {
        assert all[k] == gviews[k];
      } else {
        assert all[k] == GroupView(GroupNotEntered, EndExecutionStopped, r.stop, "");
      }
    }
  }

  // ----- entries

  ghost function Joined(views: seq<RuleView>, gviews: seq<GroupView>, rest: Run): Run {
    rest.(views := views + rest.views, groups := gviews + rest.groups)
  }

  /** The run that stops after `views` and `gviews`. */
  ghost function Halted(
    m: Metadata, views: seq<RuleView>, gviews: seq<GroupView>, stop: StopReason, context: ContextAnswer, t: Track): Run
    requires |views| <= |m.rules| && |gviews| <= |m.groups|
  {
    Run(views + Fill(|m.rules| - |views|, ExecutionStopped), gviews + Unentered(|m.groups| - |gviews|, stop), stop,
        context, t)
  }

  lemma {:induction false} JoinedHalt(
    m: Metadata, views: seq<RuleView>, gviews: seq<GroupView>, own: seq<RuleView>, gown: seq<GroupView>,
    stop: StopReason, context: ContextAnswer, t: Track)
    requires |views| + |own| <= |m.rules| && |gviews| + |gown| <= |m.groups|
    ensures Joined(views, gviews, Run(own + Fill(|m.rules| - |views| - |own|, ExecutionStopped),
                                      gown + Unentered(|m.groups| - |gviews| - |gown|, stop), stop, context, t))
         == Halted(m, views + own, gviews + gown, stop, context, t)
  {
    var n, k := |m.rules| - |views| - |own|, |m.groups| - |gviews| - |gown|;
    assert views + (own + Fill(n, ExecutionStopped)) == views + own + Fill(n, ExecutionStopped);
    assert gviews + (gown + Unentered(k, stop)) == gviews + gown + Unentered(k, stop);
  }

  lemma {:induction false} JoinedJoined(
    views: seq<RuleView>, gviews: seq<GroupView>, own: seq<RuleView>, gown: seq<GroupView>, rest: Run)
    ensures Joined(views, gviews, Joined(own, gown, rest)) == Joined(views + own, gviews + gown, rest)
  {
    assert views + (own + rest.views) == views + own + rest.views;
    assert gviews + (gown + rest.groups) == gviews + gown + rest.groups;
  }

  /** One entry of top-level rules, as a step of the interpreter. */
  lemma {:induction false} RulesEntryRun(p: Program, entries: seq<CompiledEntry>, i: nat, start: nat, g: nat, t: Track)
    requires i < |entries| && Tiled(p.meta, entries, i, start, g) && entries[i].group.None?
    requires start <= |p.meta.rules| && g <= |p.meta.groups| && EntryOf(p.meta, entries[i])
    ensures var e := entries[i];
            var s := RunSpan(p, start, e.end, false, t);
            if s.next.Halt?
            then RunEntries(p, entries, i, start, g, t)
                 == Run(s.views + Fill(|p.meta.rules| - start - |s.views|, ExecutionStopped),
                        [] + Unentered(|p.meta.groups| - g, s.next.stop), s.next.stop, s.next.context, s.t)
            else
              && |s.views| == e.end - start
              && RunEntries(p, entries, i, start, g, t)
                 == Joined(s.views, [], RunEntries(p, entries, i + 1, e.end, g, s.t))
  {
    hide RunRule, RunSpan, EntryOf;
    var e := entries[i];
    var s := RunSpan(p, start, e.end, false, t);
    RulesEntryShape(p, e, start, t);
    var skipped := Fill(0, GroupResolved);
    assert s.views + skipped == s.views;
    if s.next.Halt? {
      assert [] + Unentered(|p.meta.groups| - g, s.next.stop) == Unentered(|p.meta.groups| - g, s.next.stop);
    } else {
      var rest := RunEntries(p, entries, i + 1, e.end, g, s.t);
      assert [] + rest.groups == rest.groups;
    }
  }

  lemma {:induction false} RulesEntryShape(p: Program, e: CompiledEntry, start: nat, t: Track)
    requires EntryOf(p.meta, e) && e.group.None? && start == e.start
    ensures var s := RunSpan(p, start, e.end, false, t);
            !s.next.Leave? && (!s.next.Halt? ==> s.next.Advance? && |s.views| == e.end - start)
  {
    SpanShape(p, start, e.end, false, t);
  }

  /** One group entry, as a step of the interpreter. */
  lemma {:induction false} GroupEntryRun(p: Program, entries: seq<CompiledEntry>, i: nat, start: nat, g: nat, t: Track)
    requires i < |entries| && Tiled(p.meta, entries, i, start, g) && entries[i].group.Some?
    requires start <= |p.meta.rules| && g < |p.meta.groups|
    ensures var e := entries[i];
            var c := Check(p.env, t);
            if c.answer.Done?
            then RunEntries(p, entries, i, start, g, t)
                 == Run([] + Fill(|p.meta.rules| - start, ExecutionStopped),
                        [] + Unentered(|p.meta.groups| - g, ContextStop(c.answer)), ContextStop(c.answer), c.answer,
                          c.t)
            else
              var s := RunSpan(p, start, e.end, true, c.t);
              var finished := Notify(p.env, GroupFinished(g, GroupOutcome(s)), s.t);
              if s.next.Halt?
              then RunEntries(p, entries, i, start, g, t)
                   == Run(s.views + Fill(|p.meta.rules| - start - |s.views|, ExecutionStopped),
                          [GroupOutcome(s)] + Unentered(|p.meta.groups| - g - 1, s.next.stop),
                          s.next.stop, s.next.context, finished)
              else RunEntries(p, entries, i, start, g, t)
                   == Joined(s.views + Fill(e.end - start - |s.views|, GroupResolved), [GroupOutcome(s)],
                             RunEntries(p, entries, i + 1, e.end, g + 1, finished))
  {
    hide RunRule, RunSpan;
    var e := entries[i];
    var c := Check(p.env, t);
    if c.answer.Done? {
      var stop := ContextStop(c.answer);
      assert [] + Unentered(|p.meta.groups| - g, stop) == Unentered(|p.meta.groups| - g, stop);
      assert [] + Fill(|p.meta.rules| - start, ExecutionStopped) == Fill(|p.meta.rules| - start, ExecutionStopped);
    }
  }

  /** A halting result rebuilds the halted run. */
  lemma {:induction false} HaltRebuilds(
    r: Result, errors: seq<ErrorCause>, views: seq<RuleView>, gviews: seq<GroupView>, context: ContextAnswer, t: Track)
    requires |views| <= |r.meta.rules| && |gviews| <= |r.groups| <= |r.meta.groups| && Sparse(r, errors, views, context)
    requires forall o :: 0 <= o < |views| ==> (r.Bypassed(o) <==> views[o] == NotEvaluated(GroupResolved))
    requires forall o :: |views| <= o < |r.meta.rules| ==> !r.Bypassed(o)
    requires forall o :: 0 <= o < |views| ==> views[o] != NotEvaluated(ExecutionStopped)
    requires forall k :: 0 <= k < |gviews| ==> r.groups[k].state != GroupNotEntered && r.GroupAt(k) == gviews[k]
    requires forall k :: |gviews| <= k < |r.groups| ==> r.groups[k] == NO_GROUP_RECORD
    ensures var run := Halted(r.meta, views, gviews, r.stop, context, t);
            Rebuilds(r, run) && Sparse(r, errors, run.views, context)
  {
    HaltCompresses(r, errors, views, context);
    HaltGroups(r, gviews);
  }

  /** The rules and groups after `views` and `gviews` belong to entries not reached yet. */
  ghost predicate Ahead(m: Metadata, start: nat, g: nat) {
    forall o :: start <= o < |m.rules| && m.rules[o].group.Some? ==> g <= m.rules[o].group.value
  }

  /** Halting between entries, in front of the first rule of an entry, or among top-level rules. */
  lemma {:induction false} HaltAmongRules(
    was: Result, now: Result, errors: seq<ErrorCause>, views: seq<RuleView>, gviews: seq<GroupView>,
    own: seq<RuleView>, context: ContextAnswer, t: Track)
    requires Between(was, views, gviews) && now.meta == was.meta && now.groups == was.groups
    requires |views| + |own| <= |was.meta.rules| && Ahead(was.meta, |views|, |gviews|)
    requires forall k :: 0 <= k < |own| ==> own[k].Evaluated()
    requires Sparse(now, errors, views + own, context)
    ensures var run := Halted(now.meta, views + own, gviews, now.stop, context, t);
            Rebuilds(now, run) && Sparse(now, errors, run.views, context)
  {
    var all := views + own;
    forall o | 0 <= o < |now.meta.rules|
      ensures now.Bypassed(o) <==> o < |all| && all[o] == NotEvaluated(GroupResolved)
      ensures o < |all| ==> all[o] != NotEvaluated(ExecutionStopped)
    {
      if o < |views| {
        assert was.Bypassed(o) <==> views[o] == NotEvaluated(GroupResolved);
        assert all[o] == views[o];
      } else if o < |all| {
        assert all[o] == own[o - |views|];
      }
    }
    forall k | 0 <= k < |gviews|
      ensures now.groups[k].state != GroupNotEntered && now.GroupAt(k) == gviews[k]
    {
      assert was.GroupAt(k) == gviews[k];
    }
    HaltRebuilds(now, errors, all, gviews, context, t);
  }

  /** Halting inside a group: its members after the halt were stopped, not bypassed. */
  lemma {:induction false} HaltInGroup(
    was: Result, now: Result, errors: seq<ErrorCause>, views: seq<RuleView>, gviews: seq<GroupView>,
    e: CompiledEntry, s: Span, t: Track)
    requires Between(was, views, gviews) && EntryOf(was.meta, e) && e.group == Some(|gviews|) && e.start == |views|
    requires now.meta == was.meta && now.groups == was.groups[|gviews| := Ended(s, e)]
    requires |s.views| <= e.end - e.start && Ahead(was.meta, e.end, |gviews| + 1)
    requires forall k :: 0 <= k < |s.views| ==> s.views[k].Evaluated()
    requires s.next.Halt? && now.stop == s.next.stop && Sparse(now, errors, views + s.views, s.next.context)
    ensures var run := Halted(now.meta, views + s.views, gviews + [GroupOutcome(s)], now.stop, s.next.context, t);
            Rebuilds(now, run) && Sparse(now, errors, run.views, s.next.context)
  {
    var all, gall := views + s.views, gviews + [GroupOutcome(s)];
    forall o | 0 <= o < |now.meta.rules|
      ensures now.Bypassed(o) <==> o < |all| && all[o] == NotEvaluated(GroupResolved)
      ensures o < |all| ==> all[o] != NotEvaluated(ExecutionStopped)
    {
      if o < |views| {
        assert was.Bypassed(o) <==> views[o] == NotEvaluated(GroupResolved);
        assert all[o] == views[o];
      } else if o < |all| {
        assert all[o] == s.views[o - |views|];
      }
    }
    forall k | 0 <= k < |gall|
      ensures now.groups[k].state != GroupNotEntered && now.GroupAt(k) == gall[k]
    {
      if k < |gviews| {
        assert now.groups[k] == was.groups[k];
        assert was.GroupAt(k) == gviews[k];
      }
    }
    HaltRebuilds(now, errors, all, gall, s.next.context, t);
  }

  /** Both ways out of an entered group, from what running its members left behind. */
  lemma {:induction false} PassMembers(
    was: Result, now: Result, errors: seq<ErrorCause>, views: seq<RuleView>, gviews: seq<GroupView>,
    e: CompiledEntry, t: Track, p: Program)
    requires was.meta == p.meta && Between(was, views, gviews) && EntryOf(p.meta, e)
    requires e.group == Some(|gviews|) && e.start == |views|
    requires var s := RunSpan(p, e.start, e.end, true, t);
             && !s.next.Halt? && now.meta == was.meta && now.groups == was.groups[|gviews| := Ended(s, e)]
             && Sparse(now, errors, views + s.views, Alive)
    ensures var s := RunSpan(p, e.start, e.end, true, t);
            var own := s.views + Fill(e.end - e.start - |s.views|, GroupResolved);
            && |views| + |own| == e.end && Sparse(now, errors, views + own, Alive)
            && Between(now, views + own, gviews + [GroupOutcome(s)])
  {
    hide RunRule, RunSpan, Sparse;
    var s := RunSpan(p, e.start, e.end, true, t);
    SpanShape(p, e.start, e.end, true, t);
    var n := e.end - e.start - |s.views|;
    assert views + s.views + Fill(n, GroupResolved) == views + (s.views + Fill(n, GroupResolved));
    SparseFill(now, errors, views + s.views, n, GroupResolved, Alive);
    PassGroup(was, now, views, gviews, e, s);
  }

  lemma {:induction false} HaltMembers(
    was: Result, now: Result, errors: seq<ErrorCause>, views: seq<RuleView>, gviews: seq<GroupView>,
    e: CompiledEntry, t: Track, p: Program, finished: Track)
    requires was.meta == p.meta && Between(was, views, gviews) && EntryOf(p.meta, e)
             && Ahead(p.meta, e.end, |gviews| + 1)
    requires e.group == Some(|gviews|) && e.start == |views|
    requires var s := RunSpan(p, e.start, e.end, true, t);
             && s.next.Halt? && now.meta == was.meta && now.groups == was.groups[|gviews| := Ended(s, e)]
             && now.stop == s.next.stop && Sparse(now, errors, views + s.views, s.next.context)
    ensures var s := RunSpan(p, e.start, e.end, true, t);
            var run := Joined(views, gviews,
                              Run(s.views + Fill(|p.meta.rules| - e.start - |s.views|, ExecutionStopped),
                                  [GroupOutcome(s)] + Unentered(|p.meta.groups| - |gviews| - 1, s.next.stop),
                                  s.next.stop, s.next.context, finished));
            Rebuilds(now, run) && Sparse(now, errors, run.views, run.context)
  {
    hide RunRule, RunSpan, Sparse;
    var s := RunSpan(p, e.start, e.end, true, t);
    SpanShape(p, e.start, e.end, true, t);
    HaltInGroup(was, now, errors, views, gviews, e, s, finished);
    JoinedHalt(p.meta, views, gviews, s.views, [GroupOutcome(s)], now.stop, s.next.context, finished);
  }

  lemma {:induction false} HaltBefore(
    was: Result, now: Result, errors: seq<ErrorCause>, views: seq<RuleView>, gviews: seq<GroupView>,
    context: ContextAnswer, t: Track)
    requires Between(was, views, gviews) && Ahead(was.meta, |views|, |gviews|)
    requires now.meta == was.meta && now.groups == was.groups && Sparse(now, errors, views, context)
    ensures var run := Joined(views, gviews, Run([] + Fill(|now.meta.rules| - |views|, ExecutionStopped),
                                                 [] + Unentered(|now.meta.groups| - |gviews|, now.stop), now.stop,
                                                   context, t));
            Rebuilds(now, run) && Sparse(now, errors, run.views, context)
  {
    hide Sparse;
    assert views + [] == views && gviews + [] == gviews;
    HaltAmongRules(was, now, errors, views, gviews, [], context, t);
    JoinedHalt(now.meta, views, gviews, [], [], now.stop, context, t);
  }

  /** What running the members of group `g` and finishing it leaves behind. */
  ghost predicate MembersRan(p: Program, e: CompiledEntry, g: nat, was: Result, now: Result, errors: seq<ErrorCause>,
                             views: seq<RuleView>, t: Track, after: Track, stopped: bool)
    requires e.start <= e.end <= |p.meta.rules| && g < |was.groups|
  {
    var c := Check(p.env, t);
    if c.answer.Done? then
      && stopped && after == c.t && now == was.(stop := ContextStop(c.answer)) && Sparse(now, errors, views, c.answer)
    else
      var s := RunSpan(p, e.start, e.end, true, c.t);
      && after == Notify(p.env, GroupFinished(g, GroupOutcome(s)), s.t) && stopped == s.next.Halt?
      && now.meta == was.meta && now.groups == was.groups[g := Ended(s, e)]
      && now.stop == (if s.next.Halt? then s.next.stop else StopNone)
      && Sparse(now, errors, views + s.views, HaltContext(s.next))
  }

  lemma {:induction false} GroupSettles(
    p: Program, entries: seq<CompiledEntry>, i: nat, was: Result, now: Result, errors: seq<ErrorCause>,
    views: seq<RuleView>, gviews: seq<GroupView>, t: Track, after: Track, stopped: bool)
    returns (own: seq<RuleView>, view: GroupView)
    requires i < |entries| && |views| <= |p.meta.rules| && |gviews| < |p.meta.groups|
    requires Tiled(p.meta, entries, i, |views|, |gviews|) && EntryOf(p.meta, entries[i])
    requires entries[i].group == Some(|gviews|) && Ahead(p.meta, entries[i].end, |gviews| + 1)
    requires was.meta == p.meta && Between(was, views, gviews) && Ahead(p.meta, |views|, |gviews|)
    requires MembersRan(p, entries[i], |gviews|, was, now, errors, views, t, after, stopped)
    ensures var e := entries[i];
            var run := RunEntries(p, entries, i, |views|, |gviews|, t);
            if stopped then
              var whole := Joined(views, gviews, run);
              now.meta == p.meta && whole.t == after && Rebuilds(now, whole)
                && Sparse(now, errors, whole.views, whole.context)
            else
              && |views| + |own| == e.end && now.meta == p.meta && now.stop == StopNone
              && Sparse(now, errors, views + own, Alive) && Between(now, views + own, gviews + [view])
              && run == Joined(own, [view], RunEntries(p, entries, i + 1, e.end, |gviews| + 1, after))
  {
    hide RunRule, RunSpan, RunEntries, Sparse, Between, Rebuilds, Notify;
    var e := entries[i];
    var c := Check(p.env, t);
    GroupEntryRun(p, entries, i, |views|, |gviews|, t);
    var s := RunSpan(p, e.start, e.end, true, c.t);
    view := GroupOutcome(s);
    own := s.views + Fill(e.end - e.start - |s.views|, GroupResolved);
    if c.answer.Done? {
      HaltBefore(was, now, errors, views, gviews, c.answer, after);
    } else if stopped {
      HaltMembers(was, now, errors, views, gviews, e, c.t, p, after);
    } else {
      PassMembers(was, now, errors, views, gviews, e, c.t, p);
    }
  }

  lemma {:induction false} JoinedNothing(run: Run)
    ensures Joined([], [], run) == run
  {
    assert [] + run.views == run.views && [] + run.groups == run.groups;
  }

  lemma {:induction false} EntriesStart(r: Result)
    requires WellFormed(r.meta) && (r.meta.entries == [] ==> r.groups == [])
    requires r.meta.entries != [] ==> r.groups == seq(|r.meta.groups|, _ => NO_GROUP_RECORD)
    ensures Ahead(r.meta, 0, 0) && Between(r, [], []) && Tiled(r.meta, EntriesOf(r.meta), 0, 0, 0)
  {
    var m := r.meta;
    TiledEntries(m, EntriesOf(m), 0, 0, 0);
    if m.entries == [] {
      assert Tiled(m, EntriesOf(m), 1, |m.rules|, 0);
    }
  }

  /** `whole` is what the run of the entries `i..` gives after `views` and `gviews`. */
  ghost predicate Here(
    p: Program, entries: seq<CompiledEntry>, i: nat, views: seq<RuleView>, gviews: seq<GroupView>, t: Track,
    whole: Run) {
    && i <= |entries| && |views| <= |p.meta.rules| && |gviews| <= |p.meta.groups|
    && Tiled(p.meta, entries, i, |views|, |gviews|)
    && whole == Joined(views, gviews, RunEntries(p, entries, i, |views|, |gviews|, t))
  }

  lemma {:induction false} EntriesEnd(
    p: Program, entries: seq<CompiledEntry>, was: Result, now: Result, errors: seq<ErrorCause>,
    views: seq<RuleView>, gviews: seq<GroupView>, t: Track, whole: Run)
    requires Here(p, entries, |entries|, views, gviews, t, whole)
    requires was.meta == p.meta && Between(was, views, gviews) && Sparse(was, errors, views, Alive)
    requires now == was.(stop := StopCompleted)
    ensures now.meta == p.meta && whole.t == t && Rebuilds(now, whole)
            && Sparse(now, errors, whole.views, whole.context)
  {
    hide Sparse;
    SparseFrame(was, now, errors, views, Alive);
    assert views + [] == views;
    HaltAmongRules(was, now, errors, views, gviews, [], Alive, t);
    assert Fill(0, ExecutionStopped) == [] && Unentered(0, StopCompleted) == [];
  }

  lemma {:induction false} TiledStep(m: Metadata, entries: seq<CompiledEntry>, i: nat, start: nat, g: nat)
    requires i < |entries| && Tiled(m, entries, i, start, g) && forall o :: 0 <= o < |m.rules| ==> m.rules[o].id != ""
    ensures var e := entries[i];
            var g' := if e.group.Some? then g + 1 else g;
            && EntryOf(m, e) && e.start == start && (e.group.Some? ==> e.group == Some(g) && g < |m.groups|)
            && Tiled(m, entries, i + 1, e.end, g') && Ahead(m, e.end, g')
  {
    var e := entries[i];
    TiledEntries(m, entries, i + 1, e.end, if e.group.Some? then g + 1 else g);
  }

  /** Cancellation before the first entry: no group records exist yet, and none are needed. */
  lemma {:induction false} HaltAtStart(p: Program, was: Result, r: Result, errors: seq<ErrorCause>, run: Run)
    requires WellFormed(p.meta) && r.meta == p.meta && r.groups == [] && Sparse(was, [], [], Alive)
    requires r == was.(stop := r.stop) && errors == [] + ContextErrors(run.context)
    requires run.views == Fill(|p.meta.rules|, ExecutionStopped) && run.groups == Unentered(|p.meta.groups|, r.stop)
    requires run.stop == r.stop
    ensures Rebuilds(r, run) && Sparse(r, errors, run.views, run.context)
  {
    assert [] + run.views == run.views && [] + run.groups == run.groups;
    assert Sparse(r, errors, [], run.context);
    HaltRebuilds(r, errors, [], [], run.context, run.t);
  }

  lemma {:induction false} StartsSparse(r: Result)
    requires r.records == [] && r.failures == [] && r.evaluatedThrough == 0
    requires r.counts == NO_COUNTS.(total := |r.meta.rules|)
    ensures Sparse(r, [], [], Alive)
    ensures forall d :: Sparse(r.(diagnostics := d), [], [], Alive)
  {
    assert FailureErrors([]) == [];
  }

  lemma {:induction false} RulesSettle(
    p: Program, entries: seq<CompiledEntry>, i: nat, was: Result, now: Result, errors: seq<ErrorCause>,
    views: seq<RuleView>, gviews: seq<GroupView>, t: Track, after: Track, stopped: bool)
    returns (own: seq<RuleView>)
    requires i < |entries| && |views| <= |p.meta.rules| && |gviews| <= |p.meta.groups|
    requires Tiled(p.meta, entries, i, |views|, |gviews|) && EntryOf(p.meta, entries[i]) && entries[i].group.None?
    requires was.meta == p.meta && Between(was, views, gviews) && Ahead(p.meta, |views|, |gviews|)
    requires var e := entries[i];
             var s := RunSpan(p, e.start, e.end, false, t);
             && after == s.t && stopped == s.next.Halt? && now.meta == was.meta && now.groups == was.groups
             && now.stop == (if s.next.Halt? then s.next.stop else StopNone)
             && Sparse(now, errors, views + s.views, HaltContext(s.next))
    ensures var e := entries[i];
            var run := RunEntries(p, entries, i, |views|, |gviews|, t);
            if stopped then
              var whole := Joined(views, gviews, run);
              whole.t == after && Rebuilds(now, whole) && Sparse(now, errors, whole.views, whole.context)
            else
              && |views| + |own| == e.end
              && Sparse(now, errors, views + own, Alive) && Between(now, views + own, gviews)
              && run == Joined(own, [], RunEntries(p, entries, i + 1, e.end, |gviews|, after))
  {
    hide RunRule, RunSpan, RunEntries, Sparse, Between, Rebuilds;
    var e := entries[i];
    var s := RunSpan(p, e.start, e.end, false, t);
    own := s.views;
    RulesEntryRun(p, entries, i, |views|, |gviews|, t);
    SpanShape(p, e.start, e.end, false, t);
    if stopped {
      HaltAmongRules(was, now, errors, views, gviews, own, s.next.context, after);
      JoinedHalt(p.meta, views, gviews, own, [], now.stop, s.next.context, after);
      assert gviews + [] == gviews;
    } else {
      PassRules(was, now, views, gviews, e, s);
    }
  }

  /** The finished result is the sparse form of `run`: everything a caller can ask for is as the run says. */
  ghost predicate Refines(p: Program, r: Result, errors: seq<ErrorCause>, run: Run) {
    && r.meta == p.meta && Rebuilds(r, run)
    && r.counts == Tally(run.views) && errors == ErrorsOf(run) && r.diagnostics == run.t.diagnostics
  }

  lemma {:induction false} CallsBounded(p: Program, r: Result, errors: seq<ErrorCause>, run: Run)
    requires r.meta == p.meta && Rebuilds(r, run) && Sparse(r, errors, run.views, run.context)
    ensures r.counts.evaluated <= r.counts.total
  {
    Conservation(run.views);
  }

  /** Settling the number of rules that were not evaluated completes the counters. */
  lemma {:induction false} Totals(p: Program, was: Result, now: Result, errors: seq<ErrorCause>, run: Run)
    requires was.meta == p.meta && Rebuilds(was, run) && Sparse(was, errors, run.views, run.context)
    requires was.counts.evaluated <= was.counts.total
    requires now == was.(counts := was.counts.(notEvaluated := was.counts.total - was.counts.evaluated))
    ensures now.counts == Tally(run.views) && Rebuilds(now, run) && errors == ErrorsOf(run)
  {
    Conservation(run.views);
    forall o | 0 <= o < |run.views| ensures now.Bypassed(o) == was.Bypassed(o) {}
    forall k | 0 <= k < |run.groups| ensures now.GroupAt(k) == was.GroupAt(k) {}
  }

  lemma {:induction false} FinishRefines(
    p: Program, was: Result, now: Result, errors: seq<ErrorCause>, body: Run, run: Run)
    requires was.meta == p.meta && Rebuilds(was, body) && was.counts == Tally(body.views) && errors == ErrorsOf(body)
    requires run == body.(t := run.t) && now == was.(diagnostics := run.t.diagnostics)
    ensures Refines(p, now, errors, run)
  {
    hide Tally, FailuresIn, RecordsIn, Frontier, FailureErrors, ContextErrors;
    forall o | 0 <= o < |run.views| ensures now.Bypassed(o) == was.Bypassed(o) {}
    forall k | 0 <= k < |run.groups| ensures now.GroupAt(k) == was.GroupAt(k) {}
  }

  /** What refinement gives for each accessor of the result. */
  lemma {:induction false} RefinedViews(p: Program, r: Result, errors: seq<ErrorCause>, run: Run)
    requires Refines(p, r, errors, run)
    ensures r.Indexed() && Increasing(r.records) && r.failures == FailuresIn(run.views)
    ensures forall o :: 0 <= o < |p.meta.rules| ==> r.RuleAt(o) == run.views[o]
    ensures MatchedRecords(p.meta, r.records, r.failures) == MatchedIn(p.meta, run.views)
    ensures FiredRecords(p.meta, r.records) == FiredIn(p.meta, run.views)
  {
    CompressedIsIndexed(r, run.views);
    RecordsOrdered(run.views);
    forall o | 0 <= o < |p.meta.rules| ensures r.RuleAt(o) == run.views[o] {
      RuleAtRebuilds(r, run.views, o);
    }
    MatchedIsFilter(p.meta, run.views, r.failures);
  }
}
