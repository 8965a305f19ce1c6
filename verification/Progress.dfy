/** How far a run gets: it goes on behind every rule that gives no reason to stop, and nothing is evaluated behind one
    that does. */
module Progress {
  import opened Facts
  import opened DenseInterpreter
  import Stops
  import Compression

  /** A rule that gives no reason to stop, and was not itself left behind by a stop. */
  ghost predicate Passed(policy: Policy, v: RuleView) {
    match v
    case NotEvaluated(reason) => reason == GroupResolved
    case Unmatched => true
    case Fired => policy.stop == EvaluateAll
    case Skipped => false
    case Failed(f) =>
      f.continued && f.cause.ReturnedError? && (f.phase == ActionPhase ==> policy.stop != StopOnFirstMatch)
  }

  ghost predicate AllPassed(policy: Policy, views: seq<RuleView>) {
    forall k :: 0 <= k < |views| ==> Passed(policy, views[k])
  }

  /** Everything in front of a rule that was evaluated, or bypassed in its group, gave no reason to stop; a completed
      run has no reason to stop and leaves no rule behind. */
  ghost predicate InFront(policy: Policy, views: seq<RuleView>, stop: StopReason) {
    && (forall j, k :: 0 <= j < k < |views| && views[k] != NotEvaluated(ExecutionStopped) ==> Passed(policy, views[j]))
    && (stop == StopCompleted ==> AllPassed(policy, views))
  }

  /** Only members of a group are bypassed. */
  ghost predicate BypassedInGroups(m: Metadata, start: nat, views: seq<RuleView>)
    requires start + |views| <= |m.rules|
  {
    forall k :: 0 <= k < |views| && m.rules[start + k].group == None ==> views[k] != NotEvaluated(GroupResolved)
  }

  // ----- one turn, one span

  lemma {:induction false} PassesPassed(policy: Policy, v: RuleView)
    requires v.Evaluated() && v != Skipped && Stops.Passes(policy, v)
    ensures Passed(policy, v)
  {}

  /** A match is only left without its action when the context is done. */
  lemma {:induction false} SkippedHalts(p: Program, o: nat, t: Track)
    requires o < |p.meta.rules|
    ensures RunRule(p, o, t).view == Skipped ==> RunRule(p, o, t).next.Halt?
  {}

  lemma {:induction false} SpanGoesOn(p: Program, o: nat, end: nat, checked: bool, t: Track)
    requires o <= end <= |p.meta.rules| && Stops.Seen(p.env, t.history) == Alive
    ensures var s := RunSpan(p, o, end, checked, t);
            && (forall k :: 0 <= k < |s.views| ==> s.views[k].Evaluated())
            && (forall k :: 0 <= k < |s.views| && (!s.next.Halt? || k < |s.views| - 1) ==> Passed(p.policy, s.views[k]))
            && (s.next.Leave? ==> exists k :: o <= k < end && KindAt(p.meta, k).Some?)
            && (s.next.Halt? ==> s.next.stop != StopCompleted)
    decreases end - o
  {
    hide RunRule, Stops.Seen, Stops.StopOf, Stops.Passes, Passed, Check, KindAt;
    if o < end {
      Stops.CheckSeen(p.env, t);
      var c := if checked then Boundary(Alive, t) else Check(p.env, t);
      if c.answer.Done? {
        Stops.NoViews(p.policy);
      } else {
        Stops.RuleDecides(p, o, c.t);
        Compression.TurnShape(p, o, c.t);
        SkippedHalts(p, o, c.t);
        var s := RunRule(p, o, c.t);
        if !s.next.Halt? {
          PassesPassed(p.policy, s.view);
        }
        if s.next.Advance? {
          SpanGoesOn(p, o + 1, end, false, s.t);
        }
      }
    }
  }

  // ----- the whole run

  /** What a stretch of rules and the rest of the run behind it say of the run. */
  lemma {:induction false} InFrontThen(
    policy: Policy, front: seq<RuleView>, views: seq<RuleView>, stop: StopReason)
    requires AllPassed(policy, front) && InFront(policy, views, stop)
    ensures InFront(policy, front + views, stop)
  {
    hide Passed;
    var all := front + views;
    forall j, k | 0 <= j < k < |all| && all[k] != NotEvaluated(ExecutionStopped) ensures Passed(policy, all[j]) {
      if j >= |front| {
        assert all[j] == views[j - |front|] && all[k] == views[k - |front|];
      }
    }
  }

  /** A span that halted leaves everything behind it. */
  lemma {:induction false} HaltedInFront(policy: Policy, views: seq<RuleView>, n: nat, stop: StopReason)
    requires stop != StopCompleted && forall k :: 0 <= k < |views| - 1 ==> Passed(policy, views[k])
    ensures InFront(policy, views + Fill(n, ExecutionStopped), stop)
  {
    hide Passed;
  }

  lemma {:induction false} GoneOn(policy: Policy, views: seq<RuleView>, n: nat)
    requires AllPassed(policy, views)
    ensures AllPassed(policy, views + Fill(n, GroupResolved))
  {}

  ghost predicate RunOk(p: Program, start: nat, r: Run)
    requires start + |r.views| == |p.meta.rules|
  {
    InFront(p.policy, r.views, r.stop) && BypassedInGroups(p.meta, start, r.views)
  }

  lemma {:induction false} EntriesGoOn(p: Program, entries: seq<CompiledEntry>, i: nat, start: nat, g: nat, t: Track)
    requires i <= |entries| && start <= |p.meta.rules| && g <= |p.meta.groups| && Tiled(p.meta, entries, i, start, g)
    requires Stops.Seen(p.env, t.history) == Alive
    ensures RunOk(p, start, RunEntries(p, entries, i, start, g, t))
    decreases |entries| - i
  {
    hide RunRule, RunSpan, Check, Notify, Stops.Seen, Passed, ContextStop, InFront, Stops.StopOf, AllPassed, KindAt;
    if i == |entries| {
      NothingInFront(p.policy);
    } else {
      var e, n := entries[i], |p.meta.rules| - start;
      Stops.CheckSeen(p.env, t);
      Stops.NoViews(p.policy);
      var c := if e.group.Some? then Check(p.env, t) else Boundary(Alive, t);
      if c.answer.Done? {
        HaltedInFront(p.policy, [], n, ContextStop(c.answer));
        assert [] + Fill(n, ExecutionStopped) == Fill(n, ExecutionStopped);
      } else {
        EntryGoesOn(p, entries, i, start, g, c.t);
      }
    }
  }

  lemma {:induction false} NothingInFront(policy: Policy)
    ensures InFront(policy, [], StopCompleted)
  {}

  /** A rule's entry is left by no selection. */
  lemma {:induction false} UngroupedKind(m: Metadata, o: nat)
    requires o < |m.rules| && m.rules[o].group == None
    ensures KindAt(m, o) == None
  {}

  /** One entry behind its check, and the entries after it. */
  lemma {:induction false} EntryGoesOn(p: Program, entries: seq<CompiledEntry>, i: nat, start: nat, g: nat, t: Track)
    requires i < |entries| && start <= |p.meta.rules| && g <= |p.meta.groups| && Tiled(p.meta, entries, i, start, g)
    requires Stops.Seen(p.env, t.history) == Alive
    ensures var e := entries[i];
            var n := |p.meta.rules| - start;
            var s := RunSpan(p, start, e.end, e.group.Some?, t);
            var told := if e.group.Some? then Notify(p.env, GroupFinished(g, GroupOutcome(s)), s.t) else s.t;
            if s.next.Halt? then
              RunOk(p, start, Run(s.views + Fill(n - |s.views|, ExecutionStopped), [], s.next.stop, Alive, told))
            else
              var rest := RunEntries(p, entries, i + 1, e.end, if e.group.Some? then g + 1 else g, told);
              RunOk(p, start, rest.(views := s.views + Fill(e.end - start - |s.views|, GroupResolved) + rest.views))
    decreases |entries| - i, 0
  {
    hide RunRule, RunSpan, RunEntries, Check, Notify, Stops.Seen, Stops.StopOf, Stops.Passes, Passed, InFront,
         AllPassed, KindAt;
    var e := entries[i];
    var s := RunSpan(p, start, e.end, e.group.Some?, t);
    SpanGoesOn(p, start, e.end, e.group.Some?, t);
    Stops.SpanStops(p, start, e.end, e.group.Some?, t);
    if e.group.None? {
      forall k | start <= k < e.end ensures KindAt(p.meta, k) == None {
        UngroupedKind(p.meta, k);
      }
    }
    if s.next.Halt? {
      HaltedInFront(p.policy, s.views, |p.meta.rules| - start - |s.views|, s.next.stop);
    } else {
      var g' := if e.group.Some? then g + 1 else g;
      var told := if e.group.Some? then Notify(p.env, GroupFinished(g, GroupOutcome(s)), s.t) else s.t;
      var n := e.end - start - |s.views|;
      Stops.NotifySeen(p.env, GroupFinished(g, GroupOutcome(s)), s.t);
      EntriesGoOn(p, entries, i + 1, e.end, g', told);
      var rest := RunEntries(p, entries, i + 1, e.end, g', told);
      assert AllPassed(p.policy, s.views) by { IsAllPassed(p.policy, s.views); }
      GoneOn(p.policy, s.views, n);
      InFrontThen(p.policy, s.views + Fill(n, GroupResolved), rest.views, rest.stop);
      BypassedThen(p.meta, start, s.views + Fill(n, GroupResolved), rest.views);
    }
  }

  lemma {:induction false} IsAllPassed(policy: Policy, views: seq<RuleView>)
    requires forall k :: 0 <= k < |views| ==> Passed(policy, views[k])
    ensures AllPassed(policy, views)
  {}

  lemma {:induction false} BypassedThen(m: Metadata, start: nat, front: seq<RuleView>, views: seq<RuleView>)
    requires start + |front| + |views| <= |m.rules|
    requires BypassedInGroups(m, start, front) && BypassedInGroups(m, start + |front|, views)
    ensures BypassedInGroups(m, start, front + views)
  {
    var all := front + views;
    forall k | 0 <= k < |all| && m.rules[start + k].group == None ensures all[k] != NotEvaluated(GroupResolved) {
      if k >= |front| {
        assert m.rules[start + |front| + (k - |front|)].group == None;
      }
    }
  }

  /** In every run, nothing is evaluated behind a rule that gives a reason to stop, no rule is left behind without one,
      a completed run leaves none, and only members of groups are bypassed. */
  lemma {:induction false} RunsGoOn(p: Program, observing: bool)
    requires WellFormed(p.meta)
    ensures var r := Interpret(p, observing);
            InFront(p.policy, r.views, r.stop) && BypassedInGroups(p.meta, 0, r.views)
  {
    hide Notify, Check, RunEntries, Stops.Seen, ContextStop, Tally, InFront, Stops.StopOf, Passed;
    var t0, start := Track([], observing, []), ExecutionStarted(StartCounts(p.meta));
    Stops.SeenNothing(p.env);
    Stops.NotifySeen(p.env, start, t0);
    Stops.CheckSeen(p.env, Notify(p.env, start, t0));
    Stops.NoViews(p.policy);
    var c := Check(p.env, Notify(p.env, start, t0));
    if c.answer.Done? {
      HaltedInFront(p.policy, [], |p.meta.rules|, ContextStop(c.answer));
      assert [] + Fill(|p.meta.rules|, ExecutionStopped) == Fill(|p.meta.rules|, ExecutionStopped);
    } else {
      EntriesGoOn(p, EntriesOf(p.meta), 0, 0, 0, c.t);
    }
  }
}
