/** Why an execution stopped, and which errors it returns, as functions of the final views and of the context
    answers user code gave. */
module Stops {
  import opened Facts
  import opened DenseInterpreter

  predicate Panicked(v: RuleView) { v.Failed? && v.failure.cause.RecoveredPanic? }

  predicate StopsAt(v: RuleView, phase: Phase) { v.Failed? && v.failure.phase == phase && !v.failure.continued }

  /** The stop reason in order of precedence: a recovered panic, an observed context end, a stopping error, global
      selection, completion. */
  function StopOf(policy: Policy, views: set<RuleView>, context: ContextAnswer): StopReason {
    if exists v :: v in views && Panicked(v) then StopPanic
    else if context.Done? then
      if context.error == DEADLINE_EXCEEDED then StopContextDeadlineExceeded else StopContextCanceled
    else if exists v :: v in views && StopsAt(v, ConditionPhase) then StopConditionError
    else if exists v :: v in views && StopsAt(v, ActionPhase) then StopActionError
    else if policy.stop == StopOnFirstMatch && exists v :: v in views && v.Matched() then StopFirstMatch
    else if policy.stop == StopOnFirstFire && exists v :: v in views && v.Fired? then StopFirstFire
    else StopCompleted
  }

  function ViewSet(views: seq<RuleView>): set<RuleView> {
    set v | v in views
  }

  /** A view after which execution goes on. */
  predicate Passes(policy: Policy, v: RuleView) {
    && !Panicked(v) && !StopsAt(v, ConditionPhase) && !StopsAt(v, ActionPhase)
    && (policy.stop == StopOnFirstMatch ==> !v.Matched()) && (policy.stop == StopOnFirstFire ==> !v.Fired?)
  }

  /** The answer of the last context check that found the context done. */
  function Seen(env: Environment, h: History): ContextAnswer {
    if h == [] then Alive
    else
      var before := h[..|h| - 1];
      if h[|h| - 1] == ContextChecked && env.context(before).Done? then env.context(before) else Seen(env, before)
  }

  lemma {:induction false} SeenSnoc(env: Environment, h: History, call: Call)
    ensures Seen(env, h + [call])
         == if call == ContextChecked && env.context(h).Done? then env.context(h) else Seen(env, h)
  {
    assert (h + [call])[..|h|] == h;
  }

  lemma {:induction false} NotifySeen(env: Environment, e: Event, t: Track)
    ensures Seen(env, Notify(env, e, t).history) == Seen(env, t.history)
  {
    SeenSnoc(env, t.history, Observed(e));
    hide Seen;
  }

  lemma {:induction false} CheckSeen(env: Environment, t: Track)
    ensures var c := Check(env, t);
            Seen(env, c.t.history) == if c.answer.Done? then c.answer else Seen(env, t.history)
  {
    SeenSnoc(env, t.history, ContextChecked);
    hide Seen;
  }

  /** One turn either passes with the context alive, or halts with the stop its own view and context answer give. */
  ghost predicate Decides(policy: Policy, env: Environment, s: Step) {
    match s.next
    case Halt(stop, context) =>
      && stop == StopOf(policy, {s.view}, context) && stop != StopCompleted
      && Seen(env, s.t.history) == context
    case _ => Passes(policy, s.view) && Seen(env, s.t.history) == Alive
  }

  lemma {:induction false} ActionDecides(p: Program, o: nat, t: Track)
    requires o < |p.meta.rules| && Seen(p.env, t.history) == Alive
    ensures Decides(p.policy, p.env, RunAction(p, o, t))
  {
    hide Notify, Seen, Check, NotifyResolved;
    var s := RunAction(p, o, t);
    assert s.view in {s.view};
    SeenSnoc(p.env, t.history, ActionCalled(o));
    var t1 := Extend(t, ActionCalled(o));
    if s.view.Failed? {
      NotifySeen(p.env, RuleFailed(o, s.view.failure), t1);
      CheckSeen(p.env, Notify(p.env, RuleFailed(o, s.view.failure), t1));
    } else {
      NotifySeen(p.env, RuleFired(o), t1);
      ResolvedSeen(p, FirstFire, o, Notify(p.env, RuleFired(o), t1));
      CheckSeen(p.env, NotifyResolved(p, FirstFire, o, Notify(p.env, RuleFired(o), t1)));
    }
  }

  lemma {:induction false} ResolvedSeen(p: Program, kind: GroupKind, o: nat, t: Track)
    requires o < |p.meta.rules|
    ensures Seen(p.env, NotifyResolved(p, kind, o, t).history) == Seen(p.env, t.history)
  {
    if KindAt(p.meta, o) == Some(kind) {
      NotifySeen(p.env, GroupResolvedEvent(p.meta.rules[o].group.value, Selection(p.meta, o)), t);
    }
  }

  lemma {:induction false} MatchedDecides(p: Program, o: nat, t: Track)
    requires o < |p.meta.rules| && Seen(p.env, t.history) == Alive
    ensures Decides(p.policy, p.env, RunMatched(p, o, t))
  {
    var e1, e2 := RuleEvaluated(o, OutcomeTrue, None), RuleMatched(o);
    var t2 := Notify(p.env, e2, Notify(p.env, e1, t));
    var t3 := NotifyResolved(p, FirstMatch, o, t2);
    hide Notify, Seen, NotifyResolved, RunAction;
    NotifySeen(p.env, e1, t);
    NotifySeen(p.env, e2, Notify(p.env, e1, t));
    ResolvedSeen(p, FirstMatch, o, t2);
    CheckSeen(p.env, t3);
    var c := Check(p.env, t3);
    assert Skipped in {Skipped};
    if !c.answer.Done? {
      ActionDecides(p, o, c.t);
    }
  }

  lemma {:induction false} RuleDecides(p: Program, o: nat, t: Track)
    requires o < |p.meta.rules| && Seen(p.env, t.history) == Alive
    ensures Decides(p.policy, p.env, RunRule(p, o, t))
  {
    hide Notify, Seen, Check, RunMatched;
    var a := p.env.condition(o, t.history);
    SeenSnoc(p.env, t.history, ConditionCalled(o));
    var t1 := Extend(t, ConditionCalled(o));
    if a.ConditionReturned? && a.error.None? && a.matched {
      MatchedDecides(p, o, t1);
    } else {
      var s := RunRule(p, o, t);
      assert s.view in {s.view};
      if s.view.Failed? {
        var e1, e2 := RuleEvaluated(o, OutcomeError, Some(s.view.failure)), RuleFailed(o, s.view.failure);
        NotifySeen(p.env, e1, t1);
        NotifySeen(p.env, e2, Notify(p.env, e1, t1));
        CheckSeen(p.env, Notify(p.env, e2, Notify(p.env, e1, t1)));
      } else {
        NotifySeen(p.env, RuleEvaluated(o, OutcomeFalse, None), t1);
        CheckSeen(p.env, Notify(p.env, RuleEvaluated(o, OutcomeFalse, None), t1));
      }
    }
  }

  // ----- spans and runs

  ghost predicate AllPass(policy: Policy, views: seq<RuleView>) {
    forall k :: 0 <= k < |views| ==> Passes(policy, views[k])
  }

  /** A span either passes entirely, or all its views but those of the halting turn pass. */
  ghost predicate SpanDecides(policy: Policy, env: Environment, s: Span) {
    match s.next
    case Halt(stop, context) =>
      && stop == StopOf(policy, ViewSet(s.views), context) && stop != StopCompleted
      && Seen(env, s.t.history) == context
    case _ => AllPass(policy, s.views) && Seen(env, s.t.history) == Alive
  }

  /** Passing views in front do not change the stop. */
  lemma {:induction false} PassingFront(
    policy: Policy, front: seq<RuleView>, views: seq<RuleView>, context: ContextAnswer)
    requires AllPass(policy, front)
    ensures StopOf(policy, ViewSet(front + views), context) == StopOf(policy, ViewSet(views), context)
  {
    forall v | v in ViewSet(front + views)
      ensures v in ViewSet(views) || Passes(policy, v)
    {}
    assert forall v :: v in ViewSet(views) ==> v in ViewSet(front + views);
  }

  /** Neither do views of rules that were never evaluated. */
  lemma {:induction false} PassingBack(
    policy: Policy, views: seq<RuleView>, n: nat, reason: NotEvaluatedReason, context: ContextAnswer)
    ensures StopOf(policy, ViewSet(views + Fill(n, reason)), context) == StopOf(policy, ViewSet(views), context)
  {
    forall v | v in ViewSet(views + Fill(n, reason))
      ensures v in ViewSet(views) || v == NotEvaluated(reason)
    {}
    assert forall v :: v in ViewSet(views) ==> v in ViewSet(views + Fill(n, reason));
  }

  lemma {:induction false} SpanStops(p: Program, o: nat, end: nat, checked: bool, t: Track)
    requires o <= end <= |p.meta.rules| && Seen(p.env, t.history) == Alive
    ensures SpanDecides(p.policy, p.env, RunSpan(p, o, end, checked, t))
    decreases end - o
  {
    hide RunRule, Check, StopOf, Seen, Passes;
    NoViews(p.policy);
    if o < end {
      CheckSeen(p.env, t);
      var c := if checked then Boundary(Alive, t) else Check(p.env, t);
      if !c.answer.Done? {
        RuleDecides(p, o, c.t);
        var s := RunRule(p, o, c.t);
        assert ViewSet([s.view]) == {s.view};
        if s.next.Advance? {
          SpanStops(p, o + 1, end, false, s.t);
          var rest := RunSpan(p, o + 1, end, false, s.t);
          if rest.next.Halt? {
            PassingFront(p.policy, [s.view], rest.views, rest.next.context);
          }
        }
      }
    }
  }

  lemma {:induction false} NoViews(policy: Policy)
    ensures ViewSet([]) == {} && StopOf(policy, {}, Alive) == StopCompleted
    ensures forall c: ContextAnswer :: c.Done? ==> StopOf(policy, {}, c) == ContextStop(c) != StopCompleted
  {}

  lemma {:induction false} FillPasses(policy: Policy, n: nat, reason: NotEvaluatedReason)
    ensures AllPass(policy, Fill(n, reason))
  {}

  lemma {:induction false} EntriesStop(p: Program, entries: seq<CompiledEntry>, i: nat, start: nat, g: nat, t: Track)
    requires i <= |entries| && start <= |p.meta.rules| && g <= |p.meta.groups| && Tiled(p.meta, entries, i, start, g)
    requires Seen(p.env, t.history) == Alive
    ensures var r := RunEntries(p, entries, i, start, g, t);
            r.stop == StopOf(p.policy, ViewSet(r.views), r.context) && Seen(p.env, r.t.history) == r.context
    decreases |entries| - i
  {
    hide RunRule, RunSpan, Check, Notify, StopOf, Seen, Passes, ContextStop;
    NoViews(p.policy);
    if i < |entries| {
      var e := entries[i];
      var n := |p.meta.rules| - start;
      CheckSeen(p.env, t);
      var c := if e.group.Some? then Check(p.env, t) else Boundary(Alive, t);
      if c.answer.Done? {
        PassingBack(p.policy, [], n, ExecutionStopped, c.answer);
        assert [] + Fill(n, ExecutionStopped) == Fill(n, ExecutionStopped);
      } else {
        var s := RunSpan(p, start, e.end, e.group.Some?, c.t);
        SpanStops(p, start, e.end, e.group.Some?, c.t);
        var finish := GroupFinished(g, GroupOutcome(s));
        NotifySeen(p.env, finish, s.t);
        if s.next.Halt? {
          PassingBack(p.policy, s.views, n - |s.views|, ExecutionStopped, s.next.context);
        } else {
          var skipped := Fill(e.end - start - |s.views|, GroupResolved);
          var g', t' := if e.group.Some? then g + 1 else g, if e.group.Some? then Notify(p.env, finish, s.t) else s.t;
          EntriesStop(p, entries, i + 1, e.end, g', t');
          var rest := RunEntries(p, entries, i + 1, e.end, g', t');
          FillPasses(p.policy, e.end - start - |s.views|, GroupResolved);
          PassingFront(p.policy, s.views + skipped, rest.views, rest.context);
        }
      }
    }
  }

  /** The stop is the one with precedence over the final views and the observed context answer, and that answer is the
      last one any context check of the run gave when it found the context done. */
  lemma {:induction false} StopPrecedence(p: Program, observing: bool)
    requires WellFormed(p.meta)
    ensures var r := Interpret(p, observing);
            && r.stop == StopOf(p.policy, ViewSet(r.views), r.context)
            && r.context == Seen(p.env, r.t.history)
  {
    hide Notify, Check, RunEntries, StopOf, Seen, ContextStop, Tally;
    NoViews(p.policy);
    var start := ExecutionStarted(StartCounts(p.meta));
    var t0 := Track([], observing, []);
    SeenNothing(p.env);
    NotifySeen(p.env, start, t0);
    var t1 := Notify(p.env, start, t0);
    CheckSeen(p.env, t1);
    var c := Check(p.env, t1);
    if c.answer.Done? {
      PassingBack(p.policy, [], |p.meta.rules|, ExecutionStopped, c.answer);
      assert [] + Fill(|p.meta.rules|, ExecutionStopped) == Fill(|p.meta.rules|, ExecutionStopped);
    } else {
      EntriesStop(p, EntriesOf(p.meta), 0, 0, 0, c.t);
    }
    var b := Body(p, observing);
    NotifySeen(p.env, ExecutionFinished(Tally(b.views), b.stop), b.t);
  }

  lemma {:induction false} SeenNothing(env: Environment)
    ensures Seen(env, []) == Alive
  {}

  lemma {:induction false} FailuresMembers(views: seq<RuleView>)
    ensures FailuresIn(views) == [] <==> forall k :: 0 <= k < |views| ==> !views[k].Failed?
  {
    if views != [] {
      FailuresMembers(views[..|views| - 1]);
    }
  }

  /** The failures in front of a failed rule are listed before its own. */
  lemma {:induction false} FailuresInOrder(views: seq<RuleView>, o: nat)
    requires o < |views|
    ensures FailuresIn(views[..o]) <= FailuresIn(views)
    ensures |FailuresIn(views[..o])| + (if views[o].Failed? then 1 else 0) <= |FailuresIn(views)|
    ensures views[o].Failed? ==> FailuresIn(views)[|FailuresIn(views[..o])|] == views[o].failure
  {
    var n := |views| - 1;
    var front := views[..n];
    if o < n {
      FailuresInOrder(front, o);
      assert front[..o] == views[..o];
    }
  }

  /** An error is returned if and only if some rule failed or the context ended. The list is one entry for each failed
      rule, in order, then the context's error and its cause if that is another one. */
  lemma {:induction false} ErrorsIffFailed(r: Run)
    ensures ErrorsOf(r) != [] <==> (exists k :: 0 <= k < |r.views| && r.views[k].Failed?) || r.context.Done?
    ensures forall o :: 0 <= o < |r.views| && r.views[o].Failed? ==>
              var place := |FailuresIn(r.views[..o])|;
              place < |ErrorsOf(r)| && ErrorsOf(r)[place] == FailureOf(r.views[o].failure)
    ensures ErrorsOf(r)[|FailuresIn(r.views)|..]
            == match r.context
               case Alive => []
               case Done(error, cause) =>
                 if cause.Some? && cause.value != error then [ContextError(error), ContextError(cause.value)]
                 else [ContextError(error)]
  {
    FailuresMembers(r.views);
    assert |FailureErrors(FailuresIn(r.views))| == |FailuresIn(r.views)|;
    forall o | 0 <= o < |r.views| && r.views[o].Failed?
      ensures var place := |FailuresIn(r.views[..o])|;
              place < |ErrorsOf(r)| && ErrorsOf(r)[place] == FailureOf(r.views[o].failure)
    {
      FailuresInOrder(r.views, o);
    }
  }
}
