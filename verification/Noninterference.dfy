/** An observer that touches neither the context nor what callbacks read cannot change a business outcome. */
module Noninterference {
  import opened Facts
  import opened DenseInterpreter

  /** The history with the observer's calls left out. */
  function Business(h: History): History {
    if h == [] then []
    else Business(h[..|h| - 1]) + (if h[|h| - 1].Observed? then [] else [h[|h| - 1]])
  }

  /** Conditions, actions and the context answer the same whether or not an observer was called in between. */
  ghost predicate Indifferent(env: Environment) {
    && (forall o: nat, h: History :: env.condition(o, h) == env.condition(o, Business(h)))
    && (forall o: nat, h: History :: env.action(o, h) == env.action(o, Business(h)))
    && (forall h: History :: env.context(h) == env.context(Business(h)))
  }

  /** `u` is what `t` would be without any observer. */
  ghost predicate Unobserved(t: Track, u: Track) {
    !u.observing && u.diagnostics == [] && u.history == Business(t.history)
  }

  lemma {:induction false} BusinessSnoc(h: History, call: Call)
    ensures Business(h + [call]) == Business(h) + (if call.Observed? then [] else [call])
  {
    assert (h + [call])[..|h|] == h;
  }

  lemma {:induction false} CallSame(t: Track, u: Track, call: Call)
    requires Unobserved(t, u) && !call.Observed?
    ensures Unobserved(Extend(t, call), Extend(u, call))
  {
    BusinessSnoc(t.history, call);
  }

  lemma {:induction false} NotifySame(env: Environment, e: Event, t: Track, u: Track)
    requires Unobserved(t, u)
    ensures Unobserved(Notify(env, e, t), Notify(env, e, u))
  {
    BusinessSnoc(t.history, Observed(e));
    hide Business;
  }

  lemma {:induction false} CheckSame(env: Environment, t: Track, u: Track)
    requires Indifferent(env) && Unobserved(t, u)
    ensures Check(env, t).answer == Check(env, u).answer && Unobserved(Check(env, t).t, Check(env, u).t)
  {
    CallSame(t, u, ContextChecked);
  }

  lemma {:induction false} ResolvedSame(p: Program, kind: GroupKind, o: nat, t: Track, u: Track)
    requires o < |p.meta.rules| && Unobserved(t, u)
    ensures Unobserved(NotifyResolved(p, kind, o, t), NotifyResolved(p, kind, o, u))
  {
    hide Unobserved;
    if KindAt(p.meta, o) == Some(kind) {
      NotifySame(p.env, GroupResolvedEvent(p.meta.rules[o].group.value, Selection(p.meta, o)), t, u);
    }
  }

  /** Two steps with the same outcome, one observed and one not. */
  ghost predicate SameStep(s: Step, v: Step) {
    s.view == v.view && s.selects == v.selects && s.next == v.next && Unobserved(s.t, v.t)
  }

  /** Callbacks answer the same after histories that differ only in events. */
  lemma {:induction false} CallbacksSame(env: Environment, o: nat, t: Track, u: Track)
    requires Indifferent(env) && Unobserved(t, u)
    ensures env.action(o, t.history) == env.action(o, u.history)
    ensures env.condition(o, t.history) == env.condition(o, u.history)
  {}

  lemma {:induction false} ActionSame(p: Program, o: nat, t: Track, u: Track)
    requires Indifferent(p.env) && o < |p.meta.rules| && Unobserved(t, u)
    ensures SameStep(RunAction(p, o, t), RunAction(p, o, u))
  {
    hide Unobserved, Indifferent, Notify, Check, NotifyResolved, Settle;
    CallbacksSame(p.env, o, t, u);
    var a := p.env.action(o, t.history);
    CallSame(t, u, ActionCalled(o));
    var t1, u1 := Extend(t, ActionCalled(o)), Extend(u, ActionCalled(o));
    if a == ActionReturned(None) {
      NotifySame(p.env, RuleFired(o), t1, u1);
      var t2, u2 := Notify(p.env, RuleFired(o), t1), Notify(p.env, RuleFired(o), u1);
      ResolvedSame(p, FirstFire, o, t2, u2);
      CheckSame(p.env, NotifyResolved(p, FirstFire, o, t2), NotifyResolved(p, FirstFire, o, u2));
    } else {
      var f := RunAction(p, o, t).view.failure;
      NotifySame(p.env, RuleFailed(o, f), t1, u1);
      CheckSame(p.env, Notify(p.env, RuleFailed(o, f), t1), Notify(p.env, RuleFailed(o, f), u1));
    }
  }

  lemma {:induction false} MatchedSame(p: Program, o: nat, t: Track, u: Track)
    requires Indifferent(p.env) && o < |p.meta.rules| && Unobserved(t, u)
    ensures SameStep(RunMatched(p, o, t), RunMatched(p, o, u))
  {
    hide Unobserved, Indifferent, Notify, Check, NotifyResolved, RunAction;
    var e1, e2 := RuleEvaluated(o, OutcomeTrue, None), RuleMatched(o);
    var t1, u1 := Notify(p.env, e1, t), Notify(p.env, e1, u);
    var t2, u2 := Notify(p.env, e2, t1), Notify(p.env, e2, u1);
    var t3, u3 := NotifyResolved(p, FirstMatch, o, t2), NotifyResolved(p, FirstMatch, o, u2);
    NotifySame(p.env, e1, t, u);
    NotifySame(p.env, e2, t1, u1);
    ResolvedSame(p, FirstMatch, o, t2, u2);
    CheckSame(p.env, t3, u3);
    if !Check(p.env, t3).answer.Done? {
      ActionSame(p, o, Check(p.env, t3).t, Check(p.env, u3).t);
    }
  }

  lemma {:induction false} RuleSame(p: Program, o: nat, t: Track, u: Track)
    requires Indifferent(p.env) && o < |p.meta.rules| && Unobserved(t, u)
    ensures SameStep(RunRule(p, o, t), RunRule(p, o, u))
  {
    hide Unobserved, Indifferent, Notify, Check, RunMatched;
    CallbacksSame(p.env, o, t, u);
    var a := p.env.condition(o, t.history);
    CallSame(t, u, ConditionCalled(o));
    var t1, u1 := Extend(t, ConditionCalled(o)), Extend(u, ConditionCalled(o));
    if a.ConditionReturned? && a.error.None? {
      if a.matched {
        MatchedSame(p, o, t1, u1);
      } else {
        var e := RuleEvaluated(o, OutcomeFalse, None);
        NotifySame(p.env, e, t1, u1);
        CheckSame(p.env, Notify(p.env, e, t1), Notify(p.env, e, u1));
      }
    } else {
      var f := RunRule(p, o, t).view.failure;
      var e1, e2 := RuleEvaluated(o, OutcomeError, Some(f)), RuleFailed(o, f);
      NotifySame(p.env, e1, t1, u1);
      NotifySame(p.env, e2, Notify(p.env, e1, t1), Notify(p.env, e1, u1));
      CheckSame(p.env, Notify(p.env, e2, Notify(p.env, e1, t1)), Notify(p.env, e2, Notify(p.env, e1, u1)));
    }
  }

  ghost predicate SameSpan(s: Span, v: Span) {
    s.views == v.views && s.selected == v.selected && s.next == v.next && Unobserved(s.t, v.t)
  }

  lemma {:induction false} SpanSame(p: Program, o: nat, end: nat, checked: bool, t: Track, u: Track)
    requires Indifferent(p.env) && o <= end <= |p.meta.rules| && Unobserved(t, u)
    ensures SameSpan(RunSpan(p, o, end, checked, t), RunSpan(p, o, end, checked, u))
    decreases end - o
  {
    hide Unobserved, Indifferent, RunRule, Check;
    if o < end {
      CheckSame(p.env, t, u);
      var ct := if checked then Boundary(Alive, t) else Check(p.env, t);
      var cu := if checked then Boundary(Alive, u) else Check(p.env, u);
      if !ct.answer.Done? {
        RuleSame(p, o, ct.t, cu.t);
        var s, v := RunRule(p, o, ct.t), RunRule(p, o, cu.t);
        if s.next.Advance? {
          SpanSame(p, o + 1, end, false, s.t, v.t);
        }
      }
    }
  }

  ghost predicate SameRun(r: Run, q: Run) {
    r.views == q.views && r.groups == q.groups && r.stop == q.stop && r.context == q.context && Unobserved(r.t, q.t)
  }

  lemma {:induction false} EntriesSame(
    p: Program, entries: seq<CompiledEntry>, i: nat, start: nat, g: nat, t: Track, u: Track)
    requires i <= |entries| && start <= |p.meta.rules| && g <= |p.meta.groups| && Tiled(p.meta, entries, i, start, g)
    requires Indifferent(p.env) && Unobserved(t, u)
    ensures SameRun(RunEntries(p, entries, i, start, g, t), RunEntries(p, entries, i, start, g, u))
    decreases |entries| - i
  {
    hide Unobserved, Indifferent, RunRule, RunSpan, Check, Notify;
    if i < |entries| {
      var e := entries[i];
      if e.group.None? {
        SpanSame(p, start, e.end, false, t, u);
        var s, v := RunSpan(p, start, e.end, false, t), RunSpan(p, start, e.end, false, u);
        if !s.next.Halt? {
          EntriesSame(p, entries, i + 1, e.end, g, s.t, v.t);
        }
      } else {
        MembersSame(p, entries, i, start, g, t, u);
      }
    }
  }

  lemma {:induction false} MembersSame(
    p: Program, entries: seq<CompiledEntry>, i: nat, start: nat, g: nat, t: Track, u: Track)
    requires i < |entries| && start <= |p.meta.rules| && g <= |p.meta.groups| && Tiled(p.meta, entries, i, start, g)
    requires Indifferent(p.env) && Unobserved(t, u) && entries[i].group.Some?
    ensures SameRun(RunEntries(p, entries, i, start, g, t), RunEntries(p, entries, i, start, g, u))
    decreases |entries| - i, 0
  {
    hide Unobserved, Indifferent, RunRule, RunSpan, Check, Notify;
    var e := entries[i];
    CheckSame(p.env, t, u);
    var ct, cu := Check(p.env, t), Check(p.env, u);
    if !ct.answer.Done? {
      SpanSame(p, start, e.end, true, ct.t, cu.t);
      var s, v := RunSpan(p, start, e.end, true, ct.t), RunSpan(p, start, e.end, true, cu.t);
      var finish := GroupFinished(g, GroupOutcome(s));
      NotifySame(p.env, finish, s.t, v.t);
      if !s.next.Halt? {
        EntriesSame(p, entries, i + 1, e.end, g + 1, Notify(p.env, finish, s.t), Notify(p.env, finish, v.t));
      }
    }
  }

  /** The run with an observer and the run without one agree on every rule and group view, on the stop, on the
      context answer, and on every call into conditions, actions and the context. */
  lemma {:induction false} ObserverCannotInterfere(p: Program)
    requires WellFormed(p.meta) && Indifferent(p.env)
    ensures SameRun(Interpret(p, true), Interpret(p, false))
    ensures ErrorsOf(Interpret(p, true)) == ErrorsOf(Interpret(p, false))
  {
    var start := ExecutionStarted(StartCounts(p.meta));
    var t0, u0 := Track([], true, []), Track([], false, []);
    assert Unobserved(t0, u0);
    hide Unobserved, Indifferent, Notify, Check, RunEntries, Tally;
    NotifySame(p.env, start, t0, u0);
    var t1, u1 := Notify(p.env, start, t0), Notify(p.env, start, u0);
    CheckSame(p.env, t1, u1);
    if !Check(p.env, t1).answer.Done? {
      EntriesSame(p, EntriesOf(p.meta), 0, 0, 0, Check(p.env, t1).t, Check(p.env, u1).t);
    }
    var b, c := Body(p, true), Body(p, false);
    NotifySame(p.env, ExecutionFinished(Tally(b.views), b.stop), b.t, c.t);
  }
}
