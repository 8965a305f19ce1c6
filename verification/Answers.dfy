/** What user code answered decides the views: every call is read at its own place in the history, so neither the calls
    nor the views of a run can be exchanged for others. */
module Answers {
  import opened Facts
  import opened DenseInterpreter

  // ----- what one answer makes of a rule

  /** A failure keeps its rule, its phase and its cause, and says whether the execution goes on. */
  ghost predicate FailedBy(p: Program, o: nat, v: RuleView, phase: Phase, cause: FailureCause, continued: bool)
    requires o < |p.meta.rules|
  {
    v == Failed(Failure(p.meta.rules[o].id, phase, cause, continued))
  }

  /** The view of a rule whose condition answered `a`. */
  ghost predicate ConditionSays(p: Program, o: nat, v: RuleView, a: ConditionAnswer)
    requires o < |p.meta.rules|
  {
    match a
    case ConditionPanicked(e) => FailedBy(p, o, v, ConditionPhase, RecoveredPanic(e), false)
    case ConditionReturned(matched, error) =>
      if error.Some? then
        FailedBy(p, o, v, ConditionPhase, ReturnedError(error.value), p.policy.conditionErrors == ContinueOnError)
      else if matched then
        v == Skipped || v == Fired || (v.Failed? && v.failure.phase == ActionPhase)
      else
        v == Unmatched
  }

  /** The view of a rule whose action answered `a`. */
  ghost predicate ActionSays(p: Program, o: nat, v: RuleView, a: ActionAnswer)
    requires o < |p.meta.rules|
  {
    match a
    case ActionPanicked(e) => FailedBy(p, o, v, ActionPhase, RecoveredPanic(e), false)
    case ActionReturned(error) =>
      if error.Some? then
        FailedBy(p, o, v, ActionPhase, ReturnedError(error.value), p.policy.actionErrors == ContinueOnError)
      else
        v == Fired
  }

  // ----- the calls around a call

  ghost predicate OnlyEvents(h: History, from: nat, to: nat)
    requires to <= |h|
  {
    forall k :: from <= k < to ==> h[k].Observed?
  }

  /** A context check that found the context alive. */
  ghost predicate FoundAlive(env: Environment, h: History, i: nat) {
    i < |h| && h[i] == ContextChecked && env.context(h[..i]) == Alive
  }

  /** The last call before `i`, events aside, checked the context and found it alive. */
  ghost predicate Checked(env: Environment, h: History, i: nat)
    requires i <= |h|
  {
    exists m :: 0 <= m < i && FoundAlive(env, h, m) && OnlyEvents(h, m + 1, i)
  }

  /** So did the last two: the check behind the previous callback, and the one in front of this one. */
  ghost predicate CheckedTwice(env: Environment, h: History, i: nat)
    requires i <= |h|
  {
    exists m, n :: 0 <= m < n < i && FoundAlive(env, h, m) && FoundAlive(env, h, n) && OnlyEvents(h, m + 1, n)
      && OnlyEvents(h, n + 1, i)
  }

  /** The action of a rule follows its own condition, with one check of the context between them. */
  ghost predicate FollowsCondition(env: Environment, h: History, i: nat, o: nat)
    requires i <= |h|
  {
    exists m, n :: 0 <= m < n < i && h[m] == ConditionCalled(o) && FoundAlive(env, h, n)
                   && OnlyEvents(h, m + 1, n) && OnlyEvents(h, n + 1, i)
  }

  /** The next call behind `i`, events aside, checks the context. */
  ghost predicate ThenChecked(h: History, i: nat) {
    exists m :: i < m < |h| && h[m] == ContextChecked && OnlyEvents(h, i + 1, m)
  }

  /** Every check so far found the context alive. */
  ghost predicate Quiet(env: Environment, h: History) {
    forall i :: 0 <= i < |h| && h[i] == ContextChecked ==> env.context(h[..i]) == Alive
  }

  /** Behind a check that found the context done, there are only events. */
  ghost predicate Ends(env: Environment, h: History) {
    forall i :: 0 <= i < |h| && h[i] == ContextChecked && env.context(h[..i]) != Alive ==> OnlyEvents(h, i + 1, |h|)
  }

  // ----- a stretch of a run

  ghost predicate CallOk(p: Program, h: History, i: nat, start: nat, views: seq<RuleView>)
    requires start + |views| <= |p.meta.rules| && i < |h|
  {
    match h[i]
    case ConditionCalled(o) =>
      && start <= o < start + |views| && ConditionSays(p, o, views[o - start], p.env.condition(o, h[..i]))
      && CheckedTwice(p.env, h, i) && ThenChecked(h, i)
    case ActionCalled(o) =>
      && start <= o < start + |views| && ActionSays(p, o, views[o - start], p.env.action(o, h[..i]))
      && FollowsCondition(p.env, h, i, o) && ThenChecked(h, i)
    case _ => true
  }

  /** The place of a callback among all that can be called. */
  function Place(call: Call): int {
    match call
    case ConditionCalled(o) => 2 * o
    case ActionCalled(o) => 2 * o + 1
    case _ => -1
  }

  ghost predicate Calls(h: History, from: nat, call: Call) {
    exists i :: from <= i < |h| && h[i] == call
  }

  /** Exactly the evaluated rules had their condition called, and exactly the fired ones and those whose action failed
      had their action called. */
  ghost predicate Called(h: History, from: nat, o: nat, v: RuleView) {
    && (Calls(h, from, ConditionCalled(o)) <==> !v.NotEvaluated?)
    && (Calls(h, from, ActionCalled(o)) <==> v == Fired || (v.Failed? && v.failure.phase == ActionPhase))
  }

  /** The history from `from` on, and the views of the rules from `start` on that it decided. */
  ghost predicate Answered(p: Program, h: History, from: nat, start: nat, views: seq<RuleView>)
    requires start + |views| <= |p.meta.rules|
  {
    && (forall i :: from <= i < |h| ==> CallOk(p, h, i, start, views))
    && (forall i, j :: from <= i < j < |h| && Place(h[i]) >= 0 && Place(h[j]) >= 0 ==> Place(h[i]) < Place(h[j]))
    && (forall k :: 0 <= k < |views| ==> Called(h, from, start + k, views[k]))
  }

  // ----- stretches compose

  /** Extending a history changes nothing said about the calls in it. */
  lemma {:induction false} CallOkLater(
    p: Program, h: History, later: History, i: nat, start: nat, views: seq<RuleView>, wide: nat, more: seq<RuleView>)
    requires start + |views| <= |p.meta.rules| && i < |h| && h <= later && CallOk(p, h, i, start, views)
    requires wide <= start && start + |views| <= wide + |more| <= |p.meta.rules|
    requires forall k :: 0 <= k < |views| ==> more[start - wide + k] == views[k]
    ensures CallOk(p, later, i, wide, more)
  {
    hide ConditionSays, ActionSays;
    assert later[..i] == h[..i];
    forall m | 0 <= m < i && FoundAlive(p.env, h, m) ensures FoundAlive(p.env, later, m) {
      assert later[..m] == h[..m];
    }
    match h[i]
    case ConditionCalled(o) =>
      var m, n :| 0 <= m < n < i && FoundAlive(p.env, h, m) && FoundAlive(p.env, h, n)
                  && OnlyEvents(h, m + 1, n) && OnlyEvents(h, n + 1, i);
      assert FoundAlive(p.env, later, m) && FoundAlive(p.env, later, n);
      assert OnlyEvents(later, m + 1, n) && OnlyEvents(later, n + 1, i);
      ThenCheckedLater(h, later, i);
    case ActionCalled(o) =>
      var m, n :| 0 <= m < n < i && h[m] == ConditionCalled(o) && FoundAlive(p.env, h, n)
                  && OnlyEvents(h, m + 1, n) && OnlyEvents(h, n + 1, i);
      assert later[m] == ConditionCalled(o) && FoundAlive(p.env, later, n);
      assert OnlyEvents(later, m + 1, n) && OnlyEvents(later, n + 1, i);
      ThenCheckedLater(h, later, i);
    case _ =>
  }

  lemma {:induction false} ThenCheckedLater(h: History, later: History, i: nat)
    requires i < |h| && h <= later && ThenChecked(h, i)
    ensures ThenChecked(later, i)
  {
    var m :| i < m < |h| && h[m] == ContextChecked && OnlyEvents(h, i + 1, m);
    assert later[m] == ContextChecked && OnlyEvents(later, i + 1, m);
  }

  lemma {:induction false} CallsLater(h: History, later: History, from: nat, call: Call)
    requires from <= |h| && h <= later
    ensures Calls(later, from, call) <==> Calls(h, from, call) || Calls(later, |h|, call)
  {
    if i :| from <= i < |h| && h[i] == call {
      assert later[i] == call;
    }
    if i :| from <= i < |later| && later[i] == call {
      assert i < |h| ==> h[i] == call;
    }
  }

  lemma {:induction false} PlacesInRange(
    p: Program, h: History, from: nat, start: nat, views: seq<RuleView>, call: Call)
    requires start + |views| <= |p.meta.rules| && Answered(p, h, from, start, views)
    requires Calls(h, from, call) && Place(call) >= 0
    ensures 2 * start <= Place(call) < 2 * (start + |views|)
  {
    var i :| from <= i < |h| && h[i] == call;
    assert CallOk(p, h, i, start, views);
  }

  lemma {:induction false} Join(
    p: Program, h: History, later: History, from: nat, start: nat, first: seq<RuleView>, then': seq<RuleView>)
    requires start + |first| + |then'| <= |p.meta.rules| && from <= |h| && h <= later
    requires Answered(p, h, from, start, first) && Answered(p, later, |h|, start + |first|, then')
    ensures Answered(p, later, from, start, first + then')
  {
    hide Place, Called;
    var views := first + then';
    forall i | from <= i < |later| ensures CallOk(p, later, i, start, views) {
      if i < |h| {
        CallOkLater(p, h, later, i, start, first, start, views);
      } else {
        CallOkLater(p, later, later, i, start + |first|, then', start, views);
      }
    }
    forall i, j | from <= i < j < |later| && Place(later[i]) >= 0 && Place(later[j]) >= 0
      ensures Place(later[i]) < Place(later[j])
    {
      if j < |h| {
        assert Place(h[i]) < Place(h[j]);
      } else if i < |h| {
        assert h[i] == later[i];
        PlacesInRange(p, h, from, start, first, h[i]);
        PlacesInRange(p, later, |h|, start + |first|, then', later[j]);
      }
    }
    forall k | 0 <= k < |views| ensures Called(later, from, start + k, views[k]) {
      JoinCalled(p, h, later, from, start, first, then', k);
    }
  }

  lemma {:induction false} JoinCalled(
    p: Program, h: History, later: History, from: nat, start: nat, first: seq<RuleView>, then': seq<RuleView>, k: nat)
    requires start + |first| + |then'| <= |p.meta.rules| && from <= |h| && h <= later && k < |first| + |then'|
    requires Answered(p, h, from, start, first) && Answered(p, later, |h|, start + |first|, then')
    ensures Called(later, from, start + k, (first + then')[k])
  {
    var o := start + k;
    CallsLater(h, later, from, ConditionCalled(o));
    CallsLater(h, later, from, ActionCalled(o));
    if k < |first| {
      assert Called(h, from, start + k, first[k]);
      forall call | call in {ConditionCalled(o), ActionCalled(o)} ensures !Calls(later, |h|, call) {
        if Calls(later, |h|, call) {
          PlacesInRange(p, later, |h|, start + |first|, then', call);
        }
      }
    } else {
      assert Called(later, |h|, start + |first| + (k - |first|), then'[k - |first|]);
      forall call | call in {ConditionCalled(o), ActionCalled(o)} ensures !Calls(h, from, call) {
        if Calls(h, from, call) {
          PlacesInRange(p, h, from, start, first, call);
        }
      }
    }
  }

  /** Where no callback is called, no rule is evaluated. */
  lemma {:induction false} NoneAnswered(p: Program, h: History, from: nat, start: nat, views: seq<RuleView>)
    requires start + |views| <= |p.meta.rules|
    requires forall i :: from <= i < |h| ==> h[i].Observed? || h[i] == ContextChecked
    requires forall k :: 0 <= k < |views| ==> views[k].NotEvaluated?
    ensures Answered(p, h, from, start, views)
  {
    hide CheckedTwice, FollowsCondition, ThenChecked, ConditionSays, ActionSays;
  }

  // ----- events and checks

  ghost predicate Eventful(h: History, later: History) { h <= later && OnlyEvents(later, |h|, |later|) }

  lemma {:induction false} NotifyEventful(env: Environment, e: Event, t: Track)
    ensures Eventful(t.history, Notify(env, e, t).history)
  {}

  lemma {:induction false} EventfulThen(h: History, h1: History, h2: History)
    requires Eventful(h, h1) && Eventful(h1, h2)
    ensures Eventful(h, h2)
  {
    forall k | |h| <= k < |h2| ensures h2[k].Observed? {
      assert k < |h1| ==> h2[k] == h1[k];
    }
  }

  lemma {:induction false} ResolvedEventful(p: Program, kind: GroupKind, o: nat, t: Track)
    requires o < |p.meta.rules|
    ensures Eventful(t.history, NotifyResolved(p, kind, o, t).history)
  {
    if KindAt(p.meta, o) == Some(kind) {
      NotifyEventful(p.env, GroupResolvedEvent(p.meta.rules[o].group.value, Selection(p.meta, o)), t);
    }
  }

  lemma {:induction false} FailureEventful(env: Environment, o: nat, f: Failure, t: Track)
    ensures Eventful(t.history, NotifyConditionFailure(env, o, f, t).history)
  {
    var t1 := Notify(env, RuleEvaluated(o, OutcomeError, Some(f)), t);
    NotifyEventful(env, RuleEvaluated(o, OutcomeError, Some(f)), t);
    NotifyEventful(env, RuleFailed(o, f), t1);
    EventfulThen(t.history, t1.history, Notify(env, RuleFailed(o, f), t1).history);
  }

  lemma {:induction false} StillChecked(env: Environment, h: History, later: History)
    requires Checked(env, h, |h|) && Eventful(h, later)
    ensures Checked(env, later, |later|)
  {
    var m :| 0 <= m < |h| && FoundAlive(env, h, m) && OnlyEvents(h, m + 1, |h|);
    assert later[..m] == h[..m];
    assert FoundAlive(env, later, m);
    forall k | m + 1 <= k < |later| ensures later[k].Observed? {
      assert k < |h| ==> later[k] == h[k];
    }
  }

  lemma {:induction false} CheckChecks(env: Environment, h: History)
    requires env.context(h) == Alive
    ensures Checked(env, h + [ContextChecked], |h| + 1)
    ensures Checked(env, h, |h|) ==> CheckedTwice(env, h + [ContextChecked], |h| + 1)
  {
    var now := h + [ContextChecked];
    assert now[..|h|] == h;
    assert FoundAlive(env, now, |h|);
    if Checked(env, h, |h|) {
      var m :| 0 <= m < |h| && FoundAlive(env, h, m) && OnlyEvents(h, m + 1, |h|);
      assert now[..m] == h[..m];
      assert FoundAlive(env, now, m) && OnlyEvents(now, m + 1, |h|) && OnlyEvents(now, |h| + 1, |h| + 1);
    }
  }

  lemma {:induction false} StillQuiet(env: Environment, h: History, later: History)
    requires h <= later && forall k :: |h| <= k < |later| ==> later[k] != ContextChecked
    ensures Quiet(env, h) ==> Quiet(env, later)
  {
    if Quiet(env, h) {
      forall i | 0 <= i < |later| && later[i] == ContextChecked ensures env.context(later[..i]) == Alive {
        assert h[i] == later[i] && later[..i] == h[..i];
      }
    }
  }

  lemma {:induction false} StillEnds(env: Environment, h: History, later: History)
    requires Ends(env, h) && Eventful(h, later)
    ensures Ends(env, later)
  {
    forall i | 0 <= i < |later| && later[i] == ContextChecked && env.context(later[..i]) != Alive
      ensures OnlyEvents(later, i + 1, |later|)
    {
      assert h[i] == later[i] && later[..i] == h[..i];
      forall k | i + 1 <= k < |later| ensures later[k].Observed? {
        assert k < |h| ==> later[k] == h[k];
      }
    }
  }

  /** One more check: the last, or one more that found the context alive. */
  lemma {:induction false} CheckEnds(env: Environment, h: History)
    requires Quiet(env, h)
    ensures Ends(env, h + [ContextChecked]) && (env.context(h) == Alive ==> Quiet(env, h + [ContextChecked]))
  {
    var now := h + [ContextChecked];
    forall i | 0 <= i < |now| && now[i] == ContextChecked
      ensures now[..i] == h[..i] && (i < |h| ==> env.context(now[..i]) == Alive)
    {}
    assert h[..|h|] == h;
  }

  lemma {:induction false} QuietEnds(env: Environment, h: History)
    requires Quiet(env, h)
    ensures Ends(env, h)
  {}

  // ----- one turn

  /** A condition, its events, and the check behind them. */
  lemma {:induction false} ConditionAnswered(p: Program, o: nat, h: History, events: History, v: RuleView)
    requires o < |p.meta.rules| && CheckedTwice(p.env, h, |h|) && Eventful(h + [ConditionCalled(o)], events)
    requires ConditionSays(p, o, v, p.env.condition(o, h)) && v != Fired
             && !(v.Failed? && v.failure.phase == ActionPhase)
    requires !v.NotEvaluated?
    ensures Answered(p, events + [ContextChecked], |h|, o, [v])
  {
    hide ConditionSays;
    var now, i := events + [ContextChecked], |h|;
    assert now[i] == events[i] == (h + [ConditionCalled(o)])[i] && now[..i] == h;
    forall k | i < k < |events| ensures now[k].Observed? {
      assert now[k] == events[k];
    }
    ConditionOk(p, now, i, o, v, |events|);
    assert Calls(now, i, ConditionCalled(o));
  }

  lemma {:induction false} ConditionOk(p: Program, h: History, i: nat, o: nat, v: RuleView, m: nat)
    requires o < |p.meta.rules| && i < m < |h| && h[i] == ConditionCalled(o) && h[m] == ContextChecked
    requires CheckedTwice(p.env, h[..i], i) && OnlyEvents(h, i + 1, m)
    requires ConditionSays(p, o, v, p.env.condition(o, h[..i]))
    ensures CallOk(p, h, i, o, [v])
  {
    hide ConditionSays;
    var before := h[..i];
    var a, b :| 0 <= a < b < i && FoundAlive(p.env, before, a) && FoundAlive(p.env, before, b)
                && OnlyEvents(before, a + 1, b) && OnlyEvents(before, b + 1, i);
    assert h[..a] == before[..a] && h[..b] == before[..b];
    assert FoundAlive(p.env, h, a) && FoundAlive(p.env, h, b);
    assert OnlyEvents(h, a + 1, b) && OnlyEvents(h, b + 1, i);
    assert ThenChecked(h, i);
  }

  lemma {:induction false} ActionOk(p: Program, h: History, i: nat, n: nat, o: nat, v: RuleView, m: nat)
    requires o < |p.meta.rules| && i < n && n + 1 < m < |h| && h[m] == ContextChecked
    requires h[i] == ConditionCalled(o) && OnlyEvents(h, i + 1, n) && FoundAlive(p.env, h, n)
    requires h[n + 1] == ActionCalled(o) && OnlyEvents(h, n + 2, m)
    requires ActionSays(p, o, v, p.env.action(o, h[..n + 1]))
    ensures CallOk(p, h, n + 1, o, [v])
  {
    hide ActionSays, FoundAlive;
    assert OnlyEvents(h, n + 1, n + 1);
    assert FollowsCondition(p.env, h, n + 1, o);
    assert ThenChecked(h, n + 1);
  }

  /** A condition that matched, a check that found the context alive, the action, and the check behind that. */
  lemma {:induction false} BothAnswered(p: Program, o: nat, h: History, matched: History, acted: History, v: RuleView)
    requires o < |p.meta.rules| && CheckedTwice(p.env, h, |h|) && Eventful(h + [ConditionCalled(o)], matched)
    requires p.env.context(matched) == Alive && Eventful(matched + [ContextChecked, ActionCalled(o)], acted)
    requires ConditionSays(p, o, v, p.env.condition(o, h))
    requires ActionSays(p, o, v, p.env.action(o, matched + [ContextChecked]))
    requires v == Fired || (v.Failed? && v.failure.phase == ActionPhase)
    ensures Answered(p, acted + [ContextChecked], |h|, o, [v])
  {
    hide ConditionSays, ActionSays, CheckedTwice;
    var now, i, n, m := acted + [ContextChecked], |h|, |matched|, |acted|;
    var called := matched + [ContextChecked, ActionCalled(o)];
    forall k | 0 <= k < |called| ensures now[k] == called[k] {
      assert acted[k] == called[k];
    }
    assert now[i] == matched[i] == (h + [ConditionCalled(o)])[i];
    assert now[..i] == h && now[..n] == matched && now[..n + 1] == matched + [ContextChecked];
    forall k | n + 2 <= k < m ensures now[k].Observed? {
      assert now[k] == acted[k];
    }
    assert OnlyEvents(now, i + 1, n);
    ConditionOk(p, now, i, o, v, n);
    ActionOk(p, now, i, n, o, v, m);
    assert Calls(now, i, ConditionCalled(o)) && Calls(now, i, ActionCalled(o));
    BothOk(p, now, i, n, m, o, v);
  }

  lemma {:induction false} BothOk(p: Program, h: History, i: nat, n: nat, m: nat, o: nat, v: RuleView)
    requires o < |p.meta.rules| && i < n && n + 1 < m == |h| - 1
    requires h[i] == ConditionCalled(o) && h[n] == ContextChecked && h[n + 1] == ActionCalled(o)
             && h[m] == ContextChecked
    requires OnlyEvents(h, i + 1, n) && OnlyEvents(h, n + 2, m) && CallOk(p, h, i, o, [v])
             && CallOk(p, h, n + 1, o, [v])
    requires v == Fired || (v.Failed? && v.failure.phase == ActionPhase)
    ensures Answered(p, h, i, o, [v])
  {
    forall k | i <= k < |h| && k != i && k != n + 1 ensures h[k].Observed? || h[k] == ContextChecked {}
    hide CheckedTwice, FollowsCondition, ThenChecked, ConditionSays, ActionSays;
    assert Calls(h, i, ConditionCalled(o)) && Calls(h, i, ActionCalled(o));
  }

  // ----- the interpreter's turn

  /** What a turn leaves behind: its calls answered, and a live context unless it halts. */
  ghost predicate TurnOk(p: Program, o: nat, h: History, s: Step)
    requires o < |p.meta.rules|
  {
    && h <= s.t.history && Answered(p, s.t.history, |h|, o, [s.view])
    && LeavesOff(p.env, s.t.history, s.next)
  }

  /** A run goes on only while the context is alive, and halts with the check that found it done, if one did. */
  ghost predicate LeavesOff(env: Environment, h: History, next: Next) {
    if next.Halt? then Ends(env, h) else Quiet(env, h) && Checked(env, h, |h|)
  }

  /** Behind a callback and its events comes a check, and the run goes on only if that found the context alive. */
  lemma {:induction false} TurnLeavesOff(env: Environment, h: History, call: Call, told: History, next: Next)
    requires Quiet(env, h) && call != ContextChecked && Eventful(h + [call], told)
    requires !next.Halt? ==> env.context(told) == Alive
    ensures LeavesOff(env, told + [ContextChecked], next)
  {
    forall k | |h| <= k < |told| ensures told[k] != ContextChecked {
      assert k == |h| ==> told[k] == (h + [call])[k];
    }
    assert h <= h + [call] <= told;
    StillQuiet(env, h, told);
    CheckEnds(env, told);
    if env.context(told) == Alive {
      CheckChecks(env, told);
    }
  }

  lemma {:induction false} RuleAnswered(p: Program, o: nat, t: Track)
    requires o < |p.meta.rules| && CheckedTwice(p.env, t.history, |t.history|) && Quiet(p.env, t.history)
    ensures TurnOk(p, o, t.history, RunRule(p, o, t))
  {
    hide Notify, NotifyConditionFailure, Answered, CheckedTwice, Quiet, LeavesOff, RunMatched;
    var h, called := t.history, Extend(t, ConditionCalled(o));
    var s := RunRule(p, o, t);
    var a := p.env.condition(o, h);
    if a.ConditionReturned? && a.error.None? && a.matched {
      MatchedAnswered(p, o, t);
    } else {
      var told: Track;
      if s.view.Failed? {
        told := NotifyConditionFailure(p.env, o, s.view.failure, called);
        FailureEventful(p.env, o, s.view.failure, called);
      } else {
        told := Notify(p.env, RuleEvaluated(o, OutcomeFalse, None), called);
        NotifyEventful(p.env, RuleEvaluated(o, OutcomeFalse, None), called);
      }
      ConditionAnswered(p, o, h, told.history, s.view);
      TurnLeavesOff(p.env, h, ConditionCalled(o), told.history, s.next);
    }
  }

  lemma {:induction false} MatchedAnswered(p: Program, o: nat, t: Track)
    requires o < |p.meta.rules| && CheckedTwice(p.env, t.history, |t.history|) && Quiet(p.env, t.history)
    requires p.env.condition(o, t.history) == ConditionReturned(true, None)
    ensures TurnOk(p, o, t.history, RunMatched(p, o, Extend(t, ConditionCalled(o))))
  {
    hide Notify, NotifyResolved, Answered, CheckedTwice, Quiet, LeavesOff, RunAction;
    var h, called := t.history, Extend(t, ConditionCalled(o));
    var evaluated := Notify(p.env, RuleEvaluated(o, OutcomeTrue, None), called);
    var matched := Notify(p.env, RuleMatched(o), evaluated);
    var told := NotifyResolved(p, FirstMatch, o, matched);
    NotifyEventful(p.env, RuleEvaluated(o, OutcomeTrue, None), called);
    NotifyEventful(p.env, RuleMatched(o), evaluated);
    ResolvedEventful(p, FirstMatch, o, matched);
    EventfulThen(called.history, evaluated.history, matched.history);
    EventfulThen(called.history, matched.history, told.history);
    if p.env.context(told.history).Done? {
      var s := RunMatched(p, o, called);
      ConditionAnswered(p, o, h, told.history, Skipped);
      TurnLeavesOff(p.env, h, ConditionCalled(o), told.history, s.next);
    } else {
      ActionAnswered(p, o, t, told);
    }
  }

  lemma {:induction false} ActionAnswered(p: Program, o: nat, t: Track, told: Track)
    requires o < |p.meta.rules| && CheckedTwice(p.env, t.history, |t.history|) && Quiet(p.env, t.history)
    requires p.env.condition(o, t.history) == ConditionReturned(true, None)
    requires Eventful(t.history + [ConditionCalled(o)], told.history) && p.env.context(told.history) == Alive
    ensures TurnOk(p, o, t.history, RunAction(p, o, Check(p.env, told).t))
  {
    hide Notify, NotifyResolved, Answered, CheckedTwice, Quiet, LeavesOff;
    var before := Check(p.env, told).t;
    var called := Extend(before, ActionCalled(o));
    var s := RunAction(p, o, before);
    var last: Track;
    if s.view.Failed? {
      last := Notify(p.env, RuleFailed(o, s.view.failure), called);
      NotifyEventful(p.env, RuleFailed(o, s.view.failure), called);
    } else {
      var fired := Notify(p.env, RuleFired(o), called);
      last := NotifyResolved(p, FirstFire, o, fired);
      NotifyEventful(p.env, RuleFired(o), called);
      ResolvedEventful(p, FirstFire, o, fired);
      EventfulThen(called.history, fired.history, last.history);
    }
    assert called.history == told.history + [ContextChecked, ActionCalled(o)];
    BothAnswered(p, o, t.history, told.history, last.history, s.view);
    QuietBefore(p.env, o, t.history, told.history);
    TurnLeavesOff(p.env, before.history, ActionCalled(o), last.history, s.next);
  }

  lemma {:induction false} QuietBefore(env: Environment, o: nat, h: History, told: History)
    requires Quiet(env, h) && Eventful(h + [ConditionCalled(o)], told) && env.context(told) == Alive
    ensures Quiet(env, told + [ContextChecked])
  {
    assert LeavesOff(env, told + [ContextChecked], Advance) by {
      TurnLeavesOff(env, h, ConditionCalled(o), told, Advance);
    }
  }

  // ----- spans and runs

  ghost predicate SpanOk(p: Program, o: nat, h: History, s: Span)
    requires o + |s.views| <= |p.meta.rules|
  {
    && h <= s.t.history && Answered(p, s.t.history, |h|, o, s.views)
    && LeavesOff(p.env, s.t.history, s.next)
  }

  lemma {:induction false} NothingAnswered(p: Program, h: History, later: History, o: nat)
    requires o <= |p.meta.rules| && h <= later && forall k :: |h| <= k < |later| ==> later[k] == ContextChecked
    ensures Answered(p, later, |h|, o, [])
  {
    NoneAnswered(p, later, |h|, o, []);
  }

  lemma {:induction false} SpanAnswered(p: Program, o: nat, end: nat, checked: bool, t: Track)
    requires o <= end <= |p.meta.rules| && Checked(p.env, t.history, |t.history|) && Quiet(p.env, t.history)
    requires checked ==> CheckedTwice(p.env, t.history, |t.history|)
    ensures SpanOk(p, o, t.history, RunSpan(p, o, end, checked, t))
    decreases end - o
  {
    hide RunRule, Answered, CheckedTwice, Checked, Quiet, Ends;
    var h := t.history;
    NothingAnswered(p, h, h, o);
    if o < end {
      var c := if checked then Boundary(Alive, t) else Check(p.env, t);
      NothingAnswered(p, h, c.t.history, o);
      if !checked {
        CheckEnds(p.env, h);
      }
      if !c.answer.Done? {
        if !checked {
          CheckChecks(p.env, h);
        }
        assert Quiet(p.env, c.t.history);
        RuleAnswered(p, o, c.t);
        var s := RunRule(p, o, c.t);
        assert [] + [s.view] == [s.view];
        Join(p, c.t.history, s.t.history, |h|, o, [], [s.view]);
        if s.next.Advance? {
          SpanAnswered(p, o + 1, end, false, s.t);
          var rest := RunSpan(p, o + 1, end, false, s.t);
          Join(p, s.t.history, rest.t.history, |h|, o, [s.view], rest.views);
        }
      }
    }
  }

  /** Events after a stretch, and rules behind it that were not evaluated, belong to it. */
  lemma {:induction false} Closed(
    p: Program, h: History, later: History, from: nat, start: nat, views: seq<RuleView>, n: nat,
    reason: NotEvaluatedReason)
    requires start + |views| + n <= |p.meta.rules| && from <= |h| && Eventful(h, later)
    requires Answered(p, h, from, start, views)
    ensures Answered(p, later, from, start, views + Fill(n, reason))
  {
    hide Answered;
    NoneAnswered(p, later, |h|, start + |views|, Fill(n, reason));
    Join(p, h, later, from, start, views, Fill(n, reason));
  }

  lemma {:induction false} EntriesAnswered(
    p: Program, entries: seq<CompiledEntry>, i: nat, start: nat, g: nat, t: Track)
    requires i <= |entries| && start <= |p.meta.rules| && g <= |p.meta.groups| && Tiled(p.meta, entries, i, start, g)
    requires Checked(p.env, t.history, |t.history|) && Quiet(p.env, t.history)
    ensures var r := RunEntries(p, entries, i, start, g, t);
            && t.history <= r.t.history && Answered(p, r.t.history, |t.history|, start, r.views)
            && Ends(p.env, r.t.history)
    decreases |entries| - i
  {
    hide RunRule, RunSpan, Notify, Answered, CheckedTwice, Checked, ContextStop, Quiet, Ends, LeavesOff;
    var h, n := t.history, |p.meta.rules| - start;
    NothingAnswered(p, h, h, start);
    QuietEnds(p.env, h);
    CheckEnds(p.env, h);
    if i < |entries| {
      var e := entries[i];
      var c := if e.group.Some? then Check(p.env, t) else Boundary(Alive, t);
      NothingAnswered(p, h, c.t.history, start);
      if c.answer.Done? {
        NoneAnswered(p, c.t.history, |h|, start, Fill(n, ExecutionStopped));
      } else {
        if e.group.Some? {
          CheckChecks(p.env, h);
        }
        SpanAnswered(p, start, e.end, e.group.Some?, c.t);
        var s := RunSpan(p, start, e.end, e.group.Some?, c.t);
        assert [] + s.views == s.views;
        Join(p, c.t.history, s.t.history, |h|, start, [], s.views);
        EntryAnswered(p, entries, i, start, g, t, s,
                      if e.group.Some? then Notify(p.env, GroupFinished(g, GroupOutcome(s)), s.t) else s.t);
      }
    }
  }

  lemma {:induction false} EntryAnswered(
    p: Program, entries: seq<CompiledEntry>, i: nat, start: nat, g: nat, t: Track, s: Span, told: Track)
    requires i < |entries| && start <= |p.meta.rules| && g <= |p.meta.groups| && Tiled(p.meta, entries, i, start, g)
    requires |s.views| <= entries[i].end - start && t.history <= s.t.history
    requires Answered(p, s.t.history, |t.history|, start, s.views)
    requires LeavesOff(p.env, s.t.history, s.next)
    requires told == if entries[i].group.Some? then Notify(p.env, GroupFinished(g, GroupOutcome(s)), s.t) else s.t
    ensures var e := entries[i];
            if s.next.Halt? then
              && t.history <= told.history
              && Answered(p, told.history, |t.history|, start,
                          s.views + Fill(|p.meta.rules| - start - |s.views|, ExecutionStopped))
              && Ends(p.env, told.history)
            else
              var rest := RunEntries(p, entries, i + 1, e.end, if e.group.Some? then g + 1 else g, told);
              && t.history <= rest.t.history
              && Answered(p, rest.t.history, |t.history|, start,
                          s.views + Fill(e.end - start - |s.views|, GroupResolved) + rest.views)
              && Ends(p.env, rest.t.history)
    decreases |entries| - i, 0
  {
    hide RunRule, RunSpan, Notify, Answered, CheckedTwice, Checked, ContextStop, RunEntries, Quiet, Ends;
    var e, h := entries[i], t.history;
    if e.group.Some? {
      NotifyEventful(p.env, GroupFinished(g, GroupOutcome(s)), s.t);
    }
    if s.next.Halt? {
      Closed(p, s.t.history, told.history, |h|, start, s.views, |p.meta.rules| - start - |s.views|, ExecutionStopped);
      StillEnds(p.env, s.t.history, told.history);
    } else {
      var n := e.end - start - |s.views|;
      Closed(p, s.t.history, told.history, |h|, start, s.views, n, GroupResolved);
      StillChecked(p.env, s.t.history, told.history);
      StillQuiet(p.env, s.t.history, told.history);
      var g' := if e.group.Some? then g + 1 else g;
      EntriesAnswered(p, entries, i + 1, e.end, g', told);
      var rest := RunEntries(p, entries, i + 1, e.end, g', told);
      Join(p, told.history, rest.t.history, |h|, start, s.views + Fill(n, GroupResolved), rest.views);
    }
  }

  /** In every run, each condition and each action is called at most once, in ascending order, the action behind its own
      condition, between context checks that found the context alive; and what it answered, at its own place in the
      history, is what the rule's view says. Rules whose condition was not called are exactly those not evaluated. */
  lemma {:induction false} AnswersDecide(p: Program, observing: bool)
    requires WellFormed(p.meta)
    ensures var r := Interpret(p, observing);
            Answered(p, r.t.history, 0, 0, r.views) && Ends(p.env, r.t.history)
  {
    hide Notify, Answered, RunEntries, Checked, Tally, ContextStop, Quiet, Ends;
    var start, finish := ExecutionStarted(StartCounts(p.meta)), Body(p, observing);
    var t0 := Track([], observing, []);
    var started := Notify(p.env, start, t0);
    NotifyEventful(p.env, start, t0);
    var c := Check(p.env, started);
    NoneAnswered(p, c.t.history, 0, 0, []);
    NoChecks(p.env);
    StillQuiet(p.env, [], started.history);
    CheckEnds(p.env, started.history);
    if c.answer.Done? {
      NoneAnswered(p, c.t.history, 0, 0, finish.views);
    } else {
      CheckChecks(p.env, started.history);
      EntriesAnswered(p, EntriesOf(p.meta), 0, 0, 0, c.t);
      assert [] + finish.views == finish.views;
      Join(p, c.t.history, finish.t.history, 0, 0, [], finish.views);
    }
    var last := Notify(p.env, ExecutionFinished(Tally(finish.views), finish.stop), finish.t);
    NotifyEventful(p.env, ExecutionFinished(Tally(finish.views), finish.stop), finish.t);
    StillEnds(p.env, finish.t.history, last.history);
    Closed(p, finish.t.history, last.history, 0, 0, finish.views, 0, ExecutionStopped);
    assert finish.views + Fill(0, ExecutionStopped) == finish.views;
  }

  lemma {:induction false} NoChecks(env: Environment)
    ensures Quiet(env, [])
  {}

  // ----- read from the views

  /** Of every condition that was called: it answered false exactly if the rule is unmatched, true exactly if it is
      skipped, fired or failed in its action, and an error or a panic exactly if it failed in its condition. */
  lemma {:induction false} ConditionTold(p: Program, observing: bool, i: nat, o: nat)
    requires WellFormed(p.meta) && i < |Interpret(p, observing).t.history|
    requires Interpret(p, observing).t.history[i] == ConditionCalled(o)
    ensures var r := Interpret(p, observing);
            && o < |r.views| && !r.views[o].NotEvaluated?
            && var v := r.views[o];
               var a := p.env.condition(o, r.t.history[..i]);
               && (v == Unmatched <==> a == ConditionReturned(false, None))
               && (v == Skipped || v == Fired || (v.Failed? && v.failure.phase == ActionPhase) <==>
                     a == ConditionReturned(true, None))
               && (v.Failed? && v.failure.phase == ConditionPhase <==>
                     a.ConditionPanicked? || (a.ConditionReturned? && a.error.Some?))
  {
    hide Interpret;
    AnswersDecide(p, observing);
    var r := Interpret(p, observing);
    assert CallOk(p, r.t.history, i, 0, r.views);
  }

  /** The rules whose condition was called are exactly those evaluated; those whose action was called fired or failed in
      it, so a match is skipped exactly if its action was never called. */
  lemma {:induction false} CalledIffEvaluated(p: Program, observing: bool, o: nat)
    requires WellFormed(p.meta) && o < |Interpret(p, observing).views|
    ensures var r := Interpret(p, observing);
            && (r.views[o].NotEvaluated? <==> ConditionCalled(o) !in r.t.history)
            && (r.views[o].Skipped? ==> ActionCalled(o) !in r.t.history)
            && (r.views[o].Fired? || (r.views[o].Failed? && r.views[o].failure.phase == ActionPhase) <==>
                  ActionCalled(o) in r.t.history)
  {
    hide Interpret, CallOk;
    AnswersDecide(p, observing);
    var r := Interpret(p, observing);
    assert Called(r.t.history, 0, o, r.views[o]);
    CallsIsIn(r.t.history, ConditionCalled(o));
    CallsIsIn(r.t.history, ActionCalled(o));
  }

  lemma {:induction false} CallsIsIn(h: History, call: Call)
    ensures Calls(h, 0, call) <==> call in h
  {}
}
