/** The engine: one callback state machine that updates a sparse ledger in place, proved to have exactly the
    meaning the dense interpreter gives. */
module Execution {
  import opened Facts
  import opened DenseInterpreter
  import opened Ledger
  import opened Compression

  datatype RuleEventKind = EvaluatedEvent | MatchedEvent | FiredEvent | FailedEvent

  lemma {:induction false} Concat<X>(a: seq<X>, b: seq<X>, c: seq<X>)
    ensures a + b + c == a + (b + c)
  {}

  lemma {:induction false} LastUpdateWins<X>(s: seq<X>, g: nat, a: X, b: X)
    requires g < |s|
    ensures s[g := a][g := b] == s[g := b] && s[g := s[g]] == s
  {}

  class Execution {
    const p: Program
    var history: History
    var observing: bool
    var result: Result
    var errors: seq<ErrorCause>

    constructor (p: Program, observed: bool)
      ensures this.p == p && T() == Track([], observed, []) && errors == []
      ensures result == Result(p.meta, NO_COUNTS.(total := |p.meta.rules|), StopNone, [], [], [], 0, [])
    {
      this.p := p;
      history := [];
      observing := observed;
      errors := [];
      result := Result(p.meta, NO_COUNTS.(total := |p.meta.rules|), StopNone, [], [], [], 0, []);
    }

    ghost function T(): Track
      reads this
    {
      Track(history, observing, result.diagnostics)
    }

    // ----- observer

    method Observe(event: Event)
      modifies this
      ensures T() == Notify(p.env, event, old(T()))
      ensures result == old(result).(diagnostics := result.diagnostics) && errors == old(errors)
    {
      if !observing { return; }
      var answer := p.env.observe(event, history);
      history := history + [Observed(event)];
      match answer
      case ObserverReturned(None) =>
      case ObserverReturned(Some(e)) =>
        result := result.(diagnostics := result.diagnostics + [Diagnostic(event, ReturnedError(e))]);
        observing := false;
      case ObserverPanicked(v) =>
        result := result.(diagnostics := result.diagnostics + [Diagnostic(event, RecoveredPanic(v))]);
        observing := false;
    }

    method ObserveRule(kind: RuleEventKind, order: nat, outcome: ConditionOutcome)
      requires kind == FailedEvent ==> result.failures != []
      modifies this
      ensures T() == match kind
                     case EvaluatedEvent => Notify(p.env, RuleEvaluated(order, outcome, None), old(T()))
                     case MatchedEvent => Notify(p.env, RuleMatched(order), old(T()))
                     case FiredEvent => Notify(p.env, RuleFired(order), old(T()))
                     case FailedEvent =>
                       var f := old(result.failures[|result.failures| - 1]);
                       if f.phase == ConditionPhase then NotifyConditionFailure(p.env, order, f, old(T()))
                       else Notify(p.env, RuleFailed(order, f), old(T()))
      ensures result == old(result).(diagnostics := result.diagnostics) && errors == old(errors)
    {
      if !observing { return; }
      match kind
      case EvaluatedEvent => Observe(RuleEvaluated(order, outcome, None));
      case MatchedEvent => Observe(RuleMatched(order));
      case FiredEvent => Observe(RuleFired(order));
      case FailedEvent =>
        var f := result.failures[|result.failures| - 1];
        if f.phase == ConditionPhase {
          Observe(RuleEvaluated(order, OutcomeError, Some(f)));
        }
        Observe(RuleFailed(order, f));
    }

    method ObserveGroup(resolved: bool, index: nat)
      requires result.meta == p.meta && index < |p.meta.groups|
      modifies this
      ensures T() == Notify(p.env, if resolved then GroupResolvedEvent(index, old(result.GroupAt(index)))
                                   else GroupFinished(index, old(result.GroupAt(index))), old(T()))
      ensures result == old(result).(diagnostics := result.diagnostics) && errors == old(errors)
    {
      if !observing { return; }
      var view := result.GroupAt(index);
      if resolved {
        Observe(GroupResolvedEvent(index, view));
      } else {
        Observe(GroupFinished(index, view));
      }
    }

    method ObserveSummary(started: bool)
      modifies this
      ensures var counts := old(result.counts);
              T() == Notify(p.env, if started then ExecutionStarted(counts.(notEvaluated := counts.total))
                                   else ExecutionFinished(counts, old(result.stop)), old(T()))
      ensures result == old(result).(diagnostics := result.diagnostics) && errors == old(errors)
    {
      if !observing { return; }
      if started {
        Observe(ExecutionStarted(result.counts.(notEvaluated := result.counts.total)));
      } else {
        Observe(ExecutionFinished(result.counts, result.stop));
      }
    }

    // ----- ledger writers

    /** The frontier and the call counter move before the condition runs. */
    method Advance(order: nat)
      modifies `result
      ensures result == old(result).(evaluatedThrough := order + 1, counts := Add(old(result.counts), ONE_CALL))
    {
      result := result.(evaluatedThrough := order + 1);
      result := result.(counts := result.counts.(evaluated := result.counts.evaluated + 1));
    }

    /** A false condition occupies no record. */
    method Miss()
      modifies `result
      ensures result == old(result).(counts := Add(old(result.counts), OutcomeCounts(Unmatched)))
    {
      result := result.(counts := result.counts.(unmatched := result.counts.unmatched + 1));
    }

    method Record(order: nat, skipped: bool)
      modifies `result
      ensures result == old(result).(records := old(result.records)
                                     + RecordsFor(order, if skipped then Skipped else Fired, 0),
                                     counts := Add(old(result.counts),
                                                   OutcomeCounts(if skipped then Skipped else Fired)))
    {
      var c := result.counts;
      if skipped {
        result := result.(records := result.records + [Ledger.Record(order, RecordSkipped, 0)]);
        result := result.(counts := c.(matched := c.matched + 1, skipped := c.skipped + 1));
      } else {
        result := result.(records := result.records + [Ledger.Record(order, RecordFired, 0)]);
        result := result.(counts := c.(matched := c.matched + 1, fired := c.fired + 1));
      }
    }

    method Fail(order: nat, phase: Phase, cause: FailureCause, continued: bool)
      requires result.meta == p.meta && order < |p.meta.rules|
      modifies `result, `errors
      ensures var f := Failure(p.meta.rules[order].id, phase, cause, continued);
              && result.records == old(result.records) + [Ledger.Record(order, RecordFailed, |old(result.failures)|)]
              && result.failures == old(result.failures) + [f]
              && errors == old(errors) + [FailureOf(f)]
              && result.counts == Add(old(result.counts), OutcomeCounts(Failed(f)))
      ensures result == old(result).(records := result.records, failures := result.failures, counts := result.counts)
    {
      var f := Failure(result.meta.rules[order].id, phase, cause, continued);
      result := result.(records := result.records + [Ledger.Record(order, RecordFailed, |result.failures|)]);
      result := result.(failures := result.failures + [f]);
      errors := errors + [FailureOf(f)];
      var c := result.counts;
      c := c.(failed := c.failed + 1);
      if phase == ConditionPhase {
        c := c.(conditionFailed := c.conditionFailed + 1);
      } else {
        c := c.(actionFailed := c.actionFailed + 1, matched := c.matched + 1);
      }
      if cause.RecoveredPanic? {
        c := c.(panicRecovered := c.panicRecovered + 1);
      }
      result := result.(counts := c);
    }

    method ContextDone() returns (done: bool)
      modifies this
      ensures var c := Check(p.env, old(T()));
              && T() == c.t && done == c.answer.Done? && errors == old(errors) + ContextErrors(c.answer)
              && result == old(result).(stop := if done && old(result.stop) != StopPanic then ContextStop(c.answer)
                                                else old(result.stop))
    {
      var answer := p.env.context(history);
      history := history + [ContextChecked];
      match answer
      case Alive => done := false;
      case Done(error, cause) =>
        errors := errors + [ContextError(error)];
        if cause.Some? && cause.value != error {
          errors := errors + [ContextError(cause.value)];
        }
        if result.stop != StopPanic {
          if error == DEADLINE_EXCEEDED {
            result := result.(stop := StopContextDeadlineExceeded);
          } else {
            result := result.(stop := StopContextCanceled);
          }
        }
        done := true;
    }

    method ResolveGroup(g: nat, id: RuleId)
      requires g < |result.groups|
      modifies `result
      ensures result == old(result).(
                groups := old(result.groups)[g := old(result.groups[g]).(state := GroupSelected, selected := id)])
    {
      result := result.(groups := result.groups[g := result.groups[g].(state := GroupSelected, selected := id)]);
    }

    method SkipFrom(g: nat, order: nat)
      requires g < |result.groups|
      modifies `result
      ensures result == old(result).(groups := old(result.groups)[g := old(result.groups[g]).(skippedFrom := order)])
    {
      result := result.(groups := result.groups[g := result.groups[g].(skippedFrom := order)]);
    }

    ghost function Reported(order: nat, f: Failure, t: Track): Track {
      if f.phase == ConditionPhase then NotifyConditionFailure(p.env, order, f, t)
      else Notify(p.env, RuleFailed(order, f), t)
    }

    /** An ordinary callback error: record it, then report it. */
    method FailAndReport(order: nat, phase: Phase, error: ErrorId, continued: bool)
      requires result.meta == p.meta && order < |p.meta.rules|
      modifies this
      ensures var v := Failed(Failure(p.meta.rules[order].id, phase, ReturnedError(error), continued));
              && T() == Reported(order, v.failure, old(T()))
              && result.records == old(result.records) + RecordsFor(order, v, |old(result.failures)|)
              && result.failures == old(result.failures) + FailureEntries(v)
              && errors == old(errors) + FailureErrorEntries(v)
              && result.counts == Add(old(result.counts), OutcomeCounts(v))
      ensures result == old(result).(records := result.records, failures := result.failures, counts := result.counts,
                                     diagnostics := result.diagnostics)
    {
      Fail(order, phase, ReturnedError(error), continued);
      ObserveRule(FailedEvent, order, if phase == ConditionPhase then OutcomeError else OutcomeNotEvaluated);
    }

    /** A recovered panic: it fixes the stop reason, and the boundary after it can only add causes. */
    method Abort(order: nat, phase: Phase, payload: ErrorId)
      requires result.meta == p.meta && order < |p.meta.rules|
      modifies this
      ensures var v := Failed(Failure(p.meta.rules[order].id, phase, RecoveredPanic(payload), false));
              var c := Check(p.env, Reported(order, v.failure, old(T())));
              && T() == c.t
              && result.records == old(result.records) + RecordsFor(order, v, |old(result.failures)|)
              && result.failures == old(result.failures) + FailureEntries(v)
              && errors == old(errors) + FailureErrorEntries(v) + ContextErrors(c.answer)
              && result.counts == Add(old(result.counts), OutcomeCounts(v))
      ensures result == old(result).(records := result.records, failures := result.failures, counts := result.counts,
                                     diagnostics := result.diagnostics, stop := StopPanic)
    {
      Fail(order, phase, RecoveredPanic(payload), false);
      result := result.(stop := StopPanic);
      ObserveRule(FailedEvent, order, if phase == ConditionPhase then OutcomeError else OutcomeNotEvaluated);
      var _ := ContextDone();
    }

    ghost predicate Ready(order: nat, e: CompiledEntry)
      reads this
    {
      && result.meta == p.meta && result.stop == StopNone
      && EntryOf(p.meta, e) && e.start <= order < e.end
      && (e.group.Some? ==> e.group.value < |result.groups| && result.groups[e.group.value] == OpenRecord(e.end))
    }

    /** One turn of the rule loop, from the condition call to the local advancement decision. */
    method ExecuteRule(order: nat, e: CompiledEntry) returns (stopped: bool, left: bool)
      requires Ready(order, e)
      modifies this
      ensures var s := RunRule(p, order, old(T()));
              && T() == s.t && stopped == s.next.Halt? && left == s.next.Leave?
              && errors == old(errors) + FailureErrorEntries(s.view) + ContextErrors(HaltContext(s.next))
              && AfterTurn(old(result), result, order, e, s)
    {
      hide Notify, Add, OutcomeCounts, ContextErrors, RunMatched;
      var kind: Option<GroupKind> := None;
      if e.group.Some? { kind := Some(p.meta.groups[e.group.value].kind); }
      Advance(order);
      var answer := p.env.condition(order, history);
      history := history + [ConditionCalled(order)];
      match answer
      case ConditionPanicked(v) =>
        Abort(order, ConditionPhase, v);
        stopped, left := true, false;
      case ConditionReturned(_, Some(error)) =>
        FailAndReport(order, ConditionPhase, error, p.policy.conditionErrors == ContinueOnError);
        left := false;
        stopped := ContextDone();
        if !stopped && p.policy.conditionErrors == StopOnError {
          result := result.(stop := StopConditionError);
          stopped := true;
        }
      case ConditionReturned(matched, None) =>
        if !matched {
          Miss();
          ObserveRule(EvaluatedEvent, order, OutcomeFalse);
          var done := ContextDone();
          return done, false;
        }
        stopped, left := ExecuteMatched(order, e, kind);
    }

    ghost predicate Acting(order: nat, e: CompiledEntry, kind: Option<GroupKind>)
      reads this
    {
      && result.meta == p.meta && result.stop == StopNone
      && EntryOf(p.meta, e) && e.start <= order < e.end && kind == KindAt(p.meta, order)
      && (e.group.Some? ==>
            var g := e.group.value;
            && g < |result.groups|
            && if kind == Some(FirstMatch)
               then result.groups[g] == GroupRecord(GroupSelected, EndNone, StopNone, p.meta.rules[order].id, e.end)
               else result.groups[g] == OpenRecord(e.end))
    }

    /** A true condition: resolve a first-match group and report the match. */
    method Match(order: nat, e: CompiledEntry, kind: Option<GroupKind>)
      requires Ready(order, e) && kind == KindAt(p.meta, order)
      modifies this
      ensures Acting(order, e, kind)
      ensures T() == NotifyResolved(p, FirstMatch, order,
                       Notify(p.env, RuleMatched(order),
                              Notify(p.env, RuleEvaluated(order, OutcomeTrue, None), old(T()))))
      ensures result.groups == match e.group
                               case Some(g) => old(result.groups)[g := result.groups[g]]
                               case None => old(result.groups)
      ensures result == old(result).(groups := result.groups, diagnostics := result.diagnostics)
              && errors == old(errors)
    {
      if kind == Some(FirstMatch) {
        ResolveGroup(e.group.value, result.meta.rules[order].id);
      }
      ObserveRule(EvaluatedEvent, order, OutcomeTrue);
      ObserveRule(MatchedEvent, order, OutcomeTrue);
      if kind == Some(FirstMatch) {
        ObserveGroup(true, e.group.value);
      }
    }

    /** The rest of a turn once the condition returned true. */
    method ExecuteMatched(order: nat, e: CompiledEntry, kind: Option<GroupKind>) returns (stopped: bool, left: bool)
      requires Ready(order, e) && kind == KindAt(p.meta, order)
      modifies this
      ensures var s := RunMatched(p, order, old(T()));
              && T() == s.t && stopped == s.next.Halt? && left == s.next.Leave?
              && errors == old(errors) + FailureErrorEntries(s.view) + ContextErrors(HaltContext(s.next))
              && AfterMatch(old(result), result, order, e, s)
    {
      Match(order, e, kind);
      ghost var groups := result.groups;
      var done := ContextDone();
      if done {
        Record(order, true);
        stopped, left := true, false;
      } else {
        stopped, left := ExecuteAction(order, e, kind);
        if e.group.Some? {
          LastUpdateWins(old(result.groups), e.group.value, groups[e.group.value], result.groups[e.group.value]);
        }
      }
    }

    /** The boundary after an action attempt: context, error policy, global selection, then local selection. */
    method Conclude(order: nat, e: CompiledEntry, failed: bool) returns (stopped: bool, left: bool)
      requires result.stop == StopNone && (e.group.Some? ==> e.group.value < |result.groups|)
      modifies this
      ensures var c := Check(p.env, old(T()));
              var selected := e.group.Some? && old(result.groups[e.group.value].state) == GroupSelected;
              var next := Settle(p.policy, c.answer, failed, selected);
              && T() == c.t && stopped == next.Halt? && left == next.Leave?
              && errors == old(errors) + ContextErrors(HaltContext(next))
              && result.stop == (if next.Halt? then next.stop else StopNone)
              && result.groups == if next.Leave?
                                  then old(result.groups)[
                                         e.group.value := old(result.groups[e.group.value]).(skippedFrom := order + 1)]
                                  else old(result.groups)
      ensures result == old(result).(stop := result.stop, groups := result.groups)
    {
      var done := ContextDone();
      if done { return true, false; }
      if failed && p.policy.actionErrors == StopOnError {
        result := result.(stop := StopActionError);
        return true, false;
      }
      if p.policy.stop == StopOnFirstMatch {
        result := result.(stop := StopFirstMatch);
        return true, false;
      }
      if !failed && p.policy.stop == StopOnFirstFire {
        result := result.(stop := StopFirstFire);
        return true, false;
      }
      if e.group.Some? && result.groups[e.group.value].state == GroupSelected {
        SkipFrom(e.group.value, order + 1);
        return false, true;
      }
      return false, false;
    }

    /** A successful action: record it, resolve a first-fire group, and report both. */
    method Succeed(order: nat, e: CompiledEntry, kind: Option<GroupKind>)
      requires Acting(order, e, kind)
      modifies this
      ensures T() == NotifyResolved(p, FirstFire, order, Notify(p.env, RuleFired(order), old(T())))
      ensures result.records == old(result.records) + RecordsFor(order, Fired, 0)
      ensures result.counts == Add(old(result.counts), OutcomeCounts(Fired))
      ensures result.groups == match e.group
                               case Some(g) =>
                                 old(result.groups)[
                                   g := old(result.groups[g]).(state := GroupSelected,
                                                               selected := p.meta.rules[order].id)]
                               case None => old(result.groups)
      ensures result == old(result).(
                records := result.records, counts := result.counts, groups := result.groups,
                  diagnostics := result.diagnostics)
      ensures errors == old(errors)
    {
      assert e.group.Some? ==> kind.Some? && (kind.value.FirstMatch? || kind.value.FirstFire?);
      Record(order, false);
      if kind == Some(FirstFire) {
        ResolveGroup(e.group.value, result.meta.rules[order].id);
      }
      ObserveRule(FiredEvent, order, OutcomeNotEvaluated);
      if kind == Some(FirstFire) {
        ObserveGroup(true, e.group.value);
      }
      if kind == Some(FirstMatch) {
        var g, was := e.group.value, old(result.groups[e.group.value]);
        assert was.(state := GroupSelected, selected := p.meta.rules[order].id) == was;
        assert old(result.groups)[g := was] == old(result.groups);
      }
    }

    /** The action attempt and the decisions after it. */
    method ExecuteAction(order: nat, e: CompiledEntry, kind: Option<GroupKind>) returns (stopped: bool, left: bool)
      requires Acting(order, e, kind)
      modifies this
      ensures var s := RunAction(p, order, old(T()));
              && T() == s.t && stopped == s.next.Halt? && left == s.next.Leave?
              && errors == old(errors) + FailureErrorEntries(s.view) + ContextErrors(HaltContext(s.next))
              && AfterMatch(old(result), result, order, e, s)
    {
      hide Notify, Add, OutcomeCounts, ContextErrors;
      var answer := p.env.action(order, history);
      history := history + [ActionCalled(order)];
      match answer
      case ActionPanicked(v) =>
        Abort(order, ActionPhase, v);
        stopped, left := true, false;
      case ActionReturned(Some(error)) =>
        FailAndReport(order, ActionPhase, error, p.policy.actionErrors == ContinueOnError);
        stopped, left := Conclude(order, e, true);
      case ActionReturned(None) =>
        Succeed(order, e, kind);
        ghost var groups := result.groups;
        stopped, left := Conclude(order, e, false);
        if e.group.Some? {
          var g := e.group.value;
          LastUpdateWins(old(result.groups), g, groups[g], result.groups[g]);
        }
    }

    /** The result fields after a span of rules: the sparse facts cover the span, and only its group changed. */
    ghost predicate AfterSpan(was: Result, e: CompiledEntry, views: seq<RuleView>, s: Span, record: GroupRecord)
      requires e.group.Some? ==> e.group.value < |was.groups|
      reads this
    {
      && result.meta == p.meta && Sparse(result, errors, views + s.views, HaltContext(s.next))
      && result.stop == (if s.next.Halt? then s.next.stop else StopNone)
      && result.groups == WithRecord(was.groups, e.group, record)
    }

    /** Everything before the rule `order` is settled and nothing has stopped. */
    ghost predicate AtRule(order: nat, views: seq<RuleView>)
      reads this
    {
      && result.meta == p.meta && result.stop == StopNone
      && |views| == order && Sparse(result, errors, views, Alive)
    }

    ghost predicate Entering(e: CompiledEntry, views: seq<RuleView>)
      reads this
    {
      && AtRule(e.start, views) && EntryOf(p.meta, e)
      && (e.group.Some? ==> e.group.value < |result.groups|)
    }

    /** The context check in front of a rule, unless its group's entry check was just made, and its turn. */
    method ExecuteTurn(order: nat, e: CompiledEntry, ghost views: seq<RuleView>) returns (stopped: bool, left: bool)
      requires e.start <= order < e.end && AtRule(order, views) && EntryOf(p.meta, e)
      requires e.group.Some? ==> e.group.value < |result.groups| && result.groups[e.group.value] == OpenRecord(e.end)
      modifies this
      ensures var one := RunSpan(p, order, order + 1, e.group.Some? && order == e.start, old(T()));
              && T() == one.t && stopped == one.next.Halt? && left == one.next.Leave?
              && AfterSpan(old(result), e, views, one, TurnRecord(order, one, e.end))
              && (one.next.Advance? ==> result.groups == old(result.groups))
    {
      if e.group.None? || order != e.start {
        left := false;
        stopped := ContextDone();
        if stopped {
          assert views + [] == views;
          return;
        }
      }
      ghost var was, wasErrors, t := result, errors, T();
      stopped, left := ExecuteRule(order, e);
      ghost var s := RunRule(p, order, t);
      TurnShape(p, order, t);
      TurnExtends(was, result, wasErrors, errors, views, order, e, s);
      SpanOne(p, order, e.group.Some? && order == e.start, old(T()));
      TurnRecords(p, order, e, e.group.Some? && order == e.start, old(T()));
    }

    /** The rule loop over an entry whose group, if any, is open. */
    method ExecuteLoop(e: CompiledEntry, ghost views: seq<RuleView>) returns (stopped: bool)
      requires Entering(e, views) && (e.group.Some? ==> result.groups[e.group.value] == OpenRecord(e.end))
      modifies this
      ensures var s := RunSpan(p, e.start, e.end, e.group.Some?, old(T()));
              && T() == s.t && stopped == s.next.Halt?
              && AfterSpan(old(result), e, views, s, Closed(s, e))
    {
      hide RunRule, RunSpan, Sparse;
      ghost var whole := RunSpan(p, e.start, e.end, e.group.Some?, T());
      ghost var all, reached, checked, t := views, [], e.group.Some?, T();
      assert views + reached == views;
      var order := e.start;
      while order < e.end
        invariant e.start <= order <= e.end && |reached| == order - e.start
        invariant checked == (e.group.Some? && order == e.start)
        invariant all == views + reached && AtRule(order, all)
        invariant result.groups == old(result.groups) && t == T()
        invariant Resumes(whole, reached, RunSpan(p, order, e.end, checked, t))
      {
        ghost var one := RunSpan(p, order, order + 1, checked, t);
        var left;
        stopped, left := ExecuteTurn(order, e, all);
        NextTurn(p, order, e.end, checked, t, whole, reached);
        Concat(views, reached, one.views);
        all, reached := all + one.views, reached + one.views;
        if stopped || left {
          TurnCloses(p, order, e, checked, t, whole, reached);
          return;
        }
        assert one.next.Advance?;
        order, checked, t := order + 1, false, one.t;
      }
      SpanEmpty(p, order, checked, t, whole, reached);
      if e.group.Some? {
        var g := e.group.value;
        ghost var was := result;
        result := result.(groups := result.groups[g := result.groups[g].(state := GroupExhausted)]);
        SparseFrame(was, result, errors, all, Alive);
      }
      return false;
    }

    /** The only callback state machine for top-level rules and group members. */
    method ExecuteRules(e: CompiledEntry, ghost views: seq<RuleView>) returns (stopped: bool)
      requires Entering(e, views)
      modifies this
      ensures var c := Check(p.env, old(T()));
              if e.group.Some? && c.answer.Done? then
                && stopped && T() == c.t && result == old(result).(stop := ContextStop(c.answer))
                && Sparse(result, errors, views, c.answer)
              else
                var s := RunSpan(p, e.start, e.end, e.group.Some?, if e.group.Some? then c.t else old(T()));
                && T() == s.t && stopped == s.next.Halt?
                && AfterSpan(old(result), e, views, s, Closed(s, e))
    {
      if e.group.Some? {
        stopped := ContextDone();
        if stopped { return; }
        result := result.(groups := result.groups[e.group.value := OpenRecord(e.end)]);
      }
      ghost var whole := RunSpan(p, e.start, e.end, e.group.Some?, T());
      stopped := ExecuteLoop(e, views);
      LastRecordWins(old(result.groups), e.group, OpenRecord(e.end), Closed(whole, e));
    }

    /** Decide how an entered group ended, and report it. */
    method FinishGroup(g: nat, stopped: bool)
      requires result.meta == p.meta && g < |p.meta.groups| && g < |result.groups|
      modifies this
      ensures old(result.groups[g].state) == GroupNotEntered ==> T() == old(T()) && result == old(result)
      ensures old(result.groups[g].state) != GroupNotEntered ==>
                var r := old(result.groups[g]);
                var ended := if stopped then r.(end := EndExecutionStopped, stop := old(result.stop))
                             else r.(end := if r.state == GroupSelected then EndResolved else EndExhausted);
                && result == old(result).(groups := old(result.groups)[g := ended], diagnostics := result.diagnostics)
                && T() == Notify(p.env, GroupFinished(g, GroupView(ended.state, ended.end, ended.stop, ended.selected)),
                                 old(T()))
      ensures errors == old(errors)
    {
      var r := result.groups[g];
      if r.state == GroupNotEntered { return; }
      if stopped {
        r := r.(end := EndExecutionStopped, stop := result.stop);
      } else {
        r := r.(end := if r.state == GroupSelected then EndResolved else EndExhausted);
      }
      result := result.(groups := result.groups[g := r]);
      ObserveGroup(false, g);
    }

    ghost predicate Finished(r: Run)
      reads this
    {
      && result.meta == p.meta && T() == r.t && Rebuilds(result, r) && Sparse(result, errors, r.views, r.context)
    }

    /** Between two entries: everything before the rule `|views|` and the group `|gviews|` is settled. */
    ghost predicate AtEntry(views: seq<RuleView>, gviews: seq<GroupView>)
      reads this
    {
      AtRule(|views|, views) && Between(result, views, gviews) && Ahead(p.meta, |views|, |gviews|)
    }

    /** An entry of top-level rules. */
    method ExecuteTopLevel(
      entries: seq<CompiledEntry>, i: nat, ghost views: seq<RuleView>, ghost gviews: seq<GroupView>)
      returns (stopped: bool, ghost own: seq<RuleView>)
      requires i < |entries| && |views| <= |p.meta.rules| && |gviews| <= |p.meta.groups|
      requires Tiled(p.meta, entries, i, |views|, |gviews|) && EntryOf(p.meta, entries[i]) && entries[i].group.None?
      requires AtEntry(views, gviews)
      modifies this
      ensures var e := entries[i];
              var run := RunEntries(p, entries, i, |views|, |gviews|, old(T()));
              if stopped then Finished(Joined(views, gviews, run))
              else
                && |views| + |own| == e.end && AtEntry(views + own, gviews)
                && run == Joined(own, [], RunEntries(p, entries, i + 1, e.end, |gviews|, T()))
    {
      var e := entries[i];
      assert Entering(e, views);
      ghost var was, t := result, T();
      hide RunRule, RunSpan, RunEntries, Sparse, Between, Rebuilds, EntryOf;
      stopped := ExecuteRules(e, views);
      own := RulesSettle(p, entries, i, was, result, errors, views, gviews, t, T(), stopped);
    }

    /** Run a group's members and finish it, unless the context stopped the group from being entered. */
    method ExecuteMembers(e: CompiledEntry, ghost views: seq<RuleView>) returns (stopped: bool)
      requires Entering(e, views) && e.group.Some? && e.group.value < |p.meta.groups|
      requires result.groups[e.group.value] == NO_GROUP_RECORD
      modifies this
      ensures var g := e.group.value;
              MembersRan(p, e, g, old(result), result, errors, views, old(T()), T(), stopped)
    {
      hide RunRule, RunSpan, Sparse;
      ghost var groups, c := result.groups, Check(p.env, T());
      stopped := ExecuteRules(e, views);
      ghost var ran := result;
      FinishGroup(e.group.value, stopped);
      if !c.answer.Done? {
        ghost var s := RunSpan(p, e.start, e.end, true, c.t);
        SpanShape(p, e.start, e.end, true, c.t);
        LastUpdateWins(groups, e.group.value, Closed(s, e), Ended(s, e));
        SparseFrame(ran, result, errors, views + s.views, HaltContext(s.next));
      }
    }

    /** A group entry, with its finish. */
    method ExecuteGroup(entries: seq<CompiledEntry>, i: nat, ghost views: seq<RuleView>, ghost gviews: seq<GroupView>)
      returns (stopped: bool, ghost own: seq<RuleView>, ghost view: GroupView)
      requires i < |entries| && |views| <= |p.meta.rules| && |gviews| < |p.meta.groups|
      requires Tiled(p.meta, entries, i, |views|, |gviews|) && EntryOf(p.meta, entries[i])
      requires entries[i].group == Some(|gviews|) && Ahead(p.meta, entries[i].end, |gviews| + 1)
      requires AtEntry(views, gviews)
      modifies this
      ensures var e := entries[i];
              var run := RunEntries(p, entries, i, |views|, |gviews|, old(T()));
              if stopped then Finished(Joined(views, gviews, run))
              else
                && |views| + |own| == e.end && AtEntry(views + own, gviews + [view])
                && run == Joined(own, [view], RunEntries(p, entries, i + 1, e.end, |gviews| + 1, T()))
    {
      var e := entries[i];
      assert Entering(e, views) && result.groups[|gviews|] == NO_GROUP_RECORD;
      ghost var was, t := result, T();
      stopped := ExecuteMembers(e, views);
      hide RunRule, RunSpan, RunEntries, Sparse, Between, Rebuilds, EntryOf, Notify;
      own, view := GroupSettles(p, entries, i, was, result, errors, views, gviews, t, T(), stopped);
    }

    /** One entry of either kind. */
    method ExecuteEntry(
      entries: seq<CompiledEntry>, i: nat, ghost views: seq<RuleView>, ghost gviews: seq<GroupView>, ghost whole: Run)
      returns (stopped: bool, ghost now: seq<RuleView>, ghost gnow: seq<GroupView>)
      requires WellFormed(p.meta) && Here(p, entries, i, views, gviews, T(), whole) && i < |entries|
      requires AtEntry(views, gviews)
      modifies this
      ensures stopped ==> Finished(whole)
      ensures !stopped ==> Here(p, entries, i + 1, now, gnow, T(), whole) && AtEntry(now, gnow)
    {
      hide RunRule, RunSpan, RunEntries, Sparse, Between, Rebuilds;
      var e := entries[i];
      TiledStep(p.meta, entries, i, |views|, |gviews|);
      if e.group.Some? {
        ghost var own, view;
        stopped, own, view := ExecuteGroup(entries, i, views, gviews);
        now, gnow := views + own, gviews + [view];
        if !stopped {
          JoinedJoined(views, gviews, own, [view], RunEntries(p, entries, i + 1, e.end, |gviews| + 1, T()));
        }
      } else {
        ghost var own;
        stopped, own := ExecuteTopLevel(entries, i, views, gviews);
        now, gnow := views + own, gviews;
        if !stopped {
          JoinedJoined(views, gviews, own, [], RunEntries(p, entries, i + 1, e.end, |gviews|, T()));
          assert gviews + [] == gviews;
        }
      }
    }

    /** Run every entry in order until one of them halts the execution. Without groups there is a single span. */
    method ExecuteEntries()
      requires WellFormed(p.meta)
      requires AtRule(0, []) && result.groups == []
      modifies this
      ensures Finished(RunEntries(p, EntriesOf(p.meta), 0, 0, 0, old(T())))
    {
      hide RunRule, RunSpan, RunEntries, Sparse, Between, Rebuilds, Tiled;
      var entries := p.meta.entries;
      ghost var was := result;
      if entries == [] {
        entries := [CompiledEntry(0, |p.meta.rules|, None)];
      } else {
        result := result.(groups := seq(|p.meta.groups|, _ => NO_GROUP_RECORD));
        SparseFrame(was, result, errors, [], Alive);
      }
      ghost var whole := RunEntries(p, entries, 0, 0, 0, T());
      ghost var views: seq<RuleView>, gviews: seq<GroupView> := [], [];
      JoinedNothing(whole);
      EntriesStart(result);
      var i := 0;
      while i < |entries|
        invariant i <= |entries| && Here(p, entries, i, views, gviews, T(), whole) && AtEntry(views, gviews)
      {
        var stopped;
        stopped, views, gviews := ExecuteEntry(entries, i, views, gviews, whole);
        if stopped { return; }
        i := i + 1;
      }
      ghost var last := result;
      result := result.(stop := StopCompleted);
      EntriesEnd(p, entries, last, result, errors, views, gviews, T(), whole);
    }

    ghost predicate Fresh(observed: bool)
      reads this
    {
      && T() == Track([], observed, []) && errors == []
      && result == Result(p.meta, NO_COUNTS.(total := |p.meta.rules|), StopNone, [], [], [], 0, [])
    }

    /** The whole execution: the start event, the initial boundary, the entries, the totals and the finish event. */
    method Execute(ghost observed: bool)
      requires WellFormed(p.meta) && Fresh(observed)
      modifies this
      ensures var run := Interpret(p, observed);
              && T() == run.t && Refines(p, result, errors, run)
    {
      hide RunRule, RunSpan, RunEntries, Between, Tiled, Rebuilds, Sparse, Tally, Notify;
      StartsSparse(result);
      ObserveSummary(true);
      ghost var begun := result;
      var done := ContextDone();
      ghost var run := Body(p, observed);
      if done {
        HaltAtStart(p, begun, result, errors, run);
      } else {
        ExecuteEntries();
      }
      ghost var was := result;
      CallsBounded(p, result, errors, run);
      result := result.(counts := result.counts.(notEvaluated := result.counts.total - result.counts.evaluated));
      Totals(p, was, result, errors, run);
      was := result;
      ObserveSummary(false);
      FinishRefines(p, was, result, errors, run, Interpret(p, observed));
    }
  }

  /** Fire an immutable snapshot once. Every view, list, counter and error a caller can read from the sparse result is
      the one the dense interpreter wrote down, and user code saw the same calls and events in the same order. */
  method Fire(p: Program, observed: bool)
    returns (result: Result, errors: seq<ErrorCause>, history: History, matched: seq<RuleId>, fired: seq<RuleId>)
    requires WellFormed(p.meta)
    ensures var run := Interpret(p, observed);
            && result.meta == p.meta && result.Indexed()
            && (forall o :: 0 <= o < |p.meta.rules| ==> result.RuleAt(o) == run.views[o])
            && (forall g :: 0 <= g < |p.meta.groups| ==> result.GroupAt(g) == run.groups[g])
            && result.counts == Tally(run.views) && result.stop == run.stop && result.failures == FailuresIn(run.views)
            && errors == ErrorsOf(run) && history == run.t.history && result.diagnostics == run.t.diagnostics
            && matched == MatchedIn(p.meta, run.views) && fired == FiredIn(p.meta, run.views)
    ensures Increasing(result.records)
  {
    var x := new Execution(p, observed);
    assert x.Fresh(observed) by {
      assert FailureErrors([]) == [];
    }
    x.Execute(observed);
    result, errors, history := x.result, x.errors, x.history;
    ghost var run := Interpret(p, observed);
    hide Interpret, Tally;
    RefinedViews(p, result, errors, run);
    matched := result.Matched();
    fired := result.Fired();
  }
}
