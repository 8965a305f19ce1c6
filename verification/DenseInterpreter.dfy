/** The reference meaning of one execution: a recursive interpreter that writes down a view for every rule
    and every group. It keeps no sparse records, frontier or counters. */
module DenseInterpreter {
  import opened Facts

  /** What one run has shown to user code, and whether its observer is still enabled. */
  datatype Track = Track(history: History, observing: bool, diagnostics: seq<Diagnostic>)

  function Extend(t: Track, call: Call): Track {
    t.(history := t.history + [call])
  }

  function Notify(env: Environment, event: Event, t: Track): Track {
    if !t.observing then t
    else
      var h := t.history + [Observed(event)];
      match env.observe(event, t.history)
      case ObserverReturned(None) => t.(history := h)
      case ObserverReturned(Some(e)) => Track(h, false, t.diagnostics + [Diagnostic(event, ReturnedError(e))])
      case ObserverPanicked(v) => Track(h, false, t.diagnostics + [Diagnostic(event, RecoveredPanic(v))])
  }

  datatype Boundary = Boundary(answer: ContextAnswer, t: Track)

  /** A context check at a callback boundary. */
  function Check(env: Environment, t: Track): Boundary {
    Boundary(env.context(t.history), Extend(t, ContextChecked))
  }

  function ContextStop(answer: ContextAnswer): StopReason {
    if answer.Done? && answer.error == DEADLINE_EXCEEDED then StopContextDeadlineExceeded else StopContextCanceled
  }

  /** How a rule ends its turn: go on, leave the resolved group, or halt the execution, remembering the
      context answer seen at the halting boundary. */
  datatype Next = Advance | Leave | Halt(stop: StopReason, context: ContextAnswer)

  datatype Step = Step(view: RuleView, selects: bool, next: Next, t: Track)

  function KindAt(m: Metadata, order: nat): Option<GroupKind>
    requires order < |m.rules|
  {
    match m.rules[order].group
    case Some(g) => if g < |m.groups| then Some(m.groups[g].kind) else None
    case None => None
  }

  function Selection(m: Metadata, order: nat): GroupView
    requires order < |m.rules|
  {
    GroupView(GroupSelected, EndNone, StopNone, m.rules[order].id)
  }

  /** The group-resolved event, when `kind` is the criterion this rule's group waits for. */
  function NotifyResolved(p: Program, kind: GroupKind, order: nat, t: Track): Track
    requires order < |p.meta.rules|
  {
    if KindAt(p.meta, order) == Some(kind)
    then Notify(p.env, GroupResolvedEvent(p.meta.rules[order].group.value, Selection(p.meta, order)), t)
    else t
  }

  function NotifyConditionFailure(env: Environment, order: nat, f: Failure, t: Track): Track {
    Notify(env, RuleFailed(order, f), Notify(env, RuleEvaluated(order, OutcomeError, Some(f)), t))
  }

  function RunRule(p: Program, order: nat, t: Track): Step
    requires order < |p.meta.rules|
  {
    var id := p.meta.rules[order].id;
    var called := Extend(t, ConditionCalled(order));
    match p.env.condition(order, t.history)
    case ConditionPanicked(v) =>
      var f := Failure(id, ConditionPhase, RecoveredPanic(v), false);
      var c := Check(p.env, NotifyConditionFailure(p.env, order, f, called));
      Step(Failed(f), false, Halt(StopPanic, c.answer), c.t)
    case ConditionReturned(_, Some(e)) =>
      var f := Failure(id, ConditionPhase, ReturnedError(e), p.policy.conditionErrors == ContinueOnError);
      var c := Check(p.env, NotifyConditionFailure(p.env, order, f, called));
      Step(Failed(f), false,
           if c.answer.Done? then Halt(ContextStop(c.answer), c.answer)
           else if p.policy.conditionErrors == StopOnError then Halt(StopConditionError, Alive)
           else Advance,
           c.t)
    case ConditionReturned(matched, None) =>
      if matched then RunMatched(p, order, called)
      else
        var c := Check(p.env, Notify(p.env, RuleEvaluated(order, OutcomeFalse, None), called));
        Step(Unmatched, false, if c.answer.Done? then Halt(ContextStop(c.answer), c.answer) else Advance, c.t)
  }

  function RunMatched(p: Program, order: nat, t: Track): Step
    requires order < |p.meta.rules|
  {
    var evaluated := Notify(p.env, RuleEvaluated(order, OutcomeTrue, None), t);
    var matched := Notify(p.env, RuleMatched(order), evaluated);
    var c := Check(p.env, NotifyResolved(p, FirstMatch, order, matched));
    if c.answer.Done?
    then Step(Skipped, KindAt(p.meta, order) == Some(FirstMatch), Halt(ContextStop(c.answer), c.answer), c.t)
    else RunAction(p, order, c.t)
  }

  function RunAction(p: Program, order: nat, t: Track): Step
    requires order < |p.meta.rules|
  {
    var id := p.meta.rules[order].id;
    var first := KindAt(p.meta, order) == Some(FirstMatch);
    var called := Extend(t, ActionCalled(order));
    match p.env.action(order, t.history)
    case ActionPanicked(v) =>
      var f := Failure(id, ActionPhase, RecoveredPanic(v), false);
      var c := Check(p.env, Notify(p.env, RuleFailed(order, f), called));
      Step(Failed(f), first, Halt(StopPanic, c.answer), c.t)
    case ActionReturned(Some(e)) =>
      var f := Failure(id, ActionPhase, ReturnedError(e), p.policy.actionErrors == ContinueOnError);
      var c := Check(p.env, Notify(p.env, RuleFailed(order, f), called));
      Step(Failed(f), first, Settle(p.policy, c.answer, true, first), c.t)
    case ActionReturned(None) =>
      var grouped := KindAt(p.meta, order).Some?;
      var c := Check(p.env, NotifyResolved(p, FirstFire, order, Notify(p.env, RuleFired(order), called)));
      Step(Fired, grouped, Settle(p.policy, c.answer, false, grouped), c.t)
  }

  /** Context, then error policy, then global selection, then local selection. */
  function Settle(policy: Policy, answer: ContextAnswer, failed: bool, selects: bool): Next {
    if answer.Done? then Halt(ContextStop(answer), answer)
    else if failed && policy.actionErrors == StopOnError then Halt(StopActionError, Alive)
    else if policy.stop == StopOnFirstMatch then Halt(StopFirstMatch, Alive)
    else if !failed && policy.stop == StopOnFirstFire then Halt(StopFirstFire, Alive)
    else if selects then Leave
    else Advance
  }

  /** The views of the rules a span reached, and how it ended. */
  datatype Span = Span(views: seq<RuleView>, selected: RuleId, next: Next, t: Track)

  /** Run the rules `order..end`. The context is checked before each of them, except before the first rule of a
      group, whose entry check has just been made (`checked`). */
  function RunSpan(p: Program, order: nat, end: nat, checked: bool, t: Track): (s: Span)
    requires order <= end <= |p.meta.rules|
    ensures |s.views| <= end - order
    ensures s.next.Advance? ==> |s.views| == end - order
    decreases end - order
  {
    if order == end then Span([], "", Advance, t)
    else
      var c := if checked then Boundary(Alive, t) else Check(p.env, t);
      if c.answer.Done? then Span([], "", Halt(ContextStop(c.answer), c.answer), c.t)
      else
        var s := RunRule(p, order, c.t);
        if s.next.Advance? then
          var rest := RunSpan(p, order + 1, end, false, s.t);
          Span([s.view] + rest.views, rest.selected, rest.next, rest.t)
        else
          Span([s.view], if s.selects then p.meta.rules[order].id else "", s.next, s.t)
  }

  /** The whole run: a view for every rule and group, one stop, and the context answer that halted it. */
  datatype Run = Run(views: seq<RuleView>, groups: seq<GroupView>, stop: StopReason, context: ContextAnswer, t: Track)

  function Fill(n: nat, reason: NotEvaluatedReason): (views: seq<RuleView>)
    ensures |views| == n && forall k :: 0 <= k < n ==> views[k] == NotEvaluated(reason)
  {
    seq(n, _ => NotEvaluated(reason))
  }

  function Unentered(n: nat, stop: StopReason): (views: seq<GroupView>)
    ensures |views| == n
    ensures forall k :: 0 <= k < n ==> views[k] == GroupView(GroupNotEntered, EndExecutionStopped, stop, "")
  {
    seq(n, _ => GroupView(GroupNotEntered, EndExecutionStopped, stop, ""))
  }

  function GroupOutcome(s: Span): GroupView {
    var state := if s.selected != "" then GroupSelected else if s.next.Halt? then GroupInterrupted else GroupExhausted;
    match s.next
    case Halt(stop, _) => GroupView(state, EndExecutionStopped, stop, s.selected)
    case Leave => GroupView(state, EndResolved, StopNone, s.selected)
    case Advance => GroupView(state, EndExhausted, StopNone, s.selected)
  }

  /** Run the entries `i..`, which own the rules from `start` and the groups from `g`. */
  function RunEntries(p: Program, entries: seq<CompiledEntry>, i: nat, start: nat, g: nat, t: Track): (r: Run)
    requires i <= |entries| && start <= |p.meta.rules| && g <= |p.meta.groups|
    requires Tiled(p.meta, entries, i, start, g)
    ensures |r.views| == |p.meta.rules| - start && |r.groups| == |p.meta.groups| - g
    decreases |entries| - i
  {
    var n, m := |p.meta.rules| - start, |p.meta.groups| - g;
    if i == |entries| then Run([], [], StopCompleted, Alive, t)
    else
      var e := entries[i];
      if e.group.None? then
        var s := RunSpan(p, start, e.end, false, t);
        if s.next.Halt?
        then Run(s.views + Fill(n - |s.views|, ExecutionStopped), Unentered(m, s.next.stop), s.next.stop,
                 s.next.context, s.t)
        else
          var rest := RunEntries(p, entries, i + 1, e.end, g, s.t);
          var skipped := Fill(e.end - start - |s.views|, GroupResolved);
          rest.(views := s.views + skipped + rest.views)
      else
        var c := Check(p.env, t);
        if c.answer.Done?
        then Run(Fill(n, ExecutionStopped), Unentered(m, ContextStop(c.answer)), ContextStop(c.answer), c.answer, c.t)
        else
          var s := RunSpan(p, start, e.end, true, c.t);
          var view := GroupOutcome(s);
          var finished := Notify(p.env, GroupFinished(g, view), s.t);
          if s.next.Halt?
          then Run(s.views + Fill(n - |s.views|, ExecutionStopped), [view] + Unentered(m - 1, s.next.stop),
                   s.next.stop, s.next.context, finished)
          else
            var rest := RunEntries(p, entries, i + 1, e.end, g + 1, finished);
            var skipped := Fill(e.end - start - |s.views|, GroupResolved);
            rest.(views := s.views + skipped + rest.views, groups := [view] + rest.groups)
  }

  // ----- counting

  function Add(a: Counts, b: Counts): Counts {
    Counts(a.total + b.total, a.evaluated + b.evaluated, a.notEvaluated + b.notEvaluated, a.matched + b.matched,
           a.unmatched + b.unmatched, a.fired + b.fired, a.skipped + b.skipped, a.failed + b.failed,
           a.conditionFailed + b.conditionFailed, a.actionFailed + b.actionFailed, a.panicRecovered + b.panicRecovered)
  }

  function One(condition: bool): nat { if condition then 1 else 0 }

  /** What a single rule adds to each counter. */
  function Contribution(v: RuleView): Counts {
    var condition := v.Failed? && v.failure.phase == ConditionPhase;
    var action := v.Failed? && v.failure.phase == ActionPhase;
    Counts(1, One(v.Evaluated()), One(v.NotEvaluated?), One(v.Matched()), One(v.Unmatched?), One(v.Fired?),
           One(v.Skipped?), One(v.Failed?), One(condition), One(action),
           One(v.Failed? && v.failure.cause.RecoveredPanic?))
  }

  function Tally(views: seq<RuleView>): Counts {
    if views == [] then NO_COUNTS else Add(Tally(views[..|views| - 1]), Contribution(views[|views| - 1]))
  }

  function FailuresIn(views: seq<RuleView>): seq<Failure> {
    if views == [] then []
    else
      var last := views[|views| - 1];
      FailuresIn(views[..|views| - 1]) + (if last.Failed? then [last.failure] else [])
  }

  /** The error list: failures in observation order, then the context error and its distinct cause. */
  function FailureErrors(failures: seq<Failure>): seq<ErrorCause> {
    seq(|failures|, i requires 0 <= i < |failures| => FailureOf(failures[i]))
  }

  function ContextErrors(answer: ContextAnswer): seq<ErrorCause> {
    match answer
    case Alive => []
    case Done(e, None) => [ContextError(e)]
    case Done(e, Some(cause)) => if cause != e then [ContextError(e), ContextError(cause)] else [ContextError(e)]
  }

  function ErrorsOf(r: Run): seq<ErrorCause> {
    FailureErrors(FailuresIn(r.views)) + ContextErrors(r.context)
  }

  // ----- the whole execution

  function StartCounts(m: Metadata): Counts {
    NO_COUNTS.(total := |m.rules|, notEvaluated := |m.rules|)
  }

  /** Everything between the start event and the finish event. */
  function Body(p: Program, observing: bool): (r: Run)
    requires WellFormed(p.meta)
    ensures |r.views| == |p.meta.rules| && |r.groups| == |p.meta.groups|
  {
    var started := Notify(p.env, ExecutionStarted(StartCounts(p.meta)), Track([], observing, []));
    var c := Check(p.env, started);
    if c.answer.Done?
    then Run(Fill(|p.meta.rules|, ExecutionStopped), Unentered(|p.meta.groups|, ContextStop(c.answer)),
             ContextStop(c.answer), c.answer, c.t)
    else RunEntries(p, EntriesOf(p.meta), 0, 0, 0, c.t)
  }

  function Interpret(p: Program, observing: bool): (r: Run)
    requires WellFormed(p.meta)
    ensures |r.views| == |p.meta.rules| && |r.groups| == |p.meta.groups|
  {
    var body := Body(p, observing);
    body.(t := Notify(p.env, ExecutionFinished(Tally(body.views), body.stop), body.t))
  }
}
