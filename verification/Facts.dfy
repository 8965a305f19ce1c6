/** The value types every part of the rules engine shares: policies, outcomes,
    counts, compiled metadata, and the events an observer receives. */
module Facts {

  datatype Option<+T> = None | Some(value: T)

  type RuleId = string
  type GroupId = string

  /** Error and panic values belong to callers; only their identity matters. */
  type ErrorId = nat

  /** The identity of Go's `context.DeadlineExceeded`. */
  const DEADLINE_EXCEEDED: ErrorId := 0

  // ----- policy

  datatype StopMode = EvaluateAll | StopOnFirstMatch | StopOnFirstFire
  datatype ErrorMode = StopOnError | ContinueOnError
  datatype Policy = Policy(stop: StopMode, conditionErrors: ErrorMode, actionErrors: ErrorMode)

  // ----- outcomes

  datatype StopReason =
    | StopNone
    | StopCompleted
    | StopFirstMatch
    | StopFirstFire
    | StopConditionError
    | StopActionError
    | StopContextCanceled
    | StopContextDeadlineExceeded
    | StopPanic

  datatype Phase = ConditionPhase | ActionPhase

  /** What a failure retains: an error the callback returned, or a panic that was recovered. */
  datatype FailureCause = ReturnedError(error: ErrorId) | RecoveredPanic(payload: ErrorId)

  datatype Failure = Failure(rule: RuleId, phase: Phase, cause: FailureCause, continued: bool)

  /** One entry of the error list behind `ExecutionError`. */
  datatype ErrorCause = FailureOf(failure: Failure) | ContextError(error: ErrorId)

  datatype NotEvaluatedReason = ExecutionStopped | GroupResolved

  /** The view of one rule: its state with the facts that belong to that state. */
  datatype RuleView =
    | NotEvaluated(reason: NotEvaluatedReason)
    | Unmatched
    | Fired
    | Failed(failure: Failure)
    | Skipped
  {
    predicate Evaluated() { !NotEvaluated? }

    predicate Matched() { Fired? || Skipped? || (Failed? && failure.phase == ActionPhase) }
  }

  datatype Counts = Counts(
    total: nat, evaluated: nat, notEvaluated: nat, matched: nat, unmatched: nat, fired: nat,
    skipped: nat, failed: nat, conditionFailed: nat, actionFailed: nat, panicRecovered: nat)

  const NO_COUNTS := Counts(0, 0, 0, 0, 0, 0, 0, 0, 0, 0, 0)

  // ----- groups

  datatype GroupKind = FirstMatch | FirstFire
  datatype GroupState = GroupNotEntered | GroupSelected | GroupExhausted | GroupInterrupted
  datatype GroupEnd = EndNone | EndResolved | EndExhausted | EndExecutionStopped

  /** `selected` is empty until a member is selected. */
  datatype GroupView = GroupView(state: GroupState, end: GroupEnd, stop: StopReason, selected: RuleId)

  // ----- compiled metadata

  datatype RuleMeta = RuleMeta(
    id: RuleId, priority: int, registrationIndex: nat, topLevelOrder: nat, memberIndex: nat, group: Option<nat>)

  datatype GroupMeta = GroupMeta(
    id: GroupId, kind: GroupKind, priority: int, registrationIndex: nat, topLevelOrder: nat, index: nat,
    start: nat, end: nat)

  datatype CompiledEntry = CompiledEntry(start: nat, end: nat, group: Option<nat>)

  datatype Metadata = Metadata(
    rules: seq<RuleMeta>, byID: map<RuleId, nat>, groups: seq<GroupMeta>, byGroupID: map<GroupId, nat>,
    entries: seq<CompiledEntry>)

  /** Entries `i..` cover the rules from `start` on without gap or overlap, and own the groups from `g` on. */
  ghost predicate Tiled(m: Metadata, entries: seq<CompiledEntry>, i: nat, start: nat, g: nat)
    requires i <= |entries|
    decreases |entries| - i
  {
    if i == |entries| then
      start == |m.rules| && g == |m.groups|
    else
      var e := entries[i];
      && e.start == start <= e.end <= |m.rules|
      && (match e.group
          case None =>
            && (forall o :: start <= o < e.end ==> m.rules[o].group == None)
            && Tiled(m, entries, i + 1, e.end, g)
          case Some(k) =>
            && k == g < |m.groups|
            && m.groups[g].index == g && m.groups[g].start == start && m.groups[g].end == e.end
            && (forall o :: start <= o < e.end ==> m.rules[o].group == Some(g))
            && Tiled(m, entries, i + 1, e.end, g + 1))
  }

  /** Without groups the compiler stores no entries, and execution runs one span over every rule. */
  function EntriesOf(m: Metadata): seq<CompiledEntry> {
    if m.entries == [] then [CompiledEntry(0, |m.rules|, None)] else m.entries
  }

  /** What execution relies on: compiled entries tile the rules, and every identity is nonempty. */
  ghost predicate WellFormed(m: Metadata) {
    && Tiled(m, EntriesOf(m), 0, 0, 0)
    && (forall o :: 0 <= o < |m.rules| ==> m.rules[o].id != "")
  }

  /** Every stored entry of a top-level rule holds one rule. */
  ghost predicate SingleRules(m: Metadata) {
    forall k :: 0 <= k < |m.entries| && m.entries[k].group == None ==> m.entries[k].end == m.entries[k].start + 1
  }

  // ----- events

  datatype ConditionOutcome = OutcomeNotEvaluated | OutcomeFalse | OutcomeTrue | OutcomeError

  datatype Event =
    | ExecutionStarted(counts: Counts)
    | RuleEvaluated(order: nat, outcome: ConditionOutcome, failure: Option<Failure>)
    | RuleMatched(order: nat)
    | RuleFired(order: nat)
    | RuleFailed(order: nat, reported: Failure)
    | GroupResolvedEvent(group: nat, view: GroupView)
    | GroupFinished(group: nat, view: GroupView)
    | ExecutionFinished(counts: Counts, stop: StopReason)

  datatype Diagnostic = Diagnostic(event: Event, cause: FailureCause)

  // ----- user code

  /** Everything user code can notice happened: each call the engine made into it, in order. */
  datatype Call =
    | ConditionCalled(order: nat)
    | ActionCalled(order: nat)
    | Observed(event: Event)
    | ContextChecked

  type History = seq<Call>

  datatype ConditionAnswer =
    | ConditionReturned(matched: bool, error: Option<ErrorId>)
    | ConditionPanicked(payload: ErrorId)
  datatype ActionAnswer = ActionReturned(error: Option<ErrorId>) | ActionPanicked(payload: ErrorId)
  datatype ObserverAnswer = ObserverReturned(error: Option<ErrorId>) | ObserverPanicked(payload: ErrorId)

  /** `ctx.Err()` together with `context.Cause(ctx)`. */
  datatype ContextAnswer = Alive | Done(error: ErrorId, cause: Option<ErrorId>)

  /** User code as functions of what happened before the call. A history grows with every call, so one such
      environment describes one run exactly, whatever state the callbacks share, read or change. */
  datatype Environment = Environment(
    condition: (nat, History) -> ConditionAnswer,
    action: (nat, History) -> ActionAnswer,
    observe: (Event, History) -> ObserverAnswer,
    context: History -> ContextAnswer)

  datatype Program = Program(meta: Metadata, policy: Policy, env: Environment)
}
