/** The condition recorder as a protocol: callbacks may share, re-enter, retain and concurrently use recording contexts,
    and each lock-protected region is one atomic step. Every interleaving of those steps is a run. */
module Recorder {
  import opened Facts
  import opened Conditions

  /** What a condition returned: its outcome, with the error of an outcome that is one. */
  datatype Verdict = Verdict(outcome: ConditionOutcome, error: Option<Error>) {
    predicate Valid() { IsAnswer(outcome) && (outcome == OutcomeError <==> error.Some?) }
  }

  /** A recording; `parent` says which invocation created it, and as which child. */
  datatype Recording = Recording(
    kind: Kind, outcome: ConditionOutcome, error: Option<Error>, reason: Reason,
    started: bool, finished: bool, operator: bool, opaqueNode: bool,
    children: seq<nat>, parent: Option<(nat, nat)>)

  /** Where an invocation of a combinator stands: in front of a child, inside a child, returned from its loop, or past
      its last locked region. `early` says that the invocation published before its recording was finished. */
  datatype Stage =
    | AtChild
    | InChild
    | Concluded(outcome: ConditionOutcome)
    | Published(outcome: ConditionOutcome, early: bool)

  /** One call of a combinator under the recording `target`; `answers` are what the children called so far returned. */
  datatype Invocation = Invocation(target: nat, kind: Kind, children: seq<nat>, answers: seq<Verdict>, stage: Stage)

  /** What freezing read from a recording, and how many invocations had begun by then. */
  datatype Frozen = Frozen(
    kind: Kind, outcome: ConditionOutcome, error: Option<Error>, reason: Reason, children: seq<nat>, begun: nat)

  datatype State = State(
    nodes: seq<Recording>, invocations: seq<Invocation>, root: Option<Verdict>, frozen: map<nat, Frozen>)

  const NOT_CALLED := Verdict(OutcomeNotEvaluated, None)
  const ROOT_RECORDING := Recording(LeafKind, OutcomeNotEvaluated, None, NoReason, true, false, false, false, [], None)
  const INITIAL := State([ROOT_RECORDING], [], None, map[])

  datatype Step =
    | Begin(target: nat, kind: Kind, arity: nat)
    | Start(inv: nat)
    | Answer(inv: nat, verdict: Verdict)
    | Exhaust(inv: nat)
    | Publish(inv: nat)
    | FinishRoot(verdict: Verdict)
    | Freeze(node: nat)

  // ----- the steps

  /** The locked end of a recording. */
  function Finish(n: Recording, a: Verdict): Recording {
    n.(finished := true, outcome := a.outcome, error := a.error,
       opaqueNode := n.opaqueNode || (n.operator && n.outcome != a.outcome))
  }

  /** The locked claim of a recording: a second operator, or one after the end, makes it opaque. */
  function Claim(n: Recording, kind: Kind, children: seq<nat>): Recording {
    n.(opaqueNode := n.opaqueNode || n.operator || n.finished, operator := true, kind := kind, children := children)
  }

  function NewNode(inv: nat, j: nat): Recording {
    Recording(LeafKind, OutcomeNotEvaluated, None, ShortCircuit, false, false, false, false, [], Some((inv, j)))
  }

  function NewNodes(inv: nat, arity: nat): (nodes: seq<Recording>)
    ensures |nodes| == arity && forall j :: 0 <= j < arity ==> nodes[j] == NewNode(inv, j)
  {
    seq(arity, j requires 0 <= j < arity => NewNode(inv, j))
  }

  function NewIds(base: nat, arity: nat): (ids: seq<nat>)
    ensures |ids| == arity && forall j :: 0 <= j < arity ==> ids[j] == base + j
  {
    seq(arity, j requires 0 <= j < arity => base + j)
  }

  function Read(n: Recording, begun: nat): Frozen {
    if n.opaqueNode then Frozen(LeafKind, n.outcome, n.error, n.reason, [], begun)
    else Frozen(n.kind, n.outcome, n.error, n.reason, n.children, begun)
  }

  /** Only a recording whose context was handed out can be claimed; freezing descends from recordings it has read. */
  predicate Enabled(s: State, step: Step) {
    match step
    case Begin(x, kind, arity) =>
      x < |s.nodes| && s.nodes[x].started && kind != LeafKind && (kind == NotKind ==> arity == 1)
    case Start(v) =>
      v < |s.invocations| && s.invocations[v].stage == AtChild && Next(s.invocations[v]) < |s.nodes|
      && |s.invocations[v].answers| < |s.invocations[v].children|
    case Answer(v, a) =>
      v < |s.invocations| && s.invocations[v].stage == InChild && Next(s.invocations[v]) < |s.nodes|
      && |s.invocations[v].answers| < |s.invocations[v].children| && a.Valid()
    case Exhaust(v) =>
      v < |s.invocations| && s.invocations[v].stage == AtChild
        && |s.invocations[v].answers| == |s.invocations[v].children|
    case Publish(v) =>
      v < |s.invocations| && s.invocations[v].stage.Concluded? && s.invocations[v].target < |s.nodes|
    case FinishRoot(a) => s.root == None && |s.nodes| > 0 && a.Valid()
    case Freeze(x) =>
      && s.root.Some? && x < |s.nodes| && x !in s.frozen
      && (x == 0 || exists y :: y in s.frozen && x in s.frozen[y].children)
  }

  /** The child an invocation is at or in. */
  function Next(v: Invocation): nat {
    if |v.answers| < |v.children| then v.children[|v.answers|] else 0
  }

  function Apply(s: State, step: Step): State
    requires Enabled(s, step)
  {
    match step
    case Begin(x, kind, arity) =>
      var ids := NewIds(|s.nodes|, arity);
      s.(nodes := s.nodes[x := Claim(s.nodes[x], kind, ids)] + NewNodes(|s.invocations|, arity),
         invocations := s.invocations + [Invocation(x, kind, ids, [], AtChild)])
    case Start(v) =>
      var i := s.invocations[v];
      s.(nodes := s.nodes[Next(i) := s.nodes[Next(i)].(started := true, reason := NoReason)],
         invocations := s.invocations[v := i.(stage := InChild)])
    case Answer(v, a) =>
      var i := s.invocations[v];
      s.(nodes := s.nodes[Next(i) := Finish(s.nodes[Next(i)], a)],
         invocations := s.invocations[v := i.(
           answers := i.answers + [a],
           stage := match Ending(i.kind, a.outcome) case Some(r) => Concluded(r) case None => AtChild)])
    case Exhaust(v) =>
      var i := s.invocations[v];
      var outcome := if i.kind == AllKind then OutcomeTrue else OutcomeFalse;
      s.(invocations := s.invocations[v := i.(stage := Concluded(outcome))])
    case Publish(v) =>
      var i := s.invocations[v];
      var n := s.nodes[i.target];
      s.(nodes := if n.finished then s.nodes else s.nodes[i.target := n.(outcome := i.stage.outcome)],
         invocations := s.invocations[v := i.(stage := Published(i.stage.outcome, !n.finished))])
    case FinishRoot(a) =>
      s.(nodes := s.nodes[0 := Finish(s.nodes[0], a)], root := Some(a))
    case Freeze(x) =>
      s.(frozen := s.frozen[x := Read(s.nodes[x], |s.invocations|)])
  }

  /** The state after an interleaving, when each of its steps is possible. */
  function Run(steps: seq<Step>): Option<State> {
    if steps == [] then Some(INITIAL)
    else
      match Run(steps[..|steps| - 1])
      case Some(s) => if Enabled(s, steps[|steps| - 1]) then Some(Apply(s, steps[|steps| - 1])) else None
      case None => None
  }

  // ----- the invariant

  ghost predicate Over(stage: Stage) { stage.Concluded? || stage.Published? }

  /** An invocation's answers so far, and what they make of it. */
  ghost predicate Coherent(v: Invocation) {
    && v.kind != LeafKind && (v.kind == NotKind ==> |v.children| == 1)
    && |v.answers| <= |v.children|
    && (v.stage == InChild ==> |v.answers| < |v.children|)
    && (forall k :: 0 <= k < |v.answers| ==> v.answers[k].Valid())
    && (if Over(v.stage) then
          && (forall k :: 0 <= k < |v.answers| - 1 ==> Ending(v.kind, v.answers[k].outcome) == None)
          && (if |v.answers| > 0 && Ending(v.kind, v.answers[|v.answers| - 1].outcome).Some?
              then v.stage.outcome == Ending(v.kind, v.answers[|v.answers| - 1].outcome).value
              else
                && |v.answers| == |v.children|
                && v.stage.outcome == (if v.kind == AllKind then OutcomeTrue else OutcomeFalse))
        else forall k :: 0 <= k < |v.answers| ==> Ending(v.kind, v.answers[k].outcome) == None)
  }

  /** The recording of child `j`: finished with its answer, running, or never started. */
  ghost predicate ChildState(v: Invocation, j: nat, n: Recording)
    requires j < |v.children|
  {
    if j < |v.answers| then n.started && n.finished && Verdict(n.outcome, n.error) == v.answers[j]
    else if j == |v.answers| && v.stage == InChild then n.started && !n.finished
    else !n.started && !n.finished && !n.operator && n.outcome == OutcomeNotEvaluated
  }

  ghost predicate InvocationOk(s: State, v: nat)
    requires v < |s.invocations|
  {
    var i := s.invocations[v];
    && Coherent(i) && i.target < |s.nodes| && s.nodes[i.target].operator
    && forall j :: 0 <= j < |i.children| ==>
         && i.children[j] < |s.nodes| && s.nodes[i.children[j]].parent == Some((v, j))
         && ChildState(i, j, s.nodes[i.children[j]])
  }

  /** The recording shows a single operator: the invocation `v`, its kind and children, and its outcome once
      published. */
  ghost predicate Shows(s: State, x: nat, v: nat)
    requires x < |s.nodes|
  {
    var n := s.nodes[x];
    && v < |s.invocations| && s.invocations[v].target == x
    && n.kind == s.invocations[v].kind && n.children == s.invocations[v].children
    && (n.finished ==> s.invocations[v].stage == Published(n.outcome, true))
    && (!n.finished ==> match s.invocations[v].stage
                        case Published(o, early) => n.outcome == o && early
                        case _ => n.outcome == OutcomeNotEvaluated)
    && forall w :: 0 <= w < |s.invocations| && s.invocations[w].target == x ==> w == v
  }

  /** What a recording's own fields say of each other, and of the invocation it is a child of. */
  ghost predicate NodeShape(s: State, x: nat)
    requires x < |s.nodes|
  {
    var n := s.nodes[x];
    && (n.reason == ShortCircuit <==> !n.started) && (n.finished ==> n.started)
    && (n.operator ==> n.started)
    && (if n.finished then Verdict(n.outcome, n.error).Valid() else n.error == None)
    && (x == 0 ==> n.parent == None && n.started)
    && (x == 0 ==> (n.finished <==> s.root.Some?) && (n.finished ==> Verdict(n.outcome, n.error) == s.root.value))
    && (x > 0 ==> n.parent.Some?)
    && (match n.parent
        case Some((v, j)) => v < |s.invocations| && j < |s.invocations[v].children| && s.invocations[v].children[j] == x
        case None => true)
    && (!n.operator ==> n.kind == LeafKind && n.children == [] && !n.opaqueNode
                        && (!n.finished ==> n.outcome == OutcomeNotEvaluated)
                        && forall w :: 0 <= w < |s.invocations| ==> s.invocations[w].target != x)
  }

  ghost predicate NodeOk(s: State, x: nat)
    requires x < |s.nodes|
  {
    var n := s.nodes[x];
    && NodeShape(s, x)
    && (n.operator && !n.opaqueNode ==> exists v :: Shows(s, x, v))
    && (n.opaqueNode ==> Spoiled(s, x))
    && (n.operator ==> exists v: nat :: Uses(s, x, v))
  }

  ghost predicate Uses(s: State, x: nat, v: nat) { v < |s.invocations| && s.invocations[v].target == x }

  /** The only invocation of a recording. */
  ghost predicate Sole(s: State, x: nat, v: nat) {
    && v < |s.invocations| && s.invocations[v].target == x
    && forall w :: 0 <= w < |s.invocations| && s.invocations[w].target == x ==> w == v
  }

  /** No single invocation accounts for the outcome of this recording. */
  ghost predicate Spoiled(s: State, x: nat)
    requires x < |s.nodes|
  {
    forall v: nat :: Sole(s, x, v) ==>
      s.nodes[x].finished && s.invocations[v].stage != Published(s.nodes[x].outcome, true)
  }

  /** Of the invocations begun by the time of freezing, only `v` used the recording; it published, before the recording
      was finished, the outcome the recording ended with. */
  ghost predicate SoleUse(s: State, f: Frozen, x: nat, v: nat) {
    && v < f.begun <= |s.invocations| && s.invocations[v].target == x
    && s.invocations[v].stage == Published(f.outcome, true)
    && forall w :: 0 <= w < f.begun && s.invocations[w].target == x ==> w == v
  }

  /** What was read from a recording is what its one use was. */
  ghost predicate Justified(s: State, f: Frozen, x: nat, v: nat) {
    SoleUse(s, f, x, v) && s.invocations[v].kind == f.kind && s.invocations[v].children == f.children
  }

  /** A frozen child carries the answer its parent's invocation saw, or was never started. */
  ghost predicate ChildRead(s: State, f: Frozen, x: nat)
    requires x < |s.nodes|
  {
    match s.nodes[x].parent
    case None => true
    case Some((v, j)) =>
      && v < |s.invocations| && s.invocations[v].stage.Published?
      && (if j < |s.invocations[v].answers|
          then Verdict(f.outcome, f.error) == s.invocations[v].answers[j] && f.reason == NoReason
          else Verdict(f.outcome, f.error) == NOT_CALLED && f.reason == ShortCircuit)
  }

  ghost predicate FrozenOk(s: State, x: nat)
    requires x in s.frozen
  {
    var f := s.frozen[x];
    && x < |s.nodes| && s.root.Some? && (x == 0 ==> Verdict(f.outcome, f.error) == s.root.value)
    && f.begun <= |s.invocations|
    && (s.nodes[x].finished || !s.nodes[x].started)
    && (f.kind != LeafKind ==> exists v :: Justified(s, f, x, v))
    && (f.kind == LeafKind ==> f.children == [] && forall v: nat :: !SoleUse(s, f, x, v))
    && ChildRead(s, f, x)
  }

  ghost predicate Invariant(s: State) {
    && |s.nodes| > 0
    && (forall v :: 0 <= v < |s.invocations| ==> InvocationOk(s, v))
    && (forall x :: 0 <= x < |s.nodes| ==> NodeOk(s, x))
    && (forall x :: x in s.frozen ==> FrozenOk(s, x))
  }

  lemma {:induction false} InitialHolds()
    ensures Invariant(INITIAL)
  {}

  // ----- each step keeps it

  /** Invocations keep their targets, new ones use other recordings, and none starts to count as an early
      publication. */
  ghost predicate KeepsUses(s: State, t: State, y: nat)
    requires y < |s.nodes|
  {
    && |s.invocations| <= |t.invocations|
    && (forall v :: 0 <= v < |s.invocations| ==> t.invocations[v].target == s.invocations[v].target)
    && (forall v :: |s.invocations| <= v < |t.invocations| ==> t.invocations[v].target != y)
    && (forall v :: 0 <= v < |s.invocations| && s.invocations[v].target == y && s.nodes[y].finished ==>
                      (t.invocations[v].stage.Published? ==>
                         t.invocations[v].stage == s.invocations[v].stage || !t.invocations[v].stage.early))
  }

  lemma {:induction false} UsesKept(s: State, t: State, y: nat)
    requires y < |s.nodes| && NodeOk(s, y) && y < |t.nodes| && KeepsUses(s, t, y)
    requires s.nodes[y].finished ==> t.nodes[y].finished && t.nodes[y].outcome == s.nodes[y].outcome
    ensures s.nodes[y].opaqueNode ==> Spoiled(t, y)
    ensures s.nodes[y].operator ==> exists v: nat :: Uses(t, y, v)
  {
    hide NodeShape;
    if s.nodes[y].opaqueNode {
      forall v: nat | Sole(t, y, v)
        ensures t.nodes[y].finished && t.invocations[v].stage != Published(t.nodes[y].outcome, true)
      {
        assert Sole(s, y, v);
      }
    }
    if s.nodes[y].operator {
      var v: nat :| Uses(s, y, v);
      assert Uses(t, y, v);
    }
  }

  lemma {:induction false} UntouchedShape(s: State, t: State, y: nat)
    requires y < |s.nodes| <= |t.nodes| && t.nodes[y] == s.nodes[y] && t.root == s.root
    requires |s.invocations| <= |t.invocations|
    requires forall w :: 0 <= w < |s.invocations| ==>
               t.invocations[w].target == s.invocations[w].target
                 && t.invocations[w].children == s.invocations[w].children
    requires forall w :: |s.invocations| <= w < |t.invocations| ==> t.invocations[w].target != y
    requires NodeShape(s, y)
    ensures NodeShape(t, y)
  {}

  /** The stages are equal, or neither has published. */
  predicate SameReport(a: Stage, b: Stage) { a == b || (!a.Published? && !b.Published?) }

  /** A recording that a step neither changes, nor claims, nor publishes to. */
  lemma {:induction false} UntouchedNode(s: State, t: State, y: nat)
    requires y < |s.nodes| <= |t.nodes| && t.nodes[y] == s.nodes[y] && t.root == s.root
    requires |s.invocations| <= |t.invocations|
    requires forall w :: 0 <= w < |s.invocations| ==>
               && t.invocations[w].target == s.invocations[w].target
               && t.invocations[w].children == s.invocations[w].children
               && t.invocations[w].kind == s.invocations[w].kind
               && (s.invocations[w].target == y ==> SameReport(s.invocations[w].stage, t.invocations[w].stage))
    requires forall w :: |s.invocations| <= w < |t.invocations| ==> t.invocations[w].target != y
    requires NodeOk(s, y)
    ensures NodeOk(t, y)
  {
    hide NodeShape;
    UntouchedShape(s, t, y);
    UsesKept(s, t, y);
    if t.nodes[y].operator && !t.nodes[y].opaqueNode {
      var w: nat :| Shows(s, y, w);
      assert Shows(t, y, w);
    }
  }

  lemma {:induction false} BeginTarget(s: State, x: nat, kind: Kind, arity: nat)
    requires Invariant(s) && Enabled(s, Begin(x, kind, arity))
    ensures NodeOk(Apply(s, Begin(x, kind, arity)), x)
  {
    hide FrozenOk, InvocationOk;
    var t := Apply(s, Begin(x, kind, arity));
    var newest := |s.invocations|;
    assert NodeOk(s, x) && Uses(t, x, newest);
    if s.nodes[x].operator {
      var v: nat :| Uses(s, x, v);
      assert Uses(t, x, v);
    } else if !s.nodes[x].finished {
      assert Shows(t, x, newest);
    }
  }

  lemma {:induction false} BeginChild(s: State, x: nat, kind: Kind, arity: nat, y: nat)
    requires Invariant(s) && Enabled(s, Begin(x, kind, arity)) && |s.nodes| <= y < |s.nodes| + arity
    ensures NodeOk(Apply(s, Begin(x, kind, arity)), y)
  {
    hide FrozenOk;
    var t := Apply(s, Begin(x, kind, arity));
    var newest := |s.invocations|;
    assert t.nodes[y] == NewNode(newest, y - |s.nodes|);
    forall w | 0 <= w < |t.invocations| ensures t.invocations[w].target != y {
      assert w < newest ==> InvocationOk(s, w);
    }
  }

  /** More recordings and invocations leave an invocation as it was. */
  lemma {:induction false} OlderInvocation(s: State, t: State, x: nat, v: nat)
    requires v < |s.invocations| <= |t.invocations| && t.invocations[v] == s.invocations[v] && InvocationOk(s, v)
    requires |s.nodes| <= |t.nodes| && x < |s.nodes| && t.nodes[x].operator && s.nodes[x].started
    requires t.nodes[x] == s.nodes[x].(
               operator := true, opaqueNode := t.nodes[x].opaqueNode, kind := t.nodes[x].kind,
                 children := t.nodes[x].children)
    requires forall y :: 0 <= y < |s.nodes| && y != x ==> t.nodes[y] == s.nodes[y]
    ensures InvocationOk(t, v)
  {
    hide Coherent;
  }

  lemma {:induction false} NewestInvocation(s: State, x: nat, kind: Kind, arity: nat)
    requires Enabled(s, Begin(x, kind, arity))
    ensures InvocationOk(Apply(s, Begin(x, kind, arity)), |s.invocations|)
  {
    var t, newest := Apply(s, Begin(x, kind, arity)), |s.invocations|;
    var ids := NewIds(|s.nodes|, arity);
    var i := Invocation(x, kind, ids, [], AtChild);
    assert t.invocations[newest] == i;
    forall j | 0 <= j < arity
      ensures ids[j] < |t.nodes| && t.nodes[ids[j]].parent == Some((newest, j)) && ChildState(i, j, t.nodes[ids[j]])
    {
      assert t.nodes[|s.nodes| + j] == NewNode(newest, j);
    }
  }

  lemma {:induction false} BeginInvocations(s: State, x: nat, kind: Kind, arity: nat)
    requires Invariant(s) && Enabled(s, Begin(x, kind, arity))
    ensures var t := Apply(s, Begin(x, kind, arity));
            forall v :: 0 <= v < |t.invocations| ==> InvocationOk(t, v)
  {
    hide NodeOk, FrozenOk, InvocationOk;
    var t := Apply(s, Begin(x, kind, arity));
    forall v | 0 <= v < |t.invocations| ensures InvocationOk(t, v) {
      if v < |s.invocations| {
        OlderInvocation(s, t, x, v);
      } else {
        NewestInvocation(s, x, kind, arity);
      }
    }
  }

  lemma {:induction false} BeginKeeps(s: State, x: nat, kind: Kind, arity: nat)
    requires Invariant(s) && Enabled(s, Begin(x, kind, arity))
    ensures Invariant(Apply(s, Begin(x, kind, arity)))
  {
    hide NodeOk, InvocationOk;
    var t := Apply(s, Begin(x, kind, arity));
    BeginInvocations(s, x, kind, arity);
    forall y | 0 <= y < |t.nodes| ensures NodeOk(t, y) {
      if y == x {
        BeginTarget(s, x, kind, arity);
      } else if y < |s.nodes| {
        UntouchedNode(s, t, y);
      } else {
        BeginChild(s, x, kind, arity, y);
      }
    }
    forall y | y in t.frozen ensures FrozenOk(t, y) {
      assert FrozenOk(s, y);
      FrozenKept(s, t, y);
    }
  }

  /** Published invocations never change, so what was frozen stays justified. */
  lemma {:induction false} FrozenKept(s: State, t: State, y: nat)
    requires y in s.frozen && FrozenOk(s, y) && y in t.frozen && t.frozen[y] == s.frozen[y]
    requires |s.nodes| <= |t.nodes| && t.nodes[y].parent == s.nodes[y].parent && (s.root.Some? ==> t.root == s.root)
    requires |s.invocations| <= |t.invocations|
    requires forall v :: 0 <= v < |s.invocations| ==>
               && t.invocations[v].target == s.invocations[v].target
               && (s.invocations[v].stage.Published? ==> t.invocations[v] == s.invocations[v])
               && (s.invocations[v].target == y && !s.invocations[v].stage.Published? ==>
                     t.invocations[v].stage.Published? ==> !t.invocations[v].stage.early)
    requires t.nodes[y].finished || !t.nodes[y].started
    ensures FrozenOk(t, y)
  {
    var f := s.frozen[y];
    if f.kind != LeafKind {
      var v: nat :| Justified(s, f, y, v);
      assert Justified(t, f, y, v);
    } else {
      forall v: nat | SoleUse(t, f, y, v) ensures false {
        assert SoleUse(s, f, y, v);
      }
    }
  }

  lemma {:induction false} StartChild(s: State, v: nat)
    requires Enabled(s, Start(v)) && InvocationOk(s, v) && NodeOk(s, Next(s.invocations[v]))
    ensures NodeOk(Apply(s, Start(v)), Next(s.invocations[v]))
  {
    var t := Apply(s, Start(v));
    var y := Next(s.invocations[v]);
    UsesKept(s, t, y);
  }

  lemma {:induction false} StartNodes(s: State, v: nat)
    requires Invariant(s) && Enabled(s, Start(v))
    ensures var t := Apply(s, Start(v));
            forall y :: 0 <= y < |t.nodes| ==> NodeOk(t, y)
  {
    hide FrozenOk, InvocationOk, NodeOk;
    var t := Apply(s, Start(v));
    forall y | 0 <= y < |t.nodes| ensures NodeOk(t, y) {
      if y == Next(s.invocations[v]) {
        StartChild(s, v);
      } else {
        UntouchedNode(s, t, y);
      }
    }
  }

  lemma {:induction false} StartKeeps(s: State, v: nat)
    requires Invariant(s) && Enabled(s, Start(v))
    ensures Invariant(Apply(s, Start(v)))
  {
    hide NodeOk;
    var t := Apply(s, Start(v));
    var c := Next(s.invocations[v]);
    assert InvocationOk(s, v);
    forall w | 0 <= w < |t.invocations| ensures InvocationOk(t, w) {
      assert InvocationOk(s, w);
    }
    StartNodes(s, v);
    forall y | y in t.frozen ensures FrozenOk(t, y) {
      assert FrozenOk(s, y);
      FrozenKept(s, t, y);
    }
  }

  lemma {:induction false} FinishedShape(s: State, t: State, y: nat, a: Verdict)
    requires 0 < y < |s.nodes| == |t.nodes| && s.nodes[y].started && t.nodes[y] == Finish(s.nodes[y], a) && a.Valid()
    requires |s.invocations| == |t.invocations|
    requires forall w :: 0 <= w < |s.invocations| ==>
               t.invocations[w].target == s.invocations[w].target
                 && t.invocations[w].children == s.invocations[w].children
    requires NodeShape(s, y)
    ensures NodeShape(t, y)
  {}

  lemma {:induction false} AnswerChild(s: State, v: nat, a: Verdict)
    requires Enabled(s, Answer(v, a)) && InvocationOk(s, v) && NodeOk(s, Next(s.invocations[v]))
    ensures NodeOk(Apply(s, Answer(v, a)), Next(s.invocations[v]))
  {
    hide NodeShape;
    var t := Apply(s, Answer(v, a));
    var y := Next(s.invocations[v]);
    ChildIsNotRoot(s, y);
    FinishedShape(s, t, y, a);
    UsesKept(s, t, y);
    if t.nodes[y].operator && !t.nodes[y].opaqueNode {
      var w: nat :| Shows(s, y, w);
      assert Shows(t, y, w);
    }
  }

  lemma {:induction false} ChildIsNotRoot(s: State, y: nat)
    requires y < |s.nodes| && NodeOk(s, y) && s.nodes[y].parent.Some?
    ensures y > 0
  {}

  lemma {:induction false} AnswerNodes(s: State, v: nat, a: Verdict)
    requires Invariant(s) && Enabled(s, Answer(v, a))
    ensures var t := Apply(s, Answer(v, a));
            forall y :: 0 <= y < |t.nodes| ==> NodeOk(t, y)
  {
    hide FrozenOk, InvocationOk, NodeOk;
    var t := Apply(s, Answer(v, a));
    forall y | 0 <= y < |t.nodes| ensures NodeOk(t, y) {
      if y == Next(s.invocations[v]) {
        AnswerChild(s, v, a);
      } else {
        UntouchedNode(s, t, y);
      }
    }
  }

  lemma {:induction false} AnswerKeeps(s: State, v: nat, a: Verdict)
    requires Invariant(s) && Enabled(s, Answer(v, a))
    ensures Invariant(Apply(s, Answer(v, a)))
  {
    hide NodeOk;
    var t := Apply(s, Answer(v, a));
    var c := Next(s.invocations[v]);
    assert InvocationOk(s, v);
    forall w | 0 <= w < |t.invocations| ensures InvocationOk(t, w) {
      assert InvocationOk(s, w);
    }
    AnswerNodes(s, v, a);
    forall y | y in t.frozen ensures FrozenOk(t, y) {
      assert FrozenOk(s, y);
      FrozenKept(s, t, y);
    }
  }

  lemma {:induction false} ExhaustKeeps(s: State, v: nat)
    requires Invariant(s) && Enabled(s, Exhaust(v))
    ensures Invariant(Apply(s, Exhaust(v)))
  {
    var t := Apply(s, Exhaust(v));
    assert InvocationOk(s, v);
    forall w | 0 <= w < |t.invocations| ensures InvocationOk(t, w) {
      assert InvocationOk(s, w);
    }
    forall y | 0 <= y < |t.nodes| ensures NodeOk(t, y) {
      assert NodeOk(s, y);
      UsesKept(s, t, y);
      if t.nodes[y].operator && !t.nodes[y].opaqueNode {
        var w: nat :| Shows(s, y, w);
        assert Shows(t, y, w);
      }
    }
    forall y | y in t.frozen ensures FrozenOk(t, y) {
      assert FrozenOk(s, y);
      FrozenKept(s, t, y);
    }
  }

  lemma {:induction false} TargetStarted(s: State, v: nat)
    requires Invariant(s) && v < |s.invocations|
    ensures s.invocations[v].target < |s.nodes|
    ensures s.nodes[s.invocations[v].target].started && s.nodes[s.invocations[v].target].operator
  {
    assert InvocationOk(s, v) && NodeOk(s, s.invocations[v].target);
  }

  lemma {:induction false} PublishedShape(s: State, t: State, v: nat, y: nat)
    requires v < |s.invocations| == |t.invocations| && y < |s.nodes| == |t.nodes|
    requires NodeShape(s, y) && s.nodes[y].operator && t.root == s.root
    requires t.nodes[y] == if s.nodes[y].finished then s.nodes[y]
                           else s.nodes[y].(outcome := t.nodes[y].outcome)
    requires forall w :: 0 <= w < |s.invocations| ==> t.invocations[w].children == s.invocations[w].children
    ensures NodeShape(t, y)
  {}

  lemma {:induction false} PublishTarget(s: State, t: State, v: nat, y: nat)
    requires v < |s.invocations| == |t.invocations| && s.invocations[v].target == y && s.invocations[v].stage.Concluded?
    requires y < |s.nodes| == |t.nodes| && NodeOk(s, y) && s.nodes[y].operator && t.root == s.root
    requires t.nodes[y] == if s.nodes[y].finished then s.nodes[y]
                           else s.nodes[y].(outcome := s.invocations[v].stage.outcome)
    requires t.invocations[v]
             == s.invocations[v].(stage := Published(s.invocations[v].stage.outcome, !s.nodes[y].finished))
    requires forall w :: 0 <= w < |s.invocations| && w != v ==> t.invocations[w] == s.invocations[w]
    ensures NodeOk(t, y)
  {
    hide NodeShape;
    PublishedShape(s, t, v, y);
    UsesKept(s, t, y);
    if t.nodes[y].operator && !t.nodes[y].opaqueNode {
      var w: nat :| Shows(s, y, w);
      assert Shows(t, y, w);
    }
  }

  lemma {:induction false} PublishNodes(s: State, v: nat)
    requires Invariant(s) && Enabled(s, Publish(v))
    ensures var t := Apply(s, Publish(v));
            forall y :: 0 <= y < |t.nodes| ==> NodeOk(t, y)
  {
    hide FrozenOk, NodeOk, InvocationOk;
    var t := Apply(s, Publish(v));
    forall y | 0 <= y < |t.nodes| ensures NodeOk(t, y) {
      assert NodeOk(s, y);
      if y == s.invocations[v].target {
        TargetStarted(s, v);
        PublishTarget(s, t, v, y);
      } else {
        UntouchedNode(s, t, y);
      }
    }
  }

  lemma {:induction false} PublishKeeps(s: State, v: nat)
    requires Invariant(s) && Enabled(s, Publish(v))
    ensures Invariant(Apply(s, Publish(v)))
  {
    hide NodeOk;
    var t := Apply(s, Publish(v));
    var x := s.invocations[v].target;
    TargetStarted(s, v);
    forall w | 0 <= w < |t.invocations| ensures InvocationOk(t, w) {
      assert InvocationOk(s, w);
    }
    PublishNodes(s, v);
    forall y | y in t.frozen ensures FrozenOk(t, y) {
      assert FrozenOk(s, y);
      FrozenKept(s, t, y);
    }
  }

  lemma {:induction false} NothingFrozen(s: State)
    requires Invariant(s) && s.root == None
    ensures s.frozen == map[]
  {
    forall y ensures y !in s.frozen {
      assert y in s.frozen ==> FrozenOk(s, y);
    }
  }

  lemma {:induction false} FinishRootKeeps(s: State, a: Verdict)
    requires Invariant(s) && Enabled(s, FinishRoot(a))
    ensures Invariant(Apply(s, FinishRoot(a)))
  {
    var t := Apply(s, FinishRoot(a));
    assert NodeOk(s, 0);
    forall w | 0 <= w < |t.invocations| ensures InvocationOk(t, w) {
      assert InvocationOk(s, w);
    }
    forall y | 0 <= y < |t.nodes| ensures NodeOk(t, y) {
      assert NodeOk(s, y);
      UsesKept(s, t, y);
      if t.nodes[y].operator && !t.nodes[y].opaqueNode {
        var w: nat :| Shows(s, y, w);
        assert Shows(t, y, w);
      }
    }
    NothingFrozen(s);
  }

  /** A child reached through a frozen parent is finished with its parent's answer, or was never started. */
  lemma {:induction false} FrozenChild(s: State, y: nat, x: nat)
    requires Invariant(s) && y in s.frozen && x in s.frozen[y].children
    ensures x < |s.nodes| && s.nodes[x].parent.Some?
    ensures var (v, j) := s.nodes[x].parent.value;
            && v < |s.invocations| && s.invocations[v].stage.Published? && Justified(s, s.frozen[y], y, v)
            && j < |s.invocations[v].children| && s.invocations[v].children[j] == x
            && ChildState(s.invocations[v], j, s.nodes[x])
  {
    assert FrozenOk(s, y);
    var v: nat :| Justified(s, s.frozen[y], y, v);
    assert InvocationOk(s, v);
    var j: nat :| j < |s.frozen[y].children| && s.frozen[y].children[j] == x;
    assert s.nodes[s.invocations[v].children[j]].parent == Some((v, j));
  }

  lemma {:induction false} SameInvocation(s: State, t: State, w: nat)
    requires w < |s.invocations| && s.invocations == t.invocations && s.nodes == t.nodes && InvocationOk(s, w)
    ensures InvocationOk(t, w)
  {}

  lemma {:induction false} FreezeReads(s: State, x: nat)
    requires Invariant(s) && Enabled(s, Freeze(x))
    ensures FrozenOk(Apply(s, Freeze(x)), x)
  {
    var t := Apply(s, Freeze(x));
    assert NodeOk(s, x);
    var n := s.nodes[x];
    if x != 0 {
      var y: nat :| y in s.frozen && x in s.frozen[y].children;
      FrozenChild(s, y, x);
    }
    if n.operator && !n.opaqueNode {
      var v: nat :| Shows(s, x, v);
      assert InvocationOk(s, v);
      assert Justified(t, t.frozen[x], x, v);
    } else if n.opaqueNode {
      forall v: nat ensures !SoleUse(t, t.frozen[x], x, v) {
        assert SoleUse(t, t.frozen[x], x, v) ==> Sole(s, x, v);
      }
    }
  }

  lemma {:induction false} FreezeKeeps(s: State, x: nat)
    requires Invariant(s) && Enabled(s, Freeze(x))
    ensures Invariant(Apply(s, Freeze(x)))
  {
    hide NodeOk, InvocationOk;
    var t := Apply(s, Freeze(x));
    FreezeReads(s, x);
    forall w | 0 <= w < |t.invocations| ensures InvocationOk(t, w) {
      SameInvocation(s, t, w);
    }
    forall y | 0 <= y < |t.nodes| ensures NodeOk(t, y) {
      UntouchedNode(s, t, y);
    }
    forall y | y in t.frozen ensures FrozenOk(t, y) {
      if y != x {
        assert FrozenOk(s, y);
        FrozenKept(s, t, y);
      }
    }
  }

  /** No interleaving breaks the invariant. */
  lemma {:induction false} RunsKeepInvariant(steps: seq<Step>)
    requires Run(steps).Some?
    ensures Invariant(Run(steps).value)
  {
    hide Invariant, Apply, Enabled;
    if steps == [] {
      InitialHolds();
    } else {
      RunsKeepInvariant(steps[..|steps| - 1]);
      var s := Run(steps[..|steps| - 1]).value;
      match steps[|steps| - 1]
      case Begin(x, kind, arity) => BeginKeeps(s, x, kind, arity);
      case Start(v) => StartKeeps(s, v);
      case Answer(v, a) => AnswerKeeps(s, v, a);
      case Exhaust(v) => ExhaustKeeps(s, v);
      case Publish(v) => PublishKeeps(s, v);
      case FinishRoot(a) => FinishRootKeeps(s, a);
      case Freeze(x) => FreezeKeeps(s, x);
    }
  }

  // ----- soundness

  /** No invocation that has not published is ever stuck: the next of its locked regions is always possible, whatever
      its child answers. */
  lemma {:induction false} InvocationsNeverBlock(steps: seq<Step>, v: nat, a: Verdict)
    requires Run(steps).Some? && v < |Run(steps).value.invocations| && a.Valid()
    ensures var s := Run(steps).value;
            match s.invocations[v].stage
            case AtChild => Enabled(s, Start(v)) != Enabled(s, Exhaust(v))
            case InChild => Enabled(s, Answer(v, a))
            case Concluded(_) => Enabled(s, Publish(v))
            case Published(_, _) => true
  {
    RunsKeepInvariant(steps);
    hide Run;
    assert InvocationOk(Run(steps).value, v);
  }

  /** The outcomes of the frozen children of a frozen recording. */
  function ChildOutcomes(s: State, children: seq<nat>): seq<ConditionOutcome>
    requires forall k :: 0 <= k < |children| ==> children[k] in s.frozen
  {
    seq(|children|, k requires 0 <= k < |children| => s.frozen[children[k]].outcome)
  }

  /** The invocation behind a frozen operator. */
  lemma {:induction false} Operator(s: State, x: nat) returns (v: nat)
    requires Invariant(s) && x in s.frozen && s.frozen[x].kind != LeafKind
    ensures var f := s.frozen[x];
            && Justified(s, f, x, v) && v < |s.invocations| && Coherent(s.invocations[v])
            && s.invocations[v].kind == f.kind && s.invocations[v].children == f.children
            && s.invocations[v].stage == Published(f.outcome, true)
  {
    hide NodeOk, Coherent;
    assert FrozenOk(s, x);
    v :| Justified(s, s.frozen[x], x, v);
    assert InvocationOk(s, v);
  }

  /** A frozen child carries what the operator's invocation got from it, or was never called. */
  lemma {:induction false} OperatorChild(s: State, x: nat, v: nat, k: nat)
    requires Invariant(s) && x in s.frozen && Justified(s, s.frozen[x], x, v)
    requires k < |s.frozen[x].children| && s.frozen[x].children[k] in s.frozen
    ensures var c := s.frozen[s.frozen[x].children[k]];
            var answers := s.invocations[v].answers;
            && Verdict(c.outcome, c.error) == (if k < |answers| then answers[k] else NOT_CALLED)
            && (c.reason == ShortCircuit <==> k >= |answers|)
  {
    hide NodeOk, Coherent;
    assert InvocationOk(s, v) && FrozenOk(s, s.frozen[x].children[k]);
    assert s.nodes[s.invocations[v].children[k]].parent == Some((v, k));
  }

  lemma {:induction false} CoherentExplains(i: Invocation, outcomes: seq<ConditionOutcome>)
    requires Coherent(i) && Over(i.stage) && |outcomes| == |i.children|
    requires forall k :: 0 <= k < |outcomes| ==>
               outcomes[k] == if k < |i.answers| then i.answers[k].outcome else OutcomeNotEvaluated
    ensures Explains(i.kind, i.stage.outcome, outcomes, |i.answers|)
  {}

  /** In every interleaving, a frozen recording that claims an operator was the target of exactly one invocation that
      had begun by then; that invocation published before the recording was finished, with the frozen outcome; and once
      its children are frozen too, they explain that outcome as the operator's own short-circuit evaluation. */
  lemma {:induction false} FrozenOperatorsAreSound(steps: seq<Step>, x: nat) returns (v: nat)
    requires Run(steps).Some? && x in Run(steps).value.frozen && Run(steps).value.frozen[x].kind != LeafKind
    ensures var s := Run(steps).value;
            var f := s.frozen[x];
            && Justified(s, f, x, v)
            && ((forall k :: 0 <= k < |f.children| ==> f.children[k] in s.frozen) ==>
                  && Explains(f.kind, f.outcome, ChildOutcomes(s, f.children), |s.invocations[v].answers|)
                  && forall k :: 0 <= k < |f.children| ==>
                       (s.frozen[f.children[k]].reason == ShortCircuit <==> k >= |s.invocations[v].answers|))
  {
    RunsKeepInvariant(steps);
    var s := Run(steps).value;
    var f := s.frozen[x];
    hide Run, Invariant, Justified, Coherent, Explains;
    v := Operator(s, x);
    var i := s.invocations[v];
    if forall k :: 0 <= k < |f.children| ==> f.children[k] in s.frozen {
      var outcomes := ChildOutcomes(s, f.children);
      forall k | 0 <= k < |outcomes|
        ensures outcomes[k] == if k < |i.answers| then i.answers[k].outcome else OutcomeNotEvaluated
        ensures s.frozen[f.children[k]].reason == ShortCircuit <==> k >= |i.answers|
      {
        OperatorChild(s, x, v, k);
      }
      CoherentExplains(i, outcomes);
    }
  }

  /** In every interleaving, a frozen recording claims an operator if and only if exactly one invocation had used it by
      then and had published, before it was finished, the very outcome it ended with; otherwise it is a childless
      leaf. */
  lemma {:induction false} OperatorIffOneEarlyUse(steps: seq<Step>, x: nat)
    requires Run(steps).Some? && x in Run(steps).value.frozen
    ensures var s := Run(steps).value;
            var f := s.frozen[x];
            && (f.kind != LeafKind <==> exists v: nat :: SoleUse(s, f, x, v))
            && (f.kind == LeafKind ==> f.children == [])
  {
    RunsKeepInvariant(steps);
    var s := Run(steps).value;
    hide Run;
    assert FrozenOk(s, x);
    if s.frozen[x].kind != LeafKind {
      var v: nat :| Justified(s, s.frozen[x], x, v);
    }
  }

  /** The answers the root recording was finished with. */
  function RootAnswers(steps: seq<Step>): seq<Verdict> {
    if steps == [] then []
    else
      RootAnswers(steps[..|steps| - 1])
      + match steps[|steps| - 1] case FinishRoot(a) => [a] case _ => []
  }

  lemma {:induction false} RootAnsweredOnce(steps: seq<Step>)
    requires Run(steps).Some?
    ensures RootAnswers(steps) == match Run(steps).value.root case Some(o) => [o] case None => []
  {
    if steps != [] {
      RootAnsweredOnce(steps[..|steps| - 1]);
    }
  }

  /** In every interleaving the frozen root carries the one answer its condition returned, error included, whatever
      retained or concurrent invocations did to it before or after. */
  lemma {:induction false} FrozenRootIsTheAnswer(steps: seq<Step>)
    requires Run(steps).Some? && 0 in Run(steps).value.frozen
    ensures var f := Run(steps).value.frozen[0];
            RootAnswers(steps) == [Verdict(f.outcome, f.error)]
  {
    RunsKeepInvariant(steps);
    RootAnsweredOnce(steps);
    hide Run;
    assert FrozenOk(Run(steps).value, 0);
  }

  // ----- errors

  /** The answer a frozen recording was finished with: by its rule, or in the loop of the invocation it is a child
      of. */
  function Received(s: State, x: nat): Verdict
    requires x < |s.nodes|
  {
    match s.nodes[x].parent
    case None => if s.root.Some? then s.root.value else NOT_CALLED
    case Some((v, j)) =>
      if v < |s.invocations| && j < |s.invocations[v].answers| then s.invocations[v].answers[j] else NOT_CALLED
  }

  /** The error an invocation returns: that of the child it called last. */
  function Raised(v: Invocation): Option<Error> {
    if v.answers == [] then None else v.answers[|v.answers| - 1].error
  }

  /** In every interleaving a frozen recording carries the answer it was finished with, error included; there is an
      error exactly when the outcome is one. */
  lemma {:induction false} FrozenErrorsAreReceived(steps: seq<Step>, x: nat)
    requires Run(steps).Some? && x in Run(steps).value.frozen
    ensures var s := Run(steps).value;
            var f := s.frozen[x];
            && x < |s.nodes| && Verdict(f.outcome, f.error) == Received(s, x)
            && (f.outcome == OutcomeError <==> f.error.Some?)
  {
    RunsKeepInvariant(steps);
    var s := Run(steps).value;
    hide Run;
    assert FrozenOk(s, x) && NodeOk(s, x);
    if x > 0 {
      var v := s.nodes[x].parent.value.0;
      assert InvocationOk(s, v);
    }
  }

  /** A frozen operator that failed failed by the child it called last, whose frozen error is the one the operator's
      invocation returned. The operator itself carries that error if and only if user code passed it on unchanged: a
      callback may wrap it, and the recording stays an operator, since its outcome is the same. */
  lemma {:induction false} FailedOperators(steps: seq<Step>, x: nat) returns (v: nat)
    requires Run(steps).Some? && x in Run(steps).value.frozen
    requires var s := Run(steps).value;
             var f := s.frozen[x];
             f.kind != LeafKind && f.outcome == OutcomeError && forall y :: y in f.children ==> y in s.frozen
    ensures var s := Run(steps).value;
            var f := s.frozen[x];
            && Justified(s, f, x, v) && x < |s.nodes| && 0 < |s.invocations[v].answers| <= |f.children|
            && var last := s.frozen[f.children[|s.invocations[v].answers| - 1]];
               && last.outcome == OutcomeError && last.error == Raised(s.invocations[v]) && last.error.Some?
               && (f.error == last.error <==> Received(s, x).error == Raised(s.invocations[v]))
  {
    RunsKeepInvariant(steps);
    FrozenErrorsAreReceived(steps, x);
    var s := Run(steps).value;
    hide Run, Received, Invariant, Justified, Coherent;
    v := Operator(s, x);
    FailedByLast(s.invocations[v]);
    OperatorChild(s, x, v, |s.invocations[v].answers| - 1);
  }

  lemma {:induction false} FailedByLast(i: Invocation)
    requires Coherent(i) && Over(i.stage) && i.stage.outcome == OutcomeError
    ensures 0 < |i.answers| <= |i.children| && i.answers[|i.answers| - 1].outcome == OutcomeError && Raised(i).Some?
  {}

  const INNER := Verdict(OutcomeError, Some(Returned(1)))
  const WRAPPER := Verdict(OutcomeError, Some(Returned(2)))

  /** A rule's condition that calls `All` with one child, and wraps the error it gets. */
  const WRAPPED := [
    Begin(0, AllKind, 1), Start(0), Answer(0, INNER), Publish(0), FinishRoot(WRAPPER), Freeze(0), Freeze(1)]

  lemma {:induction false} RunNext(steps: seq<Step>, n: nat, s: State)
    requires n < |steps| && Run(steps[..n]) == Some(s) && Enabled(s, steps[n])
    ensures Run(steps[..n + 1]) == Some(Apply(s, steps[n]))
  {
    hide Enabled, Apply;
    assert steps[..n + 1][..n] == steps[..n];
  }

  const CLAIMED_ROOT := ROOT_RECORDING.(operator := true, kind := AllKind, children := [1])
  const CALLED_CHILD := NewNode(0, 0).(started := true, reason := NoReason)

  lemma {:induction false} WrappedCalls()
    ensures Run(WRAPPED[..2])
         == Some(INITIAL.(nodes := [CLAIMED_ROOT, CALLED_CHILD],
                          invocations := [Invocation(0, AllKind, [1], [], InChild)]))
  {
    assert WRAPPED[..0] == [] && Run([]) == Some(INITIAL);
    hide Run;
    RunNext(WRAPPED, 0, INITIAL);
    var begun := Apply(INITIAL, WRAPPED[0]);
    assert NewIds(1, 1) == [1] && NewNodes(0, 1) == [NewNode(0, 0)];
    assert begun.nodes == [CLAIMED_ROOT, NewNode(0, 0)];
    RunNext(WRAPPED, 1, begun);
    var called := Apply(begun, WRAPPED[1]);
    assert called.nodes == [CLAIMED_ROOT, CALLED_CHILD];
    assert called.invocations == [Invocation(0, AllKind, [1], [], InChild)];
  }

  lemma {:induction false} WrappedPublishes(s: State)
    requires s.nodes == [CLAIMED_ROOT, CALLED_CHILD] && s.root == None && s.frozen == map[]
    requires s.invocations == [Invocation(0, AllKind, [1], [], InChild)]
    ensures Enabled(s, Answer(0, INNER))
    ensures var t := Apply(s, Answer(0, INNER));
            && Enabled(t, Publish(0))
            && Apply(t, Publish(0)) == s.(
                 nodes := [CLAIMED_ROOT.(outcome := OutcomeError), Finish(CALLED_CHILD, INNER)],
                 invocations := [Invocation(0, AllKind, [1], [INNER], Published(OutcomeError, true))])
  {
    var t := Apply(s, Answer(0, INNER));
    assert t.nodes == [CLAIMED_ROOT, Finish(CALLED_CHILD, INNER)] && [] + [INNER] == [INNER];
    assert t.invocations == [Invocation(0, AllKind, [1], [INNER], Concluded(OutcomeError))];
  }

  lemma {:induction false} WrappedFreezes(s: State)
    requires s.nodes == [CLAIMED_ROOT.(outcome := OutcomeError), Finish(CALLED_CHILD, INNER)]
    requires s.root == None && s.frozen == map[]
    ensures Enabled(s, FinishRoot(WRAPPER))
    ensures var t := Apply(s, FinishRoot(WRAPPER));
            && Enabled(t, Freeze(0))
            && var u := Apply(t, Freeze(0));
               && Enabled(u, Freeze(1)) && u.frozen.Keys == {0}
               && u.frozen[0].kind == AllKind && u.frozen[0].children == [1] && u.frozen[0].error == WRAPPER.error
               && Apply(u, Freeze(1)).frozen == u.frozen[1 := Apply(u, Freeze(1)).frozen[1]]
               && Apply(u, Freeze(1)).frozen[1].error == INNER.error
  {
    var t := Apply(s, FinishRoot(WRAPPER));
    assert t.nodes[0] == Finish(s.nodes[0], WRAPPER) && t.nodes[1] == s.nodes[1];
    var u := Apply(t, Freeze(0));
    assert 1 in u.frozen[0].children;
  }

  /** The frozen operator and its failed child carry different errors. */
  lemma {:induction false} WrappedErrorsDiffer()
    ensures Run(WRAPPED).Some?
    ensures var frozen := Run(WRAPPED).value.frozen;
            && 0 in frozen && 1 in frozen && frozen[0].kind == AllKind && frozen[0].children == [1]
            && frozen[0].error == WRAPPER.error && frozen[1].error == INNER.error
  {
    hide Run, Enabled, Apply;
    WrappedCalls();
    var called := Run(WRAPPED[..2]).value;
    WrappedPublishes(called);
    RunNext(WRAPPED, 2, called);
    RunNext(WRAPPED, 3, Apply(called, WRAPPED[2]));
    var published := Apply(Apply(called, WRAPPED[2]), WRAPPED[3]);
    WrappedFreezes(published);
    RunNext(WRAPPED, 4, published);
    var finished := Apply(published, WRAPPED[4]);
    RunNext(WRAPPED, 5, finished);
    RunNext(WRAPPED, 6, Apply(finished, WRAPPED[5]));
    assert WRAPPED[..7] == WRAPPED;
  }
}
