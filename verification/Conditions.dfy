/** Condition combinators, untraced and traced. Tracing runs the same leaf calls to the same result, and the frozen
    recording is the evaluation tree that recursion on the condition defines. */
module Conditions {
  import opened Facts

  /** A condition: user code, a nil function value, or a combinator over conditions. */
  datatype Condition =
    | Leaf(id: nat)
    | Nil
    | All(conditions: seq<Condition>)
    | Any(conditions: seq<Condition>)
    | Not(condition: Condition)

  datatype Error = Returned(error: ErrorId) | InvalidCondition | PanicError(payload: ErrorId)

  /** What a call gives: a returned pair, or a panic that unwinds. */
  datatype Answer = Return(matched: bool, error: Option<Error>) | Panic(payload: ErrorId)

  /** Leaf callbacks, as a function of the leaf calls made before. */
  type Leaves = (nat, seq<nat>) -> Answer

  datatype Evaluation = Evaluation(answer: Answer, calls: seq<nat>)

  /** Calling a nil function value panics; combinators never do that to their children. */
  const NIL_CALL: ErrorId := 0

  function Eval(c: Condition, leaves: Leaves, calls: seq<nat>): Evaluation
    decreases c, 2, 0
  {
    match c
    case Leaf(id) => Evaluation(leaves(id, calls), calls + [id])
    case Nil => Evaluation(Panic(NIL_CALL), calls)
    case All(cs) => EvalAll(c, 0, leaves, calls)
    case Any(cs) => EvalAny(c, 0, leaves, calls)
    case Not(child) =>
      if child.Nil? then Evaluation(Return(false, Some(InvalidCondition)), calls)
      else
        var e := Eval(child, leaves, calls);
        match e.answer
        case Panic(_) => e
        case Return(matched, error) =>
          e.(answer := if error.Some? then Return(false, error) else Return(!matched, None))
  }

  function EvalAll(c: Condition, i: nat, leaves: Leaves, calls: seq<nat>): Evaluation
    requires c.All? && i <= |c.conditions|
    decreases c, 1, |c.conditions| - i
  {
    if i == |c.conditions| then Evaluation(Return(true, None), calls)
    else if c.conditions[i].Nil? then Evaluation(Return(false, Some(InvalidCondition)), calls)
    else
      var e := Eval(c.conditions[i], leaves, calls);
      match e.answer
      case Panic(_) => e
      case Return(matched, error) =>
        if error.Some? then e.(answer := Return(false, error))
        else if !matched then e.(answer := Return(false, None))
        else EvalAll(c, i + 1, leaves, e.calls)
  }

  function EvalAny(c: Condition, i: nat, leaves: Leaves, calls: seq<nat>): Evaluation
    requires c.Any? && i <= |c.conditions|
    decreases c, 1, |c.conditions| - i
  {
    if i == |c.conditions| then Evaluation(Return(false, None), calls)
    else if c.conditions[i].Nil? then Evaluation(Return(false, Some(InvalidCondition)), calls)
    else
      var e := Eval(c.conditions[i], leaves, calls);
      match e.answer
      case Panic(_) => e
      case Return(matched, error) =>
        if error.Some? then e.(answer := Return(false, error))
        else if matched then e.(answer := Return(true, None))
        else EvalAny(c, i + 1, leaves, e.calls)
  }

  // ----- the evaluation tree

  datatype Kind = LeafKind | AllKind | AnyKind | NotKind
  datatype Reason = NoReason | ShortCircuit

  datatype Tree = Tree(
    kind: Kind, index: int, outcome: ConditionOutcome, error: Option<Error>, reason: Reason, children: seq<Tree>)

  function OutcomeOf(matched: bool, error: Option<Error>): ConditionOutcome {
    if error.Some? then OutcomeError else if matched then OutcomeTrue else OutcomeFalse
  }

  function KindOf(c: Condition): Kind {
    match c case All(_) => AllKind case Any(_) => AnyKind case Not(_) => NotKind case _ => LeafKind
  }

  function Children(c: Condition): seq<Condition> {
    match c case All(cs) => cs case Any(cs) => cs case Not(child) => [child] case _ => []
  }

  /** A child that was never called. */
  function Untouched(index: int): Tree {
    Tree(LeafKind, index, OutcomeNotEvaluated, None, ShortCircuit, [])
  }

  /** The call of a child, whose nil value is an error rather than a panic. */
  function EvalChild(c: Condition, leaves: Leaves, calls: seq<nat>): Evaluation {
    if c.Nil? then Evaluation(Return(false, Some(InvalidCondition)), calls) else Eval(c, leaves, calls)
  }

  /** Whether a child's answer ends its combinator. */
  predicate Ends(kind: Kind, a: Answer) {
    match a
    case Panic(_) => true
    case Return(matched, error) =>
      error.Some? || kind == NotKind || (kind == AllKind && !matched) || (kind == AnyKind && matched)
  }

  /** The tree of a condition that was called: its own answer over the trees of its children. */
  function TreeOf(c: Condition, index: int, leaves: Leaves, calls: seq<nat>): Tree
    decreases c, 2, 0
  {
    var trees := if KindOf(c) == LeafKind then [] else Trees(c, 0, leaves, calls);
    match EvalChild(c, leaves, calls).answer
    case Panic(v) => Tree(KindOf(c), index, OutcomeError, Some(PanicError(v)), NoReason, trees)
    case Return(matched, error) => Tree(KindOf(c), index, OutcomeOf(matched, error), error, NoReason, trees)
  }

  function UntouchedFrom(i: nat, n: nat): (trees: seq<Tree>)
    requires i <= n
    ensures |trees| == n - i && forall k :: 0 <= k < n - i ==> trees[k] == Untouched(i + k)
  {
    seq(n - i, k requires 0 <= k => Untouched(i + k))
  }

  /** The trees of the children `i..`: called until one ends the combinator, untouched behind it. */
  function Trees(c: Condition, i: nat, leaves: Leaves, calls: seq<nat>): (trees: seq<Tree>)
    requires i <= |Children(c)|
    ensures |trees| == |Children(c)| - i
    decreases c, 1, |Children(c)| - i
  {
    if i == |Children(c)| then []
    else
      var child := Children(c)[i];
      var e := EvalChild(child, leaves, calls);
      [TreeOf(child, i, leaves, calls)]
      + (if Ends(KindOf(c), e.answer) then UntouchedFrom(i + 1, |Children(c)|) else Trees(c, i + 1, leaves, e.calls))
  }

  // ----- the meaning of a combinator over the outcomes of its children

  predicate IsAnswer(o: ConditionOutcome) { o != OutcomeNotEvaluated }

  /** The combinator's own outcome, when this child outcome ends it. */
  function Ending(kind: Kind, o: ConditionOutcome): Option<ConditionOutcome> {
    if o == OutcomeError then Some(OutcomeError)
    else
      match kind
      case AllKind => if o == OutcomeFalse then Some(OutcomeFalse) else None
      case AnyKind => if o == OutcomeTrue then Some(OutcomeTrue) else None
      case NotKind => Some(if o == OutcomeTrue then OutcomeFalse else OutcomeTrue)
      case LeafKind => None
  }

  /** A combinator's outcome explained by its children: an evaluated prefix and then children that were never evaluated.
      `All` goes on behind true children and takes the first outcome that is not, `Any` goes on behind false ones, and
      `Not` turns its one child's answer around; an error is taken as it is. */
  ghost predicate Explains(kind: Kind, outcome: ConditionOutcome, children: seq<ConditionOutcome>, called: nat) {
    && called <= |children|
    && (forall k :: called <= k < |children| ==> children[k] == OutcomeNotEvaluated)
    && match kind
       case AllKind =>
         && (forall k :: 0 <= k < called - 1 ==> children[k] == OutcomeTrue)
         && (if outcome == OutcomeTrue then
               called == |children| && (called > 0 ==> children[called - 1] == OutcomeTrue)
             else
               called > 0 && children[called - 1] == outcome && outcome in {OutcomeFalse, OutcomeError})
       case AnyKind =>
         && (forall k :: 0 <= k < called - 1 ==> children[k] == OutcomeFalse)
         && (if outcome == OutcomeFalse then
               called == |children| && (called > 0 ==> children[called - 1] == OutcomeFalse)
             else
               called > 0 && children[called - 1] == outcome && outcome in {OutcomeTrue, OutcomeError})
       case NotKind =>
         && called == 1
         && (match children[0]
             case OutcomeTrue => outcome == OutcomeFalse
             case OutcomeFalse => outcome == OutcomeTrue
             case OutcomeError => outcome == OutcomeError
             case OutcomeNotEvaluated => false)
       case LeafKind => false
  }

  // ----- the recorder

  datatype Node = Node(
    kind: Kind, index: int, outcome: ConditionOutcome, error: Option<Error>, reason: Reason,
    started: bool, finished: bool, operator: bool, opaqueNode: bool, children: seq<nat>)

  function ChildNode(index: int): Node {
    Node(LeafKind, index, OutcomeNotEvaluated, None, ShortCircuit, false, false, false, false, [])
  }

  const ROOT := Node(LeafKind, -1, OutcomeNotEvaluated, None, NoReason, true, false, false, false, [])

  /** Children are allocated after their parent. */
  ghost predicate Forest(nodes: seq<Node>) {
    forall x, k :: 0 <= x < |nodes| && 0 <= k < |nodes[x].children| ==> x < nodes[x].children[k] < |nodes|
  }

  /** Copy a recording into an immutable tree; a started node that never finished failed with the panic. */
  function Freeze(nodes: seq<Node>, x: nat, panic: Option<ErrorId>): Tree
    requires Forest(nodes) && x < |nodes|
    decreases |nodes| - x
  {
    var n := nodes[x];
    var unwound := n.started && !n.finished && panic.Some?;
    var children := if n.opaqueNode then [] else n.children;
    Tree(if n.opaqueNode then LeafKind else n.kind, n.index,
         if unwound then OutcomeError else n.outcome,
         if unwound then Some(PanicError(panic.value)) else n.error,
         n.reason,
         seq(|children|, k requires 0 <= k < |children| => Freeze(nodes, children[k], panic)))
  }

  /** The descendants of `x` lie in `lo..hi`. */
  ghost predicate Within(nodes: seq<Node>, x: nat, lo: nat, hi: nat) {
    && x < |nodes| && lo <= hi <= |nodes|
    && forall y, k :: (y == x || lo <= y < hi) && 0 <= k < |nodes[y].children| ==> lo <= nodes[y].children[k] < hi
  }

  /** Freezing reads only the node and its descendants. */
  lemma {:induction false} FreezeFrame(
    before: seq<Node>, after: seq<Node>, x: nat, y: nat, lo: nat, hi: nat, panic: Option<ErrorId>)
    requires Forest(before) && Forest(after) && |before| <= |after|
    requires Within(before, x, lo, hi) && (y == x || lo <= y < hi)
    requires before[x] == after[x] && forall z :: lo <= z < hi ==> before[z] == after[z]
    ensures Freeze(before, y, panic) == Freeze(after, y, panic)
    decreases |before| - y
  {
    var n := before[y];
    assert n == after[y];
    forall k | 0 <= k < |n.children|
      ensures Freeze(before, n.children[k], panic) == Freeze(after, n.children[k], panic)
    {
      FreezeFrame(before, after, x, n.children[k], lo, hi, panic);
    }
  }

  // ----- tracing is the same evaluation

  /** The combinator's own answer, from child `i` on, as the traced loop computes it. */
  function Combine(c: Condition, i: nat, leaves: Leaves, calls: seq<nat>): Evaluation
    requires i <= |Children(c)|
    decreases |Children(c)| - i
  {
    if i == |Children(c)| then Evaluation(Return(KindOf(c) == AllKind, None), calls)
    else
      var e := EvalChild(Children(c)[i], leaves, calls);
      match e.answer
      case Panic(_) => e
      case Return(matched, error) =>
        if error.Some? then e.(answer := Return(false, error))
        else
          match KindOf(c)
          case AllKind => if !matched then e.(answer := Return(false, None)) else Combine(c, i + 1, leaves, e.calls)
          case AnyKind => if matched then e.(answer := Return(true, None)) else Combine(c, i + 1, leaves, e.calls)
          case NotKind => e.(answer := Return(!matched, None))
          case LeafKind => Combine(c, i + 1, leaves, e.calls)
  }

  lemma {:induction false} CombineAll(c: Condition, i: nat, leaves: Leaves, calls: seq<nat>)
    requires c.All? && i <= |c.conditions|
    ensures Combine(c, i, leaves, calls) == EvalAll(c, i, leaves, calls)
    decreases |c.conditions| - i
  {
    if i < |c.conditions| {
      CombineAll(c, i + 1, leaves, EvalChild(c.conditions[i], leaves, calls).calls);
    }
  }

  lemma {:induction false} CombineAny(c: Condition, i: nat, leaves: Leaves, calls: seq<nat>)
    requires c.Any? && i <= |c.conditions|
    ensures Combine(c, i, leaves, calls) == EvalAny(c, i, leaves, calls)
    decreases |c.conditions| - i
  {
    if i < |c.conditions| {
      CombineAny(c, i + 1, leaves, EvalChild(c.conditions[i], leaves, calls).calls);
    }
  }

  /** The one traced loop means what the three untraced combinators mean. */
  lemma {:induction false} CombineIsEval(c: Condition, leaves: Leaves, calls: seq<nat>)
    requires KindOf(c) != LeafKind
    ensures Combine(c, 0, leaves, calls) == Eval(c, leaves, calls)
  {
    match c
    case All(_) => CombineAll(c, 0, leaves, calls);
    case Any(_) => CombineAny(c, 0, leaves, calls);
    case Not(child) => assert Children(c)[0] == child;
  }

  // ----- the traced evaluation, step by step

  /** A panic answer is what freezing will be told; after a returned answer, whatever freezing is told does not
      matter. */
  ghost predicate Tells(a: Answer, panic: Option<ErrorId>) {
    a.Panic? ==> panic == Some(a.payload)
  }

  /** Once the call answered `a`, the recording `x` freezes to `tree`. */
  ghost predicate FreezesTo(nodes: seq<Node>, x: nat, a: Answer, tree: Tree)
    requires Forest(nodes) && x < |nodes|
  {
    forall panic :: Tells(a, panic) ==> Freeze(nodes, x, panic) == tree
  }

  /** A call that returned tells freezing nothing. */
  const RETURNED := Return(false, None)

  /** A started recording no combinator has used yet. */
  ghost predicate Unused(n: Node) {
    n == Node(LeafKind, n.index, OutcomeNotEvaluated, None, NoReason, true, false, false, false, [])
  }

  /** What a call leaves in its recording, before the caller finishes it. */
  ghost predicate Recorded(
    nodes: seq<Node>, x: nat, index: int, c: Condition, leaves: Leaves, calls: seq<nat>, a: Answer)
    requires Forest(nodes) && x < |nodes|
  {
    var n := nodes[x];
    && n.kind == KindOf(c) && n.index == index && n.error == None && n.reason == NoReason
    && n.started && !n.finished && !n.opaqueNode && (n.operator <==> KindOf(c) != LeafKind)
    && (n.operator && a.Return? ==> n.outcome == OutcomeOf(a.matched, a.error))
    && |n.children| == (if n.operator then |Children(c)| else 0)
    && (n.operator ==> forall k :: 0 <= k < |n.children| ==>
        FreezesTo(nodes, n.children[k], a, Trees(c, 0, leaves, calls)[k]))
  }

  /** Only the recording `x` changed, and everything new lies below it. */
  ghost predicate Grows(before: seq<Node>, after: seq<Node>, x: nat) {
    && Forest(after) && x < |before| <= |after|
    && (forall y :: 0 <= y < |before| && y != x ==> after[y] == before[y])
    && Within(after, x, |before|, |after|)
  }

  /** A finished recording freezes to the tree of its condition, whatever panic is told. */
  lemma {:induction false} FinishedTree(
    before: seq<Node>, after: seq<Node>, x: nat, index: int, c: Condition, leaves: Leaves, calls: seq<nat>, a: Answer,
    lo: nat)
    requires Forest(before) && x < |before| && Recorded(before, x, index, c, leaves, calls, a)
    requires EvalChild(c, leaves, calls).answer == a && Within(before, x, lo, |before|) && x < lo
    requires after == (match a
                       case Return(matched, error) =>
                         before[x := before[x].(finished := true, error := error, outcome := OutcomeOf(matched, error))]
                       case Panic(_) => before)
    ensures Forest(after) && Within(after, x, lo, |after|)
    ensures FreezesTo(after, x, a, TreeOf(c, index, leaves, calls))
  {
    assert forall y :: 0 <= y < |after| ==> after[y].children == before[y].children;
    forall panic | Tells(a, panic)
      ensures Freeze(after, x, panic) == TreeOf(c, index, leaves, calls)
    {
      var n := after[x];
      forall k | 0 <= k < |n.children|
        ensures Freeze(after, n.children[k], panic) == Freeze(before, n.children[k], panic)
      {
        BelowFrame(before, after, x, n.children[k], lo, panic);
      }
      assert n.children == before[x].children;
      var trees := if KindOf(c) == LeafKind then [] else Trees(c, 0, leaves, calls);
      assert Freeze(after, x, panic).children == trees;
    }
  }

  lemma {:induction false} BelowFrame(
    before: seq<Node>, after: seq<Node>, x: nat, y: nat, lo: nat, panic: Option<ErrorId>)
    requires Forest(before) && Forest(after) && |before| == |after|
    requires Within(before, x, lo, |before|) && lo <= y < |before|
    requires forall z :: lo <= z < |before| ==> before[z] == after[z]
    ensures Freeze(before, y, panic) == Freeze(after, y, panic)
    decreases |before| - y
  {
    forall k | 0 <= k < |before[y].children|
      ensures Freeze(before, before[y].children[k], panic) == Freeze(after, before[y].children[k], panic)
    {
      BelowFrame(before, after, x, before[y].children[k], lo, panic);
    }
  }

  /** From `base` on, recordings have children only from `lo` on. */
  ghost predicate ChildrenAbove(nodes: seq<Node>, base: nat, lo: nat) {
    forall y, k :: base <= y < |nodes| && 0 <= k < |nodes[y].children| ==> lo <= nodes[y].children[k] < |nodes|
  }

  /** The trees from child `i` on: its own, then either untouched ones or those of the remaining children. */
  lemma {:induction false} StepTrees(c: Condition, i: nat, leaves: Leaves, calls: seq<nat>, whole: seq<Tree>)
    requires i < |Children(c)| == |whole| && Trees(c, i, leaves, calls) == whole[i..]
    ensures var e := EvalChild(Children(c)[i], leaves, calls);
            && whole[i] == TreeOf(Children(c)[i], i, leaves, calls)
            && (if Ends(KindOf(c), e.answer) then forall k :: i < k < |whole| ==> whole[k] == Untouched(k)
                else Trees(c, i + 1, leaves, e.calls) == whole[i + 1..])
  {
    var e := EvalChild(Children(c)[i], leaves, calls);
    var tail := if Ends(KindOf(c), e.answer) then UntouchedFrom(i + 1, |whole|) else Trees(c, i + 1, leaves, e.calls);
    assert whole[i..] == [TreeOf(Children(c)[i], i, leaves, calls)] + tail;
    assert whole[i + 1..] == whole[i..][1..] == tail;
    forall k | i < k < |whole| ensures whole[k] == tail[k - i - 1] {
      assert whole[k] == whole[i..][k - i];
    }
  }

  /** Tracing child `i` keeps the frozen trees of the children before it, and leaves those behind it untouched. */
  lemma {:induction false} StepKeeps(before: seq<Node>, after: seq<Node>, base: nat, n: nat, i: nat, whole: seq<Tree>)
    requires i < n && base + n <= |before| && n == |whole| && Forest(before) && Grows(before, after, base + i)
    requires ChildrenAbove(before, base, base + n)
    requires forall j :: i <= j < n ==> before[base + j] == ChildNode(j)
    requires forall k :: 0 <= k < i ==> FreezesTo(before, base + k, RETURNED, whole[k])
    ensures after[..base] == before[..base] && ChildrenAbove(after, base, base + n)
    ensures forall j :: i < j < n ==> after[base + j] == ChildNode(j)
    ensures forall k :: 0 <= k < n && k != i ==>
            FreezesTo(after, base + k, RETURNED, if k < i then whole[k] else Untouched(k))
  {
    forall k | 0 <= k < n && k != i
      ensures FreezesTo(after, base + k, RETURNED, if k < i then whole[k] else Untouched(k))
    {
      if k < i {
        KeptTree(before, after, base + k, base + n, whole[k]);
      } else {
        assert after[base + k] == ChildNode(k);
        UntouchedTree(after, base + k, k);
      }
    }
  }

  lemma {:induction false} KeptTree(before: seq<Node>, after: seq<Node>, x: nat, lo: nat, tree: Tree)
    requires Forest(before) && Forest(after) && |before| <= |after| && Within(before, x, lo, |before|)
    requires before[x] == after[x] && forall z :: lo <= z < |before| ==> before[z] == after[z]
    requires FreezesTo(before, x, RETURNED, tree)
    ensures FreezesTo(after, x, RETURNED, tree)
  {
    forall panic ensures Freeze(after, x, panic) == tree {
      FreezeFrame(before, after, x, x, lo, |before|, panic);
      assert Tells(RETURNED, panic);
    }
  }

  lemma {:induction false} UntouchedTree(nodes: seq<Node>, x: nat, k: int)
    requires Forest(nodes) && x < |nodes| && nodes[x] == ChildNode(k)
    ensures FreezesTo(nodes, x, RETURNED, Untouched(k))
  {
    forall panic ensures Freeze(nodes, x, panic) == Untouched(k) {
      assert Freeze(nodes, x, panic).children == [];
    }
  }

  /** After a returned answer every recording freezes alike. */
  lemma {:induction false} ReturnedTells(nodes: seq<Node>, x: nat, a: Answer, b: Answer, tree: Tree)
    requires Forest(nodes) && x < |nodes| && FreezesTo(nodes, x, a, tree) && a.Return?
    ensures FreezesTo(nodes, x, b, tree)
  {
    forall panic | Tells(b, panic) ensures Freeze(nodes, x, panic) == tree {
      assert Tells(a, panic);
    }
  }

  /** A combinator's recording: its kind and children over the finished loop, and its own outcome unless it unwound. */
  lemma {:induction false} CombinedRecorded(
    mid: seq<Node>, after: seq<Node>, x: nat, base: nat, index: int, c: Condition,
    leaves: Leaves, calls: seq<nat>, a: Answer)
    requires Forest(mid) && x < base && base + |Children(c)| <= |mid| && KindOf(c) != LeafKind
    requires ChildrenAbove(mid, base, base)
    requires mid[x] == Node(KindOf(c), index, OutcomeNotEvaluated, None, NoReason, true, false, true, false,
                            mid[x].children)
    requires mid[x].children == seq(|Children(c)|, i requires 0 <= i < |Children(c)| => base + i)
    requires after == if a.Return? then mid[x := mid[x].(outcome := OutcomeOf(a.matched, a.error))] else mid
    requires forall k :: 0 <= k < |Children(c)| ==> FreezesTo(mid, base + k, a, Trees(c, 0, leaves, calls)[k])
    ensures Forest(after) && Within(after, x, base, |after|) && Recorded(after, x, index, c, leaves, calls, a)
  {
    hide Freeze, FreezesTo, TreeOf, Trees;
    assert forall y :: 0 <= y < |after| ==> after[y].children == mid[y].children;
    forall k | 0 <= k < |Children(c)|
      ensures FreezesTo(after, after[x].children[k], a, Trees(c, 0, leaves, calls)[k])
    {
      assert after[x].children[k] == base + k;
      BelowTree(mid, after, x, base + k, base, a, Trees(c, 0, leaves, calls)[k]);
    }
  }

  lemma {:induction false} BelowTree(
    before: seq<Node>, after: seq<Node>, x: nat, y: nat, lo: nat, a: Answer, tree: Tree)
    requires Forest(before) && Forest(after) && |before| == |after|
    requires Within(before, x, lo, |before|) && lo <= y < |before| && FreezesTo(before, y, a, tree)
    requires forall z :: lo <= z < |before| ==> before[z] == after[z]
    ensures FreezesTo(after, y, a, tree)
  {
    forall panic | Tells(a, panic) ensures Freeze(after, y, panic) == tree {
      BelowFrame(before, after, x, y, lo, panic);
    }
  }

  /** The recordings of the children, once child `i` answered `answer` and its combinator `a`. */
  lemma {:induction false} AllFreeze(
    nodes: seq<Node>, base: nat, n: nat, i: nat, answer: Answer, a: Answer, whole: seq<Tree>, ended: bool)
    requires Forest(nodes) && i < n == |whole| && base + n <= |nodes|
    requires forall k :: 0 <= k < n && k != i ==>
             FreezesTo(nodes, base + k, RETURNED, if k < i then whole[k] else Untouched(k))
    requires FreezesTo(nodes, base + i, answer, whole[i]) && (answer.Panic? ==> a == answer)
    requires ended ==> forall k :: i < k < n ==> whole[k] == Untouched(k)
    ensures answer.Return? ==> forall k :: 0 <= k <= i ==> FreezesTo(nodes, base + k, RETURNED, whole[k])
    ensures ended ==> forall k :: 0 <= k < n ==> FreezesTo(nodes, base + k, a, whole[k])
  {
    forall k | 0 <= k < n && (k <= i || ended)
      ensures FreezesTo(nodes, base + k, a, whole[k])
      ensures answer.Return? ==> FreezesTo(nodes, base + k, RETURNED, whole[k])
    {
      if k != i {
        ReturnedTells(nodes, base + k, RETURNED, a, whole[k]);
      } else if answer.Return? {
        ReturnedTells(nodes, base + i, answer, a, whole[i]);
        ReturnedTells(nodes, base + i, answer, RETURNED, whole[i]);
      }
    }
  }

  class Tracer {
    const leaves: Leaves
    var nodes: seq<Node>
    var calls: seq<nat>

    constructor (leaves: Leaves)
      ensures this.leaves == leaves && nodes == [ROOT] && calls == []
    {
      this.leaves := leaves;
      nodes := [ROOT];
      calls := [];
    }

    /** The locked end of a recording: a combinator whose outcome was replaced has no observable topology. */
    method Finish(x: nat, matched: bool, error: Option<Error>)
      requires x < |nodes|
      modifies `nodes
      ensures nodes == old(nodes)[x := old(nodes[x]).(
                         finished := true, error := error, outcome := OutcomeOf(matched, error),
                         opaqueNode := old(nodes[x].opaqueNode)
                                       || (old(nodes[x].operator)
                                           && old(nodes[x].outcome) != OutcomeOf(matched, error)))]
    {
      var n := nodes[x].(finished := true);
      var outcome := OutcomeOf(matched, error);
      if n.operator && n.outcome != outcome {
        n := n.(opaqueNode := true);
      }
      nodes := nodes[x := n.(error := error, outcome := outcome)];
    }

    /** Call a condition with a context that carries the recording `x`. */
    method Call(c: Condition, x: nat) returns (a: Answer)
      requires Forest(nodes) && x < |nodes| && Unused(nodes[x])
      modifies this
      ensures Evaluation(a, calls) == Eval(c, leaves, old(calls))
      ensures Grows(old(nodes), nodes, x)
      ensures c.Nil? || Recorded(nodes, x, old(nodes[x].index), c, leaves, old(calls), a)
      decreases c, 3
    {
      match c
      case Leaf(id) =>
        a := leaves(id, calls);
        calls := calls + [id];
      case Nil =>
        a := Panic(NIL_CALL);
      case _ =>
        a := TraceCombined(c, x);
    }

    /** Claim the recording for a combinator, run its children, then publish the combinator's own outcome. */
    method TraceCombined(c: Condition, x: nat) returns (a: Answer)
      requires Forest(nodes) && x < |nodes| && Unused(nodes[x]) && KindOf(c) != LeafKind
      modifies this
      ensures Evaluation(a, calls) == Eval(c, leaves, old(calls))
      ensures Grows(old(nodes), nodes, x)
      ensures Recorded(nodes, x, old(nodes[x].index), c, leaves, old(calls), a)
      decreases c, 2
    {
      var base, n := |nodes|, |Children(c)|;
      var ids := seq(n, i requires 0 <= i < n => base + i);
      nodes := nodes + seq(n, i => ChildNode(i));
      var r := nodes[x];
      if r.operator || r.finished {
        r := r.(opaqueNode := true);
      }
      nodes := nodes[x := r.(operator := true, kind := KindOf(c), children := ids)];
      ghost var claimed := nodes;
      a := TraceChildren(c, base);
      CombineIsEval(c, leaves, old(calls));
      assert nodes[x] == nodes[..base][x] == claimed[..base][x] == claimed[x];
      ghost var mid := nodes;
      if a.Return? && !nodes[x].finished {
        nodes := nodes[x := nodes[x].(outcome := OutcomeOf(a.matched, a.error))];
      }
      CombinedRecorded(mid, nodes, x, base, old(nodes[x].index), c, leaves, old(calls), a);
      forall y | 0 <= y < base && y != x ensures nodes[y] == old(nodes)[y] {
        assert mid[y] == mid[..base][y] == claimed[..base][y];
      }
    }

    /** Start, call and finish one child on its own recording. */
    method TraceChild(parent: Condition, i: nat, y: nat) returns (a: Answer)
      requires i < |Children(parent)| && Forest(nodes) && y < |nodes| && nodes[y] == ChildNode(i)
      modifies this
      ensures Evaluation(a, calls) == EvalChild(Children(parent)[i], leaves, old(calls))
      ensures Grows(old(nodes), nodes, y)
      ensures FreezesTo(nodes, y, a, TreeOf(Children(parent)[i], i, leaves, old(calls)))
      decreases parent, 0
    {
      var child := Children(parent)[i];
      nodes := nodes[y := nodes[y].(started := true, reason := NoReason)];
      ghost var lo := |nodes|;
      if child.Nil? {
        a := Return(false, Some(InvalidCondition));
      } else {
        a := Call(child, y);
      }
      ghost var before := nodes;
      if a.Return? {
        Finish(y, a.matched, a.error);
      }
      FinishedTree(before, nodes, y, i, child, leaves, old(calls), a, lo);
    }

    /** The loop over the children, whose recordings are the nodes `base..`. */
    method TraceChildren(c: Condition, base: nat) returns (a: Answer)
      requires KindOf(c) != LeafKind && Forest(nodes) && base + |Children(c)| == |nodes|
      requires forall i :: 0 <= i < |Children(c)| ==> nodes[base + i] == ChildNode(i)
      modifies this
      ensures Evaluation(a, calls) == Combine(c, 0, leaves, old(calls))
      ensures Forest(nodes) && |old(nodes)| <= |nodes| && nodes[..base] == old(nodes[..base])
      ensures ChildrenAbove(nodes, base, base)
      ensures forall k :: 0 <= k < |Children(c)| ==> FreezesTo(nodes, base + k, a, Trees(c, 0, leaves, old(calls))[k])
      decreases c, 1
    {
      hide Freeze, FreezesTo, Trees, TreeOf, Grows, Eval;
      var i, n := 0, |Children(c)|;
      ghost var whole := Trees(c, 0, leaves, calls);
      forall y | base <= y < |nodes| ensures nodes[y].children == [] {
        assert nodes[base + (y - base)] == ChildNode(y - base);
      }
      while i < n
        invariant i <= n && base + n <= |nodes| && Forest(nodes) && nodes[..base] == old(nodes[..base])
        invariant forall j :: i <= j < n ==> nodes[base + j] == ChildNode(j)
        invariant ChildrenAbove(nodes, base, base + n)
        invariant Combine(c, 0, leaves, old(calls)) == Combine(c, i, leaves, calls)
        invariant Trees(c, i, leaves, calls) == whole[i..]
        invariant forall k :: 0 <= k < i ==> FreezesTo(nodes, base + k, RETURNED, whole[k])
      {
        ghost var before, was := nodes, calls;
        a := TraceChild(c, i, base + i);
        StepTrees(c, i, leaves, was, whole);
        StepKeeps(before, nodes, base, n, i, whole);
        ghost var answer := a;
        var ended := true;
        match a {
          case Panic(_) =>
          case Return(matched, error) =>
            if error.Some? {
              a := Return(false, error);
            } else {
              match KindOf(c) {
                case AllKind => ended := !matched;
                case AnyKind => ended := matched;
                case NotKind => a := Return(!matched, None);
                case LeafKind => ended := false;
              }
            }
        }
        AllFreeze(nodes, base, n, i, answer, a, whole, ended);
        if ended {
          return;
        }
        i := i + 1;
      }
      a := Return(KindOf(c) == AllKind, None);
      forall k | 0 <= k < n ensures FreezesTo(nodes, base + k, a, whole[k]) {
        ReturnedTells(nodes, base + k, RETURNED, a, whole[k]);
      }
    }
  }

  /** Evaluate a rule's condition under a fresh recorder and freeze the recording. The answer and the leaf calls are
      those of the untraced evaluation, and the frozen tree is the evaluation tree, also when a leaf panics. */
  method Trace(c: Condition, leaves: Leaves) returns (answer: Answer, calls: seq<nat>, tree: Tree)
    requires !c.Nil?
    ensures Evaluation(answer, calls) == Eval(c, leaves, [])
    ensures tree == TreeOf(c, -1, leaves, [])
  {
    var t := new Tracer(leaves);
    assert ROOT == Node(LeafKind, -1, OutcomeNotEvaluated, None, NoReason, true, false, false, false, []);
    answer := t.Call(c, 0);
    ghost var before := t.nodes;
    if answer.Return? {
      t.Finish(0, answer.matched, answer.error);
    }
    FinishedTree(before, t.nodes, 0, -1, c, leaves, [], answer, 1);
    calls := t.calls;
    var panic := if answer.Panic? then Some(answer.payload) else None;
    assert Tells(answer, panic);
    tree := Freeze(t.nodes, 0, panic);
  }

  // ----- what each constructor means

  /** The leaf calls made before child `i`, when all children before it are called in order. */
  function CallsBefore(cs: seq<Condition>, i: nat, leaves: Leaves, calls: seq<nat>): seq<nat>
    requires i <= |cs|
  {
    if i == 0 then calls
    else EvalChild(cs[i - 1], leaves, CallsBefore(cs, i - 1, leaves, calls)).calls
  }

  /** What child `i` answers, when all children before it are called. */
  function Said(cs: seq<Condition>, i: nat, leaves: Leaves, calls: seq<nat>): Answer
    requires i < |cs|
  {
    EvalChild(cs[i], leaves, CallsBefore(cs, i, leaves, calls)).answer
  }

  /** A leaf answers what user code answers, in one call. A nil condition panics when it is called, and as a child is an
      error instead. */
  lemma {:induction false} LeavesMean(id: nat, leaves: Leaves, calls: seq<nat>)
    ensures Eval(Leaf(id), leaves, calls) == Evaluation(leaves(id, calls), calls + [id])
    ensures EvalChild(Leaf(id), leaves, calls) == Evaluation(leaves(id, calls), calls + [id])
    ensures Eval(Nil, leaves, calls).answer.Panic? && Eval(Nil, leaves, calls).calls == calls
    ensures EvalChild(Nil, leaves, calls) == Evaluation(Return(false, Some(InvalidCondition)), calls)
  {}

  /** Called as a child or not, any other condition answers the same. */
  lemma {:induction false} ChildMeans(c: Condition, leaves: Leaves, calls: seq<nat>)
    requires c != Nil
    ensures EvalChild(c, leaves, calls) == Eval(c, leaves, calls)
  {}

  /** An answer that a combinator passes on: an error, whatever the boolean with it, or a panic. */
  function PassedOn(a: Answer): Answer {
    match a
    case Return(_, Some(e)) => Return(false, Some(e))
    case _ => a
  }

  /** `All` calls its children in order as long as they answer true. It is true if all of them are; otherwise it answers
      as the first that is not, and calls no other. */
  lemma {:induction false} AllMeans(cs: seq<Condition>, leaves: Leaves, calls: seq<nat>) returns (n: nat)
    ensures n <= |cs| && forall i :: 0 <= i < n ==> Said(cs, i, leaves, calls) == Return(true, None)
    ensures var e := Eval(All(cs), leaves, calls);
            if n == |cs| then e == Evaluation(Return(true, None), CallsBefore(cs, n, leaves, calls))
            else
              && Said(cs, n, leaves, calls) != Return(true, None)
              && e == Evaluation(PassedOn(Said(cs, n, leaves, calls)), CallsBefore(cs, n + 1, leaves, calls))
  {
    n := AllFrom(cs, 0, leaves, calls);
  }

  lemma {:induction false} AllFrom(cs: seq<Condition>, i: nat, leaves: Leaves, calls: seq<nat>) returns (n: nat)
    requires i <= |cs|
    ensures i <= n <= |cs| && forall k :: i <= k < n ==> Said(cs, k, leaves, calls) == Return(true, None)
    ensures var e := EvalAll(All(cs), i, leaves, CallsBefore(cs, i, leaves, calls));
            if n == |cs| then e == Evaluation(Return(true, None), CallsBefore(cs, n, leaves, calls))
            else
              && Said(cs, n, leaves, calls) != Return(true, None)
              && e == Evaluation(PassedOn(Said(cs, n, leaves, calls)), CallsBefore(cs, n + 1, leaves, calls))
    decreases |cs| - i
  {
    hide Eval;
    n := i;
    if i < |cs| && Said(cs, i, leaves, calls) == Return(true, None) {
      n := AllFrom(cs, i + 1, leaves, calls);
    }
  }

  /** `Any` calls its children in order as long as they answer false. It is false if all of them are; otherwise it
      answers as the first that is not, and calls no other. */
  lemma {:induction false} AnyMeans(cs: seq<Condition>, leaves: Leaves, calls: seq<nat>) returns (n: nat)
    ensures n <= |cs| && forall i :: 0 <= i < n ==> Said(cs, i, leaves, calls) == Return(false, None)
    ensures var e := Eval(Any(cs), leaves, calls);
            if n == |cs| then e == Evaluation(Return(false, None), CallsBefore(cs, n, leaves, calls))
            else
              && Said(cs, n, leaves, calls) != Return(false, None)
              && e == Evaluation(PassedOn(Said(cs, n, leaves, calls)), CallsBefore(cs, n + 1, leaves, calls))
  {
    n := AnyFrom(cs, 0, leaves, calls);
  }

  lemma {:induction false} AnyFrom(cs: seq<Condition>, i: nat, leaves: Leaves, calls: seq<nat>) returns (n: nat)
    requires i <= |cs|
    ensures i <= n <= |cs| && forall k :: i <= k < n ==> Said(cs, k, leaves, calls) == Return(false, None)
    ensures var e := EvalAny(Any(cs), i, leaves, CallsBefore(cs, i, leaves, calls));
            if n == |cs| then e == Evaluation(Return(false, None), CallsBefore(cs, n, leaves, calls))
            else
              && Said(cs, n, leaves, calls) != Return(false, None)
              && e == Evaluation(PassedOn(Said(cs, n, leaves, calls)), CallsBefore(cs, n + 1, leaves, calls))
    decreases |cs| - i
  {
    hide Eval;
    n := i;
    if i < |cs| && Said(cs, i, leaves, calls) == Return(false, None) {
      n := AnyFrom(cs, i + 1, leaves, calls);
    }
  }

  /** `Not` turns a boolean answer of its child around and passes any other on. */
  lemma {:induction false} NotMeans(c: Condition, leaves: Leaves, calls: seq<nat>)
    ensures var child := EvalChild(c, leaves, calls);
            var e := Eval(Not(c), leaves, calls);
            && e.calls == child.calls
            && e.answer == (match child.answer
                            case Return(true, None) => Return(false, None)
                            case Return(false, None) => Return(true, None)
                            case _ => PassedOn(child.answer))
  {}

  // ----- what the recorded tree says

  /** The outcome and error that an answer is recorded with. */
  ghost predicate Records(t: Tree, a: Answer) {
    match a
    case Return(matched, error) =>
      && t.error == error
      && t.outcome == (if error.Some? then OutcomeError else if matched then OutcomeTrue else OutcomeFalse)
    case Panic(v) => t.outcome == OutcomeError && t.error == Some(PanicError(v))
  }

  /** The children that were called have their own trees, in order and each after the calls before it; the others are
      recorded as short-circuited. */
  ghost predicate ChildTrees(trees: seq<Tree>, cs: seq<Condition>, n: nat, leaves: Leaves, calls: seq<nat>) {
    && |trees| == |cs|
    && forall i :: 0 <= i < |cs| ==>
         trees[i] == if i <= n then TreeOf(cs[i], i, leaves, CallsBefore(cs, i, leaves, calls))
                     else Tree(LeafKind, i, OutcomeNotEvaluated, None, ShortCircuit, [])
  }

  lemma {:induction false} TreesStep(c: Condition, i: nat, leaves: Leaves, calls: seq<nat>)
    requires i < |Children(c)|
    ensures var cs := Children(c);
            Trees(c, i, leaves, CallsBefore(cs, i, leaves, calls))
            == [TreeOf(cs[i], i, leaves, CallsBefore(cs, i, leaves, calls))]
               + (if Ends(KindOf(c), Said(cs, i, leaves, calls)) then UntouchedFrom(i + 1, |cs|)
                  else Trees(c, i + 1, leaves, CallsBefore(cs, i + 1, leaves, calls)))
  {
    hide TreeOf, Ends, EvalChild, Children, KindOf;
  }

  /** Tree `k` of the children from `i` on, when child `n` is the last that is called. */
  lemma {:induction false} TreeAt(c: Condition, i: nat, n: nat, k: nat, leaves: Leaves, calls: seq<nat>)
    requires i <= n <= |Children(c)| && i <= k < |Children(c)|
    requires forall j :: i <= j < n ==> !Ends(KindOf(c), Said(Children(c), j, leaves, calls))
    requires n < |Children(c)| ==> Ends(KindOf(c), Said(Children(c), n, leaves, calls))
    ensures var cs := Children(c);
            Trees(c, i, leaves, CallsBefore(cs, i, leaves, calls))[k - i]
            == if k <= n then TreeOf(cs[k], k, leaves, CallsBefore(cs, k, leaves, calls)) else Untouched(k)
    decreases |Children(c)| - i
  {
    hide TreeOf, Ends, EvalChild, Trees, Children, KindOf, CallsBefore, Said, Untouched;
    TreesStep(c, i, leaves, calls);
    if i < n && i < k {
      TreeAt(c, i + 1, n, k, leaves, calls);
    }
  }

  lemma {:induction false} TreesAre(c: Condition, n: nat, leaves: Leaves, calls: seq<nat>)
    requires n <= |Children(c)|
    requires forall j :: 0 <= j < n ==> !Ends(KindOf(c), Said(Children(c), j, leaves, calls))
    requires n < |Children(c)| ==> Ends(KindOf(c), Said(Children(c), n, leaves, calls))
    ensures ChildTrees(Trees(c, 0, leaves, calls), Children(c), n, leaves, calls)
  {
    hide TreeOf, Ends, EvalChild, Trees, Children, KindOf, Said;
    var cs := Children(c);
    assert CallsBefore(cs, 0, leaves, calls) == calls;
    hide CallsBefore;
    forall k | 0 <= k < |cs|
      ensures Trees(c, 0, leaves, calls)[k]
           == if k <= n then TreeOf(cs[k], k, leaves, CallsBefore(cs, k, leaves, calls)) else Untouched(k)
    {
      TreeAt(c, 0, n, k, leaves, calls);
    }
  }

  /** A combinator's tree is its own answer over its children's trees. */
  lemma {:induction false} TreeOver(c: Condition, index: int, leaves: Leaves, calls: seq<nat>)
    requires KindOf(c) != LeafKind
    ensures var t := TreeOf(c, index, leaves, calls);
            && t.kind == KindOf(c) && t.index == index && t.reason == NoReason
            && Records(t, Eval(c, leaves, calls).answer) && t.children == Trees(c, 0, leaves, calls)
  {
    hide Eval, Trees;
  }

  /** The tree of a leaf and of a nil child. */
  lemma {:induction false} LeafTreeMeans(c: Condition, index: int, leaves: Leaves, calls: seq<nat>)
    requires c.Leaf? || c.Nil?
    ensures var t := TreeOf(c, index, leaves, calls);
            && t.kind == LeafKind && t.index == index && t.reason == NoReason && t.children == []
            && Records(t, EvalChild(c, leaves, calls).answer)
  {}

  lemma {:induction false} AllTreeMeans(
    cs: seq<Condition>, index: int, leaves: Leaves, calls: seq<nat>) returns (n: nat)
    ensures n <= |cs| && forall i :: 0 <= i < n ==> Said(cs, i, leaves, calls) == Return(true, None)
    ensures n < |cs| ==> Said(cs, n, leaves, calls) != Return(true, None)
    ensures var t := TreeOf(All(cs), index, leaves, calls);
            && t.kind == AllKind && t.index == index && t.reason == NoReason
            && Records(t, Eval(All(cs), leaves, calls).answer) && ChildTrees(t.children, cs, n, leaves, calls)
  {
    hide Eval, TreeOf, Trees, Said, ChildTrees, Records, CallsBefore;
    n := AllMeans(cs, leaves, calls);
    TreeOver(All(cs), index, leaves, calls);
    TreesAre(All(cs), n, leaves, calls);
  }

  lemma {:induction false} AnyTreeMeans(
    cs: seq<Condition>, index: int, leaves: Leaves, calls: seq<nat>) returns (n: nat)
    ensures n <= |cs| && forall i :: 0 <= i < n ==> Said(cs, i, leaves, calls) == Return(false, None)
    ensures n < |cs| ==> Said(cs, n, leaves, calls) != Return(false, None)
    ensures var t := TreeOf(Any(cs), index, leaves, calls);
            && t.kind == AnyKind && t.index == index && t.reason == NoReason
            && Records(t, Eval(Any(cs), leaves, calls).answer) && ChildTrees(t.children, cs, n, leaves, calls)
  {
    hide Eval, TreeOf, Trees, Said, ChildTrees, Records, CallsBefore;
    n := AnyMeans(cs, leaves, calls);
    TreeOver(Any(cs), index, leaves, calls);
    TreesAre(Any(cs), n, leaves, calls);
  }

  lemma {:induction false} NotTreeMeans(c: Condition, index: int, leaves: Leaves, calls: seq<nat>)
    ensures var t := TreeOf(Not(c), index, leaves, calls);
            && t.kind == NotKind && t.index == index && t.reason == NoReason
            && Records(t, Eval(Not(c), leaves, calls).answer) && t.children == [TreeOf(c, 0, leaves, calls)]
  {
    hide Eval, TreeOf, Trees, Records;
    TreeOver(Not(c), index, leaves, calls);
    var cs := Children(Not(c));
    assert cs == [c] && CallsBefore(cs, 0, leaves, calls) == calls;
    TreesAre(Not(c), 0, leaves, calls);
  }

  // ----- every operator of an evaluation tree is explained by its children

  function Outcomes(trees: seq<Tree>): (outcomes: seq<ConditionOutcome>)
    ensures |outcomes| == |trees| && forall k :: 0 <= k < |trees| ==> outcomes[k] == trees[k].outcome
  {
    seq(|trees|, k requires 0 <= k < |trees| => trees[k].outcome)
  }

  lemma {:induction false} TreeRecords(c: Condition, index: int, leaves: Leaves, calls: seq<nat>)
    ensures Records(TreeOf(c, index, leaves, calls), EvalChild(c, leaves, calls).answer)
  {
    hide EvalChild, Trees;
  }

  /** What the trees of children record, when the first `n` of them answered `told`. */
  lemma {:induction false} OutcomesRecorded(
    trees: seq<Tree>, cs: seq<Condition>, n: nat, told: bool, leaves: Leaves, calls: seq<nat>)
    requires ChildTrees(trees, cs, n, leaves, calls) && n <= |cs|
    requires forall i :: 0 <= i < n ==> Said(cs, i, leaves, calls) == Return(told, None)
    ensures forall i :: 0 <= i < n ==> Outcomes(trees)[i] == (if told then OutcomeTrue else OutcomeFalse)
    ensures n < |cs| ==> Records(trees[n], Said(cs, n, leaves, calls))
    ensures forall i :: n < i < |cs| ==> Outcomes(trees)[i] == OutcomeNotEvaluated
  {
    hide TreeOf, EvalChild, CallsBefore;
    forall i | 0 <= i <= n && i < |cs| ensures Records(trees[i], Said(cs, i, leaves, calls)) {
      TreeRecords(cs[i], i, leaves, CallsBefore(cs, i, leaves, calls));
    }
  }

  /** A combinator that answered has the outcome that its children's outcomes give it: the called ones end it or are all
      of them, and the others were never called. */
  lemma {:induction false} TreeIsExplained(
    c: Condition, index: int, leaves: Leaves, calls: seq<nat>) returns (called: nat)
    requires KindOf(c) != LeafKind && Eval(c, leaves, calls).answer.Return?
    ensures var tree := TreeOf(c, index, leaves, calls);
            tree.kind == KindOf(c) && Explains(tree.kind, tree.outcome, Outcomes(tree.children), called)
  {
    hide Eval, EvalChild, TreeOf, Trees, Said, ChildTrees, CallsBefore;
    match c
    case All(cs) =>
      called := AllIsExplained(cs, index, leaves, calls);
    case Any(cs) =>
      called := AnyIsExplained(cs, index, leaves, calls);
    case Not(child) =>
      called := 1;
      NotMeans(child, leaves, calls);
      NotTreeMeans(child, index, leaves, calls);
      TreeRecords(child, 0, leaves, calls);
  }

  lemma {:induction false} AllIsExplained(
    cs: seq<Condition>, index: int, leaves: Leaves, calls: seq<nat>) returns (called: nat)
    requires Eval(All(cs), leaves, calls).answer.Return?
    ensures var tree := TreeOf(All(cs), index, leaves, calls);
            tree.kind == AllKind && Explains(AllKind, tree.outcome, Outcomes(tree.children), called)
  {
    hide Eval, EvalChild, TreeOf, Trees, Said, ChildTrees, CallsBefore;
    var n := AllTreeMeans(cs, index, leaves, calls);
    var m := AllMeans(cs, leaves, calls);
    assert n == m;
    OutcomesRecorded(TreeOf(All(cs), index, leaves, calls).children, cs, n, true, leaves, calls);
    ChildTreesLength(TreeOf(All(cs), index, leaves, calls).children, cs, n, leaves, calls);
    called := if n < |cs| then n + 1 else n;
  }

  lemma {:induction false} AnyIsExplained(
    cs: seq<Condition>, index: int, leaves: Leaves, calls: seq<nat>) returns (called: nat)
    requires Eval(Any(cs), leaves, calls).answer.Return?
    ensures var tree := TreeOf(Any(cs), index, leaves, calls);
            tree.kind == AnyKind && Explains(AnyKind, tree.outcome, Outcomes(tree.children), called)
  {
    hide Eval, EvalChild, TreeOf, Trees, Said, ChildTrees, CallsBefore;
    var n := AnyTreeMeans(cs, index, leaves, calls);
    var m := AnyMeans(cs, leaves, calls);
    assert n == m;
    OutcomesRecorded(TreeOf(Any(cs), index, leaves, calls).children, cs, n, false, leaves, calls);
    ChildTreesLength(TreeOf(Any(cs), index, leaves, calls).children, cs, n, leaves, calls);
    called := if n < |cs| then n + 1 else n;
  }

  lemma {:induction false} ChildTreesLength(
    trees: seq<Tree>, cs: seq<Condition>, n: nat, leaves: Leaves, calls: seq<nat>)
    requires ChildTrees(trees, cs, n, leaves, calls)
    ensures |trees| == |cs|
  {}
}
