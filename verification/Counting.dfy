/** What the counters mean: each is the number of rules whose view has the property it is named for, and the
    counters partition the rules. */
module Counting {
  import opened Facts
  import opened DenseInterpreter

  /** The orders whose view satisfies `holds`. */
  function Where(views: seq<RuleView>, holds: RuleView -> bool): set<nat> {
    set o: nat | o < |views| && holds(views[o])
  }

  lemma {:induction false} WhereSnoc(views: seq<RuleView>, v: RuleView, holds: RuleView -> bool)
    ensures |Where(views + [v], holds)| == |Where(views, holds)| + One(holds(v))
  {
    var all := views + [v];
    if holds(v) {
      assert Where(all, holds) == Where(views, holds) + {|views|};
    } else {
      assert Where(all, holds) == Where(views, holds);
    }
  }

  /** The partition laws of the result's counters. */
  lemma {:induction false} Conservation(views: seq<RuleView>)
    ensures var c := Tally(views);
            && c.total == |views|
            && c.total == c.evaluated + c.notEvaluated
            && c.evaluated == c.unmatched + c.fired + c.skipped + c.conditionFailed + c.actionFailed
            && c.matched == c.fired + c.skipped + c.actionFailed
            && c.failed == c.conditionFailed + c.actionFailed
            && c.panicRecovered <= c.failed
  {
    if views != [] {
      var last := views[|views| - 1];
      Conservation(views[..|views| - 1]);
      if last.Failed? {
        assert last.failure.phase.ConditionPhase? || last.failure.phase.ActionPhase?;
      }
    }
  }

  const IS_EVALUATED := (v: RuleView) => v.Evaluated()
  const IS_MATCHED := (v: RuleView) => v.Matched()
  const IS_UNMATCHED := (v: RuleView) => v.Unmatched?
  const IS_FIRED := (v: RuleView) => v.Fired?
  const IS_SKIPPED := (v: RuleView) => v.Skipped?
  const IS_FAILED := (v: RuleView) => v.Failed?
  const IS_CONDITION_FAILED := (v: RuleView) => v.Failed? && v.failure.phase == ConditionPhase
  const IS_ACTION_FAILED := (v: RuleView) => v.Failed? && v.failure.phase == ActionPhase
  const IS_RECOVERED := (v: RuleView) => v.Failed? && v.failure.cause.RecoveredPanic?

  /** Each counter is a cardinality over the rule views. */
  lemma {:induction false} CountersCountViews(views: seq<RuleView>)
    ensures var c := Tally(views);
            && c.evaluated == |Where(views, IS_EVALUATED)|
            && c.matched == |Where(views, IS_MATCHED)|
            && c.unmatched == |Where(views, IS_UNMATCHED)|
            && c.fired == |Where(views, IS_FIRED)|
            && c.skipped == |Where(views, IS_SKIPPED)|
            && c.failed == |Where(views, IS_FAILED)|
            && c.conditionFailed == |Where(views, IS_CONDITION_FAILED)|
            && c.actionFailed == |Where(views, IS_ACTION_FAILED)|
            && c.panicRecovered == |Where(views, IS_RECOVERED)|
  {
    if views == [] {
      assert forall holds: RuleView -> bool :: Where(views, holds) == {};
    } else {
      var before, last := views[..|views| - 1], views[|views| - 1];
      assert views == before + [last];
      CountersCountViews(before);
      forall holds: RuleView -> bool
        ensures |Where(views, holds)| == |Where(before, holds)| + One(holds(last))
      {
        WhereSnoc(before, last, holds);
      }
    }
  }
}
