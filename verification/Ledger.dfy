/** The result of an execution as the engine stores it: records of the non-default outcomes only, a frontier,
    and one skipped suffix per group. `RuleAt` and `GroupAt` rebuild every view from those facts. */
module Ledger {
  import opened Facts
  import opened DenseInterpreter

  datatype RecordState = RecordFired | RecordFailed | RecordSkipped
  datatype Record = Record(order: nat, state: RecordState, failureIndex: nat)

  datatype GroupRecord = GroupRecord(
    state: GroupState, end: GroupEnd, stop: StopReason, selected: RuleId, skippedFrom: nat)

  const NO_GROUP_RECORD := GroupRecord(GroupNotEntered, EndNone, StopNone, "", 0)

  datatype Result = Result(
    meta: Metadata, counts: Counts, stop: StopReason, records: seq<Record>, failures: seq<Failure>,
    diagnostics: seq<Diagnostic>, evaluatedThrough: nat, groups: seq<GroupRecord>)
  {
    /** Every failed record points at its failure. */
    predicate Indexed() {
      && (forall i :: 0 <= i < |records| ==> records[i].order < |meta.rules|)
      && (forall i :: 0 <= i < |records| && records[i].state == RecordFailed ==> records[i].failureIndex < |failures|)
    }

    /** The suffix of a resolved group that local selection bypassed. */
    predicate Bypassed(order: nat)
      requires order < |meta.rules|
    {
      match meta.rules[order].group
      case Some(g) => g < |groups| && groups[g].state == GroupSelected && groups[g].skippedFrom <= order
      case None => false
    }

    function RuleAt(order: nat): RuleView
      requires order < |meta.rules| && Indexed()
    {
      if Bypassed(order) then NotEvaluated(GroupResolved)
      else if evaluatedThrough <= order then NotEvaluated(ExecutionStopped)
      else
        var i := Search(records, order, 0, |records|);
        if i < |records| && records[i].order == order then
          match records[i].state
          case RecordFired => RuleView.Fired
          case RecordFailed => Failed(failures[records[i].failureIndex])
          case RecordSkipped => Skipped
        else Unmatched
    }

    function GroupAt(index: nat): GroupView
      requires index < |meta.groups|
    {
      var r := if index < |groups| then groups[index] else NO_GROUP_RECORD;
      if r.state == GroupNotEntered
      then GroupView(r.state, EndExecutionStopped, stop, r.selected)
      else GroupView(r.state, r.end, r.stop, r.selected)
    }

    /** The identities of the matched rules, read off the records alone. */
    method Matched() returns (ids: seq<RuleId>)
      requires Indexed()
      ensures ids == MatchedRecords(meta, records, failures)
    {
      ids := [];
      for i := 0 to |records|
        invariant ids == MatchedRecords(meta, records[..i], failures)
      {
        assert records[..i + 1][..i] == records[..i];
        var record := records[i];
        if record.state != RecordFailed || failures[record.failureIndex].phase == ActionPhase {
          ids := ids + [meta.rules[record.order].id];
        }
      }
      assert records[..|records|] == records;
    }

    /** The identities of the fired rules, read off the records alone. */
    method Fired() returns (ids: seq<RuleId>)
      requires Indexed()
      ensures ids == FiredRecords(meta, records)
    {
      ids := [];
      for i := 0 to |records|
        invariant ids == FiredRecords(meta, records[..i])
      {
        assert records[..i + 1][..i] == records[..i];
        if records[i].state == RecordFired {
          ids := ids + [meta.rules[records[i].order].id];
        }
      }
      assert records[..|records|] == records;
    }
  }

  ghost function MatchedRecords(m: Metadata, records: seq<Record>, failures: seq<Failure>): seq<RuleId>
    requires forall i :: 0 <= i < |records| ==> records[i].order < |m.rules|
    requires forall i :: 0 <= i < |records| && records[i].state == RecordFailed ==> records[i].failureIndex < |failures|
  {
    if records == [] then []
    else
      var last := records[|records| - 1];
      MatchedRecords(m, records[..|records| - 1], failures)
      + (if last.state != RecordFailed || failures[last.failureIndex].phase == ActionPhase
         then [m.rules[last.order].id] else [])
  }

  ghost function FiredRecords(m: Metadata, records: seq<Record>): seq<RuleId>
    requires forall i :: 0 <= i < |records| ==> records[i].order < |m.rules|
  {
    if records == [] then []
    else
      var last := records[|records| - 1];
      FiredRecords(m, records[..|records| - 1]) + (if last.state == RecordFired then [m.rules[last.order].id] else [])
  }

  ghost predicate Increasing(records: seq<Record>) {
    forall i, j :: 0 <= i < j < |records| ==> records[i].order < records[j].order
  }

  /** Binary search: the first position in `lo..hi` whose order is not below `order`. */
  function Search(records: seq<Record>, order: nat, lo: nat, hi: nat): (at: nat)
    requires lo <= hi <= |records|
    ensures lo <= at <= hi
    ensures Increasing(records) ==> forall i :: lo <= i < at ==> records[i].order < order
    ensures Increasing(records) ==> forall i :: at <= i < hi ==> order <= records[i].order
    decreases hi - lo
  {
    if lo == hi then lo
    else
      var mid := (lo + hi) / 2;
      if records[mid].order < order then Search(records, order, mid + 1, hi) else Search(records, order, lo, mid)
  }

  lemma {:induction false} SearchFinds(records: seq<Record>, i: nat)
    requires Increasing(records) && i < |records|
    ensures Search(records, records[i].order, 0, |records|) == i
  {
    var at := Search(records, records[i].order, 0, |records|);
    assert at < |records| ==> records[i].order <= records[at].order;
    assert !(i < at);
  }

  // ----- the sparse facts, as functions of the dense views

  function RecordsFor(order: nat, v: RuleView, failures: nat): seq<Record> {
    match v
    case Fired => [Record(order, RecordFired, 0)]
    case Skipped => [Record(order, RecordSkipped, 0)]
    case Failed(_) => [Record(order, RecordFailed, failures)]
    case _ => []
  }

  function RecordsIn(views: seq<RuleView>): seq<Record> {
    if views == [] then []
    else
      var before := views[..|views| - 1];
      RecordsIn(before) + RecordsFor(|views| - 1, views[|views| - 1], |FailuresIn(before)|)
  }

  function Frontier(views: seq<RuleView>): nat {
    if views == [] then 0
    else if views[|views| - 1].Evaluated() then |views|
    else Frontier(views[..|views| - 1])
  }

  lemma {:induction false} Unfold(views: seq<RuleView>, v: RuleView)
    ensures RecordsIn(views + [v]) == RecordsIn(views) + RecordsFor(|views|, v, |FailuresIn(views)|)
    ensures FailuresIn(views + [v]) == FailuresIn(views) + (if v.Failed? then [v.failure] else [])
    ensures Frontier(views + [v]) == if v.Evaluated() then |views| + 1 else Frontier(views)
  {
    assert (views + [v])[..|views|] == views;
  }

  lemma {:induction false} UnfoldTally(views: seq<RuleView>, v: RuleView)
    ensures Tally(views + [v]) == Add(Tally(views), Contribution(v))
  {
    assert (views + [v])[..|views|] == views;
  }

  lemma {:induction false} FillSnoc(views: seq<RuleView>, n: nat, reason: NotEvaluatedReason)
    ensures views + Fill(n + 1, reason) == views + Fill(n, reason) + [NotEvaluated(reason)]
    ensures views + Fill(0, reason) == views
  {}

  /** Rules that were never reached leave no trace in the sparse facts. */
  lemma {:induction false} Silent(views: seq<RuleView>, n: nat, reason: NotEvaluatedReason)
    ensures RecordsIn(views + Fill(n, reason)) == RecordsIn(views)
    ensures FailuresIn(views + Fill(n, reason)) == FailuresIn(views)
    ensures Frontier(views + Fill(n, reason)) == Frontier(views)
  {
    if n == 0 {
      FillSnoc(views, 0, reason);
    } else {
      var before := views + Fill(n - 1, reason);
      Silent(views, n - 1, reason);
      FillSnoc(views, n - 1, reason);
      Unfold(before, NotEvaluated(reason));
    }
  }

  function Uncalled(c: Counts, n: nat): Counts {
    c.(total := c.total + n, notEvaluated := c.notEvaluated + n)
  }

  lemma {:induction false} UncalledOne(c: Counts, n: nat, reason: NotEvaluatedReason)
    ensures Add(Uncalled(c, n), Contribution(NotEvaluated(reason))) == Uncalled(c, n + 1)
  {}

  lemma {:induction false} SilentTally(views: seq<RuleView>, n: nat, reason: NotEvaluatedReason)
    ensures Tally(views + Fill(n, reason)) == Uncalled(Tally(views), n)
  {
    hide Tally, Add, Contribution, Fill;
    if n == 0 {
      FillSnoc(views, 0, reason);
    } else {
      SilentTally(views, n - 1, reason);
      FillSnoc(views, n - 1, reason);
      UnfoldTally(views + Fill(n - 1, reason), NotEvaluated(reason));
      UncalledOne(Tally(views), n - 1, reason);
    }
  }

  lemma {:induction false} FrontierBounds(views: seq<RuleView>, o: nat)
    requires o < |views|
    ensures views[o].Evaluated() ==> o < Frontier(views)
    ensures Frontier(views) <= |views|
  {
    var before := views[..|views| - 1];
    if views[|views| - 1].Evaluated() {
    } else if o < |before| {
      FrontierBounds(before, o);
    } else if before != [] {
      FrontierBounds(before, 0);
    }
  }

  /** Records of orders below `bound`, in strictly increasing order, that point at existing failures. */
  ghost predicate Ordered(records: seq<Record>, bound: nat, failures: nat) {
    && Increasing(records)
    && (forall i :: 0 <= i < |records| ==> records[i].order < bound)
    && (forall i :: 0 <= i < |records| && records[i].state == RecordFailed ==> records[i].failureIndex < failures)
  }

  lemma {:induction false} RecordsOrdered(views: seq<RuleView>)
    ensures Ordered(RecordsIn(views), |views|, |FailuresIn(views)|)
  {
    if views != [] {
      var n := |views| - 1;
      var before := views[..n];
      RecordsOrdered(before);
      assert views == before + [views[n]];
      Unfold(before, views[n]);
      OrderedSnoc(RecordsIn(before), n, views[n], |FailuresIn(before)|);
    }
  }

  lemma {:induction false} OrderedSnoc(records: seq<Record>, n: nat, v: RuleView, failures: nat)
    requires Ordered(records, n, failures)
    ensures Ordered(records + RecordsFor(n, v, failures), n + 1, failures + (if v.Failed? then 1 else 0))
  {}

  /** Whether `records` say about order `o` exactly what the view `v` says. */
  ghost predicate Says(records: seq<Record>, failures: seq<Failure>, o: nat, v: RuleView) {
    if v.Fired? || v.Failed? || v.Skipped?
    then exists i :: 0 <= i < |records| && records[i].order == o && Reports(records[i], failures, v)
    else forall i :: 0 <= i < |records| ==> records[i].order != o
  }

  ghost predicate Reports(r: Record, failures: seq<Failure>, v: RuleView) {
    match r.state
    case RecordFired => v.Fired?
    case RecordSkipped => v.Skipped?
    case RecordFailed => r.failureIndex < |failures| && v == Failed(failures[r.failureIndex])
  }

  lemma {:induction false} RecordsReport(views: seq<RuleView>, o: nat)
    requires o < |views|
    ensures Says(RecordsIn(views), FailuresIn(views), o, views[o])
  {
    var n := |views| - 1;
    var before := views[..n];
    assert views == before + [views[n]];
    RecordsOrdered(before);
    Unfold(before, views[n]);
    if o < n {
      RecordsReport(before, o);
      SaysSnoc(RecordsIn(before), FailuresIn(before), o, before[o], n, views[n]);
    } else {
      SaysLast(RecordsIn(before), FailuresIn(before), n, views[n]);
    }
  }

  lemma {:induction false} SaysSnoc(
    records: seq<Record>, failures: seq<Failure>, o: nat, v: RuleView, n: nat, last: RuleView)
    requires o < n && Says(records, failures, o, v)
    ensures Says(records + RecordsFor(n, last, |failures|), failures + (if last.Failed? then [last.failure] else []), o,
                 v)
  {
    var all := records + RecordsFor(n, last, |failures|);
    if v.Fired? || v.Failed? || v.Skipped? {
      var i :| 0 <= i < |records| && records[i].order == o && Reports(records[i], failures, v);
      assert all[i] == records[i];
    }
  }

  lemma {:induction false} SaysLast(records: seq<Record>, failures: seq<Failure>, n: nat, last: RuleView)
    requires Ordered(records, n, |failures|)
    ensures Says(records + RecordsFor(n, last, |failures|), failures + (if last.Failed? then [last.failure] else []), n,
                 last)
  {
    var all := records + RecordsFor(n, last, |failures|);
    if last.Fired? || last.Failed? || last.Skipped? {
      assert all[|records|].order == n;
    }
  }

  /** `r` holds exactly the sparse facts of `views`, and its bypassed suffixes are the resolved holes. */
  ghost predicate Compresses(r: Result, views: seq<RuleView>) {
    && |views| == |r.meta.rules|
    && r.records == RecordsIn(views) && r.failures == FailuresIn(views) && r.evaluatedThrough == Frontier(views)
    && (forall o :: 0 <= o < |views| ==> (r.Bypassed(o) <==> views[o] == NotEvaluated(GroupResolved)))
    && (forall o :: 0 <= o < |views| && views[o] == NotEvaluated(ExecutionStopped) ==> Frontier(views) <= o)
  }

  lemma {:induction false} CompressedIsIndexed(r: Result, views: seq<RuleView>)
    requires Compresses(r, views)
    ensures r.Indexed() && Increasing(r.records)
  {
    RecordsOrdered(views);
  }

  /** Nothing is lost: each view is rebuilt from the sparse facts. */
  lemma {:induction false} RuleAtRebuilds(r: Result, views: seq<RuleView>, o: nat)
    requires Compresses(r, views) && o < |views|
    ensures r.Indexed() && r.RuleAt(o) == views[o]
  {
    CompressedIsIndexed(r, views);
    RecordsReport(views, o);
    FrontierBounds(views, o);
    if views[o].Fired? || views[o].Failed? || views[o].Skipped? {
      var i :| 0 <= i < |r.records| && r.records[i].order == o && Reports(r.records[i], r.failures, views[o]);
      SearchFinds(r.records, i);
    } else if views[o].NotEvaluated? {
      match views[o].reason
      case GroupResolved =>
        assert views[o] == NotEvaluated(GroupResolved);
        assert r.Bypassed(o);
      case ExecutionStopped =>
        assert views[o] == NotEvaluated(ExecutionStopped);
        assert !r.Bypassed(o);
        assert r.evaluatedThrough <= o;
    }
  }

  // ----- Matched and Fired as filters of the dense views

  ghost function MatchedIn(m: Metadata, views: seq<RuleView>): seq<RuleId>
    requires |views| <= |m.rules|
  {
    if views == [] then []
    else
      var n := |views| - 1;
      MatchedIn(m, views[..n]) + (if views[n].Matched() then [m.rules[n].id] else [])
  }

  ghost function FiredIn(m: Metadata, views: seq<RuleView>): seq<RuleId>
    requires |views| <= |m.rules|
  {
    if views == [] then []
    else
      var n := |views| - 1;
      FiredIn(m, views[..n]) + (if views[n].Fired? then [m.rules[n].id] else [])
  }

  /** Reading matched and fired rules off the records gives the filters of the dense views. */
  lemma {:induction false} MatchedIsFilter(m: Metadata, views: seq<RuleView>, failures: seq<Failure>)
    requires |views| <= |m.rules| && FailuresIn(views) <= failures
    requires Ordered(RecordsIn(views), |m.rules|, |failures|)
    ensures MatchedRecords(m, RecordsIn(views), failures) == MatchedIn(m, views)
    ensures FiredRecords(m, RecordsIn(views)) == FiredIn(m, views)
  {
    if views != [] {
      var n := |views| - 1;
      var before := views[..n];
      RecordsOrdered(before);
      assert views == before + [views[n]];
      Unfold(before, views[n]);
      MatchedIsFilter(m, before, failures);
      if views[n].Failed? {
        assert failures[|FailuresIn(before)|] == FailuresIn(views)[|FailuresIn(before)|];
      }
      RecordsSnoc(m, RecordsIn(before), n, views[n], |FailuresIn(before)|, failures);
    }
  }

  lemma {:induction false} RecordsSnoc(
    m: Metadata, records: seq<Record>, n: nat, v: RuleView, index: nat, failures: seq<Failure>)
    requires n < |m.rules| && Ordered(records, |m.rules|, |failures|)
    requires v.Failed? ==> index < |failures| && failures[index] == v.failure
    ensures var all := records + RecordsFor(n, v, index);
            && (forall i :: 0 <= i < |all| ==> all[i].order < |m.rules|)
            && (forall i :: 0 <= i < |all| && all[i].state == RecordFailed ==> all[i].failureIndex < |failures|)
            && MatchedRecords(m, all, failures)
               == MatchedRecords(m, records, failures) + (if v.Matched() then [m.rules[n].id] else [])
            && FiredRecords(m, all) == FiredRecords(m, records) + (if v.Fired? then [m.rules[n].id] else [])
  {
    match v
    case Fired => OneRecord(m, records, Record(n, RecordFired, 0), failures);
    case Skipped => OneRecord(m, records, Record(n, RecordSkipped, 0), failures);
    case Failed(_) => OneRecord(m, records, Record(n, RecordFailed, index), failures);
    case _ => assert records + [] == records;
  }

  lemma {:induction false} OneRecord(m: Metadata, records: seq<Record>, r: Record, failures: seq<Failure>)
    requires Ordered(records, |m.rules|, |failures|) && r.order < |m.rules|
    requires r.state == RecordFailed ==> r.failureIndex < |failures|
    ensures var all := records + [r];
            && (forall i :: 0 <= i < |all| ==> all[i].order < |m.rules|)
            && (forall i :: 0 <= i < |all| && all[i].state == RecordFailed ==> all[i].failureIndex < |failures|)
            && MatchedRecords(m, all, failures)
               == MatchedRecords(m, records, failures)
                  + (if r.state != RecordFailed || failures[r.failureIndex].phase == ActionPhase
                     then [m.rules[r.order].id] else [])
            && FiredRecords(m, all)
               == FiredRecords(m, records) + (if r.state == RecordFired then [m.rules[r.order].id] else [])
  {
    var all := records + [r];
    assert all[..|all| - 1] == records;
  }
}
