/** The events an observer receives are a function of the final ledger. */
module EventStream {
  import opened Facts
  import opened DenseInterpreter
  import opened Compression

  /** The events in a history, in delivery order. */
  function Events(h: History): seq<Event> {
    if h == [] then []
    else Events(h[..|h| - 1]) + (match h[|h| - 1] case Observed(e) => [e] case _ => [])
  }

  // ----- the stream rebuilt from views alone

  function ResolvedEvents(m: Metadata, kind: GroupKind, order: nat): seq<Event>
    requires order < |m.rules|
  {
    match m.rules[order].group
    case None => []
    case Some(g) =>
      if g < |m.groups| && m.groups[g].kind == kind
      then [GroupResolvedEvent(g, GroupView(GroupSelected, EndNone, StopNone, m.rules[order].id))]
      else []
  }

  function MatchEvents(m: Metadata, order: nat): seq<Event>
    requires order < |m.rules|
  {
    [RuleEvaluated(order, OutcomeTrue, None), RuleMatched(order)] + ResolvedEvents(m, FirstMatch, order)
  }

  function RuleEvents(m: Metadata, order: nat, v: RuleView): seq<Event>
    requires order < |m.rules|
  {
    match v
    case NotEvaluated(_) => []
    case Unmatched => [RuleEvaluated(order, OutcomeFalse, None)]
    case Skipped => MatchEvents(m, order)
    case Fired => MatchEvents(m, order) + [RuleFired(order)] + ResolvedEvents(m, FirstFire, order)
    case Failed(f) =>
      if f.phase == ConditionPhase then [RuleEvaluated(order, OutcomeError, Some(f)), RuleFailed(order, f)]
      else MatchEvents(m, order) + [RuleFailed(order, f)]
  }

  /** The events of the rules `start..start + |views|`, whose views are given. */
  function SpanEvents(m: Metadata, start: nat, views: seq<RuleView>): seq<Event>
    requires start + |views| <= |m.rules|
    decreases |views|
  {
    if views == [] then [] else RuleEvents(m, start, views[0]) + SpanEvents(m, start + 1, views[1..])
  }

  function FinishEvents(g: nat, view: GroupView): seq<Event> {
    if view.state == GroupNotEntered then [] else [GroupFinished(g, view)]
  }

  /** The events of the entries `i..`, from the views of their rules and groups. */
  function EntryEvents(m: Metadata, entries: seq<CompiledEntry>, i: nat, start: nat, g: nat,
                       views: seq<RuleView>, gviews: seq<GroupView>): seq<Event>
    requires i <= |entries| && start <= |m.rules| && g <= |m.groups| && Tiled(m, entries, i, start, g)
    requires |views| == |m.rules| - start && |gviews| == |m.groups| - g
    decreases |entries| - i
  {
    if i == |entries| then []
    else
      var e := entries[i];
      var n := e.end - start;
      SpanEvents(m, start, views[..n])
      + (if e.group.None? then EntryEvents(m, entries, i + 1, e.end, g, views[n..], gviews)
         else FinishEvents(g, gviews[0]) + EntryEvents(m, entries, i + 1, e.end, g + 1, views[n..], gviews[1..]))
  }

  /** The complete stream of a finished run, rebuilt from its final views. */
  function Stream(m: Metadata, views: seq<RuleView>, gviews: seq<GroupView>, stop: StopReason): seq<Event>
    requires WellFormed(m) && |views| == |m.rules| && |gviews| == |m.groups|
  {
    [ExecutionStarted(Counts(|m.rules|, 0, |m.rules|, 0, 0, 0, 0, 0, 0, 0, 0))]
    + EntryEvents(m, EntriesOf(m), 0, 0, 0, views, gviews)
    + [ExecutionFinished(Tally(views), stop)]
  }

  // ----- what was delivered so far, out of the stream so far

  /** What an observer's answer leaves as the cause of a diagnostic. */
  function CauseOf(a: ObserverAnswer): Option<FailureCause> {
    match a
    case ObserverReturned(None) => None
    case ObserverReturned(Some(e)) => Some(ReturnedError(e))
    case ObserverPanicked(v) => Some(RecoveredPanic(v))
  }

  /** The observer answered every event of this history without failing. */
  ghost predicate AnsweredWell(env: Environment, h: History) {
    forall i :: 0 <= i < |h| && h[i].Observed? ==> CauseOf(env.observe(h[i].event, h[..i])) == None
  }

  /** The observer failed at `i` of the history for the first time, received nothing after it, and its answer there is
      the only diagnostic. */
  ghost predicate FailedAt(env: Environment, t: Track, i: nat) {
    && i < |t.history| && t.history[i].Observed? && AnsweredWell(env, t.history[..i])
    && (forall k :: i < k < |t.history| ==> !t.history[k].Observed?)
    && var cause := CauseOf(env.observe(t.history[i].event, t.history[..i]));
       cause.Some? && t.diagnostics == [Diagnostic(t.history[i].event, cause.value)]
  }

  /** An enabled observer received everything and never failed; a disabled one received a prefix that ends with the
      event it first failed on. */
  ghost predicate Delivers(env: Environment, t: Track, stream: seq<Event>) {
    if t.observing then Events(t.history) == stream && t.diagnostics == [] && AnsweredWell(env, t.history)
    else
      && Events(t.history) != [] && Events(t.history) <= stream
      && exists i: nat :: FailedAt(env, t, i) && t.history[i].event == Events(t.history)[|Events(t.history)| - 1]
  }

  lemma {:induction false} EventsSnoc(h: History, call: Call)
    ensures Events(h + [call]) == Events(h) + (match call case Observed(e) => [e] case _ => [])
  {
    assert (h + [call])[..|h|] == h;
  }

  lemma {:induction false} CallDelivers(env: Environment, t: Track, call: Call, stream: seq<Event>)
    requires Delivers(env, t, stream) && !call.Observed?
    ensures Delivers(env, Extend(t, call), stream)
  {
    EventsSnoc(t.history, call);
    hide Events;
    var now := Extend(t, call);
    if t.observing {
      StillWell(env, t.history, call);
    } else {
      var i: nat :| FailedAt(env, t, i) && t.history[i].event == Events(t.history)[|Events(t.history)| - 1];
      assert now.history[..i] == t.history[..i];
      assert FailedAt(env, now, i);
    }
  }

  lemma {:induction false} StillWell(env: Environment, h: History, call: Call)
    requires AnsweredWell(env, h) && (call.Observed? ==> CauseOf(env.observe(call.event, h)) == None)
    ensures AnsweredWell(env, h + [call])
  {
    var now := h + [call];
    forall i | 0 <= i < |now| && now[i].Observed? ensures CauseOf(env.observe(now[i].event, now[..i])) == None {
      if i < |h| {
        assert now[..i] == h[..i];
      } else {
        assert now[..i] == h;
      }
    }
  }

  lemma {:induction false} NotifyDelivers(env: Environment, e: Event, t: Track, stream: seq<Event>)
    requires Delivers(env, t, stream)
    ensures Delivers(env, Notify(env, e, t), stream + [e])
  {
    EventsSnoc(t.history, Observed(e));
    hide Events;
    if t.observing {
      var now := Notify(env, e, t);
      assert now.history == t.history + [Observed(e)];
      if CauseOf(env.observe(e, t.history)) == None {
        StillWell(env, t.history, Observed(e));
      } else {
        assert now.history[..|t.history|] == t.history;
        assert FailedAt(env, now, |t.history|);
      }
    } else {
      assert stream <= stream + [e];
    }
  }

  lemma {:induction false} ResolvedDelivers(p: Program, kind: GroupKind, order: nat, t: Track, stream: seq<Event>)
    requires order < |p.meta.rules| && Delivers(p.env, t, stream)
    ensures Delivers(p.env, NotifyResolved(p, kind, order, t), stream + ResolvedEvents(p.meta, kind, order))
  {
    if KindAt(p.meta, order) == Some(kind) {
      NotifyDelivers(p.env, GroupResolvedEvent(p.meta.rules[order].group.value, Selection(p.meta, order)), t, stream);
    } else {
      assert stream + [] == stream;
    }
  }

  lemma {:induction false} CheckDelivers(env: Environment, t: Track, stream: seq<Event>)
    requires Delivers(env, t, stream)
    ensures Delivers(env, Check(env, t).t, stream)
  {
    CallDelivers(env, t, ContextChecked, stream);
  }

  lemma {:induction false} ActionDelivers(p: Program, order: nat, t: Track, stream: seq<Event>)
    requires order < |p.meta.rules| && Delivers(p.env, t, stream)
    ensures var s := RunAction(p, order, t);
            && (s.view.Fired? || (s.view.Failed? && s.view.failure.phase == ActionPhase))
            && Delivers(p.env, s.t,
                        stream + (if s.view.Fired? then [RuleFired(order)] + ResolvedEvents(p.meta, FirstFire, order)
                                       else [RuleFailed(order, s.view.failure)]))
  {
    hide Delivers, Notify;
    var called := Extend(t, ActionCalled(order));
    CallDelivers(p.env, t, ActionCalled(order), stream);
    var s := RunAction(p, order, t);
    if s.view.Failed? {
      NotifyDelivers(p.env, RuleFailed(order, s.view.failure), called, stream);
      CheckDelivers(p.env, Notify(p.env, RuleFailed(order, s.view.failure), called),
                    stream + [RuleFailed(order, s.view.failure)]);
    } else {
      NotifyDelivers(p.env, RuleFired(order), called, stream);
      var fired := Notify(p.env, RuleFired(order), called);
      ResolvedDelivers(p, FirstFire, order, fired, stream + [RuleFired(order)]);
      var all := stream + [RuleFired(order)] + ResolvedEvents(p.meta, FirstFire, order);
      assert all == stream + ([RuleFired(order)] + ResolvedEvents(p.meta, FirstFire, order));
      CheckDelivers(p.env, NotifyResolved(p, FirstFire, order, fired), all);
    }
  }

  lemma {:induction false} MatchedDelivers(p: Program, order: nat, t: Track, stream: seq<Event>)
    requires order < |p.meta.rules| && Delivers(p.env, t, stream)
    ensures var s := RunMatched(p, order, t);
            s.view.Matched() && Delivers(p.env, s.t, stream + RuleEvents(p.meta, order, s.view))
  {
    hide Delivers, Notify, NotifyResolved, ResolvedEvents, RunAction;
    var e1, e2 := RuleEvaluated(order, OutcomeTrue, None), RuleMatched(order);
    var t1 := Notify(p.env, e1, t);
    var t2 := Notify(p.env, e2, t1);
    var t3 := NotifyResolved(p, FirstMatch, order, t2);
    NotifyDelivers(p.env, e1, t, stream);
    NotifyDelivers(p.env, e2, t1, stream + [e1]);
    ResolvedDelivers(p, FirstMatch, order, t2, stream + [e1] + [e2]);
    var all := stream + MatchEvents(p.meta, order);
    assert all == stream + [e1] + [e2] + ResolvedEvents(p.meta, FirstMatch, order);
    CheckDelivers(p.env, t3, all);
    var c := Check(p.env, t3);
    if !c.answer.Done? {
      ActionDelivers(p, order, c.t, all);
      var s := RunAction(p, order, c.t);
      var tail := if s.view.Fired? then [RuleFired(order)] + ResolvedEvents(p.meta, FirstFire, order)
                  else [RuleFailed(order, s.view.failure)];
      assert all + tail == stream + RuleEvents(p.meta, order, s.view);
    }
  }

  lemma {:induction false} RuleDelivers(p: Program, order: nat, t: Track, stream: seq<Event>)
    requires order < |p.meta.rules| && Delivers(p.env, t, stream)
    ensures var s := RunRule(p, order, t);
            Delivers(p.env, s.t, stream + RuleEvents(p.meta, order, s.view))
  {
    hide Delivers, Notify, RunMatched;
    var called := Extend(t, ConditionCalled(order));
    CallDelivers(p.env, t, ConditionCalled(order), stream);
    var s := RunRule(p, order, t);
    match p.env.condition(order, t.history)
    case ConditionReturned(matched, None) =>
      if matched {
        MatchedDelivers(p, order, called, stream);
      } else {
        var e := RuleEvaluated(order, OutcomeFalse, None);
        NotifyDelivers(p.env, e, called, stream);
        CheckDelivers(p.env, Notify(p.env, e, called), stream + [e]);
      }
    case ConditionReturned(_, Some(_)) =>
      FailureDelivers(p, order, s.view.failure, called, stream);
    case ConditionPanicked(_) =>
      FailureDelivers(p, order, s.view.failure, called, stream);
  }

  lemma {:induction false} FailureDelivers(p: Program, order: nat, f: Failure, t: Track, stream: seq<Event>)
    requires Delivers(p.env, t, stream)
    ensures Delivers(p.env, Check(p.env, NotifyConditionFailure(p.env, order, f, t)).t,
                     stream + [RuleEvaluated(order, OutcomeError, Some(f)), RuleFailed(order, f)])
  {
    hide Delivers, Notify;
    var e1, e2 := RuleEvaluated(order, OutcomeError, Some(f)), RuleFailed(order, f);
    NotifyDelivers(p.env, e1, t, stream);
    NotifyDelivers(p.env, e2, Notify(p.env, e1, t), stream + [e1]);
    assert stream + [e1] + [e2] == stream + [e1, e2];
    CheckDelivers(p.env, Notify(p.env, e2, Notify(p.env, e1, t)), stream + [e1, e2]);
  }

  lemma {:induction false} SpanDelivers(p: Program, order: nat, end: nat, checked: bool, t: Track, stream: seq<Event>)
    requires order <= end <= |p.meta.rules| && Delivers(p.env, t, stream)
    ensures var s := RunSpan(p, order, end, checked, t);
            Delivers(p.env, s.t, stream + SpanEvents(p.meta, order, s.views))
    decreases end - order
  {
    hide Delivers, RunRule, RuleEvents;
    assert stream + [] == stream;
    if order < end {
      CheckDelivers(p.env, t, stream);
      var c := if checked then Boundary(Alive, t) else Check(p.env, t);
      if !c.answer.Done? {
        RuleDelivers(p, order, c.t, stream);
        var s := RunRule(p, order, c.t);
        var head := RuleEvents(p.meta, order, s.view);
        if s.next.Advance? {
          SpanDelivers(p, order + 1, end, false, s.t, stream + head);
          var rest := RunSpan(p, order + 1, end, false, s.t);
          assert ([s.view] + rest.views)[1..] == rest.views;
          assert stream + head + SpanEvents(p.meta, order + 1, rest.views)
              == stream + (head + SpanEvents(p.meta, order + 1, rest.views));
        } else {
          assert SpanEvents(p.meta, order, [s.view]) == head + [] == head;
        }
      }
    }
  }

  /** Rules without a view of their own emit nothing. */
  lemma {:induction false} SilentSpan(m: Metadata, start: nat, views: seq<RuleView>, n: nat, reason: NotEvaluatedReason)
    requires start + |views| + n <= |m.rules|
    ensures SpanEvents(m, start, views + Fill(n, reason)) == SpanEvents(m, start, views)
    decreases |views| + n
  {
    var all := views + Fill(n, reason);
    if views != [] {
      assert all[1..] == views[1..] + Fill(n, reason);
      SilentSpan(m, start + 1, views[1..], n, reason);
    } else if n > 0 {
      assert all[1..] == [] + Fill(n - 1, reason);
      SilentSpan(m, start + 1, [], n - 1, reason);
    }
  }

  lemma {:induction false} SilentFill(m: Metadata, start: nat, n: nat, reason: NotEvaluatedReason)
    requires start + n <= |m.rules|
    ensures SpanEvents(m, start, [] + Fill(n, reason)) == []
  {
    SilentSpan(m, start, [], n, reason);
  }

  lemma {:induction false} FillSlices(n: nat, k: nat, stop: StopReason, m: nat)
    requires k <= n
    ensures Fill(n, ExecutionStopped)[..k] == [] + Fill(k, ExecutionStopped)
    ensures Fill(n, ExecutionStopped)[k..] == Fill(n - k, ExecutionStopped)
    ensures m > 0 ==> Unentered(m, stop)[1..] == Unentered(m - 1, stop)
  {}

  /** Entries that were never reached emit nothing. */
  lemma {:induction false} SilentEntries(
    m: Metadata, entries: seq<CompiledEntry>, i: nat, start: nat, g: nat, stop: StopReason)
    requires i <= |entries| && start <= |m.rules| && g <= |m.groups| && Tiled(m, entries, i, start, g)
    ensures EntryEvents(m, entries, i, start, g, Fill(|m.rules| - start, ExecutionStopped),
                        Unentered(|m.groups| - g, stop)) == []
    decreases |entries| - i
  {
    hide RuleEvents, SpanEvents;
    if i < |entries| {
      var e := entries[i];
      FillSlices(|m.rules| - start, e.end - start, stop, |m.groups| - g);
      SilentFill(m, start, e.end - start, ExecutionStopped);
      SilentEntries(m, entries, i + 1, e.end, if e.group.None? then g else g + 1, stop);
    }
  }

  // ----- whole runs

  /** The events of an entry, then those of the rest. */
  lemma {:induction false} EntryUnfold(
    m: Metadata, entries: seq<CompiledEntry>, i: nat, start: nat, g: nat, first: seq<RuleView>,
    gfirst: seq<GroupView>, rest: seq<RuleView>, grest: seq<GroupView>)
    requires i < |entries| && start <= |m.rules| && g <= |m.groups| && Tiled(m, entries, i, start, g)
    requires |first| == entries[i].end - start && |gfirst| == (if entries[i].group.Some? then 1 else 0)
    requires |rest| == |m.rules| - entries[i].end && |grest| == |m.groups| - g - |gfirst|
    ensures EntryEvents(m, entries, i, start, g, first + rest, gfirst + grest)
         == SpanEvents(m, start, first) + (if gfirst == [] then [] else FinishEvents(g, gfirst[0]))
            + EntryEvents(m, entries, i + 1, entries[i].end, g + |gfirst|, rest, grest)
  {
    hide SpanEvents, FinishEvents;
    var views, gviews := first + rest, gfirst + grest;
    assert views[..|first|] == first && views[|first|..] == rest;
    if entries[i].group.None? {
      assert gviews == grest;
    } else {
      assert gviews[1..] == grest && gviews[0] == gfirst[0];
    }
  }

  /** The views of a halted entry: nothing after its own rules, and nothing from the entries behind it. */
  lemma {:induction false} HaltedEvents(
    m: Metadata, entries: seq<CompiledEntry>, i: nat, start: nat, g: nat, own: seq<RuleView>,
    gown: seq<GroupView>, stop: StopReason)
    requires i < |entries| && start <= |m.rules| && g <= |m.groups| && Tiled(m, entries, i, start, g)
    requires |own| <= entries[i].end - start && |gown| == (if entries[i].group.Some? then 1 else 0)
    ensures EntryEvents(m, entries, i, start, g, own + Fill(|m.rules| - start - |own|, ExecutionStopped),
                        gown + Unentered(|m.groups| - g - |gown|, stop))
         == SpanEvents(m, start, own) + (if gown == [] then [] else FinishEvents(g, gown[0]))
  {
    hide SpanEvents, FinishEvents, EntryEvents;
    var e := entries[i];
    var k, n := e.end - start - |own|, |m.rules| - e.end;
    SilentSpan(m, start, own, k, ExecutionStopped);
    SilentEntries(m, entries, i + 1, e.end, g + |gown|, stop);
    EntryUnfold(m, entries, i, start, g, own + Fill(k, ExecutionStopped), gown,
                Fill(n, ExecutionStopped), Unentered(|m.groups| - g - |gown|, stop));
    assert own + Fill(k, ExecutionStopped) + Fill(n, ExecutionStopped) == own + Fill(k + n, ExecutionStopped);
  }

  /** The views of an entry that was passed, followed by those of the rest. */
  lemma {:induction false} PassedEvents(
    m: Metadata, entries: seq<CompiledEntry>, i: nat, start: nat, g: nat, own: seq<RuleView>,
    gown: seq<GroupView>, rest: Run)
    requires i < |entries| && start <= |m.rules| && g <= |m.groups| && Tiled(m, entries, i, start, g)
    requires |own| <= entries[i].end - start && |gown| == (if entries[i].group.Some? then 1 else 0)
    requires |rest.views| == |m.rules| - entries[i].end && |rest.groups| == |m.groups| - g - |gown|
    ensures var e := entries[i];
            var all := own + Fill(e.end - start - |own|, GroupResolved);
            EntryEvents(m, entries, i, start, g, all + rest.views, gown + rest.groups)
            == SpanEvents(m, start, own) + (if gown == [] then [] else FinishEvents(g, gown[0]))
               + EntryEvents(m, entries, i + 1, e.end, g + |gown|, rest.views, rest.groups)
  {
    hide SpanEvents, FinishEvents, EntryEvents;
    var k := entries[i].end - start - |own|;
    SilentSpan(m, start, own, k, GroupResolved);
    EntryUnfold(m, entries, i, start, g, own + Fill(k, GroupResolved), gown, rest.views, rest.groups);
  }

  /** An entry as its own rules see it: how its span went, and the finish event of its group. */
  ghost function EntrySpan(p: Program, e: CompiledEntry, t: Track): Span
    requires EntryOf(p.meta, e)
  {
    RunSpan(p, e.start, e.end, e.group.Some?, if e.group.Some? then Check(p.env, t).t else t)
  }

  ghost function EntryTrack(p: Program, e: CompiledEntry, t: Track): Track
    requires EntryOf(p.meta, e)
  {
    var s := EntrySpan(p, e, t);
    if e.group.Some? then Notify(p.env, GroupFinished(e.group.value, GroupOutcome(s)), s.t) else s.t
  }

  ghost function EntryStream(p: Program, e: CompiledEntry, t: Track): seq<Event>
    requires EntryOf(p.meta, e)
  {
    var s := EntrySpan(p, e, t);
    SpanEvents(p.meta, e.start, s.views) + (if e.group.Some? then FinishEvents(e.group.value, GroupOutcome(s)) else [])
  }

  lemma {:induction false} EntryDelivers(p: Program, e: CompiledEntry, t: Track, stream: seq<Event>)
    requires EntryOf(p.meta, e) && Delivers(p.env, t, stream)
    ensures Delivers(p.env, EntryTrack(p, e, t), stream + EntryStream(p, e, t))
  {
    hide Delivers, RunSpan, SpanEvents, Notify;
    CheckDelivers(p.env, t, stream);
    var s := EntrySpan(p, e, t);
    var own := SpanEvents(p.meta, e.start, s.views);
    SpanDelivers(p, e.start, e.end, e.group.Some?, if e.group.Some? then Check(p.env, t).t else t, stream);
    Regroup(stream, own, [], []);
    if e.group.Some? {
      var finish := GroupFinished(e.group.value, GroupOutcome(s));
      NotifyDelivers(p.env, finish, s.t, stream + own);
      Regroup(stream, own, [finish], []);
    }
  }

  lemma {:induction false} Regroup<X>(a: seq<X>, b: seq<X>, c: seq<X>, d: seq<X>)
    ensures a + (b + c + d) == a + b + c + d
    ensures a + (b + c) == a + b + c && a + (b + []) == a + b
  {}

  /** An entry whose turn ends the run: its rules and group were stopped there, and nothing follows. */
  lemma {:induction false} HaltingEntry(p: Program, entries: seq<CompiledEntry>, i: nat, start: nat, g: nat, t: Track)
    requires i < |entries| && start <= |p.meta.rules| && g <= |p.meta.groups| && Tiled(p.meta, entries, i, start, g)
    requires EntryOf(p.meta, entries[i]) && EntrySpan(p, entries[i], t).next.Halt?
    requires entries[i].group.Some? ==> !Check(p.env, t).answer.Done?
    ensures var r := RunEntries(p, entries, i, start, g, t);
            && r.t == EntryTrack(p, entries[i], t)
            && EntryEvents(p.meta, entries, i, start, g, r.views, r.groups) == EntryStream(p, entries[i], t)
  {
    hide RunSpan, RunRule, EntryEvents, SpanEvents, RunEntries, FinishEvents, GroupOutcome;
    var e := entries[i];
    var s := EntrySpan(p, e, t);
    var gown := if e.group.Some? then [GroupOutcome(s)] else [];
    if e.group.Some? {
      GroupEntryRun(p, entries, i, start, g, t);
    } else {
      RulesEntryRun(p, entries, i, start, g, t);
    }
    HaltedEvents(p.meta, entries, i, start, g, s.views, gown, s.next.stop);
  }

  /** An entry that is passed: its events, then those of the rest of the run. */
  lemma {:induction false} PassingEntry(p: Program, entries: seq<CompiledEntry>, i: nat, start: nat, g: nat, t: Track)
    requires i < |entries| && start <= |p.meta.rules| && g <= |p.meta.groups| && Tiled(p.meta, entries, i, start, g)
    requires EntryOf(p.meta, entries[i]) && !EntrySpan(p, entries[i], t).next.Halt?
    requires entries[i].group.Some? ==> !Check(p.env, t).answer.Done?
    ensures var e := entries[i];
            var g' := if e.group.Some? then g + 1 else g;
            var r := RunEntries(p, entries, i, start, g, t);
            var rest := RunEntries(p, entries, i + 1, e.end, g', EntryTrack(p, e, t));
            && r.t == rest.t
            && EntryEvents(p.meta, entries, i, start, g, r.views, r.groups)
               == EntryStream(p, e, t) + EntryEvents(p.meta, entries, i + 1, e.end, g', rest.views, rest.groups)
  {
    hide RunSpan, RunRule, EntryEvents, SpanEvents, RunEntries, FinishEvents, GroupOutcome;
    var e := entries[i];
    var s := EntrySpan(p, e, t);
    var gown := if e.group.Some? then [GroupOutcome(s)] else [];
    var rest := RunEntries(p, entries, i + 1, e.end, g + |gown|, EntryTrack(p, e, t));
    if e.group.Some? {
      GroupEntryRun(p, entries, i, start, g, t);
    } else {
      RulesEntryRun(p, entries, i, start, g, t);
      NothingSkipped(s.views);
    }
    PassedEvents(p.meta, entries, i, start, g, s.views, gown, rest);
  }

  lemma {:induction false} NothingSkipped(views: seq<RuleView>)
    ensures views + Fill(0, GroupResolved) == views
  {}

  /** The context stopped a group from being entered: no events at all follow. */
  lemma {:induction false} ClosedEntry(p: Program, entries: seq<CompiledEntry>, i: nat, start: nat, g: nat, t: Track)
    requires i < |entries| && start <= |p.meta.rules| && g <= |p.meta.groups| && Tiled(p.meta, entries, i, start, g)
    requires entries[i].group.Some? && Check(p.env, t).answer.Done?
    ensures var r := RunEntries(p, entries, i, start, g, t);
            r.t == Check(p.env, t).t && EntryEvents(p.meta, entries, i, start, g, r.views, r.groups) == []
  {
    hide RunEntries, EntryEvents, Check, Tiled;
    TiledGroup(p.meta, entries, i, start, g);
    GroupEntryRun(p, entries, i, start, g, t);
    var stop := ContextStop(Check(p.env, t).answer);
    SilentEntries(p.meta, entries, i, start, g, stop);
    var views, groups := Fill(|p.meta.rules| - start, ExecutionStopped), Unentered(|p.meta.groups| - g, stop);
    assert [] + views == views && [] + groups == groups;
  }

  lemma {:induction false} TiledGroup(m: Metadata, entries: seq<CompiledEntry>, i: nat, start: nat, g: nat)
    requires i < |entries| && Tiled(m, entries, i, start, g) && entries[i].group.Some?
    ensures g < |m.groups|
  {}

  lemma {:induction false} NoEntriesDeliver(
    p: Program, entries: seq<CompiledEntry>, start: nat, g: nat, t: Track, stream: seq<Event>)
    requires start <= |p.meta.rules| && g <= |p.meta.groups| && Tiled(p.meta, entries, |entries|, start, g)
    requires Delivers(p.env, t, stream)
    ensures var r := RunEntries(p, entries, |entries|, start, g, t);
            Delivers(p.env, r.t, stream + EntryEvents(p.meta, entries, |entries|, start, g, r.views, r.groups))
  {
    hide Delivers;
    assert stream + [] == stream;
  }

  lemma {:induction false} EntriesDeliver(
    p: Program, entries: seq<CompiledEntry>, i: nat, start: nat, g: nat, t: Track, stream: seq<Event>)
    requires i <= |entries| && start <= |p.meta.rules| && g <= |p.meta.groups| && Tiled(p.meta, entries, i, start, g)
    requires (forall o :: 0 <= o < |p.meta.rules| ==> p.meta.rules[o].id != "") && Delivers(p.env, t, stream)
    ensures var r := RunEntries(p, entries, i, start, g, t);
            Delivers(p.env, r.t, stream + EntryEvents(p.meta, entries, i, start, g, r.views, r.groups))
    decreases |entries| - i
  {
    hide Delivers, EntryEvents, RunEntries, EntryTrack, EntryStream, EntrySpan, Tiled, Check;
    if i == |entries| {
      NoEntriesDeliver(p, entries, start, g, t, stream);
    } else {
      var e := entries[i];
      var g' := if e.group.Some? then g + 1 else g;
      TiledStep(p.meta, entries, i, start, g);
      if e.group.Some? && Check(p.env, t).answer.Done? {
        ClosedEntry(p, entries, i, start, g, t);
        CheckDelivers(p.env, t, stream);
        assert stream + [] == stream;
      } else {
        EntryDelivers(p, e, t, stream);
        if EntrySpan(p, e, t).next.Halt? {
          HaltingEntry(p, entries, i, start, g, t);
        } else {
          var rest := RunEntries(p, entries, i + 1, e.end, g', EntryTrack(p, e, t));
          EntriesDeliver(p, entries, i + 1, e.end, g', EntryTrack(p, e, t), stream + EntryStream(p, e, t));
          PassingEntry(p, entries, i, start, g, t);
          Regroup(stream, EntryStream(p, e, t), EntryEvents(p.meta, entries, i + 1, e.end, g', rest.views, rest.groups),
                  []);
        }
      }
    }
  }

  /** What an observer receives is the stream rebuilt from the run's final views: all of it if it never fails, and
      otherwise the part up to the event it first failed on, which is the only diagnostic. */
  lemma {:induction false} DeliveredStream(p: Program)
    requires WellFormed(p.meta)
    ensures var r := Interpret(p, true);
            Delivers(p.env, r.t, Stream(p.meta, r.views, r.groups, r.stop))
  {
    hide Delivers, EntryEvents, Notify, Tally;
    var start := ExecutionStarted(StartCounts(p.meta));
    var empty := Track([], true, []);
    StartsEmpty(p.env);
    NotifyDelivers(p.env, start, empty, []);
    var started := Notify(p.env, start, empty);
    assert [] + [start] == [start];
    CheckDelivers(p.env, started, [start]);
    var c := Check(p.env, started);
    var b := Body(p, true);
    var entries := EntriesOf(p.meta);
    var middle := EntryEvents(p.meta, entries, 0, 0, 0, b.views, b.groups);
    if c.answer.Done? {
      SilentEntries(p.meta, entries, 0, 0, 0, ContextStop(c.answer));
      assert [start] + [] == [start];
    } else {
      EntriesDeliver(p, entries, 0, 0, 0, c.t, [start]);
    }
    NotifyDelivers(p.env, ExecutionFinished(Tally(b.views), b.stop), b.t, [start] + middle);
  }

  lemma {:induction false} StartsEmpty(env: Environment)
    ensures Delivers(env, Track([], true, []), [])
  {}

  /** An observer that never fails, though it may cancel the context, receives the whole stream and leaves no
      diagnostic. */
  lemma {:induction false} WholeStream(p: Program)
    requires WellFormed(p.meta) && forall e, h :: p.env.observe(e, h) == ObserverReturned(None)
    ensures var r := Interpret(p, true);
            Events(r.t.history) == Stream(p.meta, r.views, r.groups, r.stop) && r.t.diagnostics == []
  {
    hide Interpret, Events, Stream;
    DeliveredStream(p);
    var r := Interpret(p, true);
    NeverFailed(p.env, r.t, Stream(p.meta, r.views, r.groups, r.stop));
  }

  lemma {:induction false} NeverFailed(env: Environment, t: Track, stream: seq<Event>)
    requires Delivers(env, t, stream) && forall e, h :: env.observe(e, h) == ObserverReturned(None)
    ensures t.observing && Events(t.history) == stream && t.diagnostics == []
  {
    hide Events, FailedAt;
    forall i: nat ensures !FailedAt(env, t, i) {
      NowhereFailed(env, t, i);
    }
  }

  lemma {:induction false} NowhereFailed(env: Environment, t: Track, i: nat)
    requires forall e, h :: env.observe(e, h) == ObserverReturned(None)
    ensures !FailedAt(env, t, i)
  {}
}
