/** Runtime publication: publishers serialised by a lock, executions that load the current publication once, and every
    interleaving of their steps. */
module Publication {
  import opened Facts

  /** An engine's own identity carries no revision that matters: publishing assigns one. */
  datatype Info = Info(source: nat, revision: nat)
  datatype Engine = Engine(id: nat, identity: Info)
  datatype Published = Published(engine: Engine, identity: Info)

  datatype PublishError = InvalidRuntime | InvalidEngine | RevisionExhausted
  datatype PublishResult = Accepted(identity: Info) | Refused(error: PublishError)

  const MAX_REVISION := 0xFFFF_FFFF_FFFF_FFFF

  function Revision(current: Option<Published>): nat {
    match current
    case None => 0
    case Some(p) => p.identity.revision
  }

  // ----- one publisher alone

  /** The new publication and the result, when nothing comes between loading and storing. */
  function Publishing(current: Option<Published>, next: Option<Engine>): (Option<Published>, PublishResult) {
    match next
    case None => (current, Refused(InvalidEngine))
    case Some(engine) =>
      if Revision(current) >= MAX_REVISION then (current, Refused(RevisionExhausted))
      else
        var identity := engine.identity.(revision := Revision(current) + 1);
        (Some(Published(engine, identity)), Accepted(identity))
  }

  class Runtime {
    var current: Option<Published>

    constructor ()
      ensures current == None
    {
      current := None;
    }

    /** Publishes a valid engine under the next revision; a failure leaves the current publication as it was. */
    method Publish(next: Option<Engine>) returns (result: PublishResult)
      requires Revision(current) <= MAX_REVISION
      modifies this
      ensures (current, result) == Publishing(old(current), next)
      ensures result.Refused? ==> current == old(current)
      ensures result.Accepted? ==> current.Some? && next == Some(current.value.engine)
                                   && Revision(current) == Revision(old(current)) + 1 <= MAX_REVISION
    {
      if next.None? {
        return Refused(InvalidEngine);
      }
      var revision := 0;
      if current.Some? {
        revision := current.value.identity.revision;
      }
      if revision == MAX_REVISION {
        return Refused(RevisionExhausted);
      }
      var identity := next.value.identity.(revision := revision + 1);
      current := Some(Published(next.value, identity));
      return Accepted(identity);
    }
  }

  /** Publishing to no runtime is refused before the engine is looked at. */
  method PublishTo(runtime: Runtime?, next: Option<Engine>) returns (result: PublishResult)
    requires runtime != null ==> Revision(runtime.current) <= MAX_REVISION
    modifies runtime
    ensures result == Refused(InvalidRuntime) <==> runtime == null
    ensures runtime != null ==> (runtime.current, result) == Publishing(old(runtime.current), next)
  {
    if runtime == null {
      return Refused(InvalidRuntime);
    }
    result := runtime.Publish(next);
  }

  // ----- all interleavings

  /** Where a publisher stands; from `Locked` to `Stored` it holds the lock. */
  datatype Stage =
    | Waiting
    | Locked
    | Loaded(revision: nat)
    | Stored(result: PublishResult)
    | Returned(result: PublishResult)

  datatype Publisher = Publisher(engine: Option<Engine>, stage: Stage)

  /** One load, by an execution or by a reader of the identity alone: the publication it loaded, and how many had been
      stored by then. */
  datatype Capture = Capture(loaded: Option<Published>, stores: nat)

  /** `log` is the history of stores, with the publisher that made each. */
  datatype State = State(
    current: Option<Published>, lock: Option<nat>, publishers: seq<Publisher>, fires: seq<Capture>,
    log: seq<(nat, Published)>)

  const INITIAL := State(None, None, [], [], [])

  datatype Step =
    | Call(engine: Option<Engine>)
    | Lock(p: nat)
    | Load(p: nat)
    | Store(p: nat)
    | Unlock(p: nat)
    | Fire

  predicate At(s: State, p: nat) { p < |s.publishers| }

  predicate Enabled(s: State, step: Step) {
    match step
    case Call(_) => true
    case Lock(p) => At(s, p) && s.publishers[p].stage == Waiting && s.lock == None
    case Load(p) => At(s, p) && s.publishers[p].stage == Locked
    case Store(p) => At(s, p) && s.publishers[p].stage.Loaded? && s.publishers[p].engine.Some?
    case Unlock(p) => At(s, p) && s.publishers[p].stage.Stored?
    case Fire => true
  }

  function Move(s: State, p: nat, stage: Stage): State
    requires At(s, p)
  {
    s.(publishers := s.publishers[p := s.publishers[p].(stage := stage)])
  }

  function Apply(s: State, step: Step): State
    requires Enabled(s, step)
  {
    match step
    case Call(engine) =>
      s.(publishers := s.publishers
                       + [Publisher(engine, if engine.None? then Returned(Refused(InvalidEngine)) else Waiting)])
    case Lock(p) => Move(s, p, Locked).(lock := Some(p))
    case Load(p) => Move(s, p, Loaded(Revision(s.current)))
    case Store(p) =>
      var revision := s.publishers[p].stage.revision;
      if revision == MAX_REVISION then Move(s, p, Stored(Refused(RevisionExhausted)))
      else
        var engine := s.publishers[p].engine.value;
        var identity := engine.identity.(revision := revision + 1);
        Move(s, p, Stored(Accepted(identity))).(
          current := Some(Published(engine, identity)), log := s.log + [(p, Published(engine, identity))])
    case Unlock(p) => Move(s, p, Returned(s.publishers[p].stage.result)).(lock := None)
    case Fire => s.(fires := s.fires + [Capture(s.current, |s.log|)])
  }

  function Run(steps: seq<Step>): Option<State> {
    if steps == [] then Some(INITIAL)
    else
      match Run(steps[..|steps| - 1])
      case Some(s) => if Enabled(s, steps[|steps| - 1]) then Some(Apply(s, steps[|steps| - 1])) else None
      case None => None
  }

  // ----- the invariant

  /** The log's last publication, at some earlier length. */
  function Logged(log: seq<(nat, Published)>, n: nat): Option<Published>
    requires n <= |log|
  {
    if n == 0 then None else Some(log[n - 1].1)
  }

  ghost predicate Holds(stage: Stage) { stage.Locked? || stage.Loaded? || stage.Stored? }

  ghost predicate StoreOk(s: State, i: nat)
    requires i < |s.log|
  {
    var (p, stored) := s.log[i];
    && stored.identity == stored.engine.identity.(revision := i + 1)
    && At(s, p) && s.publishers[p].engine == Some(stored.engine)
    && (s.publishers[p].stage == Stored(Accepted(stored.identity))
        || s.publishers[p].stage == Returned(Accepted(stored.identity)))
  }

  ghost predicate ResultOk(s: State, p: nat, result: PublishResult)
    requires At(s, p)
  {
    match result
    case Accepted(identity) =>
      && 1 <= identity.revision <= |s.log| && s.log[identity.revision - 1].0 == p
      && s.log[identity.revision - 1].1.identity == identity
    case Refused(InvalidRuntime) => false
    case Refused(InvalidEngine) => s.publishers[p].engine == None
    case Refused(RevisionExhausted) => |s.log| == MAX_REVISION
  }

  ghost predicate PublisherOk(s: State, p: nat)
    requires At(s, p)
  {
    var v := s.publishers[p];
    && (Holds(v.stage) <==> s.lock == Some(p))
    && (v.engine == None ==> v.stage.Returned?)
    && (v.stage.Loaded? ==> v.stage.revision == |s.log|)
    && (v.stage.Stored? || v.stage.Returned? ==> ResultOk(s, p, v.stage.result))
  }

  ghost predicate FireOk(s: State, f: nat)
    requires f < |s.fires|
  {
    s.fires[f].stores <= |s.log| && s.fires[f].loaded == Logged(s.log, s.fires[f].stores)
  }

  ghost predicate Invariant(s: State) {
    && s.current == Logged(s.log, |s.log|) && |s.log| <= MAX_REVISION
    && (s.lock.Some? ==> At(s, s.lock.value))
    && (forall i :: 0 <= i < |s.log| ==> StoreOk(s, i))
    && (forall p :: 0 <= p < |s.publishers| ==> PublisherOk(s, p))
    && (forall f :: 0 <= f < |s.fires| ==> FireOk(s, f))
    && (forall f, g :: 0 <= f <= g < |s.fires| ==> s.fires[f].stores <= s.fires[g].stores)
  }

  lemma {:induction false} CurrentRevision(s: State)
    requires Invariant(s)
    ensures Revision(s.current) == |s.log|
  {
    if s.log != [] {
      assert StoreOk(s, |s.log| - 1);
    }
  }

  /** Steps that store nothing. */
  lemma {:induction false} QuietStepKeeps(s: State, step: Step)
    requires Invariant(s) && Enabled(s, step) && !step.Store?
    ensures Invariant(Apply(s, step))
  {
    var t := Apply(s, step);
    CurrentRevision(s);
    forall i | 0 <= i < |t.log| ensures StoreOk(t, i) {
      assert StoreOk(s, i);
      assert t.publishers[s.log[i].0].engine == s.publishers[s.log[i].0].engine;
    }
    if step.Lock? || step.Load? || step.Unlock? {
      assert PublisherOk(s, step.p);
    }
    forall p | 0 <= p < |t.publishers| ensures PublisherOk(t, p) {
      if p < |s.publishers| {
        assert PublisherOk(s, p);
      }
    }
    forall f | 0 <= f < |t.fires| ensures FireOk(t, f) {
      assert f < |s.fires| ==> FireOk(s, f);
    }
    forall f | 0 <= f < |s.fires| ensures s.fires[f].stores <= |s.log| {
      assert FireOk(s, f);
    }
  }

  lemma {:induction false} StoreKeeps(s: State, p: nat)
    requires Invariant(s) && Enabled(s, Store(p))
    ensures Invariant(Apply(s, Store(p)))
  {
    var t := Apply(s, Store(p));
    assert PublisherOk(s, p);
    forall i | 0 <= i < |t.log| ensures StoreOk(t, i) {
      if i < |s.log| {
        assert StoreOk(s, i);
        assert t.publishers[s.log[i].0].engine == s.publishers[s.log[i].0].engine;
      }
    }
    forall q | 0 <= q < |t.publishers| ensures PublisherOk(t, q) {
      assert PublisherOk(s, q);
    }
    forall f | 0 <= f < |t.fires| ensures FireOk(t, f) {
      assert FireOk(s, f);
    }
  }

  /** No interleaving breaks the invariant. */
  lemma {:induction false} RunsKeepInvariant(steps: seq<Step>)
    requires Run(steps).Some?
    ensures Invariant(Run(steps).value)
  {
    hide Invariant, Apply, Enabled;
    if steps == [] {
      NothingPublished();
    } else {
      RunsKeepInvariant(steps[..|steps| - 1]);
      var s := Run(steps[..|steps| - 1]).value;
      var step := steps[|steps| - 1];
      if step.Store? {
        StoreKeeps(s, step.p);
      } else {
        QuietStepKeeps(s, step);
      }
    }
  }

  lemma {:induction false} NothingPublished()
    ensures Invariant(INITIAL)
  {}

  // ----- what every run guarantees

  /** The visible revision is the number of successful stores: the n-th store has revision n, so none is skipped or
      repeated and none wraps, and the publication visible now is the last one stored. */
  lemma {:induction false} RevisionsCountStores(steps: seq<Step>)
    requires Run(steps).Some?
    ensures var s := Run(steps).value;
            && Revision(s.current) == |s.log| <= 0xFFFF_FFFF_FFFF_FFFF
            && (forall i :: 0 <= i < |s.log| ==> s.log[i].1.identity.revision == i + 1)
            && s.current == Logged(s.log, |s.log|)
  {
    RunsKeepInvariant(steps);
    var s := Run(steps).value;
    CurrentRevision(s);
    forall i | 0 <= i < |s.log| ensures s.log[i].1.identity.revision == i + 1 {
      assert StoreOk(s, i);
    }
  }

  /** A step changes the current publication only by storing, and then it does exactly what the publisher alone would do
      to the publication current at that moment; a step that refuses leaves it. */
  lemma {:induction false} StoresAreAtomicPublishes(steps: seq<Step>, step: Step)
    requires Run(steps).Some? && Enabled(Run(steps).value, step)
    ensures var s := Run(steps).value;
            var t := Apply(s, step);
            && (!step.Store? ==> t.current == s.current)
            && (step.Store? ==>
                  t.publishers[step.p].stage.Stored?
                  && (t.current, t.publishers[step.p].stage.result)
                     == Publishing(s.current, s.publishers[step.p].engine))
  {
    RunsKeepInvariant(steps);
    var s := Run(steps).value;
    hide Run;
    CurrentRevision(s);
    if step.Store? {
      assert PublisherOk(s, step.p);
    }
  }

  /** Every publisher accepted owns one store, made with its own engine under the revision it was told; two accepted
      publishers never share a revision. A refusal means no engine, or every revision in use. */
  lemma {:induction false} ResultsMatchStores(steps: seq<Step>, p: nat)
    requires Run(steps).Some? && p < |Run(steps).value.publishers| && Run(steps).value.publishers[p].stage.Returned?
    ensures var s := Run(steps).value;
            match s.publishers[p].stage.result
            case Accepted(identity) =>
              && 1 <= identity.revision <= |s.log|
              && s.publishers[p].engine.Some?
              && s.log[identity.revision - 1] == (p, Published(s.publishers[p].engine.value, identity))
            case Refused(InvalidRuntime) => false
            case Refused(InvalidEngine) => s.publishers[p].engine == None
            case Refused(RevisionExhausted) => |s.log| == 0xFFFF_FFFF_FFFF_FFFF
  {
    RunsKeepInvariant(steps);
    var s := Run(steps).value;
    hide Run;
    assert PublisherOk(s, p);
    if s.publishers[p].stage.result.Accepted? {
      assert StoreOk(s, s.publishers[p].stage.result.identity.revision - 1);
    }
  }

  /** Every execution uses an engine and an identity that one publisher stored together, namely the publication current
      when it loaded; later loads never see an earlier one. */
  lemma {:induction false} FiresUseStoredPairs(steps: seq<Step>, f: nat, g: nat)
    requires Run(steps).Some? && f <= g < |Run(steps).value.fires|
    ensures var s := Run(steps).value;
            && Revision(s.fires[f].loaded) <= Revision(s.fires[g].loaded)
            && match s.fires[f].loaded
               case None => s.fires[f].stores == 0
               case Some(pub) =>
                 && 1 <= pub.identity.revision <= |s.log| && s.log[pub.identity.revision - 1].1 == pub
                 && pub.identity == pub.engine.identity.(revision := pub.identity.revision)
  {
    RunsKeepInvariant(steps);
    var s := Run(steps).value;
    hide Run;
    assert FireOk(s, f) && FireOk(s, g);
    if s.fires[f].stores > 0 {
      assert StoreOk(s, s.fires[f].stores - 1);
    }
    if s.fires[g].stores > 0 {
      assert StoreOk(s, s.fires[g].stores - 1);
    }
  }
}
