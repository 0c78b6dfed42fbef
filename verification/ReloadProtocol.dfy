/** Concurrent reloads, subscriptions and readers of the configuration, as interleaved steps.

The epoch counter is read and bumped with relaxed ordering. A bump is a read-modify-write and
sees the newest value; a plain read may return any value not older than what the reading
thread already knows. Knowledge passes from thread to thread through the lock alone, so each
reload has a `view`, and the lock carries the join of the views of those who held it. */
module ReloadProtocol {
  import opened Options
  import opened WatchTable
  import opened ConfigState

  /** Where one call of `reload` stands. */
  datatype Phase =
    | Loading
    | Loaded(loaded: LoadedConfig)          // before the check outside the lock
    | Current(loaded: LoadedConfig)         // that check passed; wants the lock
    | Locked(loaded: LoadedConfig)          // holds the lock, before the second check
    | Applying(loaded: LoadedConfig)        // holds the lock, second check passed
    | Notifying(todo: set<nat>, refused: set<nat>)
    | Finished

  /** Reloads are numbered by the epoch they bumped to. */
  datatype Reload = Reload(phase: Phase, view: nat)

  datatype AppliedLoad = AppliedLoad(id: nat, loaded: LoadedConfig)

  datatype Outcome = Good(config: Config) | Bad(error: string)

  datatype Handle = Handle(config: Config, generation: nat)

  datatype State = State(
    epoch: nat,
    lock: Option<nat>,
    lockView: nat,
    inner: Inner,
    reloads: map<nat, Reload>,
    // What has happened so far.
    loads: map<nat, LoadedConfig>,
    applied: seq<AppliedLoad>,
    outcomes: seq<Outcome>,
    handles: set<Handle>,
    unsubscribed: set<nat>,
    refusedOnce: set<nat>)

  datatype Step =
    | Bump
    | Load(id: nat, loaded: LoadedConfig)
    | FirstCheck(id: nat, seen: nat)
    | Acquire(id: nat)
    | SecondCheck(id: nat, seen: nat)
    | ApplyAndRelease(id: nat, world: World)
    | Notify(id: nat, subscriber: nat, keep: bool)
    | DropRefused(id: nat)
    | Subscribe
    | Unsubscribe(subscriber: nat)
    | Get
    | Replace(config: Config)
    | DeferWatchers
    | EnableWatchers(answers: seq<Answer>)

  function Max(a: nat, b: nat): nat {
    if a < b then b else a
  }

  function OutcomeOf(r: Result): Outcome {
    match r
    case Ok(config) => Good(config)
    case Err(error) => Bad(error)
  }

  function SetPhase(s: State, id: nat, phase: Phase): State
    requires id in s.reloads
  {
    s.(reloads := s.reloads[id := s.reloads[id].(phase := phase)])
  }

  /** Whether a step can be taken. */
  ghost predicate Enabled(s: State, step: Step) {
    match step
    case Bump => true
    case Load(id, _) => id in s.reloads && s.reloads[id].phase.Loading?
    case FirstCheck(id, seen) =>
      id in s.reloads && s.reloads[id].phase.Loaded? && s.reloads[id].view <= seen <= s.epoch
    case Acquire(id) => id in s.reloads && s.reloads[id].phase.Current? && s.lock.None?
    case SecondCheck(id, seen) =>
      id in s.reloads && s.reloads[id].phase.Locked? && s.reloads[id].view <= seen <= s.epoch
    case ApplyAndRelease(id, w) =>
      id in s.reloads && s.reloads[id].phase.Applying? && |w.answers| == |WatchPaths(s.reloads[id].phase.loaded)|
    case Notify(id, subscriber, _) =>
      id in s.reloads && s.reloads[id].phase.Notifying? && subscriber in s.reloads[id].phase.todo
    case DropRefused(id) =>
      && id in s.reloads && s.reloads[id].phase.Notifying? && s.reloads[id].phase.todo == {}
      && (s.reloads[id].phase.refused == {} || s.lock.None?)
    // A subscription unsubscribes when it is dropped, so the id has been handed out.
    case Unsubscribe(subscriber) => s.lock.None? && subscriber < s.inner.nextSubscriber
    case EnableWatchers(answers) => s.lock.None? && |answers| == |s.inner.pending|
    case _ => s.lock.None?
  }

  /** The state after a step. The operations of others than reloads hold the lock throughout. */
  ghost function After(s: State, step: Step): State
    requires Enabled(s, step)
  {
    match step
    case Bump =>
      var id := s.epoch + 1;
      s.(epoch := id, reloads := s.reloads[id := Reload(Loading, id)])
    case Load(id, l) => SetPhase(s, id, Loaded(l)).(loads := s.loads[id := l])
    case FirstCheck(id, seen) =>
      var next := if seen == id then Current(s.reloads[id].phase.loaded) else Finished;
      s.(reloads := s.reloads[id := Reload(next, seen)])
    case Acquire(id) =>
      var r := Reload(Locked(s.reloads[id].phase.loaded), Max(s.reloads[id].view, s.lockView));
      s.(lock := Some(id), reloads := s.reloads[id := r])
    case SecondCheck(id, seen) =>
      if seen == id then s.(reloads := s.reloads[id := Reload(Applying(s.reloads[id].phase.loaded), seen)])
      else s.(reloads := s.reloads[id := Reload(Finished, seen)], lock := None, lockView := Max(s.lockView, seen))
    case ApplyAndRelease(id, w) =>
      var l := s.reloads[id].phase.loaded;
      SetPhase(s, id, Notifying(s.inner.subscribers, {})).(
        inner := Apply(s.inner, l, w), applied := s.applied + [AppliedLoad(id, l)], outcomes := s.outcomes + [OutcomeOf(l.config)],
        lock := None, lockView := Max(s.lockView, s.reloads[id].view))
    case Notify(id, subscriber, keep) =>
      var p := s.reloads[id].phase;
      var dropped := if keep then {} else {subscriber};
      SetPhase(s, id, Notifying(p.todo - {subscriber}, p.refused + dropped)).(refusedOnce := s.refusedOnce + dropped)
    case DropRefused(id) =>
      SetPhase(s, id, Finished).(
        inner := s.inner.(subscribers := s.inner.subscribers - s.reloads[id].phase.refused))
    case Subscribe =>
      var id := s.inner.nextSubscriber;
      s.(inner := s.inner.(subscribers := s.inner.subscribers + {id}, nextSubscriber := id + 1))
    case Unsubscribe(id) =>
      s.(inner := s.inner.(subscribers := s.inner.subscribers - {id}), unsubscribed := s.unsubscribed + {id})
    case Get => s.(handles := s.handles + {Handle(s.inner.config, s.inner.generation)})
    case Replace(config) => s.(inner := Use(s.inner, config), outcomes := s.outcomes + [Good(config)])
    case DeferWatchers => s.(inner := s.inner.(deferred := true))
    case EnableWatchers(answers) => s.(inner := ConfigState.Enable(s.inner, answers))
  }

  ghost predicate Init(s: State) {
    && s.epoch == 0 && s.lock.None? && s.lockView == 0 && s.reloads == map[] && s.loads == map[]
    && s.inner == Inner(s.inner.config, None, [], 0, EMPTY, false, [], {}, 0)
    && s.applied == [] && s.outcomes == [] && s.handles == {} && s.unsubscribed == {} && s.refusedOnce == {}
  }

  ghost predicate Behaviour(states: seq<State>, steps: seq<Step>) {
    && |states| == |steps| + 1 && Init(states[0])
    && forall i :: 0 <= i < |steps| ==> Enabled(states[i], steps[i]) && states[i + 1] == After(states[i], steps[i])
  }

  ghost predicate Quiet(s: State) {
    forall id :: id in s.reloads ==> s.reloads[id].phase.Finished?
  }

  // ----- Latest reload wins -----

  function Newest(s: State): nat {
    if s.applied == [] then 0 else s.applied[|s.applied| - 1].id
  }

  /** Past the second check for good, with or without having applied. */
  predicate PastApply(p: Phase) {
    p.Notifying? || p.Finished?
  }

  predicate HoldsLock(p: Phase) {
    p.Locked? || p.Applying?
  }

  /** Ids are epochs; a reload knows of its own bump and no more than has happened; it holds
  the lock from acquiring it to the end of the application, and then knows what the lock knows. */
  ghost predicate ReloadOk(s: State, id: nat) {
    id in s.reloads ==>
      var r := s.reloads[id];
      && 1 <= id <= r.view <= s.epoch
      && (HoldsLock(r.phase) <==> s.lock == Some(id))
      && (HoldsLock(r.phase) ==> s.lockView <= r.view)
      && (r.phase.Applying? ==> r.view == id && Newest(s) < id)
  }

  ghost predicate AppliedOk(s: State) {
    && (forall i :: 0 <= i < |s.applied| ==> s.applied[i].id in s.reloads && PastApply(s.reloads[s.applied[i].id].phase))
    && (forall i, j :: 0 <= i < j < |s.applied| ==> s.applied[i].id < s.applied[j].id)
  }

  ghost predicate Ordered(s: State) {
    && (forall id :: ReloadOk(s, id))
    && AppliedOk(s)
    && (s.lock.Some? ==> s.lock.value in s.reloads)
    && Newest(s) <= s.lockView <= s.epoch
    && (s.epoch > 0 ==> s.epoch in s.reloads && (Newest(s) == s.epoch || !PastApply(s.reloads[s.epoch].phase)))
  }

  lemma AppliedKept(s: State, s': State)
    requires AppliedOk(s) && s'.applied == s.applied
    requires forall id :: id in s.reloads && PastApply(s.reloads[id].phase) ==> id in s'.reloads && PastApply(s'.reloads[id].phase)
    ensures AppliedOk(s')
  {
  }

  lemma BumpOrdered(s: State)
    requires Ordered(s)
    ensures Ordered(After(s, Bump))
  {
    var s' := After(s, Bump);
    assert ReloadOk(s, s.epoch + 1);
    forall id ensures ReloadOk(s', id) {
      assert ReloadOk(s, id);
    }
    AppliedKept(s, s');
  }

  /** A reload moves on without touching the lock: it cannot be the newest one giving up. */
  lemma MoveOrdered(s: State, s': State, id: nat, r: Reload)
    requires Ordered(s) && id in s.reloads && s'.reloads == s.reloads[id := r]
    requires s'.epoch == s.epoch && s'.lock == s.lock && s'.lockView == s.lockView && s'.applied == s.applied
    requires !HoldsLock(s.reloads[id].phase) && !HoldsLock(r.phase) && s.reloads[id].view <= r.view <= s.epoch
    requires PastApply(r.phase) ==> PastApply(s.reloads[id].phase) || id < s.epoch
    requires PastApply(s.reloads[id].phase) ==> PastApply(r.phase)
    ensures Ordered(s')
  {
    forall i ensures ReloadOk(s', i) {
      assert ReloadOk(s, i) && ReloadOk(s, id);
    }
    AppliedKept(s, s');
  }

  lemma AcquireOrdered(s: State, id: nat)
    requires Ordered(s) && Enabled(s, Acquire(id))
    ensures Ordered(After(s, Acquire(id)))
  {
    var s' := After(s, Acquire(id));
    forall i ensures ReloadOk(s', i) {
      assert ReloadOk(s, i) && ReloadOk(s, id);
    }
    AppliedKept(s, s');
  }

  lemma SecondCheckOrdered(s: State, id: nat, seen: nat)
    requires Ordered(s) && Enabled(s, SecondCheck(id, seen))
    ensures Ordered(After(s, SecondCheck(id, seen)))
  {
    var s' := After(s, SecondCheck(id, seen));
    assert ReloadOk(s, id);
    assert Newest(s) != id;
    forall i ensures ReloadOk(s', i) {
      assert ReloadOk(s, i);
    }
    AppliedKept(s, s');
  }

  lemma ApplyOrdered(s: State, id: nat, w: World)
    requires Ordered(s) && Enabled(s, ApplyAndRelease(id, w))
    ensures Ordered(After(s, ApplyAndRelease(id, w)))
  {
    var s' := After(s, ApplyAndRelease(id, w));
    assert ReloadOk(s, id);
    forall i ensures ReloadOk(s', i) {
      assert ReloadOk(s, i);
    }
    forall i, j | 0 <= i < j < |s'.applied| ensures s'.applied[i].id < s'.applied[j].id {
      if j == |s.applied| && i < j - 1 {
        assert s.applied[i].id < s.applied[j - 1].id;
      }
    }
  }

  lemma OrderedStep(s: State, step: Step)
    requires Ordered(s) && Enabled(s, step)
    ensures Ordered(After(s, step))
  {
    hide AppliedOk, Apply, Use, ConfigState.Enable;
    match step
    case Bump => BumpOrdered(s);
    case Load(id, _) =>
      assert ReloadOk(s, id);
      MoveOrdered(s, After(s, step), id, After(s, step).reloads[id]);
    case FirstCheck(id, seen) =>
      assert ReloadOk(s, id);
      MoveOrdered(s, After(s, step), id, After(s, step).reloads[id]);
    case Acquire(id) => AcquireOrdered(s, id);
    case SecondCheck(id, seen) => SecondCheckOrdered(s, id, seen);
    case ApplyAndRelease(id, w) => ApplyOrdered(s, id, w);
    case Notify(id, _, _) =>
      assert ReloadOk(s, id);
      MoveOrdered(s, After(s, step), id, After(s, step).reloads[id]);
    case DropRefused(id) =>
      assert ReloadOk(s, id);
      MoveOrdered(s, After(s, step), id, After(s, step).reloads[id]);
    case _ => OthersOrdered(s, After(s, step));
  }

  lemma OthersOrdered(s: State, s': State)
    requires Ordered(s) && s'.reloads == s.reloads && s'.lock == s.lock
    requires s'.epoch == s.epoch && s'.lockView == s.lockView && s'.applied == s.applied
    ensures Ordered(s')
  {
    forall id ensures ReloadOk(s', id) {
      assert ReloadOk(s, id);
    }
    AppliedKept(s, s');
  }

  lemma {:induction false} OrderedAlways(states: seq<State>, steps: seq<Step>, i: nat)
    requires Behaviour(states, steps) && i < |states|
    ensures Ordered(states[i])
  {
    if i > 0 {
      OrderedAlways(states, steps, i - 1);
      OrderedStep(states[i - 1], steps[i - 1]);
    }
  }

  // ----- Each applied load is what that reload read -----

  ghost predicate OwnLoad(s: State, id: nat) {
    id in s.reloads ==>
      var p := s.reloads[id].phase;
      (p.Loaded? || p.Current? || HoldsLock(p)) ==> id in s.loads && s.loads[id] == p.loaded
  }

  ghost predicate OwnLoads(s: State) {
    && (forall id :: OwnLoad(s, id))
    && (forall id :: id in s.loads ==> id in s.reloads && !s.reloads[id].phase.Loading?)
    && (forall i :: 0 <= i < |s.applied| ==> s.applied[i].id in s.loads && s.applied[i].loaded == s.loads[s.applied[i].id])
  }

  lemma OwnLoadStep(s: State, step: Step, id: nat)
    requires Ordered(s) && OwnLoads(s) && Enabled(s, step)
    ensures OwnLoad(After(s, step), id)
    ensures id in After(s, step).loads ==> id in After(s, step).reloads && !After(s, step).reloads[id].phase.Loading?
  {
    hide Apply, Use, ConfigState.Enable, AppliedOk;
    assert ReloadOk(s, s.epoch + 1) && OwnLoad(s, id);
  }

  lemma AppliedLoadStep(s: State, step: Step, i: nat)
    requires Ordered(s) && OwnLoads(s) && Enabled(s, step) && i < |After(s, step).applied|
    ensures var s' := After(s, step);
      s'.applied[i].id in s'.loads && s'.applied[i].loaded == s'.loads[s'.applied[i].id]
  {
    hide Apply, Use, ConfigState.Enable, ReloadOk;
    if step.ApplyAndRelease? {
      assert OwnLoad(s, step.id);
    }
    if i < |s.applied| {
      assert PastApply(s.reloads[s.applied[i].id].phase);
    }
  }

  lemma OwnLoadsStep(s: State, step: Step)
    requires Ordered(s) && OwnLoads(s) && Enabled(s, step)
    ensures OwnLoads(After(s, step))
  {
    forall id { OwnLoadStep(s, step, id); }
    forall i: nat | i < |After(s, step).applied| { AppliedLoadStep(s, step, i); }
    hide After, Enabled, OwnLoad, Ordered;
  }

  lemma {:induction false} OwnLoadsAlways(states: seq<State>, steps: seq<Step>, i: nat)
    requires Behaviour(states, steps) && i < |states|
    ensures OwnLoads(states[i])
  {
    if i > 0 {
      OwnLoadsAlways(states, steps, i - 1);
      OrderedAlways(states, steps, i - 1);
      OwnLoadsStep(states[i - 1], steps[i - 1]);
    }
  }

  /** In every interleaving the ids of the applied loads increase strictly, each applied load is
  the one its reload read, and once no reload is in flight the last one applied is the one
  started last. */
  lemma LatestReloadWins(states: seq<State>, steps: seq<Step>, i: nat)
    requires Behaviour(states, steps) && i < |states|
    ensures var s := states[i];
      && (forall j, k :: 0 <= j < k < |s.applied| ==> s.applied[j].id < s.applied[k].id)
      && (forall j :: 0 <= j < |s.applied| ==>
            s.applied[j].id in s.loads && s.applied[j].loaded == s.loads[s.applied[j].id])
      && (Quiet(s) && s.epoch > 0 ==> s.applied != [] && s.applied[|s.applied| - 1].id == s.epoch)
  {
    OrderedAlways(states, steps, i);
    OwnLoadsAlways(states, steps, i);
  }

  // ----- Generation determines configuration -----

  /** The outcomes in the order they took effect, as the state tells them. */
  function Configs(initial: Config, outcomes: seq<Outcome>): (cs: seq<Config>)
    ensures |cs| > 0
  {
    if outcomes == [] then [initial]
    else
      var before, last := Configs(initial, outcomes[..|outcomes| - 1]), outcomes[|outcomes| - 1];
      if last.Good? then before + [last.config] else before
  }

  function LastError(outcomes: seq<Outcome>): Option<string> {
    if outcomes != [] && outcomes[|outcomes| - 1].Bad? then Some(outcomes[|outcomes| - 1].error) else None
  }

  /** Generation `g` is the configuration after `g` successes, for the state and every handle
  ever returned; an error is recorded exactly while the last outcome was a failure. */
  ghost predicate Generations(s: State, initial: Config) {
    var configs := Configs(initial, s.outcomes);
    && s.inner.generation == |configs| - 1
    && s.inner.config == configs[|configs| - 1]
    && s.inner.error == LastError(s.outcomes)
    && (forall h :: h in s.handles ==> h.generation < |configs| && h.config == configs[h.generation])
  }

  /** One more outcome: a success adds its configuration, a failure adds none. */
  lemma OutcomeTaken(s: Inner, r: ConfigState.Result, initial: Config, outcomes: seq<Outcome>)
    requires var configs := Configs(initial, outcomes);
      s.generation == |configs| - 1 && s.config == configs[|configs| - 1]
    ensures var s' := TakeResult(s, r);
      var outcomes' := outcomes + [OutcomeOf(r)];
      var configs' := Configs(initial, outcomes');
      && s'.generation == |configs'| - 1 && s'.config == configs'[|configs'| - 1] && s'.error == LastError(outcomes')
      && Configs(initial, outcomes) <= configs' && s.generation <= s'.generation
  {
    assert (outcomes + [OutcomeOf(r)])[..|outcomes|] == outcomes;
  }

  lemma ApplyTakes(s: Inner, l: LoadedConfig, w: World)
    requires |w.answers| == |WatchPaths(l)|
    ensures var s', t := Apply(s, l, w), TakeResult(s, l.config);
      s'.generation == t.generation && s'.config == t.config && s'.error == t.error
  {
  }

  /** An outcome keeps what handles already hold. */
  lemma GenerationsGrown(s: State, s': State, r: ConfigState.Result, initial: Config)
    requires Generations(s, initial) && s'.handles == s.handles && s'.outcomes == s.outcomes + [OutcomeOf(r)]
    requires var t := TakeResult(s.inner, r);
      s'.inner.generation == t.generation && s'.inner.config == t.config && s'.inner.error == t.error
    ensures Generations(s', initial) && s.inner.generation <= s'.inner.generation
  {
    OutcomeTaken(s.inner, r, initial, s.outcomes);
    hide Configs, TakeResult, LastError, OutcomeOf;
  }

  lemma GenerationsSame(s: State, s': State, initial: Config)
    requires Generations(s, initial) && s'.outcomes == s.outcomes
    requires s'.inner.generation == s.inner.generation && s'.inner.config == s.inner.config && s'.inner.error == s.inner.error
    requires s'.handles <= s.handles + {Handle(s.inner.config, s.inner.generation)}
    ensures Generations(s', initial)
  {
    hide Configs, LastError;
  }

  lemma GenerationsStep(s: State, step: Step, initial: Config)
    requires Generations(s, initial) && Enabled(s, step)
    ensures Generations(After(s, step), initial) && s.inner.generation <= After(s, step).inner.generation
  {
    hide Configs, LastError, Generations, OutcomeOf;
    var s' := After(s, step);
    if step.ApplyAndRelease? {
      ApplyTakes(s.inner, s.reloads[step.id].phase.loaded, step.world);
      hide Apply, TakeResult;
      GenerationsGrown(s, s', s.reloads[step.id].phase.loaded.config, initial);
    } else if step.Replace? {
      OutcomeGood(step.config);
      GenerationsGrown(s, s', Ok(step.config), initial);
    } else {
      hide TakeResult, Apply;
      GenerationsSame(s, s', initial);
    }
  }

  lemma OutcomeGood(config: Config)
    ensures OutcomeOf(Ok(config)) == Good(config)
  {
  }

  lemma {:induction false} GenerationsAlways(states: seq<State>, steps: seq<Step>, i: nat)
    requires Behaviour(states, steps) && i < |states|
    ensures Generations(states[i], states[0].inner.config)
  {
    if i > 0 {
      GenerationsAlways(states, steps, i - 1);
      GenerationsStep(states[i - 1], steps[i - 1], states[0].inner.config);
    }
  }

  lemma {:induction false} GenerationsGrow(states: seq<State>, steps: seq<Step>, i: nat, j: nat)
    requires Behaviour(states, steps) && i <= j < |states|
    ensures states[i].inner.generation <= states[j].inner.generation
    decreases j
  {
    if i < j {
      GenerationsGrow(states, steps, i, j - 1);
      GenerationsAlways(states, steps, j - 1);
      GenerationsStep(states[j - 1], steps[j - 1], states[0].inner.config);
    }
  }

  /** Over every run two handles of the same generation hold the same configuration, also the
  configuration in force, and the generation never goes back. */
  lemma GenerationDeterminesConfig(states: seq<State>, steps: seq<Step>, i: nat, j: nat, a: Handle, b: Handle)
    requires Behaviour(states, steps) && i <= j < |states|
    requires a in states[j].handles && b in states[j].handles && a.generation == b.generation
    ensures a.config == b.config
    ensures a.generation == states[j].inner.generation ==> a.config == states[j].inner.config
    ensures states[i].inner.generation <= states[j].inner.generation
  {
    GenerationsAlways(states, steps, j);
    GenerationsGrow(states, steps, i, j);
  }

  // ----- Subscribers -----

  /** Only ids handed out are notified, and only refusals really given are acted on. */
  ghost predicate NotifyingOk(s: State, id: nat) {
    id in s.reloads && s.reloads[id].phase.Notifying? ==>
      var p := s.reloads[id].phase;
      && (forall sub :: sub in p.todo ==> sub < s.inner.nextSubscriber)
      && p.refused <= s.refusedOnce
  }

  /** Some reload has heard this subscriber refuse and has yet to drop it. */
  ghost predicate Leaving(s: State, sub: nat) {
    exists id :: id in s.reloads && s.reloads[id].phase.Notifying? && sub in s.reloads[id].phase.refused
  }

  ghost predicate SubscriberOk(s: State, sub: nat) {
    && (sub in s.inner.subscribers ==> sub < s.inner.nextSubscriber && sub !in s.unsubscribed)
    && (sub in s.inner.subscribers && sub in s.refusedOnce ==> Leaving(s, sub))
    && (sub < s.inner.nextSubscriber && sub !in s.inner.subscribers ==> sub in s.unsubscribed || sub in s.refusedOnce)
    && (sub in s.unsubscribed || sub in s.refusedOnce ==> sub < s.inner.nextSubscriber)
  }

  ghost predicate Subscriptions(s: State) {
    (forall id :: NotifyingOk(s, id)) && (forall sub :: SubscriberOk(s, sub))
  }

  lemma StillLeaving(s: State, s': State, sub: nat, changed: nat)
    requires Leaving(s, sub)
    requires forall id :: id in s.reloads && id != changed ==> id in s'.reloads && s'.reloads[id] == s.reloads[id]
    requires changed in s.reloads && s.reloads[changed].phase.Notifying? && sub in s.reloads[changed].phase.refused ==>
      changed in s'.reloads && s'.reloads[changed].phase.Notifying? && sub in s'.reloads[changed].phase.refused
    ensures Leaving(s', sub)
  {
    var id :| id in s.reloads && s.reloads[id].phase.Notifying? && sub in s.reloads[id].phase.refused;
    assert id in s'.reloads && s'.reloads[id].phase.Notifying? && sub in s'.reloads[id].phase.refused;
  }

  function ReloadOf(step: Step): nat {
    match step
    case Load(id, _) => id
    case FirstCheck(id, _) => id
    case Acquire(id) => id
    case SecondCheck(id, _) => id
    case ApplyAndRelease(id, _) => id
    case Notify(id, _, _) => id
    case DropRefused(id) => id
    case _ => 0
  }

  lemma NotifyingStep(s: State, step: Step, id: nat)
    requires Ordered(s) && Subscriptions(s) && Enabled(s, step)
    ensures NotifyingOk(After(s, step), id)
  {
    hide Unwatch, WatchAll, AppliedOk, ReloadOk, Consistent;
    assert NotifyingOk(s, id);
    forall sub | sub in s.inner.subscribers ensures sub < s.inner.nextSubscriber {
      assert SubscriberOk(s, sub);
    }
  }

  lemma SubscriberStep(s: State, step: Step, sub: nat)
    requires Ordered(s) && Subscriptions(s) && Enabled(s, step)
    ensures SubscriberOk(After(s, step), sub)
  {
    hide Unwatch, WatchAll, AppliedOk;
    var s' := After(s, step);
    var moved := if step.Bump? then s'.epoch else ReloadOf(step);
    assert ReloadOk(s, s.epoch + 1) && ReloadOk(s, 0);
    hide ReloadOk;
    assert SubscriberOk(s, sub) && NotifyingOk(s, moved);
    if sub in s'.inner.subscribers && sub in s'.refusedOnce {
      if sub in s.refusedOnce {
        StillLeaving(s, s', sub, moved);
      } else {
        assert sub in s'.reloads[moved].phase.refused;
      }
    }
  }

  lemma SubscriptionsStep(s: State, step: Step)
    requires Ordered(s) && Subscriptions(s) && Enabled(s, step)
    ensures Subscriptions(After(s, step))
  {
    forall id ensures NotifyingOk(After(s, step), id) {
      NotifyingStep(s, step, id);
    }
    forall sub ensures SubscriberOk(After(s, step), sub) {
      SubscriberStep(s, step, sub);
    }
  }

  lemma {:induction false} SubscriptionsAlways(states: seq<State>, steps: seq<Step>, i: nat)
    requires Behaviour(states, steps) && i < |states|
    ensures Subscriptions(states[i])
  {
    if i > 0 {
      SubscriptionsAlways(states, steps, i - 1);
      OrderedAlways(states, steps, i - 1);
      SubscriptionsStep(states[i - 1], steps[i - 1]);
    }
  }

  /** In every interleaving a subscriber that was handed an id is in the table unless it
  unsubscribed or its own callback refused; once no reload is in flight, those are exactly the
  ones that are gone. */
  lemma RemovalIsPrecise(states: seq<State>, steps: seq<Step>, i: nat, sub: nat)
    requires Behaviour(states, steps) && i < |states|
    ensures var s := states[i];
      && (sub < s.inner.nextSubscriber && sub !in s.unsubscribed && sub !in s.refusedOnce ==> sub in s.inner.subscribers)
      && (Quiet(s) ==> (sub in s.inner.subscribers <==>
            sub < s.inner.nextSubscriber && sub !in s.unsubscribed && sub !in s.refusedOnce))
  {
    SubscriptionsAlways(states, steps, i);
    assert SubscriberOk(states[i], sub);
  }

  // ----- Everyone is called -----

  /** After step `i` and before state `j` the reload has called the subscriber back. */
  ghost predicate Called(steps: seq<Step>, i: nat, j: nat, id: nat, sub: nat) {
    exists k :: i < k < j <= |steps| && steps[k].Notify? && steps[k].id == id && steps[k].subscriber == sub
  }

  lemma CalledMore(steps: seq<Step>, i: nat, j: nat, id: nat, sub: nat)
    requires i < j < |steps|
    ensures Called(steps, i, j + 1, id, sub) <==>
      Called(steps, i, j, id, sub) || (steps[j].Notify? && steps[j].id == id && steps[j].subscriber == sub)
  {
  }

  /** A reload past its application only calls those it has to, one at a time, and finishes when
  there are none left. */
  lemma PastStays(s: State, step: Step, id: nat)
    requires Ordered(s) && Enabled(s, step) && id in s.reloads && PastApply(s.reloads[id].phase)
    ensures id in After(s, step).reloads && PastApply(After(s, step).reloads[id].phase)
    ensures
      var p, p' := s.reloads[id].phase, After(s, step).reloads[id].phase;
      if step.Notify? && step.id == id then
        p.Notifying? && p'.Notifying? && step.subscriber in p.todo && p'.todo == p.todo - {step.subscriber}
      else if step.DropRefused? && step.id == id then p.Notifying? && p.todo == {} && p'.Finished?
      else p' == p
  {
    assert ReloadOk(s, id);
    hide Apply, Use, ConfigState.Enable, ReloadOk, AppliedOk;
  }

  /** Those still to be called are those present when the load was applied and not called yet. */
  ghost predicate Told(p: Phase, present: set<nat>, steps: seq<Step>, i: nat, j: nat, id: nat) {
    && PastApply(p)
    && (p.Notifying? ==> forall sub :: sub in p.todo <==> sub in present && !Called(steps, i, j, id, sub))
    && (p.Finished? ==> forall sub :: sub in present ==> Called(steps, i, j, id, sub))
  }

  lemma {:induction false} ToldAlways(states: seq<State>, steps: seq<Step>, i: nat, j: nat, id: nat)
    requires Behaviour(states, steps) && i < j < |states|
    requires steps[i].ApplyAndRelease? && steps[i].id == id
    ensures id in states[j].reloads && Told(states[j].reloads[id].phase, states[i].inner.subscribers, steps, i, j, id)
    decreases j
  {
    if j == i + 1 {
      hide Apply;
      assert states[i + 1] == After(states[i], steps[i]);
    } else {
      ToldAlways(states, steps, i, j - 1, id);
      OrderedAlways(states, steps, j - 1);
      PastStays(states[j - 1], steps[j - 1], id);
      forall sub
        ensures Called(steps, i, j, id, sub) <==>
          Called(steps, i, j - 1, id, sub) || (steps[j - 1].Notify? && steps[j - 1].id == id && steps[j - 1].subscriber == sub)
      {
        CalledMore(steps, i, j - 1, id, sub);
      }
      hide After, Enabled, Ordered, Called;
    }
  }

  /** In every interleaving a reload that has applied its load calls back exactly the subscribers
  present when the load was applied, none of them twice, and has called all of them when it
  finishes. */
  lemma EveryoneIsCalledOnce(states: seq<State>, steps: seq<Step>, i: nat, j: nat, id: nat)
    requires Behaviour(states, steps) && i < j < |states|
    requires steps[i].ApplyAndRelease? && steps[i].id == id
    ensures id in states[j].reloads
    ensures states[j].reloads[id].phase.Finished? ==>
      forall sub :: sub in states[i].inner.subscribers ==> Called(steps, i, j, id, sub)
    ensures j < |steps| && steps[j].Notify? && steps[j].id == id ==>
      steps[j].subscriber in states[i].inner.subscribers && !Called(steps, i, j, id, steps[j].subscriber)
  {
    ToldAlways(states, steps, i, j, id);
    hide Called;
    if j < |steps| { assert Enabled(states[j], steps[j]); }
  }
}
