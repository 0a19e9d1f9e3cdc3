/** The single-use lifecycle of a client and the registration it keeps.

    `Start` and `Stop` are serialised by a mutex; the background tasks run beside
    them. Reading the state and swapping it are separate steps, and so are a
    request to the agent and the recording of its result. */
module Lifecycle {
  import opened Outcomes

  type Id = string

  datatype State = Idle | Starting | Running | Degraded | Stopping | Stopped

  // --------------------------------------------------------- reads before swaps

  /** `setDegraded` swaps when it has read one of these. */
  predicate MayDegrade(s: State) {
    s.Running? || s.Starting?
  }

  /** `setRunning` swaps when it has read one of these. */
  predicate MayRun(s: State) {
    s.Degraded? || s.Starting?
  }

  // ------------------------------------------------------------------ the errors

  const ERRORS_BUFFER := 32

  /** The channel of asynchronous errors, guarded by its own mutex. */
  class Errors {
    var closed: bool
    var buffer: seq<nat>
    var dropped: nat
    ghost var Closes: nat

    ghost predicate Valid()
      reads this
    {
      |buffer| <= ERRORS_BUFFER && Closes == if closed then 1 else 0
    }

    constructor ()
      ensures Valid() && !closed && buffer == [] && dropped == 0
    {
      closed, buffer, dropped := false, [], 0;
      Closes := 0;
    }

    /** `report`: never blocks, and never sends once the channel is closed. */
    method Report(err: nat)
      requires Valid()
      modifies this`buffer, this`dropped
      ensures Valid()
      ensures closed ==> buffer == old(buffer) && dropped == old(dropped)
      ensures !closed && |old(buffer)| < ERRORS_BUFFER ==> buffer == old(buffer) + [err] && dropped == old(dropped)
      ensures !closed && |old(buffer)| == ERRORS_BUFFER ==> buffer == old(buffer) && dropped == old(dropped) + 1
    {
      if closed {
        return;
      }
      if |buffer| < ERRORS_BUFFER {
        buffer := buffer + [err];
      } else {
        dropped := dropped + 1;
      }
    }

    /** The end of `finish`; it is an error to close twice. */
    method Close()
      requires Valid() && !closed
      modifies this`closed, this`Closes
      ensures Valid() && closed && Closes == 1
    {
      closed := true;
      Closes := Closes + 1;
    }
  }

  // --------------------------------------------------------------- the service ID

  /** What identifies the service: the configured ID, or the one generated first. */
  datatype Naming = Naming(configured: Option<Id>, generated: Option<Id>)

  /** The ID, and what is remembered: `candidate` is what generating would give. */
  function ServiceId(n: Naming, candidate: Id): (r: (Id, Naming))
  {
    if n.configured.Some? then (n.configured.value, n)
    else if n.generated.Some? then (n.generated.value, n)
    else (candidate, n.(generated := Some(candidate)))
  }

  class IdOnce {
    const configured: Option<Id>
    var generated: Option<Id>

    function State(): Naming
      reads this
    {
      Naming(configured, generated)
    }

    constructor (configured: Option<Id>)
      ensures State() == Naming(configured, None)
    {
      this.configured := configured;
      generated := None;
    }

    method Get(candidate: Id) returns (id: Id)
      modifies this
      ensures (id, State()) == ServiceId(old(State()), candidate)
    {
      if configured.Some? {
        return configured.value;
      }
      if generated.None? {
        generated := Some(candidate);
      }
      return generated.value;
    }
  }

  // ------------------------------------------------------------------- the system

  /** Where the holder of the operation mutex stands. */
  datatype Op =
    | Free
    | Entering              // Start has read Idle
    | Preparing             // Start is registering
    | PrepareSaw            // and has read a state it will degrade
    | PrepareGot(id: Id)    // or registered, and has not recorded it
    | Ready                 // the tasks can be launched
    | Launched
    | LaunchedSaw           // Start has read Starting
    | Failing               // Start gave up
    | Closing               // Stop has read a started state
    | Cancelling
    | Joining
    | Deregistering
    | Finishing(stop: Option<Verdict>)   // the result Stop is to return; None for a failed Start
    | ClosingErrs(stop: Option<Verdict>)
    | ClosingDone(stop: Option<Verdict>)

  datatype Verdict = Nil | Failed

  /** A background task: between two steps, about to swap the state it read, about
      to record a registration, or over. */
  datatype Task = Looping | SawUp | SawDown | Got(id: Id) | Over

  datatype Request = Register(id: Id, accepted: bool) | Deregister(id: Id, accepted: bool)

  /** What the client knows of its registration. */
  datatype Registration = Registration(id: Option<Id>, registered: bool)

  datatype System = System(
    state: State, op: Op, tasks: seq<Task>, cancelled: bool,
    errsClosed: nat, doneClosed: nat, lateReports: nat,
    naming: Naming, reg: Registration, agent: set<Id>,
    requests: seq<Request>, stops: seq<Verdict>)

  /** What is fixed when the client is created: whether Stop deregisters, and what
      the registration hook makes of an ID for a given endpoint. */
  datatype Config = Config(deregister: bool, hook: (Id, nat) -> Id)

  /** Steps of Start and Stop, which hold the operation mutex. */
  datatype HolderStep =
    | BeginStart
    | SetStarting
    | PrepareTry(port: nat, candidate: Id, accepted: bool)
    | PrepareRecord
    | PrepareSee            // setDegraded reads the state
    | PrepareSwap
    | PrepareSkip           // on without being registered
    | PrepareFail
    | Launch(n: nat)
    | SeeStarting
    | SwapRunning
    | EndStart
    | AbortStart            // cancel; nothing to wait for
    | BeginStop
    | StopAgain             // Stop after the client stopped
    | SetStopping
    | Cancel
    | Join
    | Undo(accepted: bool)  // the shutdown deregistration, or none is needed
    | SetStopped
    | CloseErrs
    | CloseDone

  /** Steps of a background task. */
  datatype TaskStep =
    | Try(port: nat, candidate: Id, accepted: bool)
    | Record
    | Lost                  // the agent answers that it does not know the recorded ID
    | SeeUp                 // setRunning reads the state
    | SeeDown               // setDegraded reads the state
    | Swap
    | Report
    | End

  datatype Step =
    | Hold(h: HolderStep)
    | Work(t: nat, w: TaskStep)
    | Forget(id: Id)        // the agent loses the service

  /** The task that registers and watches the registration; the others never do. */
  const REGISTRAR: nat := 0

  predicate Alive(s: System, t: nat) {
    t < |s.tasks| && !s.tasks[t].Over?
  }

  predicate Quiet(s: System) {
    forall t | 0 <= t < |s.tasks| :: s.tasks[t].Over?
  }

  predicate HolderCan(c: Config, s: System, step: HolderStep) {
    match step
    case BeginStart => s.op.Free? && s.state.Idle?
    case SetStarting => s.op.Entering?
    case PrepareTry(_, _, _) => s.op.Preparing?
    case PrepareRecord => s.op.PrepareGot?
    case PrepareSee => s.op.Preparing? && MayDegrade(s.state)
    case PrepareSwap => s.op.PrepareSaw?
    case PrepareSkip => s.op.Preparing?
    case PrepareFail => s.op.Preparing?
    case Launch(_) => s.op.Ready?
    case SeeStarting => s.op.Launched? && s.state.Starting?
    case SwapRunning => s.op.LaunchedSaw?
    case EndStart => s.op.Launched? && !s.state.Starting?
    case AbortStart => s.op.Failing? && Quiet(s)
    case BeginStop => s.op.Free? && !s.state.Idle? && !s.state.Stopped?
    case StopAgain => s.op.Free? && s.state.Stopped?
    case SetStopping => s.op.Closing?
    case Cancel => s.op.Cancelling?
    case Join => s.op.Joining? && Quiet(s)
    case Undo(accepted) => s.op.Deregistering? && (!c.deregister || s.reg.id.None? ==> accepted)
    case SetStopped => s.op.Finishing?
    case CloseErrs => s.op.ClosingErrs?
    case CloseDone => s.op.ClosingDone?
  }

  predicate TaskCan(s: System, t: nat, step: TaskStep) {
    Alive(s, t) &&
    match step
    case Try(_, _, _) => t == REGISTRAR && s.tasks[t].Looping? && !s.reg.registered
    case Record => t == REGISTRAR && s.tasks[t].Got?
    case Lost =>
      t == REGISTRAR && s.tasks[t].Looping? && s.reg.registered && s.reg.id.Some? && s.reg.id.value !in s.agent
    case SeeUp => s.tasks[t].Looping? && MayRun(s.state)
    case SeeDown => s.tasks[t].Looping? && MayDegrade(s.state)
    case Swap => s.tasks[t].SawUp? || s.tasks[t].SawDown?
    case Report => s.tasks[t].Looping?
    case End => s.tasks[t].Looping?
  }

  predicate Can(c: Config, s: System, step: Step) {
    match step
    case Hold(h) => HolderCan(c, s, h)
    case Work(t, w) => TaskCan(s, t, w)
    case Forget(_) => true
  }

  /** One attempt to register: the ID is settled, passed through the hook and sent;
      an accepted one is held by the agent. */
  function Tried(c: Config, s: System, port: nat, candidate: Id, accepted: bool): (r: (System, Id))
  {
    var (base, naming) := ServiceId(s.naming, candidate);
    var id := c.hook(base, port);
    (s.(naming := naming, requests := s.requests + [Register(id, accepted)],
        agent := if accepted then s.agent + {id} else s.agent), id)
  }

  function With(s: System, t: nat, task: Task): System
    requires t < |s.tasks|
  {
    s.(tasks := s.tasks[t := task])
  }

  function HolderAfter(c: Config, s: System, step: HolderStep): System
    requires HolderCan(c, s, step)
  {
    match step
    case BeginStart => s.(op := Entering)
    case SetStarting => s.(op := Preparing, state := Starting)
    case PrepareTry(port, candidate, accepted) =>
      var (u, id) := Tried(c, s, port, candidate, accepted);
      if accepted then u.(op := PrepareGot(id)) else u
    case PrepareRecord => s.(op := Ready, reg := Registration(Some(s.op.id), true))
    case PrepareSee => s.(op := PrepareSaw)
    case PrepareSwap => s.(op := Ready, state := Degraded)
    case PrepareSkip => s.(op := Ready)
    case PrepareFail => s.(op := Failing)
    case Launch(n) => s.(op := Launched, tasks := seq(n, i => Looping))
    case SeeStarting => s.(op := LaunchedSaw)
    case SwapRunning => s.(op := Free, state := Running)
    case EndStart => s.(op := Free)
    case AbortStart => s.(op := Finishing(None), cancelled := true)
    case BeginStop => s.(op := Closing)
    case StopAgain => s.(stops := s.stops + [Nil])
    case SetStopping => s.(op := Cancelling, state := Stopping)
    case Cancel => s.(op := Joining, cancelled := true)
    case Join => s.(op := Deregistering)
    case Undo(accepted) => Undone(c, s, accepted)
    case SetStopped => s.(op := ClosingErrs(s.op.stop), state := Stopped)
    case CloseErrs => s.(op := ClosingDone(s.op.stop), errsClosed := s.errsClosed + 1)
    case CloseDone =>
      s.(op := Free, doneClosed := s.doneClosed + 1,
         stops := match s.op.stop case None => s.stops case Some(v) => s.stops + [v])
  }

  /** The shutdown deregistration. */
  function Undone(c: Config, s: System, accepted: bool): System {
    if !c.deregister || s.reg.id.None? then s.(op := Finishing(Some(Nil)))
    else
      var id := s.reg.id.value;
      var u := s.(requests := s.requests + [Deregister(id, accepted)]);
      if accepted then u.(op := Finishing(Some(Nil)), agent := s.agent - {id}, reg := s.reg.(registered := false))
      else u.(op := Finishing(Some(Failed)))
  }

  function TaskAfter(c: Config, s: System, t: nat, step: TaskStep): System
    requires TaskCan(s, t, step)
  {
    match step
    case Try(port, candidate, accepted) =>
      var (u, id) := Tried(c, s, port, candidate, accepted);
      if accepted then With(u, t, Got(id)) else u
    case Record => With(s, t, Looping).(reg := Registration(Some(s.tasks[t].id), true))
    case Lost => s.(reg := s.reg.(registered := false))
    case SeeUp => With(s, t, SawUp)
    case SeeDown => With(s, t, SawDown)
    case Swap => With(s, t, Looping).(state := if s.tasks[t].SawUp? then Running else Degraded)
    case Report => s.(lateReports := s.lateReports + s.errsClosed)
    case End => With(s, t, Over)
  }

  function After(c: Config, s: System, step: Step): System
    requires Can(c, s, step)
  {
    match step
    case Hold(h) => HolderAfter(c, s, h)
    case Work(t, w) => TaskAfter(c, s, t, w)
    case Forget(id) => s.(agent := s.agent - {id})
  }

  predicate Init(s: System) {
    && s.state.Idle? && s.op.Free? && s.tasks == [] && !s.cancelled
    && s.errsClosed == 0 && s.doneClosed == 0 && s.lateReports == 0
    && s.naming.generated.None? && s.reg == Registration(None, false) && s.agent == {}
    && s.requests == [] && s.stops == []
  }

  predicate Run(c: Config, s: System, steps: seq<Step>, t: System)
    decreases |steps|
  {
    if steps == [] then s == t
    else Can(c, s, steps[0]) && Run(c, After(c, s, steps[0]), steps[1..], t)
  }

  // ------------------------------------------------------- the lifecycle invariant

  /** What the place of the mutex holder says about the state and the tasks. */
  ghost predicate Placed(s: System) {
    match s.op
    case Entering => s.state.Idle? && s.tasks == []
    case Preparing | PrepareSaw | PrepareGot(_) | Failing => s.state.Starting? && s.tasks == []
    case Ready => (s.state.Starting? || s.state.Degraded?) && s.tasks == []
    case Launched | LaunchedSaw | Closing | Cancelling | Joining => !s.state.Idle? && !s.state.Stopped?
    case Deregistering => !s.state.Idle? && !s.state.Stopped? && Quiet(s)
    case Finishing(_) => !s.state.Idle? && !s.state.Stopped? && Quiet(s)
    case ClosingErrs(_) => s.state.Stopped? && Quiet(s)
    case ClosingDone(_) => s.state.Stopped? && Quiet(s)
    case Free => (s.state.Idle? ==> s.tasks == []) && (s.state.Stopped? ==> Quiet(s))
  }

  ghost predicate Channels(s: System) {
    && s.errsClosed == (if s.op.ClosingDone? || (s.op.Free? && s.state.Stopped?) then 1 else 0)
    && s.doneClosed == (if s.op.Free? && s.state.Stopped? then 1 else 0)
    && s.lateReports == 0
  }

  ghost predicate LifeInv(s: System) {
    Placed(s) && Channels(s)
  }

  /** A task takes a step only while its client is started. */
  lemma TaskMeansStarted(s: System, t: nat)
    requires LifeInv(s) && Alive(s, t)
    ensures !s.state.Idle? && !s.state.Stopped? && s.errsClosed == 0
    ensures s.op.Free? || s.op.Launched? || s.op.LaunchedSaw? || s.op.Closing? || s.op.Cancelling? || s.op.Joining?
  {
  }

  lemma PlacedHold(c: Config, s: System, step: HolderStep)
    requires LifeInv(s) && HolderCan(c, s, step)
    ensures Placed(HolderAfter(c, s, step))
    ensures s.state.Stopped? ==> HolderAfter(c, s, step).state.Stopped?
  {
  }

  lemma ChannelsHold(c: Config, s: System, step: HolderStep)
    requires LifeInv(s) && HolderCan(c, s, step)
    ensures Channels(HolderAfter(c, s, step))
  {
  }

  lemma LifeHold(c: Config, s: System, step: HolderStep)
    requires LifeInv(s) && HolderCan(c, s, step)
    ensures LifeInv(HolderAfter(c, s, step))
    ensures s.state.Stopped? ==> HolderAfter(c, s, step).state.Stopped?
  {
    PlacedHold(c, s, step);
    ChannelsHold(c, s, step);
  }

  lemma LifeTask(c: Config, s: System, t: nat, step: TaskStep)
    requires LifeInv(s) && TaskCan(s, t, step)
    ensures LifeInv(TaskAfter(c, s, t, step))
  {
    TaskMeansStarted(s, t);
  }

  lemma LifeStep(c: Config, s: System, step: Step)
    requires LifeInv(s) && Can(c, s, step)
    ensures LifeInv(After(c, s, step))
    ensures s.state.Stopped? ==> After(c, s, step).state.Stopped?
  {
    match step
    case Hold(h) => LifeHold(c, s, h);
    case Work(t, w) => LifeTask(c, s, t, w); TaskMeansStarted(s, t);
    case Forget(_) =>
  }

  lemma {:induction false} LifeRun(c: Config, s: System, steps: seq<Step>, t: System)
    requires LifeInv(s) && Run(c, s, steps, t)
    ensures LifeInv(t)
    ensures s.state.Stopped? ==> t.state.Stopped?
    decreases |steps|
  {
    if steps != [] {
      LifeStep(c, s, steps[0]);
      LifeRun(c, After(c, s, steps[0]), steps[1..], t);
    }
  }

  /** Stopped is terminal: whatever a task has read before, nothing replaces it,
      and no task is left to try. */
  lemma StoppedIsTerminal(c: Config, init: System, before: seq<Step>, s: System, later: seq<Step>, t: System)
    requires Init(init) && Run(c, init, before, s) && Run(c, s, later, t) && s.state.Stopped?
    ensures t.state.Stopped? && Quiet(t)
  {
    LifeRun(c, init, before, s);
    LifeRun(c, s, later, t);
  }

  /** Each channel is closed at most once, and no task reports after that. */
  lemma ClosedOnce(c: Config, init: System, steps: seq<Step>, t: System)
    requires Init(init) && Run(c, init, steps, t)
    ensures t.errsClosed <= 1 && t.doneClosed <= 1 && t.lateReports == 0
    ensures t.doneClosed == 1 ==> t.state.Stopped? && t.errsClosed == 1
  {
    LifeRun(c, init, steps, t);
  }

  // ---------------------------------------------------- the registration invariant

  /** The hook does not make the ID depend on the endpoint. */
  ghost predicate HookKeepsId(c: Config) {
    forall id, p, q :: c.hook(id, p) == c.hook(id, q)
  }

  function Base(n: Naming): Option<Id> {
    if n.configured.Some? then n.configured else n.generated
  }

  /** The hook makes this ID of a base, for some endpoint. */
  ghost predicate Derives(c: Config, base: Id, id: Id) {
    exists p :: id == c.hook(base, p)
  }

  /** An ID of this client. */
  ghost predicate IsOwn(c: Config, n: Naming, id: Id) {
    Base(n).Some? && Derives(c, Base(n).value, id)
  }

  ghost predicate OwnIds(c: Config, s: System) {
    && (forall i | 0 <= i < |s.requests| :: IsOwn(c, s.naming, s.requests[i].id))
    && (forall id | id in s.agent :: IsOwn(c, s.naming, id))
    && (s.reg.id.Some? ==> IsOwn(c, s.naming, s.reg.id.value))
    && (s.op.PrepareGot? ==> IsOwn(c, s.naming, s.op.id))
    && (forall t | 0 <= t < |s.tasks| && s.tasks[t].Got? :: IsOwn(c, s.naming, s.tasks[t].id))
  }

  /** A registration the agent accepted and the client has not recorded yet. */
  function Pending(s: System): Option<Id> {
    if s.op.PrepareGot? then Some(s.op.id)
    else if REGISTRAR < |s.tasks| && s.tasks[REGISTRAR].Got? then Some(s.tasks[REGISTRAR].id)
    else None
  }

  /** The agent holds at most the ID that is pending, or else the one recorded as
      registered. */
  ghost predicate Held(s: System) {
    if Pending(s).Some? then s.agent <= {Pending(s).value}
    else if s.reg.registered then s.reg.id.Some? && s.agent <= {s.reg.id.value}
    else s.agent == {}
  }

  /** Stop is past deregistration. */
  predicate PastUndo(s: System) {
    || (s.op.Finishing? && s.op.stop.Some?)
    || (s.op.ClosingErrs? && s.op.stop.Some?)
    || (s.op.ClosingDone? && s.op.stop.Some?)
    || (s.op.Free? && s.state.Stopped?)
  }

  ghost predicate Ordered(s: System) {
    && (forall i | 0 <= i < |s.requests| - 1 :: !s.requests[i].Deregister?)
    && (forall i | 0 <= i < |s.requests| && s.requests[i].Deregister? :: PastUndo(s))
  }

  /** The result of the first call of Stop that did not find the client idle, once
      it is settled. */
  function FirstStop(s: System): Option<Verdict> {
    if s.stops != [] then Some(s.stops[0])
    else
      match s.op
      case Finishing(v) => v
      case ClosingErrs(v) => v
      case ClosingDone(v) => v
      case _ => None
  }

  /** Nothing was registered by a Start that failed, or that has not got that far. */
  predicate NothingYet(s: System) {
    || s.state.Idle? || s.op.Preparing? || s.op.PrepareSaw? || s.op.Failing?
    || (s.op.Finishing? && s.op.stop.None?)
    || (s.op.ClosingErrs? && s.op.stop.None?)
    || (s.op.ClosingDone? && s.op.stop.None?)
    || (s.op.Free? && s.state.Stopped? && s.stops == [])
  }

  /** No call of Stop has returned before the client stopped. */
  predicate NoneReturned(s: System) {
    s.stops == [] || (s.op.Free? && s.state.Stopped?)
  }

  predicate NoneHeldYet(s: System) {
    NothingYet(s) ==> s.agent == {}
  }

  ghost predicate Emptied(c: Config, s: System) {
    NoneHeldYet(s) && NoneReturned(s) && (c.deregister && FirstStop(s) == Some(Nil) ==> s.agent == {})
  }

  ghost predicate RegInv(c: Config, s: System) {
    LifeInv(s) && Held(s) && Ordered(s) && Emptied(c, s)
  }

  lemma TryKeepsId(c: Config, s: System, port: nat, candidate: Id, accepted: bool)
    requires OwnIds(c, s)
    ensures var (u, id) := Tried(c, s, port, candidate, accepted);
            OwnIds(c, u) && IsOwn(c, u.naming, id)
  {
    var (base, naming) := ServiceId(s.naming, candidate);
    assert Base(naming) == Some(base) && Derives(c, base, c.hook(base, port));
  }

  lemma OwnIdsHold(c: Config, s: System, step: HolderStep)
    requires OwnIds(c, s) && HolderCan(c, s, step)
    ensures OwnIds(c, HolderAfter(c, s, step))
  {
    if step.PrepareTry? {
      TryKeepsId(c, s, step.port, step.candidate, step.accepted);
    }
  }

  lemma OwnIdsTask(c: Config, s: System, t: nat, step: TaskStep)
    requires OwnIds(c, s) && TaskCan(s, t, step)
    ensures OwnIds(c, TaskAfter(c, s, t, step))
  {
    if step.Try? {
      TryKeepsId(c, s, step.port, step.candidate, step.accepted);
    }
  }

  lemma OwnIdsStep(c: Config, s: System, step: Step)
    requires OwnIds(c, s) && Can(c, s, step)
    ensures OwnIds(c, After(c, s, step))
  {
    match step
    case Hold(h) => OwnIdsHold(c, s, h);
    case Work(t, w) => OwnIdsTask(c, s, t, w);
    case Forget(_) =>
  }

  lemma HeldHold(c: Config, s: System, step: HolderStep)
    requires LifeInv(s) && Held(s) && Emptied(c, s) && HolderCan(c, s, step)
    ensures Held(HolderAfter(c, s, step))
  {
  }

  lemma OrderedHold(c: Config, s: System, step: HolderStep)
    requires LifeInv(s) && Ordered(s) && HolderCan(c, s, step)
    ensures Ordered(HolderAfter(c, s, step))
  {
  }

  lemma NoneReturnedHold(c: Config, s: System, step: HolderStep)
    requires LifeInv(s) && NoneReturned(s) && HolderCan(c, s, step)
    ensures NoneReturned(HolderAfter(c, s, step))
  {
  }

  lemma NoneHeldYetHold(c: Config, s: System, step: HolderStep)
    requires LifeInv(s) && NoneHeldYet(s) && NoneReturned(s) && HolderCan(c, s, step)
    ensures NoneHeldYet(HolderAfter(c, s, step))
  {
  }

  /** What the agent may still hold is what Stop deregisters. */
  lemma EmptiedHold(c: Config, s: System, step: HolderStep)
    requires LifeInv(s) && Held(s) && Emptied(c, s) && HolderCan(c, s, step)
    ensures Emptied(c, HolderAfter(c, s, step))
  {
    NoneReturnedHold(c, s, step);
    NoneHeldYetHold(c, s, step);
    if step.Undo? {
      assert s.agent != {} ==> s.reg.id.Some? && s.agent <= {s.reg.id.value};
    }
  }

  lemma RegHold(c: Config, s: System, step: HolderStep)
    requires RegInv(c, s) && HolderCan(c, s, step)
    ensures RegInv(c, HolderAfter(c, s, step))
  {
    LifeHold(c, s, step);
    HeldHold(c, s, step);
    OrderedHold(c, s, step);
    EmptiedHold(c, s, step);
  }

  lemma HeldTask(c: Config, s: System, t: nat, step: TaskStep)
    requires LifeInv(s) && Held(s) && TaskCan(s, t, step)
    ensures Held(TaskAfter(c, s, t, step))
  {
    TaskMeansStarted(s, t);
  }

  lemma RegTask(c: Config, s: System, t: nat, step: TaskStep)
    requires RegInv(c, s) && TaskCan(s, t, step)
    ensures RegInv(c, TaskAfter(c, s, t, step))
  {
    TaskMeansStarted(s, t);
    LifeTask(c, s, t, step);
    HeldTask(c, s, t, step);
  }

  lemma RegStep(c: Config, s: System, step: Step)
    requires RegInv(c, s) && Can(c, s, step)
    ensures RegInv(c, After(c, s, step))
  {
    match step
    case Hold(h) => RegHold(c, s, h);
    case Work(t, w) => RegTask(c, s, t, w);
    case Forget(_) =>
  }

  lemma {:induction false} RegRun(c: Config, s: System, steps: seq<Step>, t: System)
    requires RegInv(c, s) && Run(c, s, steps, t)
    ensures RegInv(c, t)
    decreases |steps|
  {
    if steps != [] {
      RegStep(c, s, steps[0]);
      RegRun(c, After(c, s, steps[0]), steps[1..], t);
    }
  }

  lemma {:induction false} OwnIdsRun(c: Config, s: System, steps: seq<Step>, t: System)
    requires OwnIds(c, s) && Run(c, s, steps, t)
    ensures OwnIds(c, t) && t.naming.configured == s.naming.configured
    decreases |steps|
  {
    if steps != [] {
      OwnIdsStep(c, s, steps[0]);
      OwnIdsRun(c, After(c, s, steps[0]), steps[1..], t);
    }
  }

  // -------------------------------------------------------- registration theorems

  /** Whatever the hook does, it is given one ID for all the requests of a client: the
      configured one if there is one. */
  lemma OneBaseForAll(c: Config, init: System, steps: seq<Step>, t: System) returns (base: Id)
    requires Init(init) && Run(c, init, steps, t)
    ensures init.naming.configured.Some? ==> base == init.naming.configured.value
    ensures forall i | 0 <= i < |t.requests| :: Derives(c, base, t.requests[i].id)
  {
    OwnIdsRun(c, init, steps, t);
    base := if Base(t.naming).Some? then Base(t.naming).value else "";
    assert forall i | 0 <= i < |t.requests| :: IsOwn(c, t.naming, t.requests[i].id);
  }

  /** Every request of a client carries one ID, and so does whatever the agent
      holds for it, at every moment of every run. */
  lemma OneIdForAll(c: Config, init: System, steps: seq<Step>, t: System)
    requires HookKeepsId(c) && Init(init) && Run(c, init, steps, t)
    ensures forall i, j | 0 <= i < |t.requests| && 0 <= j < |t.requests| :: t.requests[i].id == t.requests[j].id
    ensures forall i, id | 0 <= i < |t.requests| && id in t.agent :: t.requests[i].id == id
    ensures t.reg.id.Some? ==> forall id | id in t.agent :: id == t.reg.id.value
  {
    OwnIdsRun(c, init, steps, t);
    forall id, other | IsOwn(c, t.naming, id) && IsOwn(c, t.naming, other)
      ensures id == other
    {
      var p :| id == c.hook(Base(t.naming).value, p);
      var q :| other == c.hook(Base(t.naming).value, q);
      assert c.hook(Base(t.naming).value, p) == c.hook(Base(t.naming).value, q);
    }
  }

  /** Whatever the hook does, and whenever the agent forgets the service, it never
      holds more than one ID of this client: the registrar registers again only once
      the agent does not know the last one. */
  lemma OneHeldAtATime(c: Config, init: System, steps: seq<Step>, t: System)
    requires Init(init) && Run(c, init, steps, t)
    ensures forall id, other | id in t.agent && other in t.agent :: id == other
  {
    RegRun(c, init, steps, t);
  }

  /** Whatever the hook does, the deregistration that Stop sends is the last
      request of the client: it is sent once, and nothing is registered after it. */
  lemma NoRegisterAfterDeregister(c: Config, init: System, steps: seq<Step>, t: System)
    requires Init(init) && Run(c, init, steps, t)
    ensures forall i | 0 <= i < |t.requests| - 1 :: !t.requests[i].Deregister?
    ensures forall i | 0 <= i < |t.requests| && t.requests[i].Deregister? :: PastUndo(t)
  {
    RegRun(c, init, steps, t);
  }

  // ------------------------------------------------------- what Stop deregisters

  /** The ID the agent accepted last. */
  function LastAccepted(requests: seq<Request>): Option<Id> {
    if requests == [] then None
    else
      var last := requests[|requests| - 1];
      if last.Register? && last.accepted then Some(last.id) else LastAccepted(requests[..|requests| - 1])
  }

  lemma OneMoreRequest(requests: seq<Request>, r: Request)
    ensures LastAccepted(requests + [r]) == if r.Register? && r.accepted then Some(r.id) else LastAccepted(requests)
  {
    assert (requests + [r])[..|requests|] == requests;
  }

  predicate Deregisters(requests: seq<Request>) {
    exists i | 0 <= i < |requests| :: requests[i].Deregister?
  }

  /** The ID recorded, or about to be, is the one the agent accepted last. */
  predicate Recorded(s: System) {
    LastAccepted(s.requests) == if Pending(s).Some? then Pending(s) else s.reg.id
  }

  predicate NoneRecorded(s: System) {
    NothingYet(s) ==> s.reg.id.None? && Pending(s).None?
  }

  /** The deregistration that Stop has sent, if it is settled. */
  predicate Undoing(c: Config, s: System) {
    if FirstStop(s).Some? && c.deregister && s.reg.id.Some? then
      && s.requests != []
      && s.requests[|s.requests| - 1] == Deregister(s.reg.id.value, FirstStop(s).value.Nil?)
    else !Deregisters(s.requests)
  }

  ghost predicate UndoInv(c: Config, s: System) {
    LifeInv(s) && Recorded(s) && NoneRecorded(s) && Undoing(c, s) && NoneReturned(s)
  }

  lemma RecordedTry(c: Config, s: System, step: HolderStep)
    requires LifeInv(s) && Recorded(s) && HolderCan(c, s, step) && step.PrepareTry?
    ensures Recorded(HolderAfter(c, s, step))
  {
    var t := HolderAfter(c, s, step);
    OneMoreRequest(s.requests, t.requests[|s.requests|]);
  }

  lemma RecordedUndo(c: Config, s: System, accepted: bool)
    requires LifeInv(s) && Recorded(s) && HolderCan(c, s, Undo(accepted))
    ensures Recorded(HolderAfter(c, s, Undo(accepted)))
  {
    var t := HolderAfter(c, s, Undo(accepted));
    if t.requests != s.requests {
      OneMoreRequest(s.requests, t.requests[|s.requests|]);
    }
  }

  lemma RecordedHold(c: Config, s: System, step: HolderStep)
    requires LifeInv(s) && Recorded(s) && HolderCan(c, s, step)
    ensures Recorded(HolderAfter(c, s, step))
  {
    if step.PrepareTry? {
      RecordedTry(c, s, step);
    } else if step.Undo? {
      RecordedUndo(c, s, step.accepted);
    } else {
      assert HolderAfter(c, s, step).requests == s.requests;
    }
  }

  lemma NoneRecordedHold(c: Config, s: System, step: HolderStep)
    requires LifeInv(s) && NoneRecorded(s) && HolderCan(c, s, step)
    ensures NoneRecorded(HolderAfter(c, s, step))
  {
  }

  lemma UndoingHold(c: Config, s: System, step: HolderStep)
    requires LifeInv(s) && NoneRecorded(s) && Undoing(c, s) && NoneReturned(s) && HolderCan(c, s, step)
    ensures Undoing(c, HolderAfter(c, s, step))
  {
    var t := HolderAfter(c, s, step);
    if !step.PrepareTry? && !step.Undo? {
      assert t.requests == s.requests;
    } else {
      assert FirstStop(s).None? && !Deregisters(s.requests);
    }
  }

  lemma UndoHold(c: Config, s: System, step: HolderStep)
    requires UndoInv(c, s) && HolderCan(c, s, step)
    ensures UndoInv(c, HolderAfter(c, s, step))
  {
    LifeHold(c, s, step);
    RecordedHold(c, s, step);
    NoneRecordedHold(c, s, step);
    UndoingHold(c, s, step);
    NoneReturnedHold(c, s, step);
  }

  lemma RecordedTaskTry(c: Config, s: System, t: nat, port: nat, candidate: Id, accepted: bool)
    requires LifeInv(s) && Recorded(s) && TaskCan(s, t, Try(port, candidate, accepted))
    ensures Recorded(TaskAfter(c, s, t, Try(port, candidate, accepted)))
  {
    TaskMeansStarted(s, t);
    var (u, id) := Tried(c, s, port, candidate, accepted);
    assert Pending(s).None?;
    OneMoreRequest(s.requests, Register(id, accepted));
  }

  lemma RecordedTask(c: Config, s: System, t: nat, step: TaskStep)
    requires LifeInv(s) && Recorded(s) && TaskCan(s, t, step)
    ensures Recorded(TaskAfter(c, s, t, step))
  {
    if step.Try? {
      RecordedTaskTry(c, s, t, step.port, step.candidate, step.accepted);
    } else {
      TaskMeansStarted(s, t);
      assert TaskAfter(c, s, t, step).requests == s.requests;
    }
  }

  lemma NoneRecordedTask(c: Config, s: System, t: nat, step: TaskStep)
    requires LifeInv(s) && NoneRecorded(s) && TaskCan(s, t, step)
    ensures NoneRecorded(TaskAfter(c, s, t, step))
  {
    TaskMeansStarted(s, t);
  }

  lemma UndoingTask(c: Config, s: System, t: nat, step: TaskStep)
    requires LifeInv(s) && Undoing(c, s) && NoneReturned(s) && TaskCan(s, t, step)
    ensures Undoing(c, TaskAfter(c, s, t, step)) && NoneReturned(TaskAfter(c, s, t, step))
  {
    TaskMeansStarted(s, t);
    assert FirstStop(s).None?;
  }

  lemma UndoTask(c: Config, s: System, t: nat, step: TaskStep)
    requires UndoInv(c, s) && TaskCan(s, t, step)
    ensures UndoInv(c, TaskAfter(c, s, t, step))
  {
    LifeTask(c, s, t, step);
    RecordedTask(c, s, t, step);
    NoneRecordedTask(c, s, t, step);
    UndoingTask(c, s, t, step);
  }

  lemma {:induction false} UndoRun(c: Config, s: System, steps: seq<Step>, t: System)
    requires UndoInv(c, s) && Run(c, s, steps, t)
    ensures UndoInv(c, t)
    decreases |steps|
  {
    if steps != [] {
      match steps[0] {
        case Hold(h) => UndoHold(c, s, h);
        case Work(k, w) => UndoTask(c, s, k, w);
        case Forget(_) =>
      }
      UndoRun(c, After(c, s, steps[0]), steps[1..], t);
    }
  }

  /** Whether and what Stop deregisters: never without the setting; with it, once the
      first call returned, exactly the ID the agent accepted last, if there is one, as
      the last request of all; and that call returned nil exactly when the agent took
      it. */
  lemma DeregistersExactly(c: Config, init: System, steps: seq<Step>, t: System)
    requires Init(init) && Run(c, init, steps, t)
    ensures !c.deregister ==> !Deregisters(t.requests)
    ensures t.stops != [] ==> (Deregisters(t.requests) <==> c.deregister && LastAccepted(t.requests).Some?)
    ensures t.stops != [] && Deregisters(t.requests) ==>
              t.requests[|t.requests| - 1] == Deregister(LastAccepted(t.requests).value, t.stops[0].Nil?)
  {
    UndoRun(c, init, steps, t);
    if t.stops != [] {
      assert t.op.Free? && t.state.Stopped? && Pending(t).None?;
    }
  }

  /** If Stop deregisters and its first call returned nil, the agent holds nothing
      of this client, whatever the hook does, then and at any later time. */
  lemma NilMeansGone(c: Config, init: System, steps: seq<Step>, t: System)
    requires Init(init) && Run(c, init, steps, t)
    requires c.deregister && t.stops != [] && t.stops[0].Nil?
    ensures t.agent == {}
  {
    RegRun(c, init, steps, t);
  }

  // ----------------------------------------------------- what cannot be promised

  function Created(configured: Option<Id>): System {
    System(Idle, Free, [], false, 0, 0, 0, Naming(configured, None), Registration(None, false), {}, [], [])
  }

  lemma Extend(c: Config, s: System, step: Step, u: System, rest: seq<Step>, t: System) returns (steps: seq<Step>)
    requires Can(c, s, step) && After(c, s, step) == u && Run(c, u, rest, t)
    ensures Run(c, s, steps, t)
  {
    steps := [step] + rest;
    assert steps[1..] == rest;
  }

  lemma {:induction false} Joined(c: Config, s: System, a: seq<Step>, m: System, b: seq<Step>, t: System)
    requires Run(c, s, a, m) && Run(c, m, b, t)
    ensures Run(c, s, a + b, t)
    decreases |a|
  {
    if a == [] {
      assert a + b == b;
    } else {
      var all := a + b;
      assert all[0] == a[0] && all[1..] == a[1..] + b;
      Joined(c, After(c, s, a[0]), a[1..], m, b, t);
    }
  }

  /** A client that registered under `id` at the first attempt and is running. */
  function Up(configured: Id, id: Id): System {
    Created(Some(configured)).(state := Running, reg := Registration(Some(id), true), agent := {id},
                               requests := [Register(id, true)])
  }

  lemma Runs(c: Config, s: System) returns (steps: seq<Step>)
    requires s.op.Ready? && s.state.Starting? && s.tasks == []
    ensures Run(c, s, steps, s.(op := Free, state := Running))
  {
    var launched := s.(op := Launched);
    var t := s.(op := Free, state := Running);
    steps := Extend(c, launched.(op := LaunchedSaw), Hold(SwapRunning), t, [], t);
    steps := Extend(c, launched, Hold(SeeStarting), launched.(op := LaunchedSaw), steps, t);
    steps := Extend(c, s, Hold(Launch(0)), launched, steps, t);
  }

  lemma ComesUp(c: Config, configured: Id, port: nat) returns (steps: seq<Step>)
    ensures Run(c, Created(Some(configured)), steps, Up(configured, c.hook(configured, port)))
  {
    var s := Created(Some(configured));
    var id := c.hook(configured, port);
    var t := Up(configured, id);
    var preparing := s.(op := Preparing, state := Starting);
    var got := preparing.(op := PrepareGot(id), agent := t.agent, requests := t.requests);
    var ready := t.(op := Ready, state := Starting);
    steps := Runs(c, ready);
    steps := Extend(c, got, Hold(PrepareRecord), ready, steps, t);
    steps := Extend(c, preparing, Hold(PrepareTry(port, configured, true)), got, steps, t);
    steps := Extend(c, s.(op := Entering), Hold(SetStarting), preparing, steps, t);
    steps := Extend(c, s, Hold(BeginStart), s.(op := Entering), steps, t);
  }

  /** That client after a Stop whose deregistration failed. */
  function Down(configured: Id, id: Id): System {
    Up(configured, id).(state := Stopped, cancelled := true, errsClosed := 1, doneClosed := 1,
                        requests := [Register(id, true), Deregister(id, false)], stops := [Failed])
  }

  lemma Halts(c: Config, s: System) returns (steps: seq<Step>)
    requires s.op.Free? && s.state.Running? && Quiet(s)
    ensures Run(c, s, steps, s.(op := Deregistering, state := Stopping, cancelled := true))
  {
    var t := s.(op := Deregistering, state := Stopping, cancelled := true);
    var cancelling := s.(op := Cancelling, state := Stopping);
    var joining := t.(op := Joining);
    steps := Extend(c, joining, Hold(Join), t, [], t);
    steps := Extend(c, cancelling, Hold(Cancel), joining, steps, t);
    steps := Extend(c, s.(op := Closing), Hold(SetStopping), cancelling, steps, t);
    steps := Extend(c, s, Hold(BeginStop), s.(op := Closing), steps, t);
  }

  lemma Ends(c: Config, s: System, v: Verdict) returns (steps: seq<Step>)
    requires s.op == Finishing(Some(v))
    ensures Run(c, s, steps, s.(op := Free, state := Stopped, errsClosed := s.errsClosed + 1,
                                doneClosed := s.doneClosed + 1, stops := s.stops + [v]))
  {
    var t := s.(op := Free, state := Stopped, errsClosed := s.errsClosed + 1,
                doneClosed := s.doneClosed + 1, stops := s.stops + [v]);
    var closing := s.(op := ClosingErrs(Some(v)), state := Stopped);
    var closed := closing.(op := ClosingDone(Some(v)), errsClosed := s.errsClosed + 1);
    steps := Extend(c, closed, Hold(CloseDone), t, [], t);
    steps := Extend(c, closing, Hold(CloseErrs), closed, steps, t);
    steps := Extend(c, s, Hold(SetStopped), closing, steps, t);
  }

  lemma GoesDown(c: Config, configured: Id, id: Id) returns (steps: seq<Step>)
    requires c.deregister
    ensures Run(c, Up(configured, id), steps, Down(configured, id))
  {
    var s := Up(configured, id);
    var t := Down(configured, id);
    var halted := s.(op := Deregistering, state := Stopping, cancelled := true);
    var undone := halted.(op := Finishing(Some(Failed)), requests := t.requests);
    var before := Halts(c, s);
    var after := Ends(c, undone, Failed);
    assert s.requests + [Deregister(id, false)] == t.requests;
    assert s.stops + [Failed] == t.stops;
    after := Extend(c, halted, Hold(Undo(false)), undone, after, t);
    Joined(c, s, before, halted, after, t);
    steps := before + after;
  }

  /** A later call of Stop returns nil even though the first one reported that the
      service could not be deregistered: nil from a call that is not the first says
      nothing about the agent. */
  lemma LaterNilSaysNothing(c: Config, configured: Id, port: nat) returns (s: System, steps: seq<Step>, t: System)
    requires c.deregister
    ensures Init(s) && Run(c, s, steps, t)
    ensures t.stops == [Failed, Nil] && t.agent == {c.hook(configured, port)}
  {
    var id := c.hook(configured, port);
    s, t := Created(Some(configured)), Down(configured, id).(stops := [Failed, Nil]);
    var up := ComesUp(c, configured, port);
    var down := GoesDown(c, configured, id);
    var again := Extend(c, Down(configured, id), Hold(StopAgain), t, [], t);
    Joined(c, s, up, Up(configured, id), down, Down(configured, id));
    steps := up + down + again;
    Joined(c, s, up + down, Down(configured, id), again, t);
  }

  /** A client that registered under `id` when it started, has one background task,
      and is known to the agent by `held`. */
  function Holding(naming: Naming, id: Id, held: set<Id>): System {
    System(Starting, Launched, [Looping], false, 0, 0, 0, naming, Registration(Some(id), true), held,
           [Register(id, true)], [])
  }

  /** What the client remembers of its ID once it settled on `id`. */
  function Settled(configured: Option<Id>, id: Id): Naming {
    Naming(configured, if configured.Some? then None else Some(id))
  }

  lemma StartsHolding(c: Config, configured: Option<Id>, id: Id, p: nat) returns (steps: seq<Step>)
    requires configured == Some(id) || configured.None?
    ensures Run(c, Created(configured), steps, Holding(Settled(configured, id), c.hook(id, p), {c.hook(id, p)}))
  {
    var first := c.hook(id, p);
    var s := Created(configured);
    var t := Holding(Settled(configured, id), first, {first});
    var preparing := s.(op := Preparing, state := Starting);
    var got := preparing.(op := PrepareGot(first), naming := t.naming, agent := t.agent, requests := t.requests);
    var ready := t.(op := Ready, tasks := []);
    assert seq(1, i => Looping) == [Looping];
    steps := Extend(c, ready, Hold(Launch(1)), t, [], t);
    steps := Extend(c, got, Hold(PrepareRecord), ready, steps, t);
    steps := Extend(c, preparing, Hold(PrepareTry(p, id, true)), got, steps, t);
    steps := Extend(c, s.(op := Entering), Hold(SetStarting), preparing, steps, t);
    steps := Extend(c, s, Hold(BeginStart), s.(op := Entering), steps, t);
  }

  /** The agent forgets the service, and the client registers it again from another
      endpoint. */
  lemma RegistersAgain(c: Config, configured: Option<Id>, id: Id, first: Id, q: nat)
    returns (steps: seq<Step>, t: System)
    requires configured == Some(id) || configured.None?
    ensures Run(c, Holding(Settled(configured, id), first, {first}), steps, t)
    ensures t.naming.configured == configured && t.agent == {c.hook(id, q)}
    ensures t.requests == [Register(first, true), Register(c.hook(id, q), true)]
  {
    var second := c.hook(id, q);
    var s := Holding(Settled(configured, id), first, {first});
    var forgotten := s.(agent := {});
    var lost := forgotten.(reg := Registration(Some(first), false));
    t := lost.(agent := {second}, requests := [Register(first, true), Register(second, true)], tasks := [Got(second)]);
    assert {first} - {first} == {} && lost.tasks[0 := Got(second)] == [Got(second)];
    assert [Register(first, true)] + [Register(second, true)] == t.requests;
    steps := Extend(c, lost, Work(0, Try(q, id, true)), t, [], t);
    steps := Extend(c, forgotten, Work(0, Lost), lost, steps, t);
    steps := Extend(c, s, Forget(first), forgotten, steps, t);
  }

  /** If the hook does make an ID depend on the endpoint, a client whose endpoint
      moves is registered under two IDs, configured or generated, one after the
      other: the condition on the hook is exact. */
  lemma HookMovesId(c: Config, configured: Option<Id>, id: Id, p: nat, q: nat)
    returns (s: System, steps: seq<Step>, t: System)
    requires c.hook(id, p) != c.hook(id, q) && (configured == Some(id) || configured.None?)
    ensures Init(s) && s.naming.configured == configured && Run(c, s, steps, t)
    ensures t.requests == [Register(c.hook(id, p), true), Register(c.hook(id, q), true)]
    ensures t.requests[0].id != t.requests[1].id
  {
    s := Created(configured);
    var first := StartsHolding(c, configured, id, p);
    var second;
    second, t := RegistersAgain(c, configured, id, c.hook(id, p), q);
    Joined(c, s, first, Holding(Settled(configured, id), c.hook(id, p), {c.hook(id, p)}), second, t);
    steps := first + second;
  }

  /** A client that was started with one background task and nothing to register. */
  function OneTask(configured: Option<Id>): System {
    Created(configured).(state := Running, tasks := [Looping])
  }

  lemma StartsOneTask(c: Config, configured: Option<Id>) returns (steps: seq<Step>)
    ensures Run(c, Created(configured), steps, OneTask(configured))
  {
    var s := Created(configured);
    var t := OneTask(configured);
    var preparing := s.(op := Preparing, state := Starting);
    var launched := t.(op := Launched, state := Starting);
    assert seq(1, i => Looping) == [Looping];
    steps := Extend(c, launched.(op := LaunchedSaw), Hold(SwapRunning), t, [], t);
    steps := Extend(c, launched, Hold(SeeStarting), launched.(op := LaunchedSaw), steps, t);
    steps := Extend(c, preparing.(op := Ready), Hold(Launch(1)), launched, steps, t);
    steps := Extend(c, preparing, Hold(PrepareSkip), preparing.(op := Ready), steps, t);
    steps := Extend(c, s.(op := Entering), Hold(SetStarting), preparing, steps, t);
    steps := Extend(c, s, Hold(BeginStart), s.(op := Entering), steps, t);
  }

  lemma DegradesWhileStopping(c: Config, s: System) returns (steps: seq<Step>)
    requires s.op.Free? && s.state.Running? && s.tasks == [Looping]
    ensures Run(c, s, steps, s.(op := Cancelling, state := Degraded))
  {
    var t := s.(op := Cancelling, state := Degraded);
    var saw := s.(tasks := [SawDown]);
    assert s.tasks[0 := SawDown] == [SawDown] && saw.tasks[0 := Looping] == [Looping];
    steps := Extend(c, saw.(op := Cancelling, state := Stopping), Work(0, Swap), t, [], t);
    steps := Extend(c, saw.(op := Closing), Hold(SetStopping), saw.(op := Cancelling, state := Stopping), steps, t);
    steps := Extend(c, saw, Hold(BeginStop), saw.(op := Closing), steps, t);
    steps := Extend(c, s, Work(0, SeeDown), saw, steps, t);
  }

  /** No task has read a state that it is about to replace. */
  predicate NoneSaw(s: System) {
    forall t | 0 <= t < |s.tasks| :: !s.tasks[t].SawUp? && !s.tasks[t].SawDown?
  }

  /** From here on the client is stopping until it is stopped. */
  ghost predicate KeepsStopping(c: Config, s: System) {
    forall steps, t | Run(c, s, steps, t) :: t.state.Stopping? || t.state.Stopped?
  }

  /** Stop is under way, and no task is about to swap. */
  ghost predicate StopsQuietly(s: System) {
    && LifeInv(s) && NoneSaw(s)
    && (s.state.Stopped? ||
        (s.state.Stopping? && (s.op.Cancelling? || s.op.Joining? || s.op.Deregistering? || s.op.Finishing?)))
  }

  lemma QuietStep(c: Config, s: System, step: Step)
    requires StopsQuietly(s) && Can(c, s, step)
    ensures StopsQuietly(After(c, s, step))
  {
    LifeStep(c, s, step);
    if step.Work? {
      TaskMeansStarted(s, step.t);
    }
  }

  lemma {:induction false} QuietRun(c: Config, s: System, steps: seq<Step>, t: System)
    requires StopsQuietly(s) && Run(c, s, steps, t)
    ensures StopsQuietly(t)
    decreases |steps|
  {
    if steps != [] {
      QuietStep(c, s, steps[0]);
      QuietRun(c, After(c, s, steps[0]), steps[1..], t);
    }
  }

  /** Exactly when Stopping, once Stop has swapped it in, stays until it is replaced by
      Stopped: no task has read a started state and is about to swap. */
  lemma StoppingSurvivesExactly(c: Config, s: System)
    requires LifeInv(s) && s.op.Cancelling? && s.state.Stopping?
    ensures KeepsStopping(c, s) <==> NoneSaw(s)
  {
    if NoneSaw(s) {
      forall steps, t | Run(c, s, steps, t)
        ensures t.state.Stopping? || t.state.Stopped?
      {
        QuietRun(c, s, steps, t);
      }
    } else {
      var r: nat :| r < |s.tasks| && (s.tasks[r].SawUp? || s.tasks[r].SawDown?);
      var t := After(c, s, Work(r, Swap));
      var steps := Extend(c, s, Work(r, Swap), t, [], t);
      assert t.state.Running? || t.state.Degraded?;
    }
  }

  /** A started client with a task that is between two steps can lose its registration
      and recover: it becomes degraded and then running again. */
  lemma DegradesAndRecovers(c: Config, s: System, k: nat) returns (down: seq<Step>, u: System, up: seq<Step>)
    requires s.state.Running? && k < |s.tasks| && s.tasks[k].Looping?
    ensures Run(c, s, down, u) && u.state.Degraded? && Run(c, u, up, s)
  {
    u := s.(state := Degraded);
    var saw := With(s, k, SawDown);
    var sawUp := With(u, k, SawUp);
    assert saw.tasks[k := Looping] == s.tasks && sawUp.tasks[k := Looping] == s.tasks;
    down := Extend(c, saw, Work(k, Swap), u, [], u);
    down := Extend(c, s, Work(k, SeeDown), saw, down, u);
    up := Extend(c, sawUp, Work(k, Swap), s, [], s);
    up := Extend(c, u, Work(k, SeeUp), sawUp, up, s);
  }

  /** A client can get where Stopping does not survive: a task that read Running before
      swaps to Degraded after Stop has swapped to Stopping. */
  lemma StoppingOverwritten(c: Config, configured: Option<Id>) returns (s: System, steps: seq<Step>, t: System)
    ensures Init(s) && Run(c, s, steps, t) && t.op.Cancelling? && t.state.Degraded?
  {
    s, t := Created(configured), OneTask(configured).(op := Cancelling, state := Degraded);
    var start := StartsOneTask(c, configured);
    var stop := DegradesWhileStopping(c, OneTask(configured));
    Joined(c, s, start, OneTask(configured), stop, t);
    steps := start + stop;
  }
}
