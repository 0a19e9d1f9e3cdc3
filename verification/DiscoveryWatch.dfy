/** The goroutine of a discovery watch, between the server it queries and the
    consumer it never waits for. */
module DiscoveryWatch {
  import opened Outcomes
  import opened BlockingIndex
  import opened Instances

  type List = seq<Instance>

  // ------------------------------------------------------------ the goroutine

  /** Where the goroutine stands between two operations on shared state. */
  datatype Phase =
    | Asking                                  // a request is out
    | Holding(list: List, got: nat, epoch: nat)  // answered
    | Storing(list: List)                     // the snapshot is stored, the event not sent
    | Sending(list: List)                     // the channel of events was emptied
    | Failing                                 // the request failed
    | Reporting                               // the channel of errors was emptied
    | Pausing                                 // waiting to retry
    | Stopped

  /** The variables of the goroutine, and what it shares: the snapshot and two
      channels of capacity one. `published` is the history of snapshots. */
  datatype Loop = Loop(phase: Phase, index: nat, failures: nat, delivered: List, lastSent: List, haveState: bool,
                       current: Option<List>, events: Option<Event>, errs: Option<nat>, published: seq<List>)

  const START := Loop(Asking, 0, 0, [], [], false, None, None, None, [])

  /** Handling an answer: the index moves; a list equal to the last one sent is
      no news, any other becomes the snapshot. */
  function Handled(l: Loop, list: List, got: nat): Loop {
    var m := l.(index := NextIndex(l.index, got), failures := 0);
    if l.haveState && EqualLists(list, l.lastSent) then m.(phase := Asking)
    else m.(phase := Storing(list), haveState := true, current := Some(list), published := l.published + [list])
  }

  /** Taking back an event nobody has read; if it was read, the consumer has seen
      the last one sent. */
  function TakenBack(l: Loop): Loop
    requires l.phase.Storing?
  {
    if l.events.Some? then l.(events := None, phase := Sending(l.phase.list))
    else l.(delivered := l.lastSent, phase := Sending(l.phase.list))
  }

  function Sent(l: Loop): Loop
    requires l.phase.Sending?
  {
    l.(events := Some(EventBetween(l.delivered, l.phase.list)), lastSent := l.phase.list, phase := Asking)
  }

  /** The fields and local variables of a watch. */
  class Watch {
    var index: nat
    var failures: nat
    var delivered: List
    var lastSent: List
    var haveState: bool
    var current: Option<List>
    var events: Option<Event>
    var errs: Option<nat>
    ghost var At: Phase
    ghost var Published: seq<List>

    ghost function State(): Loop
      reads this
    {
      Loop(At, index, failures, delivered, lastSent, haveState, current, events, errs, Published)
    }

    constructor ()
      ensures State() == START
    {
      index, failures, delivered, lastSent, haveState := 0, 0, [], [], false;
      current, events, errs := None, None, None;
      At, Published := Asking, [];
    }

    method Handle(list: List, got: nat) returns (news: bool)
      modifies this
      ensures State() == Handled(old(State()), list, got)
      ensures news <==> At.Storing?
    {
      failures := 0;
      index := NextIndex(index, got);
      if haveState && EqualLists(list, lastSent) {
        At := Asking;
        return false;
      }
      haveState := true;
      current := Some(list);
      At, Published := Storing(list), Published + [list];
      return true;
    }

    method TakeBack()
      requires At.Storing?
      modifies this
      ensures State() == TakenBack(old(State()))
    {
      if events.Some? {
        events := None;
      } else {
        delivered := lastSent;
      }
      At := Sending(At.list);
    }

    method Send(list: List)
      requires At == Sending(list) && events.None?
      modifies this
      ensures State() == Sent(old(State()))
    {
      var ev := Diff(delivered, list);
      events := Some(ev);
      lastSent := list;
      At := Asking;
    }
  }

  // --------------------------------------------------------------- the system

  /** The server: its answer now, the index of that answer, and the answers it has
      given since its index last went backwards. */
  datatype Server = Server(index: nat, answer: List, epoch: nat, history: map<nat, List>)

  /** The consumer: the events it has received, and the view it keeps by applying
      them in turn to an empty one. */
  datatype Consumer = Consumer(received: seq<Event>, view: map<Key, Instance>)

  /** `seen` is the epoch of the answer that set the index; `restart` says that the
      last request failed, or its answer had an index that went backwards. */
  datatype System = System(server: Server, loop: Loop, seen: nat, restart: bool, consumer: Consumer)

  datatype Step =
    | Change(answer: List, index: nat)   // the answer changes, or only the index rises
    | Reset(answer: List, index: nat)    // a restored or new leader: the index may go backwards
    | Reply
    | Handle
    | TakeBack
    | Send
    | Receive
    | ReadError                          // the consumer reads the channel of errors
    | Break                              // the request fails
    | Drain
    | Report
    | Retry
    | Stop

  predicate Can(s: System, step: Step) {
    match step
    case Change(answer, i) => i > s.server.index && UniqueKeys(answer)
    case Reset(answer, i) => i > 0 && UniqueKeys(answer)
    case Reply => s.loop.phase.Asking?
    case Handle => s.loop.phase.Holding?
    case TakeBack => s.loop.phase.Storing?
    case Send => s.loop.phase.Sending? && s.loop.events.None?
    case Receive => s.loop.events.Some?
    case ReadError => s.loop.errs.Some?
    case Break => s.loop.phase.Asking?
    case Drain => s.loop.phase.Failing?
    case Report => s.loop.phase.Reporting? && s.loop.errs.None?
    case Retry => s.loop.phase.Pausing?
    case Stop => s.loop.phase.Asking? || s.loop.phase.Pausing?
  }

  function After(s: System, step: Step): System
    requires Can(s, step)
  {
    match step
    case Change(answer, i) =>
      s.(server := s.server.(index := i, answer := answer, history := s.server.history[i := answer]))
    case Reset(answer, i) => s.(server := Server(i, answer, s.server.epoch + 1, map[i := answer]))
    case Reply => s.(loop := s.loop.(phase := Holding(s.server.answer, s.server.index, s.server.epoch)))
    case Handle =>
      var Holding(list, got, epoch) := s.loop.phase;
      s.(loop := Handled(s.loop, list, got), seen := epoch, restart := got < s.loop.index)
    case TakeBack => s.(loop := TakenBack(s.loop))
    case Send => s.(loop := Sent(s.loop))
    case Receive =>
      var ev := s.loop.events.value;
      s.(loop := s.loop.(events := None),
         consumer := Consumer(s.consumer.received + [ev], Patch(s.consumer.view, ev)))
    case ReadError => s.(loop := s.loop.(errs := None))
    case Break => s.(loop := s.loop.(phase := Failing, failures := s.loop.failures + 1), restart := true)
    case Drain => s.(loop := s.loop.(phase := Reporting, errs := None))
    case Report => s.(loop := s.loop.(phase := Pausing, errs := Some(s.loop.failures)))
    case Retry => s.(loop := s.loop.(phase := Asking, index := 0))
    case Stop => s.(loop := s.loop.(phase := Stopped))
  }

  predicate Init(s: System) {
    && s.loop == START && s.consumer == Consumer([], map[]) && s.seen == s.server.epoch && !s.restart
    && s.server.index > 0 && UniqueKeys(s.server.answer) && s.server.history == map[s.server.index := s.server.answer]
  }

  predicate Run(s: System, steps: seq<Step>, t: System)
    decreases |steps|
  {
    if steps == [] then s == t
    else Can(s, steps[0]) && Run(After(s, steps[0]), steps[1..], t)
  }

  // ---------------------------------------------------------------- invariant

  /** The instances of the last event received. */
  function LastReceived(c: Consumer): List {
    if c.received == [] then [] else c.received[|c.received| - 1].instances
  }

  /** What the goroutine believes the consumer has seen. */
  ghost predicate ChannelInv(l: Loop, c: Consumer) {
    && UniqueKeys(l.delivered) && UniqueKeys(l.lastSent)
    && match l.phase
       case Sending(_) => l.events.None? && l.delivered == LastReceived(c)
       case _ =>
         if l.events.Some? then
           l.events.value == EventBetween(l.delivered, l.lastSent) && l.delivered == LastReceived(c)
         else l.lastSent == LastReceived(c)
  }

  ghost predicate SnapshotInv(l: Loop) {
    && (l.haveState <==> l.current.Some?) && (l.haveState <==> l.published != [])
    && (!l.haveState ==> l.lastSent == [] && l.index == 0)
    && (l.haveState ==> l.current.value == l.published[|l.published| - 1])
    && (forall k | 0 < k < |l.published| :: !EqualLists(l.published[k], l.published[k - 1]))
    && match l.phase
       case Storing(list) => l.current == Some(list) && UniqueKeys(list)
       case Sending(list) => l.current == Some(list) && UniqueKeys(list)
       case _ => l.haveState ==> l.current == Some(l.lastSent)
  }

  ghost predicate ServerInv(v: Server) {
    && v.index > 0 && UniqueKeys(v.answer)
    && v.index in v.history && v.history[v.index] == v.answer
    && (forall i | i in v.history :: 0 < i <= v.index)
  }

  ghost predicate IndexInv(s: System) {
    && s.seen <= s.server.epoch
    && (s.loop.index > 0 && s.seen == s.server.epoch ==>
          && s.loop.current.Some? && s.loop.index in s.server.history
          && EqualLists(s.server.history[s.loop.index], s.loop.current.value))
    && (s.loop.phase.Holding? ==>
          var Holding(list, got, epoch) := s.loop.phase;
          && UniqueKeys(list) && got > 0 && epoch <= s.server.epoch
          && (epoch == s.server.epoch ==> got in s.server.history && s.server.history[got] == list))
  }

  /** The loop and the consumer, the consumer's view being that of the last event it
      received. */
  ghost predicate LoopInv(l: Loop, c: Consumer) {
    SnapshotInv(l) && ChannelInv(l, c) && Similar(c.view, AsMap(LastReceived(c)))
  }

  predicate Failed(l: Loop) {
    l.phase.Failing? || l.phase.Reporting? || l.phase.Pausing?
  }

  /** Outside the handling of a failure, the index is zero exactly at the start and
      after a failure or an index that went backwards. */
  predicate RestartInv(s: System) {
    if Failed(s.loop) then s.restart
    else s.loop.phase.Stopped? || (s.loop.index == 0 <==> s.restart || !s.loop.haveState)
  }

  ghost predicate Inv(s: System) {
    && ServerInv(s.server) && IndexInv(s) && LoopInv(s.loop, s.consumer)
    && (s.loop.phase.Reporting? ==> s.loop.errs.None?)
    && RestartInv(s)
  }

  lemma {:induction false} ViewFollows(c: Consumer, next: List)
    requires UniqueKeys(LastReceived(c)) && UniqueKeys(next) && Similar(c.view, AsMap(LastReceived(c)))
    ensures var ev := EventBetween(LastReceived(c), next);
            var d := Consumer(c.received + [ev], Patch(c.view, ev));
            LastReceived(d) == next && Similar(d.view, AsMap(next))
  {
    PatchReaches(c.view, LastReceived(c), next);
  }

  lemma TakenSnapshot(l: Loop)
    requires SnapshotInv(l)
    ensures SnapshotInv(l.(events := None))
  {
  }

  /** The consumer takes the event that leads from what it had to what was sent. */
  lemma ReceivedLoop(l: Loop, c: Consumer, d: Consumer)
    requires LoopInv(l, c) && l.events.Some?
    requires d == Consumer(c.received + [l.events.value], Patch(c.view, l.events.value))
    ensures LoopInv(l.(events := None), d)
  {
    assert l.events.value == EventBetween(LastReceived(c), l.lastSent);
    ViewFollows(c, l.lastSent);
    TakenSnapshot(l);
  }

  lemma ReceiveKeeps(s: System)
    requires Inv(s) && s.loop.events.Some?
    ensures Inv(After(s, Receive))
  {
    var t := After(s, Receive);
    ReceivedLoop(s.loop, s.consumer, t.consumer);
    assert LoopInv(t.loop, t.consumer);
  }

  lemma HandledSnapshot(l: Loop, list: List, got: nat)
    requires SnapshotInv(l) && l.phase.Holding? && UniqueKeys(list) && got > 0
    ensures SnapshotInv(Handled(l, list, got))
    ensures EqualLists(list, Handled(l, list, got).current.value)
  {
    var m := Handled(l, list, got);
    assert m.haveState && m.current.Some?;
    assert forall k | 0 < k < |l.published| :: m.published[k] == l.published[k];
  }

  lemma HandleKeeps(s: System)
    requires Inv(s) && s.loop.phase.Holding?
    ensures Inv(After(s, Handle))
  {
    var Holding(list, got, _) := s.loop.phase;
    var t := After(s, Handle);
    HandledSnapshot(s.loop, list, got);
    assert IndexInv(t);
    assert ChannelInv(t.loop, t.consumer);
  }

  /** The server moves on, or answers. */
  lemma ServerKeeps(s: System, step: Step)
    requires Inv(s) && Can(s, step) && (step.Change? || step.Reset? || step.Reply?)
    ensures Inv(After(s, step))
  {
    var t := After(s, step);
    assert t.consumer == s.consumer && LoopInv(t.loop, t.consumer);
    assert ServerInv(t.server) && IndexInv(t);
  }

  /** The goroutine sends what it stored. */
  lemma SendKeeps(s: System, step: Step)
    requires Inv(s) && Can(s, step) && (step.TakeBack? || step.Send?)
    ensures Inv(After(s, step))
  {
    var t := After(s, step);
    assert t.server == s.server && t.consumer == s.consumer && IndexInv(t);
    assert SnapshotInv(t.loop) && ChannelInv(t.loop, t.consumer);
  }

  /** A request fails, and what follows. */
  lemma FailureKeeps(s: System, step: Step)
    requires Inv(s) && Can(s, step)
    requires step.ReadError? || step.Break? || step.Drain? || step.Report? || step.Retry? || step.Stop?
    ensures Inv(After(s, step))
  {
    var t := After(s, step);
    assert t.server == s.server && t.consumer == s.consumer && IndexInv(t);
    assert SnapshotInv(t.loop) && ChannelInv(t.loop, t.consumer);
  }

  lemma InvStep(s: System, step: Step)
    requires Inv(s) && Can(s, step)
    ensures Inv(After(s, step))
  {
    match step
    case Receive => ReceiveKeeps(s);
    case Handle => HandleKeeps(s);
    case TakeBack => SendKeeps(s, step);
    case Send => SendKeeps(s, step);
    case Change(_, _) => ServerKeeps(s, step);
    case Reset(_, _) => ServerKeeps(s, step);
    case Reply => ServerKeeps(s, step);
    case _ => FailureKeeps(s, step);
  }

  lemma {:induction false} InvRun(s: System, steps: seq<Step>, t: System)
    requires Inv(s) && Run(s, steps, t)
    ensures Inv(t)
    decreases |steps|
  {
    if steps != [] {
      InvStep(s, steps[0]);
      InvRun(After(s, steps[0]), steps[1..], t);
    }
  }

  lemma InitInv(s: System)
    requires Init(s)
    ensures Inv(s)
  {
  }

  // ----------------------------------------------------------------- theorems

  /** Whatever it reads and whenever, a consumer that applies the events it
      receives holds the instances of the last of them; and once it has read
      everything, it has seen the current snapshot. */
  lemma ConsumerView(s: System, steps: seq<Step>, t: System)
    requires Init(s) && Run(s, steps, t)
    ensures Similar(t.consumer.view, AsMap(LastReceived(t.consumer)))
    ensures t.loop.events.None? && t.loop.phase.Asking? && t.loop.current.Some? ==>
              LastReceived(t.consumer) == t.loop.current.value
    ensures t.loop.events.Some? ==>
              t.loop.events.value == EventBetween(LastReceived(t.consumer), t.loop.events.value.instances)
  {
    InitInv(s);
    InvRun(s, steps, t);
  }

  /** The goroutine never waits for the consumer: when it is about to send, the
      channel has room. */
  lemma NeverBlocks(s: System, steps: seq<Step>, t: System)
    requires Init(s) && Run(s, steps, t)
    ensures t.loop.phase.Sending? ==> Can(t, Send)
    ensures t.loop.phase.Reporting? ==> Can(t, Report)
  {
    InitInv(s);
    InvRun(s, steps, t);
  }

  /** While the server holds a request back, the snapshot is up to date, unless
      the index went backwards since the answer that set it. */
  lemma HeldMeansUpToDate(s: System, steps: seq<Step>, t: System)
    requires Init(s) && Run(s, steps, t)
    requires t.loop.index > 0 && t.seen == t.server.epoch
    ensures t.loop.current.Some? && t.loop.index in t.server.history
    ensures EqualLists(t.server.history[t.loop.index], t.loop.current.value)
    ensures Blocks(t.loop.index, t.server.index) ==> EqualLists(t.server.answer, t.loop.current.value)
  {
    InitInv(s);
    InvRun(s, steps, t);
  }

  /** In every run, a request carries no index exactly when it is the first one to be
      answered, or follows a failure or an answer whose index went backwards; and
      then no server holds it back. */
  lemma RestartNeverBlocks(s: System, steps: seq<Step>, t: System)
    requires Init(s) && Run(s, steps, t) && t.loop.phase.Asking?
    ensures t.loop.index == 0 <==> t.restart || !t.loop.haveState
    ensures t.restart ==> forall now :: !Blocks(t.loop.index, now)
  {
    InitInv(s);
    InvRun(s, steps, t);
  }

  /** How many requests have failed since the last answer. */
  function FailuresSince(steps: seq<Step>, before: nat): nat {
    if steps == [] then before
    else FailuresSince(steps[1..], if steps[0].Handle? then 0 else if steps[0].Break? then before + 1 else before)
  }

  predicate PausesWithError(l: Loop) {
    l.phase.Pausing? && l.errs.Some? ==> l.errs.value == l.failures
  }

  lemma {:induction false} FailuresRun(s: System, steps: seq<Step>, t: System)
    requires PausesWithError(s.loop) && Run(s, steps, t)
    ensures PausesWithError(t.loop) && t.loop.failures == FailuresSince(steps, s.loop.failures)
    decreases |steps|
  {
    if steps != [] {
      FailuresRun(After(s, steps[0]), steps[1..], t);
    }
  }

  /** While the watch pauses after a failure, an error the consumer has not read is that
      of the last failure, numbered from the last answer on. */
  lemma PendingErrorIsLast(s: System, steps: seq<Step>, t: System)
    requires Init(s) && Run(s, steps, t) && t.loop.phase.Pausing? && t.loop.errs.Some?
    ensures t.loop.errs.value == FailuresSince(steps, 0)
  {
    FailuresRun(s, steps, t);
  }

  /** No snapshot equals the one before it. */
  lemma SnapshotsDiffer(s: System, steps: seq<Step>, t: System, k: nat)
    requires Init(s) && Run(s, steps, t) && 0 < k < |t.loop.published|
    ensures !EqualLists(t.loop.published[k], t.loop.published[k - 1])
  {
    InitInv(s);
    InvRun(s, steps, t);
  }
}
