/** Who owns the watches of a balancer: callers start them, an idle janitor and
    `Close` end them, each in its own goroutine. Watches are numbered in the
    order they are started. */
module Balancer {
  import opened Outcomes

  // ------------------------------------------------ the state behind the mutex

  /** `services` is the published map, swapped as a whole; `lastUsed` the clock
      reading at the last use of each watch. */
  datatype Core = Core(services: map<string, nat>, lastUsed: map<nat, int>, started: nat,
                       closed: bool, cancelled: bool, janitor: bool)

  const EMPTY := Core(map[], map[], 0, false, false, false)

  predicate Open(c: Core) {
    !c.closed && !c.cancelled
  }

  /** Every published watch was started, under one name, and has been used. */
  ghost predicate CoreInv(c: Core) {
    && (forall n | n in c.services :: c.services[n] < c.started)
    && (forall m, n | m in c.services && n in c.services && m != n :: c.services[m] != c.services[n])
    && (forall id | 0 <= id < c.started :: id in c.lastUsed)
    && (c.closed ==> c.cancelled)
  }

  /** The locked part of `entry` once its check has passed: an unknown service gets a
      new watch, unless its query is refused. The context may have ended since. */
  function Entered(c: Core, idle: int, name: string, accepted: bool, now: int): Core {
    if name in c.services then c.(lastUsed := c.lastUsed[c.services[name] := now])
    else if !accepted then c
    else c.(services := c.services[name := c.started], lastUsed := c.lastUsed[c.started := now],
            started := c.started + 1, janitor := c.janitor || idle > 0)
  }

  predicate IsIdle(c: Core, idle: int, now: int, id: nat) {
    id in c.lastUsed && now - c.lastUsed[id] >= idle
  }

  /** Of some services, those the janitor keeps. */
  function KeptAmong(c: Core, idle: int, now: int, names: set<string>): map<string, nat> {
    map n | n in names && n in c.services && !IsIdle(c, idle, now, c.services[n]) :: c.services[n]
  }

  /** Of some services, the watches the janitor takes out. */
  function ReleasedAmong(c: Core, idle: int, now: int, names: set<string>): set<nat> {
    set n | n in names && n in c.services && IsIdle(c, idle, now, c.services[n]) :: c.services[n]
  }

  function Kept(c: Core, idle: int, now: int): map<string, nat> {
    KeptAmong(c, idle, now, c.services.Keys)
  }

  function Released(c: Core, idle: int, now: int): set<nat> {
    ReleasedAmong(c, idle, now, c.services.Keys)
  }

  lemma SortOne(c: Core, idle: int, now: int, names: set<string>, name: string)
    requires name in c.services && name !in names
    ensures var id := c.services[name];
            var kept, released := KeptAmong(c, idle, now, names), ReleasedAmong(c, idle, now, names);
            var gone := IsIdle(c, idle, now, id);
            && KeptAmong(c, idle, now, names + {name}) == (if gone then kept else kept[name := id])
            && ReleasedAmong(c, idle, now, names + {name}) == (if gone then released + {id} else released)
  {
    var id := c.services[name];
    var before, after := ReleasedAmong(c, idle, now, names), ReleasedAmong(c, idle, now, names + {name});
    assert forall n | n in names + {name} :: n in names || n == name;
    assert IsIdle(c, idle, now, id) ==> name in names + {name} && id in after;
    assert before <= after;
  }

  lemma NoneIdle(c: Core, idle: int, now: int)
    requires Released(c, idle, now) == {}
    ensures Kept(c, idle, now) == c.services
  {
    forall n | n in c.services
      ensures !IsIdle(c, idle, now, c.services[n])
    {
      var id := c.services[n];
      assert IsIdle(c, idle, now, id) ==> id in Released(c, idle, now);
    }
  }

  lemma KeptKeeps(c: Core, idle: int, now: int)
    requires CoreInv(c)
    ensures CoreInv(c.(services := Kept(c, idle, now)))
  {
  }

  /** The loop of the janitor over the published map. */
  method Sort(c: Core, idle: int, now: int) returns (next: map<string, nat>, idles: set<nat>)
    requires forall n | n in c.services :: c.services[n] in c.lastUsed
    ensures next == Kept(c, idle, now) && idles == Released(c, idle, now)
    ensures forall n :: n in next <==> n in c.services && now - c.lastUsed[c.services[n]] < idle
    ensures forall id :: id in idles <==> id in c.services.Values && now - c.lastUsed[id] >= idle
  {
    ghost var done: set<string> := {};
    var todo := c.services.Keys;
    next, idles := map[], {};
    while todo != {}
      invariant done !! todo && done + todo == c.services.Keys
      invariant next == KeptAmong(c, idle, now, done) && idles == ReleasedAmong(c, idle, now, done)
      decreases todo
    {
      var name :| name in todo;
      var id := c.services[name];
      SortOne(c, idle, now, done, name);
      if now - c.lastUsed[id] >= idle {
        idles := idles + {id};
      } else {
        next := next[name := id];
      }
      todo, done := todo - {name}, done + {name};
    }
    assert done == c.services.Keys;
  }

  class Guarded {
    const idle: int
    var services: map<string, nat>
    var lastUsed: map<nat, int>
    var started: nat
    var closed: bool
    var cancelled: bool
    var janitor: bool

    function State(): Core
      reads this
    {
      Core(services, lastUsed, started, closed, cancelled, janitor)
    }

    constructor (idle: int)
      ensures this.idle == idle && State() == EMPTY && CoreInv(State())
    {
      this.idle := idle;
      services, lastUsed, started, closed, cancelled, janitor := map[], map[], 0, false, false, false;
    }

    /** The locked part of `entry` past its check: the watch of a service, started on
        first use; None when the query is refused. */
    method Enter(name: string, accepted: bool, now: int) returns (r: Option<nat>)
      requires CoreInv(State())
      modifies this
      ensures State() == Entered(old(State()), idle, name, accepted, now) && CoreInv(State())
      ensures r.Some? <==> name in services
      ensures r.Some? ==> r.value == services[name] && lastUsed[r.value] == now
    {
      if name in services {
        lastUsed := lastUsed[services[name] := now];
        return Some(services[name]);
      }
      if !accepted {
        return None;
      }
      var id := started;
      started := started + 1;
      lastUsed := lastUsed[id := now];
      services := services[name := id];
      if idle > 0 {
        janitor := true;
      }
      return Some(id);
    }

    /** One round of the janitor: publishes the map of the services still in use, if
        any was idle. */
    method Release(now: int) returns (idles: set<nat>)
      requires CoreInv(State())
      modifies this
      ensures State() == old(State()).(services := Kept(old(State()), idle, now)) && CoreInv(State())
      ensures idles == Released(old(State()), idle, now)
    {
      KeptKeeps(State(), idle, now);
      var next;
      next, idles := Sort(State(), idle, now);
      if idles != {} {
        services := next;
      } else {
        NoneIdle(State(), idle, now);
      }
    }

    /** The locked part of `Close`. */
    method BeginClose() returns (list: set<nat>)
      requires CoreInv(State())
      modifies this
      ensures State() == old(State()).(closed := true, cancelled := true) && CoreInv(State())
      ensures list == services.Values
    {
      closed := true;
      cancelled := true;
      list := services.Values;
    }
  }

  // --------------------------------------------------------------- the system

  datatype Janitor = Absent | Waiting | Ending(todo: set<nat>) | Gone

  /** One call of `Close`: it ends the watches it found, then waits for the
      janitor. */
  datatype Closer = Stopping(todo: set<nat>) | Joining | Returned

  /** A call of `entry` that holds the mutex and has passed the check. */
  datatype Entrant = Entrant(name: string, accepted: bool, now: int)

  datatype System = System(core: Core, entrant: Option<Entrant>, ended: set<nat>, janitor: Janitor,
                           closers: map<nat, Closer>)

  datatype Step =
    | Check(call: Entrant)          // takes the mutex; refused, it is over
    | Enter                         // and releases it
    | Use(id: nat, now: int)        // a caller that found the watch in the published map
    | Cancel                        // the parent context ends
    | WatchEnds(id: nat)            // and with it every watch, in its own time
    | Tick(now: int)
    | EndIdle(id: nat)
    | Rest                          // the janitor has ended every idle watch
    | Leave                         // the janitor sees the context done
    | Close(who: nat)
    | EndOne(who: nat, id: nat)
    | Join(who: nat)
    | Return(who: nat)

  predicate Can(s: System, step: Step) {
    match step
    case Check(_) => s.entrant.None?
    case Enter => s.entrant.Some?
    case Use(id, _) => id < s.core.started
    case Cancel => true
    case WatchEnds(id) => s.core.cancelled && id < s.core.started
    case Tick(_) => s.janitor.Waiting? && s.entrant.None?
    case EndIdle(id) => s.janitor.Ending? && id in s.janitor.todo
    case Rest => s.janitor == Ending({})
    case Leave => s.janitor.Waiting? && s.core.cancelled
    case Close(who) => who !in s.closers && s.entrant.None?
    case EndOne(who, id) => who in s.closers && s.closers[who].Stopping? && id in s.closers[who].todo
    case Join(who) => who in s.closers && s.closers[who] == Stopping({})
    case Return(who) => who in s.closers && s.closers[who].Joining? && (s.janitor.Absent? || s.janitor.Gone?)
  }

  function After(idle: int, s: System, step: Step): System
    requires Can(s, step)
  {
    match step
    case Check(call) => if Open(s.core) then s.(entrant := Some(call)) else s
    case Enter =>
      var Entrant(name, accepted, now) := s.entrant.value;
      var core := Entered(s.core, idle, name, accepted, now);
      s.(core := core, entrant := None, janitor := if core.janitor && s.janitor.Absent? then Waiting else s.janitor)
    case Use(id, now) => s.(core := s.core.(lastUsed := s.core.lastUsed[id := now]))
    case Cancel => s.(core := s.core.(cancelled := true))
    case WatchEnds(id) => s.(ended := s.ended + {id})
    case Tick(now) =>
      s.(core := s.core.(services := Kept(s.core, idle, now)), janitor := Ending(Released(s.core, idle, now)))
    case EndIdle(id) => s.(ended := s.ended + {id}, janitor := Ending(s.janitor.todo - {id}))
    case Rest => s.(janitor := Waiting)
    case Leave => s.(janitor := Gone)
    case Close(who) =>
      s.(core := s.core.(closed := true, cancelled := true),
         closers := s.closers[who := Stopping(s.core.services.Values)])
    case EndOne(who, id) =>
      s.(ended := s.ended + {id}, closers := s.closers[who := Stopping(s.closers[who].todo - {id})])
    case Join(who) => s.(closers := s.closers[who := Joining])
    case Return(who) => s.(closers := s.closers[who := Returned])
  }

  const START := System(EMPTY, None, {}, Absent, map[])

  predicate Run(idle: int, s: System, steps: seq<Step>, t: System)
    decreases |steps|
  {
    if steps == [] then s == t
    else Can(s, steps[0]) && Run(idle, After(idle, s, steps[0]), steps[1..], t)
  }

  // ---------------------------------------------------------------- invariant

  function HeldByJanitor(s: System): set<nat> {
    if s.janitor.Ending? then s.janitor.todo else {}
  }

  /** What one call of `Close` is still answerable for. */
  function HeldBy(c: Closer): set<nat> {
    if c.Stopping? then c.todo else {}
  }

  /** Every watch started is published, held by the janitor, or ended. */
  ghost predicate Owned(s: System) {
    forall id | 0 <= id < s.core.started ::
      id in s.core.services.Values || id in HeldByJanitor(s) || id in s.ended
  }

  /** After the locked part of `Close`, every watch is in its list, held by the
      janitor, or ended. */
  ghost predicate CloserInv(s: System, c: Closer) {
    && s.core.closed
    && (forall id | 0 <= id < s.core.started :: id in HeldBy(c) || id in HeldByJanitor(s) || id in s.ended)
    && (forall id | id in HeldBy(c) :: id < s.core.started)
    && (c.Returned? ==> s.janitor.Absent? || s.janitor.Gone?)
  }

  ghost predicate Inv(s: System) {
    && CoreInv(s.core)
    && (s.entrant.Some? ==> !s.core.closed)
    && Owned(s)
    && (Open(s.core) ==> s.core.services.Values !! s.ended)
    && s.core.services.Values !! HeldByJanitor(s)
    && (forall id | id in HeldByJanitor(s) :: id < s.core.started)
    && (forall id | id in s.ended :: id < s.core.started)
    && (s.janitor.Gone? ==> s.core.cancelled)
    && (s.core.janitor <==> !s.janitor.Absent?)
    && (forall who | who in s.closers :: CloserInv(s, s.closers[who]))
  }

  /** Entering keeps the state behind the mutex in order, and publishes at most the
      watch it starts. */
  lemma EnteredCore(c: Core, idle: int, name: string, accepted: bool, now: int)
    requires CoreInv(c)
    ensures var d := Entered(c, idle, name, accepted, now);
            && CoreInv(d) && d.closed == c.closed && d.cancelled == c.cancelled
            && c.started <= d.started <= c.started + 1
            && d.services.Values == c.services.Values + (if d.started > c.started then {c.started} else {})
  {
    var d := Entered(c, idle, name, accepted, now);
    if d.started > c.started {
      assert d.services[name] == c.started;
      forall n | n in c.services
        ensures c.services[n] in d.services.Values
      {
        assert d.services[n] == c.services[n];
      }
    }
  }

  lemma EnterKeeps(idle: int, s: System)
    requires Inv(s) && s.entrant.Some?
    ensures Inv(After(idle, s, Enter))
  {
    var Entrant(name, accepted, now) := s.entrant.value;
    EnteredCore(s.core, idle, name, accepted, now);
  }

  lemma TickKeeps(idle: int, s: System, now: int)
    requires Inv(s) && s.janitor.Waiting? && s.entrant.None?
    ensures Inv(After(idle, s, Tick(now)))
  {
    var kept, released := Kept(s.core, idle, now), Released(s.core, idle, now);
    forall id
      ensures id in s.core.services.Values <==> id in kept.Values || id in released
      ensures !(id in kept.Values && id in released)
    {
      if id in s.core.services.Values {
        var n :| n in s.core.services && s.core.services[n] == id;
        assert !IsIdle(s.core, idle, now, id) ==> kept[n] == id;
      }
    }
  }

  /** A watch ends: by the janitor, with its context, or by a call of `Close`. */
  lemma EndKeeps(idle: int, s: System, step: Step)
    requires Inv(s) && Can(s, step)
    requires step.WatchEnds? || step.EndIdle? || step.EndOne?
    ensures Inv(After(idle, s, step))
  {
    var t := After(idle, s, step);
    assert step.EndOne? ==> CloserInv(s, s.closers[step.who]) && step.id in HeldBy(s.closers[step.who]);
    assert step.EndIdle? ==> step.id in HeldByJanitor(s);
    forall who | who in t.closers
      ensures CloserInv(t, t.closers[who])
    {
      assert CloserInv(s, s.closers[who]);
      assert HeldBy(t.closers[who]) <= HeldBy(s.closers[who]);
    }
  }

  /** A call of `Close` begins, or goes on. */
  lemma CloseKeeps(idle: int, s: System, step: Step)
    requires Inv(s) && Can(s, step)
    requires step.Close? || step.Join? || step.Return?
    ensures Inv(After(idle, s, step))
  {
    var t := After(idle, s, step);
    forall who | who in t.closers
      ensures CloserInv(t, t.closers[who])
    {
      assert who in s.closers ==> CloserInv(s, s.closers[who]);
    }
  }

  lemma InvStep(idle: int, s: System, step: Step)
    requires Inv(s) && Can(s, step)
    ensures Inv(After(idle, s, step))
  {
    match step
    case Enter => EnterKeeps(idle, s);
    case Tick(now) => TickKeeps(idle, s, now);
    case WatchEnds(_) => EndKeeps(idle, s, step);
    case EndIdle(_) => EndKeeps(idle, s, step);
    case EndOne(_, _) => EndKeeps(idle, s, step);
    case Close(_) => CloseKeeps(idle, s, step);
    case Join(_) => CloseKeeps(idle, s, step);
    case Return(_) => CloseKeeps(idle, s, step);
    case _ =>
  }

  lemma {:induction false} InvRun(idle: int, s: System, steps: seq<Step>, t: System)
    requires Inv(s) && Run(idle, s, steps, t)
    ensures Inv(t)
    decreases |steps|
  {
    if steps != [] {
      InvStep(idle, s, steps[0]);
      InvRun(idle, After(idle, s, steps[0]), steps[1..], t);
    }
  }

  // ----------------------------------------------------------------- theorems

  /** No watch is lost: each one started is published, held by the janitor for
      ending, or ended; and while the balancer is open, none that has ended can
      be found by a caller. */
  lemma EveryWatchIsOwned(idle: int, steps: seq<Step>, t: System, id: nat)
    requires Run(idle, START, steps, t) && id < t.core.started
    ensures id in t.core.services.Values || id in HeldByJanitor(t) || id in t.ended
    ensures Open(t.core) && id in t.core.services.Values ==> id !in t.ended
  {
    InvRun(idle, START, steps, t);
  }

  /** Once a call of `Close` has returned, every watch has ended, however many
      callers close the balancer at once. */
  lemma CloseEndsEveryWatch(idle: int, steps: seq<Step>, t: System, who: nat, id: nat)
    requires Run(idle, START, steps, t)
    requires who in t.closers && t.closers[who].Returned? && id < t.core.started
    ensures id in t.ended
  {
    InvRun(idle, START, steps, t);
    assert CloserInv(t, t.closers[who]);
  }

  lemma {:induction false} ClosedRun(idle: int, s: System, steps: seq<Step>, t: System)
    requires Inv(s) && Run(idle, s, steps, t) && s.core.closed
    ensures t.core.closed && t.core.started == s.core.started && s.ended <= t.ended
    decreases |steps|
  {
    if steps != [] {
      InvStep(idle, s, steps[0]);
      ClosedRun(idle, After(idle, s, steps[0]), steps[1..], t);
    }
  }

  /** From the moment the balancer is closed no watch is started and none comes back
      to life. */
  lemma NoneStartsOnceClosed(idle: int, before: seq<Step>, s: System, later: seq<Step>, t: System)
    requires Run(idle, START, before, s) && Run(idle, s, later, t) && s.core.closed
    ensures t.core.closed && t.core.started == s.core.started && s.ended <= t.ended
  {
    InvRun(idle, START, before, s);
    ClosedRun(idle, s, later, t);
  }

  /** From the moment its context ends at most one does: that of a call already past
      the check when it ended, as long as that call holds the mutex. */
  lemma {:induction false} OneStartsOnceCancelled(idle: int, s: System, steps: seq<Step>, t: System)
    requires Run(idle, s, steps, t) && s.core.cancelled
    ensures t.core.cancelled && s.ended <= t.ended && (t.entrant.Some? ==> s.entrant.Some?)
    ensures s.core.started <= t.core.started
    ensures t.core.started + (if t.entrant.Some? then 1 else 0) <= s.core.started + (if s.entrant.Some? then 1 else 0)
    decreases |steps|
  {
    if steps != [] {
      OneStartsOnceCancelled(idle, After(idle, s, steps[0]), steps[1..], t);
    }
  }

  // ------------------------------------------------- what the janitor may end

  /** The watch a step uses, and the clock reading it carries. */
  function UseOf(idle: int, s: System, step: Step): Option<(nat, int)>
    requires Can(s, step)
  {
    match step
    case Use(id, now) => Some((id, now))
    case Enter =>
      var Entrant(name, _, now) := s.entrant.value;
      var services := After(idle, s, Enter).core.services;
      if name in services then Some((services[name], now)) else None
    case _ => None
  }

  /** The clock reading of the last use of a watch in a run. */
  function LastUse(idle: int, s: System, steps: seq<Step>, id: nat): Option<int>
    decreases |steps|
  {
    if steps == [] || !Can(s, steps[0]) then None
    else
      match LastUse(idle, After(idle, s, steps[0]), steps[1..], id)
      case Some(now) => Some(now)
      case None =>
        match UseOf(idle, s, steps[0])
        case Some((used, now)) => if used == id then Some(now) else None
        case None => None
  }

  lemma {:induction false} LastUsedIs(idle: int, s: System, steps: seq<Step>, t: System, id: nat)
    requires Run(idle, s, steps, t)
    ensures match LastUse(idle, s, steps, id)
            case Some(now) => id in t.core.lastUsed && t.core.lastUsed[id] == now
            case None =>
              (id in t.core.lastUsed <==> id in s.core.lastUsed) &&
              (id in s.core.lastUsed ==> t.core.lastUsed[id] == s.core.lastUsed[id])
    decreases |steps|
  {
    if steps != [] {
      LastUsedIs(idle, After(idle, s, steps[0]), steps[1..], t, id);
    }
  }

  /** The last use of a watch lies a whole idle time or more before `now`. */
  predicate UnusedFor(idle: int, steps: seq<Step>, id: nat, now: int) {
    var last := LastUse(idle, START, steps, id);
    last.Some? && now - last.value >= idle
  }

  /** A round of the janitor at `now` takes out exactly the published watches whose
      last use in the run so far lies an idle time or more back; the others stay. */
  lemma JanitorTakesIdle(idle: int, steps: seq<Step>, s: System, now: int, id: nat)
    requires Run(idle, START, steps, s) && Can(s, Tick(now))
    ensures var t := After(idle, s, Tick(now));
            && (id in HeldByJanitor(t) <==> id in s.core.services.Values && UnusedFor(idle, steps, id, now))
            && (id in t.core.services.Values <==> id in s.core.services.Values && !UnusedFor(idle, steps, id, now))
  {
    InvRun(idle, START, steps, s);
    LastUsedIs(idle, START, steps, s, id);
    var t := After(idle, s, Tick(now));
    if id in s.core.services.Values {
      var n :| n in s.core.services && s.core.services[n] == id;
      assert IsIdle(s.core, idle, now, id) <==> UnusedFor(idle, steps, id, now);
      assert IsIdle(s.core, idle, now, id) ==> id in Released(s.core, idle, now);
      assert !IsIdle(s.core, idle, now, id) ==> n in t.core.services && t.core.services[n] == id;
    }
  }

  lemma {:induction false} LastStep(idle: int, s: System, steps: seq<Step>, t: System) returns (u: System)
    requires Run(idle, s, steps, t) && steps != []
    ensures Run(idle, s, steps[..|steps| - 1], u) && Can(u, steps[|steps| - 1])
    ensures After(idle, u, steps[|steps| - 1]) == t
    decreases |steps|
  {
    if |steps| == 1 {
      u := s;
    } else {
      u := LastStep(idle, After(idle, s, steps[0]), steps[1..], t);
      assert steps[..|steps| - 1][1..] == steps[1..][..|steps| - 2];
    }
  }

  /** Step `j` is a round of the janitor that found a watch published and unused for an
      idle time. */
  ghost predicate TakenOut(idle: int, steps: seq<Step>, j: nat, id: nat) {
    && j < |steps| && steps[j].Tick? && UnusedFor(idle, steps[..j], id, steps[j].now)
    && exists u :: Run(idle, START, steps[..j], u) && id in u.core.services.Values
  }

  /** So whatever the janitor ends, at any time in any run, had not been used for an
      idle time when its round took it out. */
  lemma {:induction false} JanitorEndsIdle(idle: int, steps: seq<Step>, s: System, id: nat)
    requires Run(idle, START, steps, s) && Can(s, EndIdle(id))
    ensures exists j :: TakenOut(idle, steps, j, id)
    decreases |steps|
  {
    var n := |steps| - 1;
    var u := LastStep(idle, START, steps, s);
    if steps[n].Tick? {
      JanitorTakesIdle(idle, steps[..n], u, steps[n].now, id);
      assert TakenOut(idle, steps, n, id);
    } else {
      JanitorEndsIdle(idle, steps[..n], u, id);
      var j: nat :| TakenOut(idle, steps[..n], j, id);
      assert steps[..n][..j] == steps[..j];
      assert TakenOut(idle, steps, j, id);
    }
  }

  lemma {:induction false} JanitorRun(idle: int, s: System, steps: seq<Step>, t: System)
    requires Inv(s) && Run(idle, s, steps, t) && (s.janitor.Absent? <==> idle <= 0 || s.core.started == 0)
    ensures t.janitor.Absent? <==> idle <= 0 || t.core.started == 0
    decreases |steps|
  {
    if steps != [] {
      InvStep(idle, s, steps[0]);
      JanitorRun(idle, After(idle, s, steps[0]), steps[1..], t);
    }
  }

  /** There is a janitor exactly when an idle time is set and a watch was started: without
      one no watch is ever taken out. */
  lemma JanitorExactly(idle: int, steps: seq<Step>, t: System)
    requires Run(idle, START, steps, t)
    ensures t.janitor.Absent? <==> idle <= 0 || t.core.started == 0
  {
    JanitorRun(idle, START, steps, t);
  }

  /** Whatever starts, ends and restarts, a published watch belongs to one service. */
  lemma OneServicePerWatch(idle: int, steps: seq<Step>, t: System, m: string, n: string)
    requires Run(idle, START, steps, t) && m in t.core.services && n in t.core.services
    ensures t.core.services[m] == t.core.services[n] ==> m == n
  {
    InvRun(idle, START, steps, t);
  }

  // --------------------------------------------------- starts after cancelling

  /** A call past the check is about to start a watch: its service is unknown and its
      query is accepted. */
  predicate AboutToStart(s: System) {
    s.entrant.Some? && s.entrant.value.accepted && s.entrant.value.name !in s.core.services
  }

  ghost predicate NoneStarts(idle: int, s: System) {
    forall steps, t | Run(idle, s, steps, t) :: t.core.started == s.core.started
  }

  lemma {:induction false} NoneAboutToStart(idle: int, s: System, steps: seq<Step>, t: System)
    requires Run(idle, s, steps, t) && s.core.cancelled && !AboutToStart(s)
    ensures t.core.started == s.core.started
    decreases |steps|
  {
    if steps != [] {
      NoneAboutToStart(idle, After(idle, s, steps[0]), steps[1..], t);
    }
  }

  /** Exactly when no watch is started once the context has ended: unless a call past
      the check was about to start one. */
  lemma NoneStartsExactly(idle: int, s: System)
    requires s.core.cancelled
    ensures NoneStarts(idle, s) <==> !AboutToStart(s)
  {
    if AboutToStart(s) {
      var t := After(idle, s, Enter);
      assert [Enter][1..] == [];
      assert Run(idle, t, [], t);
      assert Run(idle, s, [Enter], t);
      assert t.core.started == s.core.started + 1;
    } else {
      forall steps, t | Run(idle, s, steps, t)
        ensures t.core.started == s.core.started
      {
        NoneAboutToStart(idle, s, steps, t);
      }
    }
  }

  /** A balancer can get there: the check comes first, then the context ends, then the
      watch starts. It is owned like any other. */
  lemma StartsAfterCancel(idle: int, name: string, now: int)
    ensures var steps := [Check(Entrant(name, true, now)), Cancel, Enter];
            var t := After(idle, After(idle, After(idle, START, steps[0]), Cancel), Enter);
            Run(idle, START, steps, t) && t.core.cancelled && t.core.services == map[name := 0] && t.core.started == 1
  {
    var checked := After(idle, START, Check(Entrant(name, true, now)));
    var cancelled := After(idle, checked, Cancel);
    var t := After(idle, cancelled, Enter);
    assert [Check(Entrant(name, true, now)), Cancel, Enter][1..] == [Cancel, Enter];
    assert [Cancel, Enter][1..] == [Enter] && [Enter][1..] == [];
    assert Run(idle, t, [], t);
    assert Run(idle, cancelled, [Enter], t);
    assert Run(idle, checked, [Cancel, Enter], t);
  }
}
