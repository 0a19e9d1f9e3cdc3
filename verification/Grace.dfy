/** The stale grace of a balancer: a service that lost every instance is served
    from the last list that had some, for a while. */
module Grace {
  import opened Outcomes

  /** One state of a watch; `id` stands for the pointer, `size` for its length. */
  datatype Snap = Snap(id: nat, size: nat)

  /** The two atomic variables of an entry. */
  datatype Kept = Kept(last: Option<Snap>, lastSeen: int)

  const NOTHING := Kept(None, 0)

  // ------------------------------------------------------- one call at a time

  /** One call with the state the watch has and a clock reading. */
  datatype Call = Call(snap: Snap, now: int)

  /** What a call leaves behind. */
  function Noted(grace: int, k: Kept, c: Call): Kept {
    if grace > 0 && c.snap.size > 0 then Kept(Some(c.snap), c.now) else k
  }

  /** What a call serves. */
  function Served(grace: int, k: Kept, c: Call): Snap {
    if grace <= 0 || c.snap.size > 0 || k.last.None? || c.now - k.lastSeen > grace then c.snap else k.last.value
  }

  class Entry {
    var last: Option<Snap>
    var lastSeen: int

    function State(): Kept
      reads this
    {
      Kept(last, lastSeen)
    }

    constructor ()
      ensures State() == NOTHING
    {
      last, lastSeen := None, 0;
    }

    method WithGrace(s: Snap, grace: int, now: int) returns (r: Snap)
      modifies this
      ensures State() == Noted(grace, old(State()), Call(s, now))
      ensures r == Served(grace, old(State()), Call(s, now))
    {
      if grace <= 0 {
        return s;
      }
      if s.size > 0 {
        lastSeen := now;
        if last != Some(s) {
          last := Some(s);
        }
        return s;
      }
      if last.None? || now - lastSeen > grace {
        return s;
      }
      return last.value;
    }
  }

  function KeptAfter(grace: int, calls: seq<Call>): Kept {
    if calls == [] then NOTHING
    else Noted(grace, KeptAfter(grace, calls[..|calls| - 1]), calls[|calls| - 1])
  }

  /** Call `j` is the last one that saw instances. */
  predicate LastSighting(calls: seq<Call>, j: nat) {
    j < |calls| && calls[j].snap.size > 0 && forall i | j < i < |calls| :: calls[i].snap.size == 0
  }

  lemma {:induction false} KeepsLastSighting(grace: int, calls: seq<Call>)
    requires grace > 0
    ensures KeptAfter(grace, calls).last.Some? <==> exists j: nat :: LastSighting(calls, j)
    ensures forall j: nat | LastSighting(calls, j) ::
              KeptAfter(grace, calls) == Kept(Some(calls[j].snap), calls[j].now)
  {
    if calls != [] {
      var n := |calls| - 1;
      var init := calls[..n];
      KeepsLastSighting(grace, init);
      if calls[n].snap.size > 0 {
        assert LastSighting(calls, n);
        assert forall j: nat | LastSighting(calls, j) :: j == n;
      } else {
        assert forall j: nat | LastSighting(init, j) :: LastSighting(calls, j);
        assert forall j: nat | LastSighting(calls, j) :: LastSighting(init, j);
      }
    }
  }

  /** Calls made one after the other: a call that sees no instances serves another
      state exactly when an earlier call saw instances, the last of those no more
      than the grace ago, and then it serves what that one saw. */
  lemma {:induction false} ServedExactly(grace: int, calls: seq<Call>, c: Call, r: Snap)
    ensures Served(grace, KeptAfter(grace, calls), c) == r && r != c.snap ==>
              grace > 0 && c.snap.size == 0 &&
              exists j: nat :: LastSighting(calls, j) && c.now - calls[j].now <= grace && r == calls[j].snap
    ensures forall j: nat | grace > 0 && c.snap.size == 0 && LastSighting(calls, j) && c.now - calls[j].now <= grace ::
              Served(grace, KeptAfter(grace, calls), c) == calls[j].snap
  {
    if grace > 0 {
      KeepsLastSighting(grace, calls);
    }
  }

  // ------------------------------------------------------------ calls that overlap

  /** Where a call stands between two atomic operations. */
  datatype Phase =
    | Begun
    | SeenStored            // it has instances, and has stored when it saw them
    | Differs               // and has loaded a last state that is another one
    | Loaded(last: Snap)    // it has none, and has loaded the last state
    | Done(served: Snap)

  datatype Caller = Caller(call: Call, phase: Phase)

  datatype System = System(kept: Kept, callers: map<nat, Caller>)

  datatype Step =
    | Begin(who: nat, call: Call)
    | StoreSeen(who: nat)
    | Compare(who: nat)
    | StoreLast(who: nat)
    | LoadLast(who: nat)
    | Judge(who: nat)       // loads when instances were seen last, and decides

  predicate At(s: System, who: nat, sees: bool) {
    who in s.callers && (s.callers[who].call.snap.size > 0 <==> sees)
  }

  predicate Can(s: System, step: Step) {
    match step
    case Begin(who, _) => who !in s.callers
    case StoreSeen(who) => At(s, who, true) && s.callers[who].phase.Begun?
    case Compare(who) => At(s, who, true) && s.callers[who].phase.SeenStored?
    case StoreLast(who) => At(s, who, true) && s.callers[who].phase.Differs?
    case LoadLast(who) => At(s, who, false) && s.callers[who].phase.Begun?
    case Judge(who) => At(s, who, false) && s.callers[who].phase.Loaded?
  }

  function Moved(s: System, who: nat, phase: Phase): System
    requires who in s.callers
  {
    s.(callers := s.callers[who := s.callers[who].(phase := phase)])
  }

  function After(grace: int, s: System, step: Step): System
    requires Can(s, step)
  {
    match step
    case Begin(who, call) => s.(callers := s.callers[who := Caller(call, Begun)])
    case StoreSeen(who) =>
      Moved(s, who, SeenStored).(kept := s.kept.(lastSeen := s.callers[who].call.now))
    case Compare(who) =>
      var snap := s.callers[who].call.snap;
      Moved(s, who, if s.kept.last == Some(snap) then Done(snap) else Differs)
    case StoreLast(who) =>
      var snap := s.callers[who].call.snap;
      Moved(s, who, Done(snap)).(kept := s.kept.(last := Some(snap)))
    case LoadLast(who) =>
      Moved(s, who, match s.kept.last case None => Done(s.callers[who].call.snap) case Some(last) => Loaded(last))
    case Judge(who) =>
      var Caller(call, Loaded(last)) := s.callers[who];
      Moved(s, who, Done(if call.now - s.kept.lastSeen > grace then call.snap else last))
  }

  const START := System(NOTHING, map[])

  predicate Run(grace: int, s: System, steps: seq<Step>, t: System)
    decreases |steps|
  {
    if steps == [] then s == t
    else Can(s, steps[0]) && Run(grace, After(grace, s, steps[0]), steps[1..], t)
  }

  /** Some caller saw these instances. */
  ghost predicate Sighted(s: System, snap: Snap) {
    exists a :: At(s, a, true) && s.callers[a].call.snap == snap
  }

  /** Some caller saw instances at this time. */
  ghost predicate SightedAt(s: System, now: int) {
    exists a :: At(s, a, true) && s.callers[a].call.now == now
  }

  /** What a call that is over may have served. */
  ghost predicate Justified(grace: int, s: System, c: Caller, served: Snap) {
    served != c.call.snap ==>
      && c.call.snap.size == 0 && Sighted(s, served)
      && exists at :: SightedAt(s, at) && c.call.now - at <= grace
  }

  ghost predicate CallerInv(grace: int, s: System, c: Caller) {
    match c.phase
    case Done(served) => Justified(grace, s, c, served)
    case Loaded(last) => Sighted(s, last) && SightedAt(s, s.kept.lastSeen)
    case SeenStored => SightedAt(s, s.kept.lastSeen)
    case Differs => SightedAt(s, s.kept.lastSeen)
    case Begun => true
  }

  ghost predicate Inv(grace: int, s: System) {
    && (s.kept.last.Some? ==> Sighted(s, s.kept.last.value) && SightedAt(s, s.kept.lastSeen))
    && forall who | who in s.callers :: CallerInv(grace, s, s.callers[who])
  }

  /** What was sighted stays sighted. */
  lemma SightingsStay(grace: int, s: System, step: Step)
    requires Can(s, step)
    ensures forall snap | Sighted(s, snap) :: Sighted(After(grace, s, step), snap)
    ensures forall at | SightedAt(s, at) :: SightedAt(After(grace, s, step), at)
  {
    var t := After(grace, s, step);
    forall a, sees | At(s, a, sees)
      ensures At(t, a, sees) && t.callers[a].call == s.callers[a].call
    {
    }
  }

  lemma InvStep(grace: int, s: System, step: Step)
    requires Inv(grace, s) && Can(s, step)
    ensures Inv(grace, After(grace, s, step))
  {
    var t := After(grace, s, step);
    SightingsStay(grace, s, step);
    if step.StoreSeen? || step.StoreLast? {
      assert At(t, step.who, true);
    }
    forall who | who in t.callers
      ensures CallerInv(grace, t, t.callers[who])
    {
      assert who in s.callers ==> CallerInv(grace, s, s.callers[who]);
    }
  }

  lemma {:induction false} InvRun(grace: int, s: System, steps: seq<Step>, t: System)
    requires Inv(grace, s) && Run(grace, s, steps, t)
    ensures Inv(grace, t)
    decreases |steps|
  {
    if steps != [] {
      InvStep(grace, s, steps[0]);
      InvRun(grace, After(grace, s, steps[0]), steps[1..], t);
    }
  }

  /** However calls overlap, one serves its own state, or, having none to choose
      from, the instances some call saw, while some call saw instances no more than
      the grace ago. */
  lemma ServedWasSighted(grace: int, steps: seq<Step>, t: System, who: nat, served: Snap)
    requires Run(grace, START, steps, t) && who in t.callers && t.callers[who].phase == Done(served)
    requires served != t.callers[who].call.snap
    ensures t.callers[who].call.snap.size == 0 && served.size > 0
    ensures exists a :: At(t, a, true) && t.callers[a].call.snap == served
    ensures exists b :: At(t, b, true) && t.callers[who].call.now - t.callers[b].call.now <= grace
  {
    InvRun(grace, START, steps, t);
    assert CallerInv(grace, t, t.callers[who]);
  }

  lemma Extend(grace: int, s: System, step: Step, u: System, rest: seq<Step>, t: System) returns (steps: seq<Step>)
    requires Can(s, step) && After(grace, s, step) == u && Run(grace, u, rest, t)
    ensures Run(grace, s, steps, t)
  {
    steps := [step] + rest;
    assert steps[1..] == rest;
  }

  lemma Notes(grace: int, who: nat, call: Call) returns (steps: seq<Step>)
    requires call.snap.size > 0
    ensures Run(grace, START, steps, System(Kept(Some(call.snap), call.now), map[who := Caller(call, Done(call.snap))]))
  {
    var t := System(Kept(Some(call.snap), call.now), map[who := Caller(call, Done(call.snap))]);
    var begun := System(NOTHING, map[who := Caller(call, Begun)]);
    var seen := System(Kept(None, call.now), map[who := Caller(call, SeenStored)]);
    var differs := System(Kept(None, call.now), map[who := Caller(call, Differs)]);
    steps := Extend(grace, differs, StoreLast(who), t, [], t);
    steps := Extend(grace, seen, Compare(who), differs, steps, t);
    steps := Extend(grace, begun, StoreSeen(who), seen, steps, t);
    steps := Extend(grace, START, Begin(who, call), begun, steps, t);
  }

  lemma {:induction false} Joined(grace: int, s: System, a: seq<Step>, m: System, b: seq<Step>, t: System)
    requires Run(grace, s, a, m) && Run(grace, m, b, t)
    ensures Run(grace, s, a + b, t)
    decreases |a|
  {
    if a == [] {
      assert a + b == b;
    } else {
      var all := a + b;
      assert all[0] == a[0] && all[1..] == a[1..] + b;
      Joined(grace, After(grace, s, a[0]), a[1..], m, b, t);
    }
  }

  // -------------------------------------------------------------------- coherence

  /** The call is between its two stores. */
  predicate Half(s: System, who: nat) {
    who in s.callers && (s.callers[who].phase.SeenStored? || s.callers[who].phase.Differs?)
  }

  ghost predicate NoneHalf(s: System) {
    forall who :: !Half(s, who)
  }

  /** The call has stored when it saw instances. */
  predicate Stored(s: System, a: nat) {
    At(s, a, true) && !s.callers[a].phase.Begun?
  }

  /** Some call saw these instances at this time. */
  ghost predicate SightedThen(s: System, snap: Snap, now: int) {
    exists a :: Stored(s, a) && s.callers[a].call == Call(snap, now)
  }

  /** What was seen and when it was seen come from one sighting. */
  ghost predicate OneSighting(s: System) {
    s.kept.last.Some? ==> SightedThen(s, s.kept.last.value, s.kept.lastSeen)
  }

  ghost predicate Coherent(s: System) {
    NoneHalf(s) && OneSighting(s)
  }

  /** Two calls with different states are between their stores at once. */
  ghost predicate Clash(s: System) {
    exists a, b :: Half(s, a) && Half(s, b) && s.callers[a].call.snap != s.callers[b].call.snap
  }

  /** A run in which no two such calls overlap. */
  ghost predicate Apart(grace: int, s: System, steps: seq<Step>, t: System)
    decreases |steps|
  {
    && !Clash(s)
    && if steps == [] then s == t else Can(s, steps[0]) && Apart(grace, After(grace, s, steps[0]), steps[1..], t)
  }

  /** Whoever is between its stores has seen its state at the time now stored. */
  ghost predicate Together(s: System) {
    && (forall who | Half(s, who) :: SightedThen(s, s.callers[who].call.snap, s.kept.lastSeen))
    && (NoneHalf(s) ==> OneSighting(s))
  }

  lemma CallsStay(grace: int, s: System, step: Step)
    requires Can(s, step)
    ensures var t := After(grace, s, step);
            && (forall a | Stored(s, a) :: Stored(t, a) && t.callers[a].call == s.callers[a].call)
            && (forall snap, now | SightedThen(s, snap, now) :: SightedThen(t, snap, now))
  {
  }

  lemma StoresTogether(grace: int, s: System, step: Step)
    requires Together(s) && Can(s, step) && !Clash(After(grace, s, step)) && step.StoreSeen?
    ensures Together(After(grace, s, step))
  {
    var t := After(grace, s, step);
    CallsStay(grace, s, step);
    assert Half(t, step.who) && Stored(t, step.who);
    assert SightedThen(t, t.callers[step.who].call.snap, t.kept.lastSeen);
  }

  lemma OverTogether(grace: int, s: System, step: Step)
    requires Together(s) && Can(s, step) && (step.Compare? || step.StoreLast?)
    ensures Together(After(grace, s, step))
  {
    var t := After(grace, s, step);
    var snap := s.callers[step.who].call.snap;
    CallsStay(grace, s, step);
    assert Half(s, step.who) && t.kept.lastSeen == s.kept.lastSeen;
    assert SightedThen(t, snap, t.kept.lastSeen);
    assert !Half(t, step.who) ==> t.kept.last == Some(snap);
    forall who | Half(t, who)
      ensures SightedThen(t, t.callers[who].call.snap, t.kept.lastSeen)
    {
      assert Half(s, who);
    }
  }

  lemma TogetherStep(grace: int, s: System, step: Step)
    requires Together(s) && Can(s, step) && !Clash(After(grace, s, step))
    ensures Together(After(grace, s, step))
  {
    var t := After(grace, s, step);
    CallsStay(grace, s, step);
    if step.StoreSeen? {
      StoresTogether(grace, s, step);
    } else if step.Compare? || step.StoreLast? {
      OverTogether(grace, s, step);
    } else {
      assert t.kept == s.kept;
      assert forall who :: Half(s, who) <==> Half(t, who);
      assert forall who | Half(s, who) :: t.callers[who].call == s.callers[who].call;
    }
  }

  lemma {:induction false} TogetherRun(grace: int, s: System, steps: seq<Step>, t: System)
    requires Together(s) && Apart(grace, s, steps, t)
    ensures Together(t)
    decreases |steps|
  {
    if steps != [] {
      TogetherStep(grace, s, steps[0]);
      TogetherRun(grace, After(grace, s, steps[0]), steps[1..], t);
    }
  }

  /** Coherence is lost only by two overlapping stores of different states: from a
      coherent state, while there are none, whenever no call is between its stores
      the state is coherent again. */
  lemma CoherenceKept(grace: int, s: System, steps: seq<Step>, t: System)
    requires Coherent(s) && Apart(grace, s, steps, t)
    ensures NoneHalf(t) ==> Coherent(t)
  {
    TogetherRun(grace, s, steps, t);
  }

  // -------------------------------------------------------------- newest sightings

  /** Nothing was seen later than the time stored, and once a call is over something
      is stored. */
  ghost predicate Newest(s: System) {
    && (forall a | Stored(s, a) :: s.callers[a].call.now <= s.kept.lastSeen)
    && (forall a | Stored(s, a) :: Half(s, a) || s.kept.last.Some?)
  }

  /** A run in which times are stored in the order in which they were read. */
  ghost predicate InOrder(grace: int, s: System, steps: seq<Step>, t: System)
    decreases |steps|
  {
    if steps == [] then s == t
    else
      && Can(s, steps[0])
      && (steps[0].StoreSeen? ==>
            forall a | Stored(s, a) :: s.callers[a].call.now <= s.callers[steps[0].who].call.now)
      && InOrder(grace, After(grace, s, steps[0]), steps[1..], t)
  }

  lemma NewestStep(grace: int, s: System, step: Step)
    requires Newest(s) && Can(s, step)
    requires step.StoreSeen? ==>
               forall a | Stored(s, a) :: s.callers[a].call.now <= s.callers[step.who].call.now
    ensures Newest(After(grace, s, step))
  {
    var t := After(grace, s, step);
    CallsStay(grace, s, step);
    forall a | Stored(t, a)
      ensures t.callers[a].call.now <= t.kept.lastSeen && (Half(t, a) || t.kept.last.Some?)
    {
      assert a in s.callers && t.callers[a].call == s.callers[a].call;
      assert Stored(s, a) || (step.StoreSeen? && step.who == a);
    }
  }

  lemma {:induction false} NewestKept(grace: int, s: System, steps: seq<Step>, t: System)
    requires Newest(s) && InOrder(grace, s, steps, t)
    ensures Newest(t)
    decreases |steps|
  {
    if steps != [] {
      NewestStep(grace, s, steps[0]);
      NewestKept(grace, After(grace, s, steps[0]), steps[1..], t);
    }
  }

  /** Call `a` saw instances, no more than the grace before `now`. */
  ghost predicate Recent(grace: int, s: System, now: int, a: nat) {
    Stored(s, a) && now - s.callers[a].call.now <= grace
  }

  ghost predicate Latest(s: System, a: nat) {
    Stored(s, a) && forall b | Stored(s, b) :: s.callers[b].call.now <= s.callers[a].call.now
  }

  /** What is promised to a call: what the latest call to see instances saw, if that
      was no more than the grace ago, and nothing but its own state otherwise. */
  ghost predicate Promised(grace: int, s: System, call: Call, served: Snap) {
    if exists a :: Recent(grace, s, call.now, a) then
      exists a :: Latest(s, a) && Recent(grace, s, call.now, a) && served == s.callers[a].call.snap
    else served == call.snap
  }

  /** What a call without instances is served when it meets no other. */
  function Alone(grace: int, s: System, who: nat): Snap
    requires Can(s, LoadLast(who))
  {
    var loaded := After(grace, s, LoadLast(who));
    if loaded.callers[who].phase.Done? then loaded.callers[who].phase.served
    else After(grace, loaded, Judge(who)).callers[who].phase.served
  }

  /** With both, what is promised holds of every call that meets no other: one
      without instances is served what the latest call to see any saw, if that was no
      more than the grace ago; and when nothing was seen within the grace, it is not
      served anything else. */
  lemma ServedNewest(grace: int, steps: seq<Step>, s: System, who: nat)
    requires Apart(grace, START, steps, s) && InOrder(grace, START, steps, s)
    requires NoneHalf(s) && Can(s, LoadLast(who))
    ensures Promised(grace, s, s.callers[who].call, Alone(grace, s, who))
  {
    CoherenceKept(grace, START, steps, s);
    NewestKept(grace, START, steps, s);
    if s.kept.last.Some? {
      var a :| Stored(s, a) && s.callers[a].call == Call(s.kept.last.value, s.kept.lastSeen);
      assert Latest(s, a);
      assert Recent(grace, s, s.callers[who].call.now, a) <==> s.callers[who].call.now - s.kept.lastSeen <= grace;
    }
  }

  // ------------------------------------------------------ exactly when it holds

  /** The call that stored a time last. */
  function LastTime(steps: seq<Step>): Option<nat> {
    if steps == [] then None
    else if LastTime(steps[1..]).Some? then LastTime(steps[1..])
    else if steps[0].StoreSeen? then Some(steps[0].who)
    else None
  }

  /** The call that stored a state last. */
  function LastState(steps: seq<Step>): Option<nat> {
    if steps == [] then None
    else if LastState(steps[1..]).Some? then LastState(steps[1..])
    else if steps[0].StoreLast? then Some(steps[0].who)
    else None
  }

  lemma {:induction false} StoredStays(grace: int, s: System, steps: seq<Step>, t: System, a: nat)
    requires Run(grace, s, steps, t) && Stored(s, a)
    ensures Stored(t, a) && t.callers[a].call == s.callers[a].call
    decreases |steps|
  {
    if steps != [] {
      CallsStay(grace, s, steps[0]);
      StoredStays(grace, After(grace, s, steps[0]), steps[1..], t, a);
    }
  }

  /** The time kept is that of the call that stored one last. */
  lemma {:induction false} KeptTime(grace: int, s: System, steps: seq<Step>, t: System)
    requires Run(grace, s, steps, t)
    ensures match LastTime(steps)
            case None => t.kept.lastSeen == s.kept.lastSeen && forall a | Stored(t, a) :: Stored(s, a)
            case Some(u) => Stored(t, u) && t.kept.lastSeen == t.callers[u].call.now
    decreases |steps|
  {
    if steps != [] {
      var next := After(grace, s, steps[0]);
      KeptTime(grace, next, steps[1..], t);
      if steps[0].StoreSeen? {
        assert Stored(next, steps[0].who);
        StoredStays(grace, next, steps[1..], t, steps[0].who);
      } else {
        assert forall a | Stored(next, a) :: Stored(s, a);
      }
    }
  }

  /** The state kept is that of the call that stored one last. */
  lemma {:induction false} KeptState(grace: int, s: System, steps: seq<Step>, t: System)
    requires Run(grace, s, steps, t)
    ensures match LastState(steps)
            case None => t.kept.last == s.kept.last
            case Some(w) => Stored(t, w) && t.kept.last == Some(t.callers[w].call.snap)
    decreases |steps|
  {
    if steps != [] {
      var next := After(grace, s, steps[0]);
      KeptState(grace, next, steps[1..], t);
      if steps[0].StoreLast? {
        assert Stored(next, steps[0].who);
        StoredStays(grace, next, steps[1..], t, steps[0].who);
      }
    }
  }

  /** The clock is read after every sighting. */
  ghost predicate ReadsLater(s: System, call: Call) {
    forall a | Stored(s, a) :: s.callers[a].call.now <= call.now
  }

  /** A new call without instances, which meets no other from here on, is served what
      is promised. */
  ghost predicate GraceHolds(grace: int, s: System, who: nat)
    requires who !in s.callers
  {
    forall call: Call | call.snap.size == 0 && ReadsLater(s, call) ::
      Promised(grace, s, call, Alone(grace, After(grace, s, Begin(who, call)), who))
  }

  lemma AloneIsServed(grace: int, s: System, who: nat, call: Call)
    requires grace > 0 && who !in s.callers && call.snap.size == 0
    ensures Alone(grace, After(grace, s, Begin(who, call)), who) == Served(grace, s.kept, call)
  {
  }

  /** Someone saw instances last of all, unless nobody did. */
  lemma {:induction false} SomeLatest(s: System, callers: set<nat>) returns (latest: Option<nat>)
    requires callers <= s.callers.Keys
    ensures latest.None? ==> forall a | a in callers :: !Stored(s, a)
    ensures latest.Some? ==> latest.value in callers && Stored(s, latest.value)
    ensures latest.Some? ==>
              forall a | a in callers && Stored(s, a) :: s.callers[a].call.now <= s.callers[latest.value].call.now
    decreases callers
  {
    latest := None;
    if callers != {} {
      var a :| a in callers;
      latest := SomeLatest(s, callers - {a});
      if Stored(s, a) && (latest.None? || s.callers[latest.value].call.now < s.callers[a].call.now) {
        latest := Some(a);
      }
    }
  }

  /** The time kept and the state kept are those of the latest sighting. */
  ghost predicate KeepsLatest(s: System, latest: nat)
    requires Latest(s, latest)
  {
    && s.kept.lastSeen == s.callers[latest].call.now
    && exists b :: Latest(s, b) && s.kept.last == Some(s.callers[b].call.snap)
  }

  lemma KeepingServes(grace: int, s: System, who: nat, latest: nat)
    requires grace > 0 && who !in s.callers && Latest(s, latest) && KeepsLatest(s, latest)
    ensures GraceHolds(grace, s, who)
  {
    forall call: Call | call.snap.size == 0 && ReadsLater(s, call)
      ensures Promised(grace, s, call, Alone(grace, After(grace, s, Begin(who, call)), who))
    {
      AloneIsServed(grace, s, who, call);
      var b :| Latest(s, b) && s.kept.last == Some(s.callers[b].call.snap);
      assert Recent(grace, s, call.now, b) <==> call.now - s.kept.lastSeen <= grace;
    }
  }

  /** A time before the latest sighting ends the grace too early; another state is
      served instead. */
  lemma OtherwiseBroken(grace: int, s: System, who: nat, latest: nat, empty: Snap)
    requires grace > 0 && who !in s.callers && Latest(s, latest) && empty.size == 0
    requires s.kept.lastSeen <= s.callers[latest].call.now && !KeepsLatest(s, latest)
    ensures !GraceHolds(grace, s, who)
  {
    var seen := s.callers[latest].call.now;
    var call := Call(empty, if s.kept.lastSeen < seen then seen + grace else seen);
    AloneIsServed(grace, s, who, call);
    assert ReadsLater(s, call) && Recent(grace, s, call.now, latest);
    var served := Alone(grace, After(grace, s, Begin(who, call)), who);
    assert !Promised(grace, s, call, served);
  }

  lemma NothingSeen(grace: int, steps: seq<Step>, s: System, who: nat)
    requires grace > 0 && Run(grace, START, steps, s) && who !in s.callers
    requires forall a :: !Stored(s, a)
    ensures GraceHolds(grace, s, who)
  {
    KeptState(grace, START, steps, s);
    forall call: Call | call.snap.size == 0 && ReadsLater(s, call)
      ensures Promised(grace, s, call, Alone(grace, After(grace, s, Begin(who, call)), who))
    {
      AloneIsServed(grace, s, who, call);
    }
  }

  /** Exactly when the grace holds, in any run: nobody saw instances, or the time was
      stored last by a call that saw them latest, and the state last by a call whose
      state such a call saw. */
  lemma GraceExactly(grace: int, steps: seq<Step>, s: System, who: nat)
    requires grace > 0 && Run(grace, START, steps, s) && who !in s.callers
    ensures GraceHolds(grace, s, who) <==>
            || (forall a :: !Stored(s, a))
            || (&& LastTime(steps).Some? && Latest(s, LastTime(steps).value)
                && LastState(steps).Some? && LastState(steps).value in s.callers
                && exists b :: Latest(s, b) && s.callers[b].call.snap == s.callers[LastState(steps).value].call.snap)
  {
    KeptTime(grace, START, steps, s);
    KeptState(grace, START, steps, s);
    var latest := SomeLatest(s, s.callers.Keys);
    if latest.None? {
      NothingSeen(grace, steps, s, who);
    } else {
      var a := latest.value;
      assert Latest(s, a);
      assert Latest(s, LastTime(steps).value) <==> s.kept.lastSeen == s.callers[a].call.now;
      if KeepsLatest(s, a) {
        KeepingServes(grace, s, who, a);
      } else {
        OtherwiseBroken(grace, s, who, a, Snap(0, 0));
      }
    }
  }

  // ---------------------------------------------------------------- what goes wrong

  /** A call begins while another is between its two stores, and is served what was
      stored last. */
  lemma Overtakes(grace: int, s: System, who: nat, call: Call, last: Snap) returns (steps: seq<Step>)
    requires who !in s.callers && call.snap.size == 0
    requires s.kept.last == Some(last) && call.now - s.kept.lastSeen <= grace
    ensures Run(grace, s, steps, s.(callers := s.callers[who := Caller(call, Done(last))]))
  {
    var t := s.(callers := s.callers[who := Caller(call, Done(last))]);
    var loaded := s.(callers := s.callers[who := Caller(call, Loaded(last))]);
    var asked := s.(callers := s.callers[who := Caller(call, Begun)]);
    steps := Extend(grace, loaded, Judge(who), t, [], t);
    steps := Extend(grace, asked, LoadLast(who), loaded, steps, t);
    steps := Extend(grace, s, Begin(who, call), asked, steps, t);
  }

  /** The two need not be the same sighting. A call that has stored when it saw the
      newer instances, but not yet what it saw, renews the older ones: a call
      between the two stores serves instances that nobody saw for longer than the
      grace. */
  lemma OldInstancesServed(grace: int, older: Snap, newer: Snap, empty: Snap) returns (steps: seq<Step>, t: System)
    requires grace > 0 && older.size > 0 && newer.size > 0 && empty.size == 0 && older != newer
    ensures Run(grace, START, steps, t) && 2 in t.callers && t.callers[2] == Caller(Call(empty, grace + 1), Done(older))
    ensures forall a | At(t, a, true) && t.callers[a].call.snap == older ::
              t.callers[2].call.now - t.callers[a].call.now > grace
  {
    var first, second, third := Call(older, 0), Call(newer, grace + 1), Call(empty, grace + 1);
    var noted := System(Kept(Some(older), 0), map[0 := Caller(first, Done(older))]);
    var begun := noted.(callers := noted.callers[1 := Caller(second, Begun)]);
    var half := System(Kept(Some(older), grace + 1), noted.callers[1 := Caller(second, SeenStored)]);
    t := half.(callers := half.callers[2 := Caller(third, Done(older))]);
    var before := Notes(grace, 0, first);
    var after := Overtakes(grace, half, 2, third, older);
    after := Extend(grace, begun, StoreSeen(1), half, after, t);
    after := Extend(grace, noted, Begin(1, second), begun, after, t);
    Joined(grace, START, before, noted, after, t);
    steps := before + after;
  }

  /** Two calls that store in opposite orders: the time of the newer instances stays
      with the older ones. */
  lemma Crosses(grace: int, older: Call, newer: Call) returns (steps: seq<Step>)
    requires older.snap.size > 0 && newer.snap.size > 0
    ensures Run(grace, START, steps,
                System(Kept(Some(older.snap), newer.now),
                       map[0 := Caller(older, Done(older.snap)), 1 := Caller(newer, Done(newer.snap))]))
  {
    var kept := Kept(None, newer.now);
    var t := System(Kept(Some(older.snap), newer.now),
                    map[0 := Caller(older, Done(older.snap)), 1 := Caller(newer, Done(newer.snap))]);
    var one := System(Kept(Some(newer.snap), newer.now),
                      map[0 := Caller(older, Differs), 1 := Caller(newer, Done(newer.snap))]);
    var two := System(kept, map[0 := Caller(older, Differs), 1 := Caller(newer, Differs)]);
    var three := System(kept, map[0 := Caller(older, Differs), 1 := Caller(newer, SeenStored)]);
    var four := System(kept, map[0 := Caller(older, SeenStored), 1 := Caller(newer, SeenStored)]);
    var five := System(Kept(None, older.now), map[0 := Caller(older, SeenStored), 1 := Caller(newer, Begun)]);
    var six := System(NOTHING, map[0 := Caller(older, Begun), 1 := Caller(newer, Begun)]);
    steps := Extend(grace, one, StoreLast(0), t, [], t);
    steps := Extend(grace, two, StoreLast(1), one, steps, t);
    steps := Extend(grace, three, Compare(1), two, steps, t);
    steps := Extend(grace, four, Compare(0), three, steps, t);
    steps := Extend(grace, five, StoreSeen(1), four, steps, t);
    steps := Extend(grace, six, StoreSeen(0), five, steps, t);
    steps := Extend(grace, System(NOTHING, map[0 := Caller(older, Begun)]), Begin(1, newer), six, steps, t);
    steps := Extend(grace, START, Begin(0, older), System(NOTHING, map[0 := Caller(older, Begun)]), steps, t);
  }

  /** Coherence is lost for good: after two overlapping stores of different states,
      a call that meets no other is served instances that nobody saw for twice the
      grace. */
  lemma OldInstancesStay(grace: int, older: Snap, newer: Snap, empty: Snap)
    returns (steps: seq<Step>, s: System, t: System)
    requires grace > 0 && older.size > 0 && newer.size > 0 && empty.size == 0 && older != newer
    ensures Run(grace, START, steps, s) && NoneHalf(s) && !Coherent(s)
    ensures var call := Call(empty, 2 * grace);
            && 2 !in s.callers
            && t == s.(callers := s.callers[2 := Caller(call, Done(older))])
            && (exists later :: Run(grace, s, later, t))
            && forall a | At(t, a, true) && t.callers[a].call.snap == older ::
                 call.now - t.callers[a].call.now == 2 * grace
  {
    steps := Crosses(grace, Call(older, 0), Call(newer, grace));
    s := System(Kept(Some(older), grace),
                map[0 := Caller(Call(older, 0), Done(older)), 1 := Caller(Call(newer, grace), Done(newer))]);
    t := s.(callers := s.callers[2 := Caller(Call(empty, 2 * grace), Done(older))]);
    var later := Overtakes(grace, s, 2, Call(empty, 2 * grace), older);
    assert Run(grace, s, later, t);
  }

  /** A call sees again what was stored last, at another time. */
  lemma SeesAgain(grace: int, s: System, who: nat, call: Call) returns (steps: seq<Step>)
    requires who !in s.callers && call.snap.size > 0 && s.kept.last == Some(call.snap)
    ensures Run(grace, s, steps, System(Kept(s.kept.last, call.now), s.callers[who := Caller(call, Done(call.snap))]))
  {
    var t := System(Kept(s.kept.last, call.now), s.callers[who := Caller(call, Done(call.snap))]);
    var seen := System(t.kept, s.callers[who := Caller(call, SeenStored)]);
    var begun := s.(callers := s.callers[who := Caller(call, Begun)]);
    steps := Extend(grace, seen, Compare(who), t, [], t);
    steps := Extend(grace, begun, StoreSeen(who), seen, steps, t);
    steps := Extend(grace, s, Begin(who, call), begun, steps, t);
  }

  lemma Refuses(grace: int, s: System, who: nat, call: Call) returns (steps: seq<Step>)
    requires who !in s.callers && call.snap.size == 0
    requires s.kept.last.Some? && call.now - s.kept.lastSeen > grace
    ensures Run(grace, s, steps, s.(callers := s.callers[who := Caller(call, Done(call.snap))]))
  {
    var t := s.(callers := s.callers[who := Caller(call, Done(call.snap))]);
    var loaded := s.(callers := s.callers[who := Caller(call, Loaded(s.kept.last.value))]);
    var asked := s.(callers := s.callers[who := Caller(call, Begun)]);
    steps := Extend(grace, loaded, Judge(who), t, [], t);
    steps := Extend(grace, asked, LoadLast(who), loaded, steps, t);
    steps := Extend(grace, s, Begin(who, call), asked, steps, t);
  }

  /** Times stored out of order do the opposite, even for one state: a call is
      refused instances that were seen within the grace. */
  lemma RefusedWithinGrace(grace: int, seen: Snap, empty: Snap) returns (steps: seq<Step>, t: System)
    requires grace > 0 && seen.size > 0 && empty.size == 0
    ensures Run(grace, START, steps, t) && NoneHalf(t) && OneSighting(t)
    ensures 2 in t.callers && t.callers[2] == Caller(Call(empty, grace + 1), Done(empty))
    ensures 0 in t.callers && t.callers[0] == Caller(Call(seen, 1), Done(seen))
    ensures t.callers[2].call.now - t.callers[0].call.now <= grace
  {
    var noted := System(Kept(Some(seen), 1), map[0 := Caller(Call(seen, 1), Done(seen))]);
    var over := System(Kept(Some(seen), 0), noted.callers[1 := Caller(Call(seen, 0), Done(seen))]);
    t := over.(callers := over.callers[2 := Caller(Call(empty, grace + 1), Done(empty))]);
    var first := Notes(grace, 0, Call(seen, 1));
    var second := SeesAgain(grace, noted, 1, Call(seen, 0));
    var third := Refuses(grace, over, 2, Call(empty, grace + 1));
    Joined(grace, START, first, noted, second, over);
    steps := first + second + third;
    Joined(grace, START, first + second, over, third, t);
    assert Stored(t, 1);
  }
}
