/** Health components: checks shared by concurrent probes, and the report over
    every component of a scope. */
module Health {
  import opened Outcomes

  // --------------------------------------------------------------------- statuses

  /** `Unset` is the empty status, `Other` any the package does not know. */
  datatype Status = Up | Degraded | Down | Unset | Other(name: string)

  function Severity(s: Status): (n: nat)
    ensures n <= 2
  {
    match s
    case Up => 0
    case Degraded => 1
    case _ => 2
  }

  function Worse(s: Status, other: Status): (r: Status)
    ensures r == s || r == other
    ensures Severity(r) >= Severity(s) && Severity(r) >= Severity(other)
  {
    if Severity(other) > Severity(s) then other else s
  }

  datatype Outcome = Outcome(status: Status, error: string)

  const TIMED_OUT := Outcome(Down, "health check timed out")
  const PANICKED := Outcome(Down, "health check panicked")
  const SHUTTING_DOWN := Outcome(Down, "instance is shutting down")

  // ----------------------------------------------------- one component's checks

  /** One execution of a checker: running, finished, or with its result published;
      `done` is its channel, closed after that, and `expired` its deadline. */
  datatype Phase = Checking | Checked(outcome: Outcome) | Published

  datatype Call = Call(phase: Phase, res: Option<Outcome>, done: bool, expired: bool)

  /** One probe: waiting for a call, about to look once more at a call whose wait
      ended otherwise, or answered. */
  datatype Probe =
    | Waiting(call: nat)
    | Looking(call: nat)
    | Answered(call: nat, outcome: Outcome, timedOut: bool)

  datatype Component = Component(calls: seq<Call>, inflight: Option<nat>, probes: map<nat, Probe>)

  datatype Step =
    | Begin(probe: nat)
    | Finish(call: nat, outcome: Outcome)   // the checker returns
    | Panic(call: nat)                      // or panics
    | Publish(call: nat)
    | CloseDone(call: nat)
    | Expire(call: nat)                     // the deadline, or the cancel after the end
    | Receive(probe: nat)                   // the result arrives
    | EndWait(probe: nat)                   // the deadline or the probe's own end came first
    | Look(probe: nat)

  predicate Can(c: Component, step: Step) {
    match step
    case Begin(p) => p !in c.probes
    case Finish(k, _) => k < |c.calls| && c.calls[k].phase.Checking?
    case Panic(k) => k < |c.calls| && c.calls[k].phase.Checking?
    case Publish(k) => k < |c.calls| && c.calls[k].phase.Checked?
    case CloseDone(k) => k < |c.calls| && c.calls[k].phase.Published? && !c.calls[k].done
    case Expire(k) => k < |c.calls|
    case Receive(p) => p in c.probes && c.probes[p].Waiting? && CallDone(c, c.probes[p].call)
    case EndWait(p) => p in c.probes && c.probes[p].Waiting?
    case Look(p) => p in c.probes && c.probes[p].Looking? && c.probes[p].call < |c.calls|
  }

  predicate CallDone(c: Component, k: nat) {
    k < |c.calls| && c.calls[k].done && c.calls[k].res.Some?
  }

  function After(c: Component, step: Step): Component
    requires Can(c, step)
  {
    match step
    case Begin(p) =>
      if c.inflight.Some? then c.(probes := c.probes[p := Waiting(c.inflight.value)])
      else
        Component(c.calls + [Call(Checking, None, false, false)], Some(|c.calls|), c.probes[p := Waiting(|c.calls|)])
    case Finish(k, outcome) =>
      c.(calls := c.calls[k := c.calls[k].(phase := Checked(if c.calls[k].expired then TIMED_OUT else outcome))])
    case Panic(k) => c.(calls := c.calls[k := c.calls[k].(phase := Checked(PANICKED))])
    case Publish(k) =>
      c.(calls := c.calls[k := c.calls[k].(phase := Published, res := Some(c.calls[k].phase.outcome))],
         inflight := None)
    case CloseDone(k) => c.(calls := c.calls[k := c.calls[k].(done := true)])
    case Expire(k) => c.(calls := c.calls[k := c.calls[k].(expired := true)])
    case Receive(p) =>
      var k := c.probes[p].call;
      c.(probes := c.probes[p := Answered(k, c.calls[k].res.value, false)])
    case EndWait(p) => c.(probes := c.probes[p := Looking(c.probes[p].call)])
    case Look(p) =>
      var k := c.probes[p].call;
      c.(probes := c.probes[p :=
           if CallDone(c, k) then Answered(k, c.calls[k].res.value, false) else Answered(k, TIMED_OUT, true)])
  }

  const IDLE := Component([], None, map[])

  predicate Run(c: Component, steps: seq<Step>, d: Component)
    decreases |steps|
  {
    if steps == [] then c == d
    else Can(c, steps[0]) && Run(After(c, steps[0]), steps[1..], d)
  }

  /** A call is in flight exactly while its result is not published. */
  ghost predicate CallsInv(c: Component) {
    && (forall k | 0 <= k < |c.calls| :: !c.calls[k].phase.Published? <==> c.inflight == Some(k))
    && (forall k | 0 <= k < |c.calls| :: c.calls[k].phase.Published? <==> c.calls[k].res.Some?)
    && (forall k | 0 <= k < |c.calls| && c.calls[k].done :: c.calls[k].phase.Published?)
    && (c.inflight.Some? ==> c.inflight.value < |c.calls|)
  }

  ghost predicate ProbesInv(c: Component) {
    forall p | p in c.probes ::
      && c.probes[p].call < |c.calls|
      && (c.probes[p].Answered? ==>
            if c.probes[p].timedOut then c.probes[p].outcome == TIMED_OUT
            else CallDone(c, c.probes[p].call) && c.calls[c.probes[p].call].res == Some(c.probes[p].outcome))
  }

  ghost predicate Inv(c: Component) {
    CallsInv(c) && ProbesInv(c)
  }

  lemma InvStep(c: Component, step: Step)
    requires Inv(c) && Can(c, step)
    ensures Inv(After(c, step))
    ensures forall k | 0 <= k < |c.calls| && c.calls[k].res.Some? ::
              k < |After(c, step).calls| && After(c, step).calls[k].res == c.calls[k].res
  {
  }

  lemma {:induction false} InvRun(c: Component, steps: seq<Step>, d: Component)
    requires Inv(c) && Run(c, steps, d)
    ensures Inv(d)
    decreases |steps|
  {
    if steps != [] {
      InvStep(c, steps[0]);
      InvRun(After(c, steps[0]), steps[1..], d);
    }
  }

  /** However many probes overlap, and however long a checker hangs, at most one
      call of it runs at a time. */
  lemma OneCheckAtATime(steps: seq<Step>, c: Component, j: nat, k: nat)
    requires Run(IDLE, steps, c) && j < |c.calls| && k < |c.calls|
    requires c.calls[j].phase.Checking? && c.calls[k].phase.Checking?
    ensures j == k
  {
    InvRun(IDLE, steps, c);
  }

  /** A probe answers with the published result of the call it joined, or says
      that the check timed out; and it does not say so when the result was
      published and announced before it looked. */
  lemma AnswersArePublished(steps: seq<Step>, c: Component, p: nat)
    requires Run(IDLE, steps, c) && p in c.probes
    ensures c.probes[p].Answered? && !c.probes[p].timedOut ==>
              c.probes[p].call < |c.calls| && c.calls[c.probes[p].call].phase.Published? &&
              c.calls[c.probes[p].call].res == Some(c.probes[p].outcome)
    ensures c.probes[p].Answered? && c.probes[p].timedOut ==> c.probes[p].outcome == TIMED_OUT
    ensures c.probes[p].Looking? && c.probes[p].call < |c.calls| && c.calls[c.probes[p].call].done ==>
              Can(c, Look(p)) && c.calls[c.probes[p].call].res.Some? &&
              After(c, Look(p)).probes[p] ==
              Answered(c.probes[p].call, c.calls[c.probes[p].call].res.value, false)
  {
    InvRun(IDLE, steps, c);
  }

  /** A result, once published, never changes. */
  lemma {:induction false} ResultsStay(c: Component, steps: seq<Step>, d: Component, k: nat)
    requires Inv(c) && Run(c, steps, d) && k < |c.calls| && c.calls[k].res.Some?
    ensures k < |d.calls| && d.calls[k].res == c.calls[k].res
    decreases |steps|
  {
    if steps != [] {
      InvStep(c, steps[0]);
      ResultsStay(After(c, steps[0]), steps[1..], d, k);
    }
  }

  // -------------------------------------------------- what the checker returned

  function OutcomeOf(call: Call): Option<Outcome> {
    match call.phase
    case Checking => None
    case Checked(outcome) => Some(outcome)
    case Published => call.res
  }

  /** The deadline of call `k` passes in this run. */
  predicate Expires(steps: seq<Step>, k: nat) {
    exists i | 0 <= i < |steps| :: steps[i] == Expire(k)
  }

  /** Step `j` ends call `k`: what the checker returned is its outcome, unless the
      deadline had passed by then; a panic is one in any case. */
  predicate EndsAs(steps: seq<Step>, k: nat, j: nat, outcome: Outcome) {
    j < |steps| &&
    match steps[j]
    case Finish(call, returned) => call == k && outcome == if Expires(steps[..j], k) then TIMED_OUT else returned
    case Panic(call) => call == k && outcome == PANICKED
    case _ => false
  }

  ghost predicate History(steps: seq<Step>, c: Component) {
    && (forall k: nat | Expires(steps, k) :: k < |c.calls|)
    && (forall k: nat | k < |c.calls| :: c.calls[k].expired <==> Expires(steps, k))
    && (forall k: nat | k < |c.calls| && OutcomeOf(c.calls[k]).Some? ::
          exists j :: EndsAs(steps, k, j, OutcomeOf(c.calls[k]).value))
  }

  lemma {:induction false} LastStep(c: Component, steps: seq<Step>, d: Component) returns (e: Component)
    requires Run(c, steps, d) && steps != []
    ensures Run(c, steps[..|steps| - 1], e) && Can(e, steps[|steps| - 1]) && After(e, steps[|steps| - 1]) == d
    decreases |steps|
  {
    if |steps| == 1 {
      e := c;
    } else {
      e := LastStep(After(c, steps[0]), steps[1..], d);
      assert steps[..|steps| - 1][1..] == steps[1..][..|steps| - 2];
    }
  }

  lemma OneMoreStep(steps: seq<Step>, step: Step, k: nat)
    ensures Expires(steps + [step], k) <==> Expires(steps, k) || step == Expire(k)
    ensures forall j: nat, o | EndsAs(steps, k, j, o) :: EndsAs(steps + [step], k, j, o)
    ensures forall o :: EndsAs(steps + [step], k, |steps|, o) <==>
              || (step.Panic? && step.call == k && o == PANICKED)
              || (step.Finish? && step.call == k && o == if Expires(steps, k) then TIMED_OUT else step.outcome)
  {
    var more := steps + [step];
    assert more[..|steps|] == steps;
    assert forall i | 0 <= i < |steps| :: more[i] == steps[i];
    assert more[|steps|] == step;
    forall j: nat | j < |steps|
      ensures more[..j] == steps[..j]
    {
    }
  }

  lemma HistoryStep(steps: seq<Step>, c: Component, step: Step)
    requires Inv(c) && History(steps, c) && Can(c, step)
    ensures History(steps + [step], After(c, step))
  {
    var d := After(c, step);
    forall k: nat { OneMoreStep(steps, step, k); }
    forall k: nat | k < |d.calls| && OutcomeOf(d.calls[k]).Some?
      ensures exists j :: EndsAs(steps + [step], k, j, OutcomeOf(d.calls[k]).value)
    {
      if k < |c.calls| && OutcomeOf(c.calls[k]) == OutcomeOf(d.calls[k]) {
        var j: nat :| EndsAs(steps, k, j, OutcomeOf(c.calls[k]).value);
        assert EndsAs(steps + [step], k, j, OutcomeOf(d.calls[k]).value);
      } else {
        assert EndsAs(steps + [step], k, |steps|, OutcomeOf(d.calls[k]).value);
      }
    }
  }

  lemma {:induction false} HistoryRun(steps: seq<Step>, c: Component)
    requires Run(IDLE, steps, c)
    ensures Inv(c) && History(steps, c)
    decreases |steps|
  {
    InvRun(IDLE, steps, c);
    if steps != [] {
      var n := |steps| - 1;
      var e := LastStep(IDLE, steps, c);
      HistoryRun(steps[..n], e);
      HistoryStep(steps[..n], e, steps[n]);
      assert steps == steps[..n] + [steps[n]];
    }
  }

  /** What a probe answers, other than that it timed out, is what the checker returned to
      the call it joined, unless the deadline passed first. */
  lemma AnswersAreReturned(steps: seq<Step>, c: Component, p: nat)
    requires Run(IDLE, steps, c) && p in c.probes && c.probes[p].Answered? && !c.probes[p].timedOut
    ensures exists j :: EndsAs(steps, c.probes[p].call, j, c.probes[p].outcome)
  {
    HistoryRun(steps, c);
    assert OutcomeOf(c.calls[c.probes[p].call]) == Some(c.probes[p].outcome);
  }

  /** The fields behind the mutex of one component. */
  class Shared {
    var calls: seq<Call>
    var inflight: Option<nat>
    var probes: map<nat, Probe>

    function State(): Component
      reads this
    {
      Component(calls, inflight, probes)
    }

    constructor ()
      ensures State() == IDLE && Inv(State())
    {
      calls, inflight, probes := [], None, map[];
    }

    /** `begin`: joins the call in flight, or starts one. */
    method Join(probe: nat) returns (call: nat)
      requires Inv(State()) && Can(State(), Begin(probe))
      modifies this
      ensures State() == After(old(State()), Begin(probe)) && Inv(State())
      ensures inflight == Some(call) && !calls[call].phase.Published?
    {
      if inflight.None? {
        inflight := Some(|calls|);
        calls := calls + [Call(Checking, None, false, false)];
      }
      call := inflight.value;
      probes := probes[probe := Waiting(call)];
    }

    /** The end of a call: the result is published, and the next probe starts a
        new call. */
    method Settle(call: nat)
      requires Inv(State()) && Can(State(), Publish(call))
      modifies this
      ensures State() == After(old(State()), Publish(call)) && Inv(State())
      ensures inflight.None? && calls[call].res == Some(old(calls)[call].phase.outcome)
    {
      var res := calls[call].phase.outcome;
      calls := calls[call := calls[call].(phase := Published, res := Some(res))];
      inflight := None;
    }
  }

  // ------------------------------------------------------------------ the report

  datatype Scope = Readiness | Liveness

  /** A component: its scopes, and its pushed state unless a checker gives it. */
  datatype Entry = Entry(scopes: set<Scope>, checked: bool, pushed: Outcome)

  datatype Report = Report(status: Status, components: map<string, Outcome>)

  /** The scopes given, or readiness if there is none among them. */
  function Combine(scopes: seq<set<Scope>>): (s: set<Scope>)
    ensures forall x :: x in s <==>
              || (exists i | 0 <= i < |scopes| :: x in scopes[i])
              || (x == Readiness && forall i | 0 <= i < |scopes| :: scopes[i] == {})
  {
    if Union(scopes) == {} then {Readiness} else Union(scopes)
  }

  function Union(scopes: seq<set<Scope>>): (s: set<Scope>)
    ensures forall x :: x in s <==> exists i | 0 <= i < |scopes| :: x in scopes[i]
  {
    if scopes == [] then {} else Union(scopes[..|scopes| - 1]) + scopes[|scopes| - 1]
  }

  /** An empty status counts as down. */
  function Settled(o: Outcome): Outcome {
    if o.status.Unset? then o.(status := Down) else o
  }

  /** What a component contributes: its pushed state, or what its check answered. */
  function Contribution(e: Entry, answer: Outcome): Outcome {
    Settled(if e.checked then answer else e.pushed)
  }

  /** `o` is the pushed state of a component or, with a checker, its answer; an empty
      status reads as down. */
  predicate Shows(e: Entry, answer: Outcome, o: Outcome) {
    var given := if e.checked then answer else e.pushed;
    && o.error == given.error
    && (given.status == Unset ==> o.status == Down)
    && (given.status != Unset ==> o.status == given.status)
  }

  /** The report holds exactly the components of the scope, and its severity is
      the greatest among them. */
  ghost predicate Faithful(entries: map<string, Entry>, scope: set<Scope>, answers: map<string, Outcome>, rep: Report)
    requires entries.Keys <= answers.Keys
  {
    && (forall n :: n in rep.components <==> n in entries && entries[n].scopes * scope != {})
    && (forall n | n in rep.components :: Shows(entries[n], answers[n], rep.components[n]))
    && (forall n | n in rep.components :: Severity(rep.components[n].status) <= Severity(rep.status))
    && (Severity(rep.status) == 0 ||
        exists n :: n in rep.components && Severity(rep.components[n].status) == Severity(rep.status))
  }

  /** Two reports over the same components agree on everything but the spelling of
      an unknown status: the order in which they were visited does not matter. */
  lemma ReportsAgree(entries: map<string, Entry>, scope: set<Scope>, answers: map<string, Outcome>,
                     a: Report, b: Report)
    requires entries.Keys <= answers.Keys
    requires Faithful(entries, scope, answers, a) && Faithful(entries, scope, answers, b)
    ensures a.components == b.components && Severity(a.status) == Severity(b.status)
  {
    assert a.components.Keys == b.components.Keys;
  }

  /** By the names of the statuses: up exactly when every component is, degraded exactly
      when some is and all others are up, and otherwise neither. */
  lemma ReportStatus(entries: map<string, Entry>, scope: set<Scope>, answers: map<string, Outcome>, rep: Report)
    requires entries.Keys <= answers.Keys && Faithful(entries, scope, answers, rep)
    ensures rep.status == Up <==> forall n | n in rep.components :: rep.components[n].status == Up
    ensures rep.status == Degraded <==>
            && (forall n | n in rep.components ::
                  rep.components[n].status == Up || rep.components[n].status == Degraded)
            && (exists n :: n in rep.components && rep.components[n].status == Degraded)
  {
    forall n | n in rep.components
      ensures Severity(rep.components[n].status) <= Severity(rep.status)
    {
    }
  }

  // ------------------------------------------------------------ visiting orders

  /** The status of a report that visits components with these statuses in turn. */
  function Overall(order: seq<Status>): Status {
    if order == [] then Up else Worse(Overall(order[..|order| - 1]), order[|order| - 1])
  }

  /** All the statuses that count as down are the same one. */
  ghost predicate OneDown(order: seq<Status>) {
    forall i, j | 0 <= i < |order| && 0 <= j < |order| && Severity(order[i]) == 2 && Severity(order[j]) == 2 ::
      order[i] == order[j]
  }

  /** The report is one of the statuses, or up; and none is more severe. */
  lemma {:induction false} OverallIsWorst(order: seq<Status>)
    ensures Overall(order) == Up || Overall(order) in order
    ensures forall x | x in order :: Severity(x) <= Severity(Overall(order))
  {
    if order != [] {
      var init, last := order[..|order| - 1], order[|order| - 1];
      OverallIsWorst(init);
      assert order == init + [last];
    }
  }

  /** Of the statuses that count as down the first one visited stays. */
  lemma {:induction false} FirstDownStays(order: seq<Status>)
    requires order != [] && Severity(order[0]) == 2
    ensures Overall(order) == order[0]
  {
    var n := |order| - 1;
    if n > 0 {
      FirstDownStays(order[..n]);
    } else {
      assert order[..0] == [];
    }
  }

  /** Visits that meet the same statuses, of which one at most counts as down. */
  lemma SameOverall(order: seq<Status>, other: seq<Status>)
    requires (forall x :: x in other <==> x in order) && OneDown(order)
    ensures Overall(other) == Overall(order)
  {
    OverallIsWorst(order);
    OverallIsWorst(other);
    var x, y := Overall(order), Overall(other);
    assert Severity(x) == Severity(y);
    if Severity(x) == 2 {
      assert x in order && y in order;
    }
  }

  /** The order that visits element `i` first. */
  function FirstOf<T>(order: seq<T>, i: nat): (other: seq<T>)
    requires i < |order|
    ensures |other| == |order| && other[0] == order[i]
  {
    [order[i]] + order[..i] + order[i + 1..]
  }

  lemma FirstOfPermutes<T>(order: seq<T>, i: nat)
    requires i < |order|
    ensures multiset(FirstOf(order, i)) == multiset(order)
  {
    assert order == order[..i] + [order[i]] + order[i + 1..];
  }

  ghost predicate OrderDoesNotMatter(order: seq<Status>) {
    forall other | multiset(other) == multiset(order) :: Overall(other) == Overall(order)
  }

  /** Exactly when the status of a report does not depend on the order of the visits:
      when all the statuses that count as down are spelled alike. */
  lemma OverallExactly(order: seq<Status>)
    ensures OrderDoesNotMatter(order) <==> OneDown(order)
  {
    if OneDown(order) {
      forall other | multiset(other) == multiset(order)
        ensures Overall(other) == Overall(order)
      {
        assert forall x :: x in other <==> x in multiset(other);
        assert forall x :: x in order <==> x in multiset(order);
        SameOverall(order, other);
      }
    } else {
      var i: nat, j: nat :| i < |order| && j < |order| && Severity(order[i]) == 2 && Severity(order[j]) == 2 &&
                            order[i] != order[j];
      FirstOfPermutes(order, i);
      FirstOfPermutes(order, j);
      FirstDownStays(FirstOf(order, i));
      FirstDownStays(FirstOf(order, j));
      assert Overall(FirstOf(order, i)) != Overall(FirstOf(order, j));
    }
  }

  predicate InScope(entries: map<string, Entry>, scope: set<Scope>, n: string) {
    n in entries && entries[n].scopes * scope != {}
  }

  /** An order in which the components of the scope are visited, each once. */
  ghost predicate Visits(entries: map<string, Entry>, scope: set<Scope>, order: seq<string>) {
    forall n :: multiset(order)[n] == if InScope(entries, scope, n) then 1 else 0
  }

  lemma VisitsInScope(entries: map<string, Entry>, scope: set<Scope>, order: seq<string>)
    requires Visits(entries, scope, order)
    ensures forall n :: n in order <==> InScope(entries, scope, n)
    ensures forall i | 0 <= i < |order| :: InScope(entries, scope, order[i])
  {
    assert forall n :: n in order <==> multiset(order)[n] > 0;
  }

  /** The statuses met on the way. */
  function Statuses(entries: map<string, Entry>, answers: map<string, Outcome>, order: seq<string>): (r: seq<Status>)
    requires entries.Keys <= answers.Keys && forall i | 0 <= i < |order| :: order[i] in entries
    ensures |r| == |order|
  {
    seq(|order|, i requires 0 <= i < |order| => Contribution(entries[order[i]], answers[order[i]]).status)
  }

  /** The report's status comes from some order of visits. */
  ghost predicate Visited(entries: map<string, Entry>, scope: set<Scope>, answers: map<string, Outcome>,
                          order: seq<string>, rep: Report)
    requires entries.Keys <= answers.Keys
  {
    && Visits(entries, scope, order)
    && (forall i | 0 <= i < |order| :: order[i] in entries)
    && rep.status == Overall(Statuses(entries, answers, order))
  }

  /** The status a component of the scope contributes. */
  ghost predicate Contributes(entries: map<string, Entry>, scope: set<Scope>, answers: map<string, Outcome>, x: Status)
    requires entries.Keys <= answers.Keys
  {
    exists n :: InScope(entries, scope, n) && Contribution(entries[n], answers[n]).status == x
  }

  /** All the components of the scope that count as down contribute the same status. */
  ghost predicate OneDownIn(entries: map<string, Entry>, scope: set<Scope>, answers: map<string, Outcome>)
    requires entries.Keys <= answers.Keys
  {
    forall x, y | Contributes(entries, scope, answers, x) && Contributes(entries, scope, answers, y) ::
      Severity(x) == 2 && Severity(y) == 2 ==> x == y
  }

  /** All orders of visits give the same status. */
  ghost predicate AnyOrder(entries: map<string, Entry>, scope: set<Scope>, answers: map<string, Outcome>)
    requires entries.Keys <= answers.Keys
  {
    forall a, b, r, t | Visited(entries, scope, answers, a, r) && Visited(entries, scope, answers, b, t) ::
      r.status == t.status
  }

  lemma {:induction false} Enumerated(names: set<string>) returns (order: seq<string>)
    ensures forall n :: multiset(order)[n] == if n in names then 1 else 0
    decreases names
  {
    if names == {} {
      order := [];
    } else {
      var n :| n in names;
      var rest := Enumerated(names - {n});
      order := [n] + rest;
    }
  }

  /** The statuses met are those contributed. */
  lemma StatusesMet(entries: map<string, Entry>, scope: set<Scope>, answers: map<string, Outcome>, order: seq<string>)
    requires entries.Keys <= answers.Keys && Visits(entries, scope, order)
    ensures forall i | 0 <= i < |order| :: order[i] in entries
    ensures forall x :: x in Statuses(entries, answers, order) <==> Contributes(entries, scope, answers, x)
  {
    VisitsInScope(entries, scope, order);
    var statuses := Statuses(entries, answers, order);
    forall n | InScope(entries, scope, n)
      ensures Contribution(entries[n], answers[n]).status in statuses
    {
      var i :| 0 <= i < |order| && order[i] == n;
      assert statuses[i] == Contribution(entries[n], answers[n]).status;
    }
    forall i | 0 <= i < |statuses|
      ensures Contributes(entries, scope, answers, statuses[i])
    {
      assert InScope(entries, scope, order[i]);
    }
  }

  lemma FirstVisited(entries: map<string, Entry>, scope: set<Scope>, answers: map<string, Outcome>,
                     order: seq<string>, i: nat)
    requires entries.Keys <= answers.Keys && Visits(entries, scope, order) && i < |order|
    requires order[i] in entries && Severity(Contribution(entries[order[i]], answers[order[i]]).status) == 2
    ensures Visited(entries, scope, answers, FirstOf(order, i),
                    Report(Contribution(entries[order[i]], answers[order[i]]).status, map[]))
  {
    FirstOfPermutes(order, i);
    StatusesMet(entries, scope, answers, FirstOf(order, i));
    FirstDownStays(Statuses(entries, answers, FirstOf(order, i)));
  }

  /** Some visit meets a given status that counts as down first. */
  lemma MetFirst(entries: map<string, Entry>, scope: set<Scope>, answers: map<string, Outcome>, x: Status)
    returns (order: seq<string>, rep: Report)
    requires entries.Keys <= answers.Keys && Contributes(entries, scope, answers, x) && Severity(x) == 2
    ensures Visited(entries, scope, answers, order, rep) && rep.status == x
  {
    var n :| InScope(entries, scope, n) && Contribution(entries[n], answers[n]).status == x;
    var any := Enumerated(set k | k in entries && InScope(entries, scope, k));
    VisitsInScope(entries, scope, any);
    var i: nat :| i < |any| && any[i] == n;
    FirstVisited(entries, scope, answers, any, i);
    order, rep := FirstOf(any, i), Report(x, map[]);
  }

  lemma OrderMatters(entries: map<string, Entry>, scope: set<Scope>, answers: map<string, Outcome>,
                     x: Status, y: Status)
    requires entries.Keys <= answers.Keys && Severity(x) == 2 && Severity(y) == 2 && x != y
    requires Contributes(entries, scope, answers, x) && Contributes(entries, scope, answers, y)
    ensures !AnyOrder(entries, scope, answers)
  {
    var a, r := MetFirst(entries, scope, answers, x);
    var b, t := MetFirst(entries, scope, answers, y);
  }

  /** Exactly when all visits of the components, in whatever order the map yields them,
      report the same status. */
  lemma AnyOrderExactly(entries: map<string, Entry>, scope: set<Scope>, answers: map<string, Outcome>)
    requires entries.Keys <= answers.Keys
    ensures AnyOrder(entries, scope, answers) <==> OneDownIn(entries, scope, answers)
  {
    if OneDownIn(entries, scope, answers) {
      forall a, b, r, t | Visited(entries, scope, answers, a, r) && Visited(entries, scope, answers, b, t)
        ensures r.status == t.status
      {
        StatusesMet(entries, scope, answers, a);
        StatusesMet(entries, scope, answers, b);
        SameOverall(Statuses(entries, answers, a), Statuses(entries, answers, b));
      }
    } else {
      var x, y :| Contributes(entries, scope, answers, x) && Contributes(entries, scope, answers, y) &&
                  Severity(x) == 2 && Severity(y) == 2 && x != y;
      OrderMatters(entries, scope, answers, x, y);
    }
  }

  lemma OneMoreVisit(entries: map<string, Entry>, answers: map<string, Outcome>, order: seq<string>, name: string)
    requires entries.Keys <= answers.Keys && name in entries && forall i | 0 <= i < |order| :: order[i] in entries
    ensures Overall(Statuses(entries, answers, order + [name])) ==
            Worse(Overall(Statuses(entries, answers, order)), Contribution(entries[name], answers[name]).status)
  {
    var more := Statuses(entries, answers, order + [name]);
    assert more[..|order|] == Statuses(entries, answers, order);
  }

  lemma WorstIsFaithful(entries: map<string, Entry>, scope: set<Scope>, answers: map<string, Outcome>,
                        order: seq<string>, rep: Report)
    requires entries.Keys <= answers.Keys && Visited(entries, scope, answers, order, rep)
    requires forall n :: n in rep.components <==> InScope(entries, scope, n)
    requires forall n | n in rep.components :: rep.components[n] == Contribution(entries[n], answers[n])
    ensures Faithful(entries, scope, answers, rep)
  {
    StatusesMet(entries, scope, answers, order);
    OverallIsWorst(Statuses(entries, answers, order));
    forall n | n in rep.components
      ensures Severity(rep.components[n].status) <= Severity(rep.status)
    {
      assert InScope(entries, scope, n);
      assert Contributes(entries, scope, answers, rep.components[n].status);
    }
    WorstIsShown(entries, scope, answers, rep);
  }

  lemma WorstIsShown(entries: map<string, Entry>, scope: set<Scope>, answers: map<string, Outcome>, rep: Report)
    requires entries.Keys <= answers.Keys
    requires rep.status == Up || Contributes(entries, scope, answers, rep.status)
    requires forall n :: n in rep.components <==> InScope(entries, scope, n)
    requires forall n | n in rep.components && n in entries :: rep.components[n] == Contribution(entries[n], answers[n])
    ensures Severity(rep.status) == 0 ||
            exists n :: n in rep.components && Severity(rep.components[n].status) == Severity(rep.status)
  {
    if rep.status != Up {
      var n :| InScope(entries, scope, n) && Contribution(entries[n], answers[n]).status == rep.status;
      assert n in rep.components;
    }
  }

  class Registry {
    var components: map<string, Entry>
    var draining: bool

    constructor ()
      ensures components == map[] && !draining
    {
      components, draining := map[], false;
    }

    method Register(name: string, scopes: seq<set<Scope>>)
      modifies this`components
      ensures components == old(components)[name := Entry(Combine(scopes), true, Outcome(Unset, ""))]
    {
      components := components[name := Entry(Combine(scopes), true, Outcome(Unset, ""))];
    }

    /** A pushed state replaces a checked component; a pushed one keeps its scopes
        unless new ones are given. */
    method Set(name: string, res: Outcome, scopes: seq<set<Scope>>)
      modifies this`components
      ensures components.Keys == old(components.Keys) + {name}
      ensures forall n | n in old(components) && n != name :: components[n] == old(components)[n]
      ensures !components[name].checked && components[name].pushed == res
      ensures components[name].scopes ==
              if name in old(components) && !old(components)[name].checked && scopes == []
              then old(components)[name].scopes else Combine(scopes)
    {
      if name !in components || components[name].checked {
        components := components[name := Entry(Combine(scopes), false, res)];
      } else if |scopes| > 0 {
        components := components[name := components[name].(scopes := Combine(scopes))];
      }
      components := components[name := components[name].(pushed := res)];
    }

    /** `run`: visits the components of the scope in any order. `answers` holds what
        waiting for each check returned. */
    method Probe(scope: set<Scope>, answers: map<string, Outcome>) returns (rep: Report, ghost order: seq<string>)
      requires components.Keys <= answers.Keys
      ensures Faithful(components, scope, answers, rep)
      ensures Visited(components, scope, answers, order, rep)
    {
      var todo := set n | n in components && InScope(components, scope, n);
      ghost var names := todo;
      rep, order := Report(Up, map[]), [];
      while todo != {}
        invariant todo <= names
        invariant forall n :: multiset(order)[n] == if n in names && n !in todo then 1 else 0
        invariant forall i | 0 <= i < |order| :: order[i] in names
        invariant rep.components.Keys == names - todo
        invariant forall n | n in rep.components :: rep.components[n] == Contribution(components[n], answers[n])
        invariant rep.status == Overall(Statuses(components, answers, order))
        decreases todo
      {
        var name :| name in todo;
        todo := todo - {name};
        var res := Contribution(components[name], answers[name]);
        OneMoreVisit(components, answers, order, name);
        rep := Report(Worse(rep.status, res.status), rep.components[name := res]);
        order := order + [name];
      }
      WorstIsFaithful(components, scope, answers, order, rep);
    }

    /** `Ready`: while draining the instance is down, whatever its components say. */
    method Ready(answers: map<string, Outcome>) returns (rep: Report)
      requires components.Keys <= answers.Keys
      ensures !draining ==> Faithful(components, {Readiness}, answers, rep)
      ensures draining ==>
                && rep.status == Down
                && exists probed :: Faithful(components, {Readiness}, answers, probed) &&
                                    rep.components == probed.components["shutdown" := SHUTTING_DOWN]
    {
      ghost var order;
      rep, order := Probe({Readiness}, answers);
      if draining {
        ghost var probed := rep;
        rep := Report(Down, rep.components["shutdown" := SHUTTING_DOWN]);
        assert Faithful(components, {Readiness}, answers, probed);
      }
    }
  }
}
