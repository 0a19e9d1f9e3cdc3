/** Passive ejection: the instances a service's callers reported as unreachable,
    and the choice among the others. */
module Ejection {
  import opened Outcomes
  import opened Decimal
  import opened Instances
  import opened Pickers

  // ------------------------------------------------------------------- endpoints

  datatype Endpoint = Endpoint(id: string, node: string, address: string, port: int, scheme: string,
                               hostPort: string, url: string)

  /** "address:port", with IPv6 addresses in brackets. */
  function HostPort(i: Instance): (s: string)
    ensures s != ""
  {
    (if ':' in i.address then "[" + i.address + "]" else i.address) + ":" + Itoa(i.port)
  }

  predicate NoColon(s: string) {
    forall i | 0 <= i < |s| :: s[i] != ':'
  }

  lemma LastColon(a: string, b: string, c: string, d: string)
    requires NoColon(b) && NoColon(d) && a + ":" + b == c + ":" + d
    ensures a == c && b == d
  {
    var s := a + ":" + b;
    assert s[|a|] == ':' && s[|c|] == ':';
    assert forall i | |a| < i < |s| :: s[i] == b[i - |a| - 1];
    assert forall i | |c| < i < |s| :: s[i] == d[i - |c| - 1];
    assert |a| == |c|;
    assert a == s[..|a|] && c == s[..|c|] && b == s[|a| + 1..] && d == s[|c| + 1..];
  }

  lemma PortHasNoColon(port: int)
    ensures NoColon(Itoa(port))
  {
    var digits := Digits(if port < 0 then -port else port);
    assert forall i | 0 <= i < |digits| :: digits[i] in digits;
  }

  lemma {:induction false} ItoaDiffers(p: int, q: int)
    requires Itoa(p) == Itoa(q)
    ensures p == q
  {
    var m, n := if p < 0 then -p else p, if q < 0 then -q else q;
    ValueDigits(m);
    ValueDigits(n);
    assert Digits(m)[0] in Digits(m) && Digits(n)[0] in Digits(n);
    assert p < 0 ==> Itoa(p)[1..] == Digits(m);
    assert q < 0 ==> Itoa(q)[1..] == Digits(n);
  }

  /** What an ejection names is one address with one port, of IPv6 or not: no other
      instance is ejected with it. */
  lemma HostPortNamesOne(i: Instance, j: Instance)
    ensures HostPort(i) == HostPort(j) <==> i.address == j.address && i.port == j.port
  {
    if HostPort(i) == HostPort(j) {
      var a := if ':' in i.address then "[" + i.address + "]" else i.address;
      var b := if ':' in j.address then "[" + j.address + "]" else j.address;
      PortHasNoColon(i.port);
      PortHasNoColon(j.port);
      LastColon(a, Itoa(i.port), b, Itoa(j.port));
      ItoaDiffers(i.port, j.port);
      assert ':' in i.address ==> ':' in a && a[1..|a| - 1] == i.address;
      assert ':' in j.address ==> ':' in b && b[1..|b| - 1] == j.address;
    }
  }

  function EndpointOf(i: Instance): Endpoint {
    Endpoint(i.id, i.node.name, i.address, i.port, i.scheme, HostPort(i), i.scheme + "://" + HostPort(i))
  }

  /** One state of a watch: the instances and their endpoints, aligned. */
  datatype Snapshot = Snapshot(list: List, endpoints: seq<Endpoint>)

  ghost predicate Aligned(s: Snapshot) {
    |s.endpoints| == |s.list| && forall i | 0 <= i < |s.list| :: s.endpoints[i] == EndpointOf(s.list[i])
  }

  method NewSnapshot(list: List) returns (s: Snapshot)
    ensures s.list == list && Aligned(s)
  {
    var endpoints := [];
    for i := 0 to |list|
      invariant |endpoints| == i && forall j | 0 <= j < i :: endpoints[j] == EndpointOf(list[j])
    {
      endpoints := endpoints + [EndpointOf(list[i])];
    }
    s := Snapshot(list, endpoints);
  }

  // ------------------------------------------------------------------- reporting

  /** Until when each address is ejected. */
  type EjectionSet = map<string, int>

  datatype Report = Report(hostPort: string, at: int)

  /** The set published by a report: the old one without the entries that have
      expired by then, and the reported address ejected for one window. */
  function Reported(ejections: Option<EjectionSet>, window: int, r: Report): EjectionSet {
    var before := if ejections.Some? then ejections.value else map[];
    (map k | k in before && before[k] > r.at && k != r.hostPort :: before[k])[r.hostPort := r.at + window]
  }

  predicate Ejected(ejections: Option<EjectionSet>, hostPort: string, now: int) {
    ejections.Some? && hostPort in ejections.value && ejections.value[hostPort] > now
  }

  /** The set after a sequence of reports, in the order they took the mutex. */
  function SetAfter(window: int, reports: seq<Report>): Option<EjectionSet> {
    if reports == [] then None
    else Some(Reported(SetAfter(window, reports[..|reports| - 1]), window, reports[|reports| - 1]))
  }

  /** Report `i` is the last one for its address, and was still in force at every
      report after it. */
  predicate InForce(window: int, reports: seq<Report>, i: nat)
    requires i < |reports|
  {
    forall j | i < j < |reports| ::
      reports[j].hostPort != reports[i].hostPort && reports[j].at < reports[i].at + window
  }

  ghost predicate EjectedBy(window: int, reports: seq<Report>, i: nat, hostPort: string, now: int) {
    && i < |reports|
    && reports[i].hostPort == hostPort && now < reports[i].at + window
    && InForce(window, reports, i)
  }

  /** Exactly when an address is ejected, whatever the order of the clock
      readings: by its last report, unless a later report found it expired. */
  lemma {:induction false} EjectedExactly(window: int, reports: seq<Report>, hostPort: string, now: int)
    ensures Ejected(SetAfter(window, reports), hostPort, now) <==>
            exists i :: EjectedBy(window, reports, i, hostPort, now)
  {
    if reports != [] {
      var n := |reports| - 1;
      var init, last := reports[..n], reports[n];
      EjectedExactly(window, init, hostPort, now);
      EjectedExactly(window, init, hostPort, last.at);
      if last.hostPort == hostPort {
        assert now < last.at + window ==> EjectedBy(window, reports, n, hostPort, now);
        assert forall i | EjectedBy(window, reports, i, hostPort, now) :: i == n;
      } else {
        forall i: nat
          ensures EjectedBy(window, reports, i, hostPort, now) <==>
                  EjectedBy(window, init, i, hostPort, now) && last.at < init[i].at + window
        {
          if i < n {
            assert forall j | 0 <= j < n :: init[j] == reports[j];
          }
        }
        var before := SetAfter(window, init);
        assert Ejected(SetAfter(window, reports), hostPort, now) <==>
               Ejected(before, hostPort, now) && Ejected(before, hostPort, last.at);
        if Ejected(before, hostPort, now) && Ejected(before, hostPort, last.at) {
          var i :| EjectedBy(window, init, i, hostPort, now);
          var j :| EjectedBy(window, init, j, hostPort, last.at);
          assert i == j;
          assert EjectedBy(window, reports, i, hostPort, now);
        }
        if i :| EjectedBy(window, reports, i, hostPort, now) {
          assert EjectedBy(window, init, i, hostPort, now);
          assert EjectedBy(window, init, i, hostPort, last.at);
        }
      }
    }
  }

  /** With clock readings in the order of the mutex and none after `now`, an
      address is ejected exactly when it was reported less than a window ago. */
  lemma {:induction false} EjectedIffReported(window: int, reports: seq<Report>, hostPort: string, now: int)
    requires window > 0
    requires forall i, j | 0 <= i < j < |reports| :: reports[i].at <= reports[j].at
    requires forall i | 0 <= i < |reports| :: reports[i].at <= now
    ensures Ejected(SetAfter(window, reports), hostPort, now) <==>
            exists i :: 0 <= i < |reports| && reports[i].hostPort == hostPort && now < reports[i].at + window
  {
    EjectedExactly(window, reports, hostPort, now);
    if i :| 0 <= i < |reports| && reports[i].hostPort == hostPort && now < reports[i].at + window {
      var last := LastReport(window, reports, i, now);
      assert EjectedBy(window, reports, last, hostPort, now);
    }
  }

  lemma {:induction false} LastReport(window: int, reports: seq<Report>, i: nat, now: int) returns (last: nat)
    requires i < |reports| && now < reports[i].at + window
    requires forall j, k | 0 <= j < k < |reports| :: reports[j].at <= reports[k].at
    requires forall j | 0 <= j < |reports| :: reports[j].at <= now
    ensures i <= last < |reports| && reports[last].hostPort == reports[i].hostPort
    ensures now < reports[last].at + window && InForce(window, reports, last)
    decreases |reports| - i
  {
    if j :| i < j < |reports| && reports[j].hostPort == reports[i].hostPort {
      last := LastReport(window, reports, j, now);
    } else {
      last := i;
    }
  }

  /** The rule the window stands for: some report is less than a window old. */
  ghost predicate Recent(window: int, reports: seq<Report>, hostPort: string, now: int) {
    exists i :: 0 <= i < |reports| && reports[i].hostPort == hostPort && now < reports[i].at + window
  }

  predicate AllRead(reports: seq<Report>, now: int) {
    forall i | 0 <= i < |reports| :: reports[i].at <= now
  }

  /** From the moment every clock reading is past, an address is ejected exactly by
      that rule. */
  ghost predicate RuleHolds(window: int, reports: seq<Report>, hostPort: string) {
    forall now | AllRead(reports, now) ::
      Ejected(SetAfter(window, reports), hostPort, now) <==> Recent(window, reports, hostPort, now)
  }

  /** The last report for an address, in the order of the mutex. */
  predicate LastOf(reports: seq<Report>, hostPort: string, i: nat) {
    && i < |reports| && reports[i].hostPort == hostPort
    && forall j | i < j < |reports| :: reports[j].hostPort != hostPort
  }

  /** The one with the latest clock reading. */
  predicate LatestOf(reports: seq<Report>, hostPort: string, i: nat) {
    && i < |reports| && reports[i].hostPort == hostPort
    && forall j | 0 <= j < |reports| && reports[j].hostPort == hostPort :: reports[j].at <= reports[i].at
  }

  lemma EjectedByLast(window: int, reports: seq<Report>, hostPort: string, last: nat, now: int)
    requires LastOf(reports, hostPort, last) && AllRead(reports, now)
    ensures Ejected(SetAfter(window, reports), hostPort, now) <==> now < reports[last].at + window
  {
    EjectedExactly(window, reports, hostPort, now);
    assert EjectedBy(window, reports, last, hostPort, now) <==> now < reports[last].at + window;
    assert forall i | EjectedBy(window, reports, i, hostPort, now) :: i == last;
  }

  lemma {:induction false} NewestReading(reports: seq<Report>) returns (n: nat)
    requires reports != []
    ensures n < |reports| && AllRead(reports, reports[n].at)
  {
    var last := |reports| - 1;
    n := last;
    if last > 0 {
      var m := NewestReading(reports[..last]);
      assert reports[..last][m] == reports[m];
      assert forall i | 0 <= i < last :: reports[..last][i] == reports[i];
      n := if reports[last].at < reports[m].at then m else last;
    }
  }

  /** Exactly when the rule holds: the last report for the address carries its latest
      clock reading, or some reading lies a window or more after that one, so that
      nothing is left to eject. */
  lemma RuleExactly(window: int, reports: seq<Report>, hostPort: string, last: nat, latest: nat)
    requires window > 0 && LastOf(reports, hostPort, last) && LatestOf(reports, hostPort, latest)
    ensures RuleHolds(window, reports, hostPort) <==>
            || reports[last].at == reports[latest].at
            || exists j :: 0 <= j < |reports| && reports[j].at >= reports[latest].at + window
  {
    forall now | AllRead(reports, now)
      ensures Ejected(SetAfter(window, reports), hostPort, now) <==> now < reports[last].at + window
      ensures Recent(window, reports, hostPort, now) <==> now < reports[latest].at + window
    {
      EjectedByLast(window, reports, hostPort, last, now);
    }
    var n := NewestReading(reports);
    if reports[last].at < reports[latest].at && reports[n].at < reports[latest].at + window {
      var now := if reports[n].at < reports[last].at + window then reports[last].at + window else reports[n].at;
      assert AllRead(reports, now);
      assert forall j | 0 <= j < |reports| :: reports[j].at < reports[latest].at + window;
    }
  }

  /** The order matters: the clock is read before the mutex is taken, so a report
      can be overwritten by one read earlier, which ends the ejection earlier. */
  lemma LateWriterShortens(hostPort: string)
    ensures var reports := [Report(hostPort, 2), Report(hostPort, 1)];
            !Ejected(SetAfter(10, reports), hostPort, 11) && 2 <= 11 < reports[0].at + 10
  {
    var reports := [Report(hostPort, 2), Report(hostPort, 1)];
    assert reports[..1] == [Report(hostPort, 2)];
  }

  // ---------------------------------------------------------------- availability

  /** Which of the instances are not ejected. */
  function Free(list: List, ejections: Option<EjectionSet>, now: int): (free: seq<bool>)
    ensures |free| == |list|
    ensures forall k | 0 <= k < |list| :: free[k] <==> !Ejected(ejections, HostPort(list[k]), now)
  {
    seq(|list|, k requires 0 <= k < |list| => !Ejected(ejections, HostPort(list[k]), now))
  }

  /** The indexes below `n` that are marked. */
  function MarkedUpTo(free: seq<bool>, n: nat): (keep: seq<nat>)
    requires n <= |free|
    ensures |keep| <= n && forall i | 0 <= i < |keep| :: keep[i] < n
  {
    if n == 0 then [] else MarkedUpTo(free, n - 1) + if free[n - 1] then [n - 1] else []
  }

  ghost predicate EachMarked(free: seq<bool>, n: nat)
    requires n <= |free|
  {
    forall k | 0 <= k < n :: free[k]
  }

  lemma {:induction false} MarkedMember(free: seq<bool>, n: nat, k: nat)
    requires n <= |free|
    ensures k in MarkedUpTo(free, n) <==> k < n && free[k]
  {
    if n > 0 {
      MarkedMember(free, n - 1, k);
    }
  }

  lemma {:induction false} MarkedCount(free: seq<bool>, n: nat)
    requires n <= |free|
    ensures |MarkedUpTo(free, n)| == n <==> EachMarked(free, n)
  {
    if n > 0 {
      MarkedCount(free, n - 1);
      assert EachMarked(free, n) <==> EachMarked(free, n - 1) && free[n - 1];
    }
  }

  /** Every index kept is marked; none is kept only when none is marked, and all
      only when all are. */
  lemma {:induction false} KeptExactly(free: seq<bool>)
    ensures forall k: nat :: k in MarkedUpTo(free, |free|) <==> k < |free| && free[k]
    ensures |MarkedUpTo(free, |free|)| == |free| <==> EachMarked(free, |free|)
  {
    forall k: nat { MarkedMember(free, |free|, k); }
    MarkedCount(free, |free|);
  }

  /** The indexes to choose from; None when there is nothing to filter, or when
      filtering would leave nobody. */
  function Available(list: List, ejections: Option<EjectionSet>, now: int): (r: Option<seq<nat>>)
    ensures r.Some? ==> r.value != [] && forall i | 0 <= i < |r.value| :: r.value[i] < |list|
  {
    var keep := MarkedUpTo(Free(list, ejections, now), |list|);
    if |keep| == |list| || keep == [] then None else Some(keep)
  }

  function Subset(list: List, keep: seq<nat>): (sub: List)
    requires forall i | 0 <= i < |keep| :: keep[i] < |list|
    ensures |sub| == |keep| && forall i | 0 <= i < |keep| :: sub[i] == list[keep[i]]
  {
    seq(|keep|, i requires 0 <= i < |keep| => list[keep[i]])
  }

  // ------------------------------------------------------------------- selection

  /** The instances the picker chooses from. `now` is 0 when ejection is off. */
  function Candidates(list: List, ejections: Option<EjectionSet>, now: int): (r: List)
    ensures list != [] ==> r != []
  {
    var keep := if now == 0 then None else Available(list, ejections, now);
    if keep.Some? then Subset(list, keep.value) else list
  }

  /** What `Next` returns, and the counter of the picker afterwards. */
  function NextResult(strategy: Strategy, n: nat, draw: nat -> nat, list: List,
                      ejections: Option<EjectionSet>, now: int): (Option<Instance>, nat)
    requires Fair(draw)
  {
    if list == [] then (None, n)
    else
      var candidates := Candidates(list, ejections, now);
      var (i, n') := Pick(strategy, n, draw, candidates);
      (Some(candidates[i]), n')
  }

  /** Those of the first `n` instances that are not out, in the order of the list. */
  function Remaining(list: List, out: Instance -> bool, n: nat): List
    requires n <= |list|
  {
    if n == 0 then [] else Remaining(list, out, n - 1) + if out(list[n - 1]) then [] else [list[n - 1]]
  }

  lemma {:induction false} RemainingHas(list: List, out: Instance -> bool, n: nat, i: Instance)
    requires n <= |list|
    ensures i in Remaining(list, out, n) <==> i in list[..n] && !out(i)
  {
    if n > 0 {
      RemainingHas(list, out, n - 1, i);
      assert list[..n] == list[..n - 1] + [list[n - 1]];
    }
  }

  lemma OneMoreKept(list: List, keep: seq<nat>, k: nat)
    requires k < |list| && forall i | 0 <= i < |keep| :: keep[i] < |list|
    ensures Subset(list, keep + [k]) == Subset(list, keep) + [list[k]]
  {
  }

  predicate Marks(free: seq<bool>, list: List, out: Instance -> bool) {
    |free| == |list| && forall k | 0 <= k < |list| :: free[k] <==> !out(list[k])
  }

  lemma OneMoreMarked(list: List, free: seq<bool>, k: nat)
    requires k < |list| == |free|
    ensures Subset(list, MarkedUpTo(free, k + 1)) ==
            Subset(list, MarkedUpTo(free, k)) + if free[k] then [list[k]] else []
  {
    var keep := MarkedUpTo(free, k);
    if free[k] {
      OneMoreKept(list, keep, k);
    } else {
      assert MarkedUpTo(free, k + 1) == keep;
    }
  }

  lemma {:induction false} SubsetRemains(list: List, out: Instance -> bool, free: seq<bool>, n: nat)
    requires n <= |list| && Marks(free, list, out)
    ensures Subset(list, MarkedUpTo(free, n)) == Remaining(list, out, n)
  {
    if n > 0 {
      SubsetRemains(list, out, free, n - 1);
      OneMoreMarked(list, free, n - 1);
    }
  }

  lemma {:induction false} AllRemain(list: List, out: Instance -> bool, n: nat)
    requires n <= |list| && forall k | 0 <= k < |list| :: !out(list[k])
    ensures Remaining(list, out, n) == list[..n]
  {
    if n > 0 {
      AllRemain(list, out, n - 1);
      assert list[..n] == list[..n - 1] + [list[n - 1]];
    }
  }

  /** The instances that are not ejected, in the order of the list. */
  function Unejected(list: List, ejections: Option<EjectionSet>, now: int): List {
    Remaining(list, (i: Instance) => Ejected(ejections, HostPort(i), now), |list|)
  }

  lemma UnejectedHas(list: List, ejections: Option<EjectionSet>, now: int, i: Instance)
    ensures i in Unejected(list, ejections, now) <==> i in list && !Ejected(ejections, HostPort(i), now)
  {
    RemainingHas(list, (i: Instance) => Ejected(ejections, HostPort(i), now), |list|, i);
    assert list[..|list|] == list;
  }

  /** The candidates are exactly the instances that are not ejected, in the order of the
      list; all of them when ejection is off or every one is ejected. */
  lemma {:induction false} CandidatesExactly(list: List, ejections: Option<EjectionSet>, now: int)
    ensures var free := Unejected(list, ejections, now);
            Candidates(list, ejections, now) == if now == 0 || free == [] then list else free
  {
    var marks := Free(list, ejections, now);
    KeptExactly(marks);
    var out := (i: Instance) => Ejected(ejections, HostPort(i), now);
    SubsetRemains(list, out, marks, |list|);
    if EachMarked(marks, |list|) {
      AllRemain(list, out, |list|);
    }
    assert list[..|list|] == list;
  }

  /** A selection never falls on an ejected instance, unless every one listed is
      ejected; and it always falls on one that is listed. */
  lemma {:induction false} NeverEjected(strategy: Strategy, n: nat, draw: nat -> nat, list: List,
                                        ejections: Option<EjectionSet>, now: int)
    requires Fair(draw) && list != [] && now != 0
    ensures var (r, _) := NextResult(strategy, n, draw, list, ejections, now);
            && r.Some? && r.value in list
            && (Ejected(ejections, HostPort(r.value), now) ==>
                  forall k | 0 <= k < |list| :: Ejected(ejections, HostPort(list[k]), now))
  {
    CandidatesExactly(list, ejections, now);
    var candidates := Candidates(list, ejections, now);
    var chosen := candidates[Pick(strategy, n, draw, candidates).0];
    assert list[..|list|] == list && chosen in candidates;
    UnejectedHas(list, ejections, now, chosen);
    if Unejected(list, ejections, now) == [] {
      forall k | 0 <= k < |list|
        ensures Ejected(ejections, HostPort(list[k]), now)
      {
        UnejectedHas(list, ejections, now, list[k]);
      }
    }
  }

  /** What calls of `Next` return one after the other, at these readings of the clock,
      and the counter they leave. */
  function Nexts(strategy: Strategy, n: nat, draw: nat -> nat, list: List,
                 ejections: Option<EjectionSet>, nows: seq<int>): (r: (seq<Option<Instance>>, nat))
    requires Fair(draw)
  {
    if nows == [] then ([], n)
    else
      var before := Nexts(strategy, n, draw, list, ejections, nows[..|nows| - 1]);
      var last := NextResult(strategy, before.1, draw, list, ejections, nows[|nows| - 1]);
      (before.0 + [last.0], last.1)
  }

  /** How often `x` was returned. */
  function Times(results: seq<Option<Instance>>, x: Instance): nat {
    multiset(results)[Some(x)]
  }

  /** The same instances are candidates at each of these times. */
  ghost predicate Steady(list: List, ejections: Option<EjectionSet>, nows: seq<int>, candidates: List) {
    && list != [] && candidates != []
    && forall k | 0 <= k < |nows| :: Candidates(list, ejections, nows[k]) == candidates
  }

  ghost predicate AllDiffer(list: List) {
    forall i, j | 0 <= i < j < |list| :: list[i] != list[j]
  }

  /** These results are the candidates picked. */
  ghost predicate Selects(candidates: List, picks: seq<nat>, results: seq<Option<Instance>>) {
    && |picks| == |results|
    && forall k | 0 <= k < |picks| :: picks[k] < |candidates| && results[k] == Some(candidates[picks[k]])
  }

  lemma {:induction false} NextsArePicks(strategy: Strategy, n: nat, draw: nat -> nat, list: List,
                                         ejections: Option<EjectionSet>, nows: seq<int>, candidates: List)
    requires Fair(draw) && Steady(list, ejections, nows, candidates)
    ensures var nexts := Nexts(strategy, n, draw, list, ejections, nows);
            var picks := Picks(strategy, n, draw, candidates, |nows|);
            nexts.1 == picks.1 && Selects(candidates, picks.0, nexts.0)
  {
    if nows != [] {
      NextsArePicks(strategy, n, draw, list, ejections, nows[..|nows| - 1], candidates);
    }
  }

  lemma {:induction false} SelectedAsOften(candidates: List, picks: seq<nat>, results: seq<Option<Instance>>, i: nat)
    requires Selects(candidates, picks, results) && AllDiffer(candidates) && i < |candidates|
    ensures Times(results, candidates[i]) == Occurrences(picks, i)
  {
    if picks != [] {
      var k := |picks| - 1;
      SelectedAsOften(candidates, picks[..k], results[..k], i);
      assert picks == picks[..k] + [picks[k]] && results == results[..k] + [results[k]];
      OneMorePick(picks[..k], picks[k], i);
      assert candidates[picks[k]] == candidates[i] <==> picks[k] == i;
    }
  }

  /** Round robin over whoever is not ejected: while the candidates stay the same, any m
      calls in a row return each of them m / size times, rounded down or up. */
  lemma NextIsEven(n: nat, draw: nat -> nat, list: List, ejections: Option<EjectionSet>,
                   nows: seq<int>, candidates: List, x: Instance)
    requires Fair(draw) && Steady(list, ejections, nows, candidates) && AllDiffer(candidates) && x in candidates
    ensures var results := Nexts(RoundRobin, n, draw, list, ejections, nows).0;
            var m, size := |nows|, |candidates|;
            m / size <= Times(results, x) <= m / size + if m % size == 0 then 0 else 1
  {
    var i: nat :| i < |candidates| && candidates[i] == x;
    NextsArePicks(RoundRobin, n, draw, list, ejections, nows, candidates);
    SelectedAsOften(candidates, Picks(RoundRobin, n, draw, candidates, |nows|).0,
                    Nexts(RoundRobin, n, draw, list, ejections, nows).0, i);
    RoundRobinIsEven(n, draw, candidates, |nows|, i);
  }

  // -------------------------------------------------------------- the operations

  /** What the balancer keeps for one service. `window` is zero when ejection is
      off. */
  class Service {
    const window: int
    const picker: Picker
    var ejections: Option<EjectionSet>

    constructor (strategy: Strategy, window: int)
      ensures picker.strategy == strategy && picker.n == 0 && this.window == window && ejections.None?
      ensures fresh(picker)
    {
      picker := new Picker(strategy);
      this.window := window;
      ejections := None;
    }

    /** `ReportFailure`: builds a new set from the old one and publishes it. */
    method ReportFailure(hostPort: string, now: int)
      modifies this
      ensures if window <= 0 || hostPort == "" then ejections == old(ejections)
              else ejections == Some(Reported(old(ejections), window, Report(hostPort, now)))
    {
      if window <= 0 || hostPort == "" {
        return;
      }
      var next: EjectionSet := map[hostPort := now + window];
      if ejections.Some? {
        var before := ejections.value;
        var todo := before.Keys;
        while todo != {}
          invariant todo <= before.Keys
          invariant forall k :: k in next <==>
                      k == hostPort || (k in before && k !in todo && before[k] > now)
          invariant next[hostPort] == now + window
          invariant forall k | k in next && k != hostPort :: next[k] == before[k]
          decreases todo
        {
          var k :| k in todo;
          todo := todo - {k};
          if before[k] > now && k != hostPort {
            next := next[k := before[k]];
          }
        }
      }
      assert next == Reported(ejections, window, Report(hostPort, now));
      ejections := Some(next);
    }

    /** `available`: fills the slice of the indexes to keep. */
    method Keep(list: List, now: int) returns (keep: Option<seq<nat>>)
      ensures keep == Available(list, ejections, now)
    {
      if ejections.None? || ejections.value == map[] {
        KeptExactly(Free(list, ejections, now));
        return None;
      }
      ghost var free := Free(list, ejections, now);
      var kept: seq<nat> := [];
      for k := 0 to |list|
        invariant kept == MarkedUpTo(free, k)
      {
        var hp := HostPort(list[k]);
        assert free[k] <==> !Ejected(ejections, hp, now);
        if !(hp in ejections.value && ejections.value[hp] > now) {
          kept := kept + [k];
        }
      }
      return if |kept| == |list| || |kept| == 0 then None else Some(kept);
    }

    /** `Next`: copies the instances to choose from and picks one. */
    method Next(snap: Snapshot, now: int, draw: nat -> nat) returns (r: Option<Instance>)
      requires Fair(draw)
      modifies picker
      ensures (r, picker.n) ==
              NextResult(picker.strategy, old(picker.n), draw, snap.list, ejections, now)
    {
      if snap.list == [] {
        return None;
      }
      var list := snap.list;
      if now != 0 {
        var keep := Keep(list, now);
        if keep.Some? {
          list := Subset(list, keep.value);
        }
      }
      var i := picker.PickIndex(list, draw);
      return Some(list[i]);
    }

    /** `NextEndpoint`: picks an index, maps it back to the full list and hands
        out the endpoint formatted for it. It returns the endpoint of the instance
        `Next` would have returned, and moves the picker alike. */
    method NextEndpoint(snap: Snapshot, now: int, draw: nat -> nat) returns (r: Option<Endpoint>)
      requires Fair(draw) && Aligned(snap)
      modifies picker
      ensures var (inst, n) := NextResult(picker.strategy, old(picker.n), draw, snap.list, ejections, now);
              && picker.n == n
              && r == match inst case None => None case Some(i) => Some(EndpointOf(i))
    {
      if snap.list == [] {
        return None;
      }
      if now != 0 {
        var keep := Keep(snap.list, now);
        if keep.Some? {
          var sub := Subset(snap.list, keep.value);
          var i := picker.PickIndex(sub, draw);
          return Some(snap.endpoints[keep.value[i]]);
        }
      }
      var i := picker.PickIndex(snap.list, draw);
      return Some(snap.endpoints[i]);
    }
  }
}
