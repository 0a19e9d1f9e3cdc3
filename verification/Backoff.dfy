/** Capped exponential backoff with jitter, and the retry loop driven by it.
    Durations are whole nanoseconds; delays are computed as real numbers and
    truncated. */
module Backoff {
  import opened Arithmetic
  import opened Outcomes

  /** `maxAttempts` 0 is unlimited, `max` 0 is no cap. */
  datatype Policy = Policy(initial: int, max: int, multiplier: real, jitter: bool, maxAttempts: int)

  // ---------------------------------------------------------------------- delays

  function Truncate(x: real): int {
    if x >= 0.0 then x.Floor else -(-x).Floor
  }

  function Pow(m: real, n: nat): real {
    if n == 0 then 1.0 else m * Pow(m, n - 1)
  }

  function Growth(p: Policy): (m: real)
    ensures m >= 1.0
  {
    if p.multiplier < 1.0 then 1.0 else p.multiplier
  }

  function Uncapped(p: Policy, attempt: int): real {
    p.initial as real * Pow(Growth(p), if attempt < 1 then 0 else attempt - 1)
  }

  function Capped(p: Policy, d: real): real {
    if p.max > 0 && d > p.max as real then p.max as real else d
  }

  /** The delay before jitter. */
  function Base(p: Policy, attempt: int): real {
    Capped(p, Uncapped(p, attempt))
  }

  /** Half of a positive delay, plus up to another half. */
  function Jittered(p: Policy, d: real, r: real): real {
    if p.jitter && d > 0.0 then d / 2.0 + r * d / 2.0 else d
  }

  /** `NextDelay` with random number `r`: None when no attempt is to follow. */
  function NextDelay(p: Policy, attempt: int, r: real): Option<int> {
    var n := if attempt < 1 then 1 else attempt;
    if p.maxAttempts > 0 && n >= p.maxAttempts then None
    else Some(Truncate(Jittered(p, Base(p, attempt), r)))
  }

  lemma {:induction false} PowGrows(m: real, n: nat)
    requires m >= 1.0
    ensures 1.0 <= Pow(m, n) <= Pow(m, n + 1)
  {
    if n > 0 {
      PowGrows(m, n - 1);
    }
    assert (m - 1.0) * Pow(m, n) >= 0.0;
    assert m * Pow(m, n) == (m - 1.0) * Pow(m, n) + Pow(m, n);
  }

  lemma TruncateMono(x: real, y: real)
    requires x <= y
    ensures Truncate(x) <= Truncate(y)
  {
  }

  /** The delay before jitter never decreases and never exceeds the cap. */
  lemma BaseGrows(p: Policy, attempt: int)
    requires p.initial >= 0
    ensures 0.0 <= Base(p, attempt) <= Base(p, attempt + 1)
    ensures p.max > 0 ==> Base(p, attempt) <= p.max as real
  {
    var m := Growth(p);
    var n := if attempt < 1 then 0 else attempt - 1;
    PowGrows(m, n);
    var x, y := Pow(m, n), Pow(m, n + 1);
    assert p.initial as real * (y - x) >= 0.0;
    assert p.initial as real * y == p.initial as real * x + p.initial as real * (y - x);
    assert p.initial as real * x >= 0.0;
  }

  lemma GrowsBeyond(m: real, x: real)
    requires m >= 1.0 && x >= 0.0
    ensures m * x >= x
  {
    RealProduct(m - 1.0, x);
    assert m * x == (m - 1.0) * x + x;
  }

  /** Capping before the next step changes nothing: what was cut stays cut. */
  lemma CappedStep(p: Policy, m: real, x: real)
    requires m >= 1.0 && x >= 0.0
    ensures Capped(p, m * x) == Capped(p, m * Capped(p, x))
  {
    GrowsBeyond(m, x);
    if p.max > 0 {
      GrowsBeyond(m, p.max as real);
    }
  }

  lemma Regrouped(a: real, m: real, q: real)
    ensures a * (m * q) == m * (a * q)
  {
  }

  lemma UncappedStep(p: Policy, attempt: int)
    requires p.initial >= 0 && attempt >= 1
    ensures Uncapped(p, attempt) >= 0.0
    ensures Uncapped(p, attempt + 1) == Growth(p) * Uncapped(p, attempt)
  {
    var m, n := Growth(p), attempt - 1;
    PowGrows(m, n);
    RealProduct(p.initial as real, Pow(m, n));
    Regrouped(p.initial as real, m, Pow(m, n));
  }

  /** The delay after one of `d`. */
  function Following(p: Policy, d: real): real {
    Capped(p, Growth(p) * d)
  }

  lemma CappedNext(p: Policy, x: real, y: real, base: real, next: real)
    requires x >= 0.0 && y == Growth(p) * x && base == Capped(p, x) && next == Capped(p, y)
    ensures next == Following(p, base)
  {
    CappedStep(p, Growth(p), x);
  }

  /** The first delay, once capped. */
  function FirstDelay(p: Policy): int {
    if p.max > 0 && p.initial > p.max then p.max else p.initial
  }

  lemma BaseIsFirst(p: Policy)
    ensures Base(p, 1) == FirstDelay(p) as real
  {
    var first := Uncapped(p, 1);
    assert first == p.initial as real by {
      assert Pow(Growth(p), 0) == 1.0;
    }
    assert Base(p, 1) == Capped(p, first);
  }

  /** The delay before jitter starts at the initial one; each is the one before times the
      multiplier, which counts as one if it is less; the cap cuts both. */
  lemma {:induction false} BaseMultiplies(p: Policy, attempt: int)
    requires p.initial >= 0 && attempt >= 1
    ensures Base(p, 1) == (if p.max > 0 && p.initial > p.max then p.max else p.initial) as real
    ensures var next := (if p.multiplier < 1.0 then 1.0 else p.multiplier) * Base(p, attempt);
            Base(p, attempt + 1) == if p.max > 0 && next > p.max as real then p.max as real else next
  {
    BaseIsFirst(p);
    UncappedStep(p, attempt);
    CappedNext(p, Uncapped(p, attempt), Uncapped(p, attempt + 1), Base(p, attempt), Base(p, attempt + 1));
  }

  lemma {:induction false} BaseAtLeastFirst(p: Policy, attempt: int)
    requires p.initial >= 0
    ensures Base(p, attempt) >= Base(p, 1)
    decreases if attempt < 1 then 0 else attempt
  {
    if attempt > 1 {
      BaseAtLeastFirst(p, attempt - 1);
      BaseGrows(p, attempt - 1);
    }
  }

  lemma JitterRange(p: Policy, d: real, r: real)
    requires d >= 0.0 && 0.0 <= r < 1.0
    ensures d / 2.0 <= Jittered(p, d, r) <= d
  {
    RealProduct(r, d);
    RealProduct(1.0 - r, d);
    assert r * d == d - (1.0 - r) * d;
  }

  /** Every delay lies between half of the delay before jitter and all of it, in
      whole nanoseconds; without jitter it is all of it. So delays never exceed
      the cap, and unjittered ones never decrease. */
  lemma {:induction false} DelayRange(p: Policy, attempt: int, r: real)
    requires p.initial >= 0 && 0.0 <= r < 1.0 && NextDelay(p, attempt, r).Some?
    ensures var delay := NextDelay(p, attempt, r).value;
            && Truncate(Base(p, attempt) / 2.0) <= delay <= Truncate(Base(p, attempt))
            && (!p.jitter ==> delay == Truncate(Base(p, attempt)))
            && (p.max > 0 ==> delay <= p.max)
            && (!p.jitter && NextDelay(p, attempt + 1, r).Some? ==> delay <= NextDelay(p, attempt + 1, r).value)
  {
    var d := Base(p, attempt);
    BaseGrows(p, attempt);
    JitterRange(p, d, r);
    TruncateMono(d / 2.0, Jittered(p, d, r));
    TruncateMono(Jittered(p, d, r), d);
    TruncateMono(d, Base(p, attempt + 1));
    if p.max > 0 {
      TruncateMono(d, p.max as real);
    }
  }

  lemma Spread(d: real, k: int) returns (r: real)
    requires d > 0.0 && d / 2.0 <= k as real < d
    ensures 0.0 <= r < 1.0 && d / 2.0 + r * d / 2.0 == k as real
  {
    var y := 2.0 * k as real - d;
    r := y / d;
    assert r * d == y;
    if r < 0.0 {
      RealProduct(-r, d);
    }
    if r >= 1.0 {
      RealProduct(r - 1.0, d);
    }
  }

  /** Jitter spreads: every whole delay from half of the delay before jitter up to it is
      reached by some random number. */
  lemma EveryDelayReached(p: Policy, attempt: int, k: int) returns (r: real)
    requires p.jitter && attempt >= 1 && (p.maxAttempts <= 0 || attempt < p.maxAttempts)
    requires Base(p, attempt) > 0.0 && Base(p, attempt) / 2.0 <= k as real < Base(p, attempt)
    ensures 0.0 <= r < 1.0 && NextDelay(p, attempt, r) == Some(k)
  {
    r := Spread(Base(p, attempt), k);
    assert Jittered(p, Base(p, attempt), r) == k as real;
  }

  // ------------------------------------------------------------------- the loop

  datatype Outcome = Success | Permanent(error: nat) | Failure(error: nat)

  /** What one round of the loop meets: how the call ends, whether the context is
      then done, the time since the start, the random number, and whether the
      sleep is interrupted. */
  datatype Round = Round(outcome: Outcome, cancelled: bool, elapsed: int, r: real, interrupted: bool)

  datatype Verdict = Succeeded | Returned(error: nat) | Aborted(error: nat) | Running

  /** How far the loop got: how it ended, how often it called the function, and
      the sleeps it started. */
  datatype Trace = Trace(verdict: Verdict, calls: nat, sleeps: seq<int>)

  /** The loop from round `n` on. `Running` means that the rounds given are used
      up and the loop is about to start another. */
  function RetryFrom(p: Policy, maxElapsed: int, rounds: seq<Round>, n: nat): (t: Trace)
    requires n <= |rounds|
    decreases |rounds| - n
  {
    if n == |rounds| then Trace(Running, 0, [])
    else
      var round := rounds[n];
      match round.outcome
      case Success => Trace(Succeeded, 1, [])
      case Permanent(e) => Trace(Returned(e), 1, [])
      case Failure(e) =>
        if round.cancelled then Trace(Aborted(e), 1, [])
        else
          match NextDelay(p, n + 1, round.r)
          case None => Trace(Returned(e), 1, [])
          case Some(delay) =>
            if maxElapsed > 0 && round.elapsed + delay > maxElapsed then Trace(Returned(e), 1, [])
            else if round.interrupted then Trace(Aborted(e), 1, [delay])
            else
              var rest := RetryFrom(p, maxElapsed, rounds, n + 1);
              Trace(rest.verdict, 1 + rest.calls, [delay] + rest.sleeps)
  }

  method Retry(p: Policy, maxElapsed: int, rounds: seq<Round>) returns (verdict: Verdict, calls: nat, sleeps: seq<int>)
    ensures Trace(verdict, calls, sleeps) == RetryFrom(p, maxElapsed, rounds, 0)
  {
    calls, sleeps := 0, [];
    var attempt := 1;
    while attempt <= |rounds|
      invariant 1 <= attempt <= |rounds| + 1 && calls == attempt - 1
      invariant var rest := RetryFrom(p, maxElapsed, rounds, attempt - 1);
                RetryFrom(p, maxElapsed, rounds, 0) ==
                Trace(rest.verdict, calls + rest.calls, sleeps + rest.sleeps)
      decreases |rounds| - attempt
    {
      var round := rounds[attempt - 1];
      calls := calls + 1;
      if round.outcome.Success? {
        return Succeeded, calls, sleeps;
      }
      if round.outcome.Permanent? {
        return Returned(round.outcome.error), calls, sleeps;
      }
      if round.cancelled {
        return Aborted(round.outcome.error), calls, sleeps;
      }
      var delay := NextDelay(p, attempt, round.r);
      if delay.None? {
        return Returned(round.outcome.error), calls, sleeps;
      }
      if maxElapsed > 0 && round.elapsed + delay.value > maxElapsed {
        return Returned(round.outcome.error), calls, sleeps;
      }
      sleeps := sleeps + [delay.value];
      if round.interrupted {
        return Aborted(round.outcome.error), calls, sleeps;
      }
      attempt := attempt + 1;
    }
    return Running, calls, sleeps;
  }

  // ------------------------------------------------------------ how the loop ends

  /** Round `i` goes to sleep: the call failed, the context is not done, an attempt is
      left, and the sleep is not planned to end after the limit. */
  predicate Sleeps(p: Policy, maxElapsed: int, rounds: seq<Round>, i: nat)
    requires i < |rounds|
  {
    var delay := NextDelay(p, i + 1, rounds[i].r);
    && rounds[i].outcome.Failure? && !rounds[i].cancelled
    && (p.maxAttempts <= 0 || i + 1 < p.maxAttempts)
    && delay.Some? && (maxElapsed <= 0 || rounds[i].elapsed + delay.value <= maxElapsed)
  }

  /** What the loop returns when round `i` is the last. */
  ghost predicate EndsWith(p: Policy, maxElapsed: int, rounds: seq<Round>, i: nat, verdict: Verdict)
    requires i < |rounds|
  {
    match rounds[i].outcome
    case Success => verdict == Succeeded
    case Permanent(e) => verdict == Returned(e)
    case Failure(e) =>
      if rounds[i].cancelled then verdict == Aborted(e)
      else if Sleeps(p, maxElapsed, rounds, i) then rounds[i].interrupted && verdict == Aborted(e)
      else verdict == Returned(e)
  }

  /** Exactly how the loop ends: every round but the last sleeps to the end, and the last
      decides, by success, a permanent error, the end of the context, or for want of an
      attempt or of time. The error is always that of the last call. */
  lemma {:induction false} RetryExactly(p: Policy, maxElapsed: int, rounds: seq<Round>, n: nat)
    requires n <= |rounds|
    ensures var t := RetryFrom(p, maxElapsed, rounds, n); var end := n + t.calls;
            && end <= |rounds| && (t.verdict.Running? ==> end == |rounds|)
            && (forall i | n <= i < end && (i < end - 1 || t.verdict.Running?) ::
                  Sleeps(p, maxElapsed, rounds, i) && !rounds[i].interrupted)
            && (!t.verdict.Running? ==> n < end && EndsWith(p, maxElapsed, rounds, end - 1, t.verdict))
            && |t.sleeps| ==
               if t.verdict.Running? || Sleeps(p, maxElapsed, rounds, end - 1) then t.calls else t.calls - 1
    decreases |rounds| - n
  {
    if n < |rounds| && Sleeps(p, maxElapsed, rounds, n) && !rounds[n].interrupted {
      RetryExactly(p, maxElapsed, rounds, n + 1);
    }
  }

  // ---------------------------------------------------------------------- bounds

  /** The function is called at most as often as the policy allows. */
  lemma {:induction false} CallsBounded(p: Policy, maxElapsed: int, rounds: seq<Round>, n: nat)
    requires n <= |rounds| && p.maxAttempts > 0 && n < p.maxAttempts
    ensures n + RetryFrom(p, maxElapsed, rounds, n).calls <= p.maxAttempts
    decreases |rounds| - n
  {
    if n < |rounds| && n + 1 < p.maxAttempts {
      CallsBounded(p, maxElapsed, rounds, n + 1);
    }
  }

  /** Random numbers lie in [0, 1); the clock starts at zero and a sleep that is not
      interrupted lasts at least as long as planned. */
  ghost predicate Possible(p: Policy, rounds: seq<Round>) {
    && (forall i | 0 <= i < |rounds| :: 0.0 <= rounds[i].r < 1.0 && rounds[i].elapsed >= 0)
    && (forall i | 0 <= i < |rounds| - 1 :: Slept(p, rounds, i))
  }

  predicate Slept(p: Policy, rounds: seq<Round>, i: nat)
    requires i + 1 < |rounds|
  {
    var delay := NextDelay(p, i + 1, rounds[i].r);
    delay.Some? ==> rounds[i + 1].elapsed >= rounds[i].elapsed + delay.value
  }

  function Sum(s: seq<int>): int {
    if s == [] then 0 else s[0] + Sum(s[1..])
  }

  /** Sleep number `i` is the delay of its round, and is not planned to end after
      the limit. */
  lemma {:induction false} SleepPlanned(p: Policy, maxElapsed: int, rounds: seq<Round>, n: nat, i: nat)
    requires n <= |rounds| && i < |RetryFrom(p, maxElapsed, rounds, n).sleeps|
    ensures n + i < |rounds|
    ensures NextDelay(p, n + i + 1, rounds[n + i].r) == Some(RetryFrom(p, maxElapsed, rounds, n).sleeps[i])
    ensures maxElapsed > 0 ==>
              rounds[n + i].elapsed + RetryFrom(p, maxElapsed, rounds, n).sleeps[i] <= maxElapsed
    decreases |rounds| - n
  {
    if i > 0 {
      SleepPlanned(p, maxElapsed, rounds, n + 1, i - 1);
    }
  }

  /** All the sleeps started fit in what is left of the limit. */
  lemma {:induction false} SleepsFit(p: Policy, maxElapsed: int, rounds: seq<Round>, n: nat)
    requires n < |rounds| && maxElapsed > 0 && Possible(p, rounds)
    requires RetryFrom(p, maxElapsed, rounds, n).sleeps != []
    ensures rounds[n].elapsed + Sum(RetryFrom(p, maxElapsed, rounds, n).sleeps) <= maxElapsed
    decreases |rounds| - n
  {
    var sleeps := RetryFrom(p, maxElapsed, rounds, n).sleeps;
    SleepPlanned(p, maxElapsed, rounds, n, 0);
    if |sleeps| > 1 {
      SleepPlanned(p, maxElapsed, rounds, n, 1);
      var rest := RetryFrom(p, maxElapsed, rounds, n + 1).sleeps;
      assert sleeps == [sleeps[0]] + rest && sleeps[1..] == rest;
      assert Slept(p, rounds, n);
      SleepsFit(p, maxElapsed, rounds, n + 1);
    } else {
      assert sleeps[1..] == [];
    }
  }

  /** The least a delay can be: the first one, or half of it with jitter, in whole
      nanoseconds. */
  function LeastDelay(p: Policy): int {
    if p.jitter then FirstDelay(p) / 2 else FirstDelay(p)
  }

  lemma DelayAtLeast(p: Policy, attempt: int, r: real)
    requires FirstDelay(p) > 0 && 0.0 <= r < 1.0 && NextDelay(p, attempt, r).Some?
    ensures NextDelay(p, attempt, r).value >= LeastDelay(p)
  {
    DelayRange(p, attempt, r);
    BaseAtLeastFirst(p, attempt);
    BaseIsFirst(p);
    var d := Base(p, attempt);
    TruncateMono(FirstDelay(p) as real, d);
    TruncateMono((FirstDelay(p) / 2) as real, d / 2.0);
  }

  lemma {:induction false} SumAtLeast(s: seq<int>, least: int)
    requires forall i | 0 <= i < |s| :: s[i] >= least
    ensures Sum(s) >= |s| * least
  {
    if s != [] {
      SumAtLeast(s[1..], least);
      MulSucc(|s| - 1, least);
    }
  }

  /** However the calls fail, the sleeps started number at most the limit divided
      by the least delay. */
  lemma SleepsBounded(p: Policy, maxElapsed: int, rounds: seq<Round>)
    requires maxElapsed > 0 && FirstDelay(p) > 0 && Possible(p, rounds)
    ensures |RetryFrom(p, maxElapsed, rounds, 0).sleeps| * LeastDelay(p) <= maxElapsed
  {
    var sleeps := RetryFrom(p, maxElapsed, rounds, 0).sleeps;
    if sleeps != [] {
      SleepPlanned(p, maxElapsed, rounds, 0, 0);
      SleepsFit(p, maxElapsed, rounds, 0);
    }
    forall i: nat | i < |sleeps|
      ensures sleeps[i] >= LeastDelay(p)
    {
      SleepPlanned(p, maxElapsed, rounds, 0, i);
      DelayAtLeast(p, i + 1, rounds[i].r);
    }
    SumAtLeast(sleeps, LeastDelay(p));
  }

  /** The number of sleeps is at most twice the limit divided by the first delay,
      in every run. */
  ghost predicate AtMostTwice(p: Policy) {
    forall maxElapsed, rounds | maxElapsed > 0 && Possible(p, rounds) ::
      |RetryFrom(p, maxElapsed, rounds, 0).sleeps| * FirstDelay(p) <= 2 * maxElapsed
  }

  lemma TwiceLeast(n: nat, first: int, least: int)
    requires first <= 2 * least
    ensures n * first <= 2 * (n * least)
  {
    MulMono(first, 2 * least, n);
    assert n * (2 * least) == 2 * (n * least);
  }

  /** The smallest random number gives half of the delay before jitter. */
  lemma HalfDelay(p: Policy, attempt: int)
    requires p.jitter && Base(p, attempt) >= 0.0 && NextDelay(p, attempt, 0.0).Some?
    ensures NextDelay(p, attempt, 0.0) == Some(Truncate(Base(p, attempt) / 2.0))
  {
    var d := Base(p, attempt);
    assert 0.0 * d / 2.0 == 0.0;
  }

  /** An odd first delay of three nanoseconds or more: one sleep shorter than half of
      it is too many. */
  lemma OddIsMore(p: Policy)
    requires FirstDelay(p) >= 2 && p.maxAttempts != 1 && p.jitter && FirstDelay(p) % 2 == 1
    ensures !AtMostTwice(p)
  {
    var half := FirstDelay(p) / 2;
    var rounds := [Round(Failure(0), false, 0, 0.0, true)];
    assert Possible(p, rounds);
    BaseIsFirst(p);
    HalfDelay(p, 1);
    assert (FirstDelay(p) as real / 2.0).Floor == half;
    assert RetryFrom(p, half, rounds, 0).sleeps == [half];
    assert 1 * FirstDelay(p) > 2 * half;
  }

  /** A policy that allows `maxAttempts` calls allows one sleep less. */
  lemma {:induction false} SleepsBelowAttempts(p: Policy, maxElapsed: int, rounds: seq<Round>, n: nat)
    requires n <= |rounds| && p.maxAttempts > 0 && n < p.maxAttempts
    ensures n + |RetryFrom(p, maxElapsed, rounds, n).sleeps| < p.maxAttempts
    decreases |rounds| - n
  {
    if n < |rounds| && n + 1 < p.maxAttempts {
      SleepsBelowAttempts(p, maxElapsed, rounds, n + 1);
    }
  }

  /** A first delay of one nanosecond that at least doubles up to a cap of two or
      more. */
  predicate Doubles(p: Policy) {
    FirstDelay(p) == 1 && Growth(p) >= 2.0 && p.max != 1
  }

  lemma {:induction false} DoublesFromSecond(p: Policy, attempt: int)
    requires Doubles(p) && attempt >= 2
    ensures Base(p, attempt) >= 2.0
    decreases attempt
  {
    if attempt == 2 {
      BaseIsFirst(p);
      BaseMultiplies(p, 1);
    } else {
      DoublesFromSecond(p, attempt - 1);
      BaseGrows(p, attempt - 1);
    }
  }

  /** Every sleep but the first then lasts a nanosecond, so there is one more than
      nanoseconds at most. */
  lemma DoublingBounds(p: Policy, maxElapsed: int, rounds: seq<Round>)
    requires Doubles(p) && maxElapsed > 0 && Possible(p, rounds)
    ensures |RetryFrom(p, maxElapsed, rounds, 0).sleeps| <= maxElapsed + 1
  {
    var sleeps := RetryFrom(p, maxElapsed, rounds, 0).sleeps;
    if sleeps != [] {
      SleepPlanned(p, maxElapsed, rounds, 0, 0);
      SleepsFit(p, maxElapsed, rounds, 0);
      DelayAtLeast(p, 1, rounds[0].r);
      var later := sleeps[1..];
      forall i: nat | i < |later|
        ensures later[i] >= 1
      {
        SleepPlanned(p, maxElapsed, rounds, 0, i + 1);
        DelayRange(p, i + 2, rounds[i + 1].r);
        DoublesFromSecond(p, i + 2);
        TruncateMono(1.0, Base(p, i + 2) / 2.0);
      }
      SumAtLeast(later, 1);
    }
  }

  lemma BelowSquare(m: real, d: real) returns (product: real)
    requires 0.0 <= m < 2.0 && 0.0 <= d < 2.0
    ensures product == m * d && product < 4.0
  {
    product := m * d;
    var rest := (2.0 - m) * d;
    RealProduct(2.0 - m, d);
    assert rest >= 0.0;
    assert product + rest == 2.0 * d;
  }

  lemma SlowStep(p: Policy, d: real)
    requires Growth(p) < 2.0 && 0.0 <= d < 2.0
    ensures Following(p, d) < 4.0
  {
    var product := BelowSquare(Growth(p), d);
    assert Following(p, d) == Capped(p, product);
  }

  /** Otherwise the second delay is below two and the third below four, before
      jitter. */
  lemma SlowGrowth(p: Policy)
    requires FirstDelay(p) == 1 && !Doubles(p)
    ensures 0.0 <= Base(p, 2) < 2.0 && 0.0 <= Base(p, 3) < 4.0
  {
    BaseIsFirst(p);
    BaseGrows(p, 1);
    BaseGrows(p, 2);
    if p.max != 1 {
      BaseMultiplies(p, 1);
      BaseMultiplies(p, 2);
      SlowStep(p, Base(p, 2));
    } else {
      BaseGrows(p, 3);
    }
  }

  /** Two sleeps of nothing and a third of at most one nanosecond. */
  lemma ThreeSleeps(p: Policy)
    requires FirstDelay(p) == 1 && p.jitter && !Doubles(p) && !(1 <= p.maxAttempts <= 3)
    ensures !AtMostTwice(p)
  {
    var round := Round(Failure(0), false, 0, 0.0, false);
    var rounds := [round, round, round.(interrupted := true)];
    BaseIsFirst(p);
    SlowGrowth(p);
    forall attempt | 1 <= attempt <= 3 {
      HalfDelay(p, attempt);
    }
    assert NextDelay(p, 1, 0.0) == Some(0) && NextDelay(p, 2, 0.0) == Some(0);
    var third := NextDelay(p, 3, 0.0).value;
    assert 0 <= third <= 1;
    assert Slept(p, rounds, 0) && Slept(p, rounds, 1);
    assert Possible(p, rounds);
    assert RetryFrom(p, 1, rounds, 2).sleeps == [third];
    assert |RetryFrom(p, 1, rounds, 1).sleeps| == 2;
    assert |RetryFrom(p, 1, rounds, 0).sleeps| == 3;
  }

  /** Exactly when the bound holds: nothing is lost in halving the first delay (an
      odd number of nanoseconds with jitter is truncated), or there is no second
      attempt. A first delay of one nanosecond, which is truncated to nothing, is
      also bounded by a third attempt being the last or by the delays doubling. */
  lemma AtMostTwiceExactly(p: Policy)
    requires FirstDelay(p) > 0
    ensures AtMostTwice(p) <==>
            || !p.jitter || FirstDelay(p) % 2 == 0 || p.maxAttempts == 1
            || (FirstDelay(p) == 1 && (1 <= p.maxAttempts <= 3 || (Growth(p) >= 2.0 && p.max != 1)))
  {
    if !p.jitter || FirstDelay(p) % 2 == 0 {
      forall maxElapsed, rounds | maxElapsed > 0 && Possible(p, rounds)
        ensures |RetryFrom(p, maxElapsed, rounds, 0).sleeps| * FirstDelay(p) <= 2 * maxElapsed
      {
        SleepsBounded(p, maxElapsed, rounds);
        TwiceLeast(|RetryFrom(p, maxElapsed, rounds, 0).sleeps|, FirstDelay(p), LeastDelay(p));
      }
    } else if p.maxAttempts == 1 || (FirstDelay(p) == 1 && 1 <= p.maxAttempts <= 3) {
      FewAttempts(p);
    } else if Doubles(p) {
      forall maxElapsed, rounds | maxElapsed > 0 && Possible(p, rounds)
        ensures |RetryFrom(p, maxElapsed, rounds, 0).sleeps| * FirstDelay(p) <= 2 * maxElapsed
      {
        DoublingBounds(p, maxElapsed, rounds);
      }
    } else if FirstDelay(p) == 1 {
      ThreeSleeps(p);
    } else {
      OddIsMore(p);
    }
  }

  lemma FewAttempts(p: Policy)
    requires p.maxAttempts == 1 || (FirstDelay(p) == 1 && 1 <= p.maxAttempts <= 3)
    ensures AtMostTwice(p)
  {
    forall maxElapsed, rounds | maxElapsed > 0 && Possible(p, rounds)
      ensures |RetryFrom(p, maxElapsed, rounds, 0).sleeps| * FirstDelay(p) <= 2 * maxElapsed
    {
      SleepsBelowAttempts(p, maxElapsed, rounds, 0);
      assert p.maxAttempts == 1 ==> |RetryFrom(p, maxElapsed, rounds, 0).sleeps| == 0;
    }
  }

  // ------------------------------------------------------------- no bound at all

  /** Some number bounds the sleeps started within a limit. */
  ghost predicate Bounded(p: Policy, maxElapsed: int) {
    exists bound: nat :: BoundedBy(p, maxElapsed, bound)
  }

  ghost predicate BoundedBy(p: Policy, maxElapsed: int, bound: nat) {
    forall rounds | Possible(p, rounds) :: |RetryFrom(p, maxElapsed, rounds, 0).sleeps| <= bound
  }

  /** A first delay of one nanosecond, halved by jitter, that never grows and is tried
      without end. */
  predicate Stalls(p: Policy) {
    FirstDelay(p) == 1 && p.jitter && p.maxAttempts <= 0 && (p.max == 1 || Growth(p) == 1.0)
  }

  lemma {:induction false} PowOne(n: nat)
    ensures Pow(1.0, n) == 1.0
  {
    if n > 0 {
      PowOne(n - 1);
    }
  }

  lemma StallsAtOne(p: Policy, attempt: int)
    requires Stalls(p) && attempt >= 1
    ensures Base(p, attempt) == 1.0 && NextDelay(p, attempt, 0.0) == Some(0)
  {
    BaseIsFirst(p);
    BaseAtLeastFirst(p, attempt);
    if p.max == 1 {
      BaseGrows(p, attempt);
    } else {
      PowOne(attempt - 1);
      assert Uncapped(p, attempt) == p.initial as real;
    }
    HalfDelay(p, attempt);
    assert (1.0 / 2.0).Floor == 0;
  }

  const STALLED := Round(Failure(0), false, 0, 0.0, false)

  /** Every round then starts another sleep, of nothing. */
  lemma {:induction false} StallsForever(p: Policy, maxElapsed: int, rounds: seq<Round>, n: nat)
    requires Stalls(p) && maxElapsed > 0
    requires n <= |rounds| && forall i | 0 <= i < |rounds| :: rounds[i] == STALLED
    ensures |RetryFrom(p, maxElapsed, rounds, n).sleeps| == |rounds| - n
    decreases |rounds| - n
  {
    if n < |rounds| {
      StallsAtOne(p, n + 1);
      StallsForever(p, maxElapsed, rounds, n + 1);
    }
  }

  lemma StalledIsPossible(p: Policy, rounds: seq<Round>)
    requires Stalls(p) && forall i | 0 <= i < |rounds| :: rounds[i] == STALLED
    ensures Possible(p, rounds)
  {
    forall i: nat | i < |rounds| - 1
      ensures Slept(p, rounds, i)
    {
      StallsAtOne(p, i + 1);
    }
  }

  lemma Unbounded(p: Policy, maxElapsed: int, bound: nat)
    requires Stalls(p) && maxElapsed > 0
    ensures !BoundedBy(p, maxElapsed, bound)
  {
    var rounds := seq(bound + 1, i => STALLED);
    StalledIsPossible(p, rounds);
    StallsForever(p, maxElapsed, rounds, 0);
  }

  /** Powers outgrow their linear part. */
  lemma {:induction false} PowOutgrows(m: real, n: nat)
    requires m >= 1.0
    ensures Pow(m, n) >= 1.0 + n as real * (m - 1.0)
  {
    if n > 0 {
      var before := Pow(m, n - 1);
      PowOutgrows(m, n - 1);
      PowGrows(m, n - 1);
      RealProduct(m - 1.0, before - 1.0);
      OneMoreFactor(m, before, n);
    }
  }

  lemma OneMoreFactor(m: real, before: real, n: nat)
    requires n > 0 && before >= 1.0 + (n - 1) as real * (m - 1.0) && (m - 1.0) * (before - 1.0) >= 0.0
    ensures m * before >= 1.0 + n as real * (m - 1.0)
  {
    var e := m - 1.0;
    assert m * before == before + e * before;
    assert e * (before - 1.0) == e * before - e;
    assert n as real * e == (n - 1) as real * e + e;
  }

  /** From some attempt on a delay that grows at all is at least two. */
  lemma ReachesTwo(m: real) returns (n: nat)
    requires m > 1.0
    ensures Pow(m, n) >= 2.0
  {
    var e := m - 1.0;
    var q := 1.0 / e;
    n := q.Floor + 1;
    PowOutgrows(m, n);
    assert q * e == 1.0;
    RealProduct(n as real - q, e);
    assert (n as real - q) * e == n as real * e - q * e;
  }

  lemma {:induction false} StaysAboveTwo(p: Policy, n: nat, attempt: int)
    requires FirstDelay(p) == 1 && p.max != 1 && Pow(Growth(p), n) >= 2.0 && attempt > n
    ensures Base(p, attempt) >= 2.0
    decreases attempt
  {
    if attempt == n + 1 {
      assert p.initial == 1;
      assert Uncapped(p, attempt) == Pow(Growth(p), n);
    } else {
      StaysAboveTwo(p, n, attempt - 1);
      BaseGrows(p, attempt - 1);
    }
  }

  /** All but the first `n` sleeps last a nanosecond or more. */
  lemma LaterDelay(p: Policy, n: nat, attempt: nat, r: real)
    requires FirstDelay(p) == 1 && p.max != 1 && Pow(Growth(p), n) >= 2.0
    requires attempt > 0 && 0.0 <= r < 1.0 && NextDelay(p, attempt, r).Some?
    ensures NextDelay(p, attempt, r).value >= if attempt <= n then 0 else 1
  {
    DelayAtLeast(p, attempt, r);
    if attempt > n {
      StaysAboveTwo(p, n, attempt);
      DelayRange(p, attempt, r);
      TruncateMono(1.0, Base(p, attempt) / 2.0);
    }
  }

  lemma LaterSleepsLast(p: Policy, maxElapsed: int, rounds: seq<Round>, n: nat)
    requires FirstDelay(p) == 1 && p.max != 1 && Pow(Growth(p), n) >= 2.0
    requires maxElapsed > 0 && Possible(p, rounds)
    ensures |RetryFrom(p, maxElapsed, rounds, 0).sleeps| <= n + maxElapsed
  {
    var sleeps := RetryFrom(p, maxElapsed, rounds, 0).sleeps;
    if |sleeps| > n {
      SleepPlanned(p, maxElapsed, rounds, 0, 0);
      SleepsFit(p, maxElapsed, rounds, 0);
      forall i: nat | i < |sleeps|
        ensures sleeps[i] >= if i < n then 0 else 1
      {
        SleepPlanned(p, maxElapsed, rounds, 0, i);
        LaterDelay(p, n, i + 1, rounds[i].r);
      }
      SumAfter(sleeps, n);
    }
  }

  lemma {:induction false} SumAfter(s: seq<int>, n: nat)
    requires n <= |s| && forall i | 0 <= i < |s| :: s[i] >= if i < n then 0 else 1
    ensures Sum(s) >= |s| - n
  {
    if n > 0 {
      assert forall i | 0 <= i < |s| - 1 :: s[1..][i] == s[i + 1];
      SumAfter(s[1..], n - 1);
    } else {
      SumAtLeast(s, 1);
    }
  }

  lemma FewAttemptsBound(p: Policy, maxElapsed: int)
    requires p.maxAttempts > 0
    ensures Bounded(p, maxElapsed)
  {
    forall rounds | Possible(p, rounds)
      ensures |RetryFrom(p, maxElapsed, rounds, 0).sleeps| <= p.maxAttempts
    {
      SleepsBelowAttempts(p, maxElapsed, rounds, 0);
    }
    assert BoundedBy(p, maxElapsed, p.maxAttempts);
  }

  lemma LeastDelayBounds(p: Policy, maxElapsed: int)
    requires maxElapsed > 0 && FirstDelay(p) > 0 && LeastDelay(p) >= 1
    ensures Bounded(p, maxElapsed)
  {
    forall rounds | Possible(p, rounds)
      ensures |RetryFrom(p, maxElapsed, rounds, 0).sleeps| <= maxElapsed
    {
      SleepsBounded(p, maxElapsed, rounds);
      MulMono(1, LeastDelay(p), |RetryFrom(p, maxElapsed, rounds, 0).sleeps|);
    }
    assert BoundedBy(p, maxElapsed, maxElapsed);
  }

  lemma GrowthBounds(p: Policy, maxElapsed: int)
    requires maxElapsed > 0 && FirstDelay(p) == 1 && p.max != 1 && Growth(p) > 1.0
    ensures Bounded(p, maxElapsed)
  {
    var n := ReachesTwo(Growth(p));
    forall rounds | Possible(p, rounds)
      ensures |RetryFrom(p, maxElapsed, rounds, 0).sleeps| <= n + maxElapsed
    {
      LaterSleepsLast(p, maxElapsed, rounds, n);
    }
    assert BoundedBy(p, maxElapsed, n + maxElapsed);
  }

  /** Exactly when no number bounds the sleeps started within the limit: jitter
      truncates a delay of one nanosecond to nothing, and neither growth nor the
      number of attempts ever helps. */
  lemma BoundedExactly(p: Policy, maxElapsed: int)
    requires FirstDelay(p) > 0 && maxElapsed > 0
    ensures Bounded(p, maxElapsed) <==>
            !(FirstDelay(p) == 1 && p.jitter && p.maxAttempts <= 0 && (p.max == 1 || Growth(p) == 1.0))
  {
    if p.maxAttempts > 0 {
      FewAttemptsBound(p, maxElapsed);
    } else if !p.jitter || FirstDelay(p) >= 2 {
      LeastDelayBounds(p, maxElapsed);
    } else if p.max != 1 && Growth(p) > 1.0 {
      GrowthBounds(p, maxElapsed);
    } else {
      forall bound: nat
        ensures !BoundedBy(p, maxElapsed, bound)
      {
        Unbounded(p, maxElapsed, bound);
      }
    }
  }
}
