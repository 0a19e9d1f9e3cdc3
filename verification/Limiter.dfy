/** The token bucket that paces blocking queries, and what it guarantees about
    any window of time. Times are whole nanoseconds; tokens are a real number. */
module Limiter {
  import opened Arithmetic
  import opened Outcomes

  function Max(a: int, b: int): int {
    if a < b then b else a
  }

  // ------------------------------------------------------- virtual scheduling

  /** The instant at which the bucket is, was or will be empty. */
  datatype Virtual = Unused | EmptyAt(v: int)

  /** A grant moves the empty instant forward by one interval, from no earlier
      than a full bucket ago. */
  function Schedule(interval: int, burst: int, s: Virtual, now: int): (s': Virtual)
    ensures s'.EmptyAt?
  {
    var full := now - burst * interval;
    EmptyAt((if s.Unused? then full else Max(s.v, full)) + interval)
  }

  /** When the call arriving at `now` may proceed. */
  function GrantTime(interval: int, burst: int, s: Virtual, now: int): (grant: int)
    ensures grant >= now
  {
    Max(now, Schedule(interval, burst, s, now).v)
  }

  // --------------------------------------------------------------- the bucket

  /** The bucket holds what has accumulated since the empty instant. */
  ghost predicate Represents(interval: int, burst: int, tokens: real, last: Option<int>, s: Virtual) {
    if s.Unused? then last.None? && tokens == burst as real
    else last.Some? && tokens * interval as real == (last.value - s.v) as real
  }

  lemma RealQuotient(x: real, y: real)
    requires y > 0.0
    ensures x / y * y == x
  {
  }

  lemma Times(x: real, y: real, z: real)
    ensures (x + y) * z == x * z + y * z
    ensures (x - y) * z == x * z - y * z
    ensures z > 0.0 ==> (x <= y <==> x * z <= y * z)
  {
    if z > 0.0 {
      assert x <= y ==> (y - x) * z >= 0.0;
      assert x > y ==> (x - y) * z > 0.0;
    }
  }

  /** The level, counted in nanoseconds of accumulation, is the time since the
      empty instant, up to a full bucket. */
  lemma LevelSinceEmpty(interval: int, burst: int, tokens: real, last: Option<int>, s: Virtual, now: int)
    requires interval > 0 && Represents(interval, burst, tokens, last, s)
    ensures Filled(interval, burst, tokens, last, now) * interval as real ==
            (now - (Schedule(interval, burst, s, now).v - interval)) as real
  {
    var i := interval as real;
    assert burst as real * i == (burst * interval) as real;
    if last.Some? {
      var elapsed := (now - last.value) as real;
      RealQuotient(elapsed, i);
      Times(tokens, elapsed / i, i);
      Times(burst as real, tokens + elapsed / i, i);
    }
  }

  /** Spending a token, or waiting for the rest of one, in whole nanoseconds. */
  lemma WholeNanoseconds(interval: int, filled: real, level: int)
    requires interval > 0 && filled * interval as real == level as real
    ensures filled >= 1.0 <==> level >= interval
    ensures (filled - 1.0) * interval as real == (level - interval) as real
    ensures (1.0 - filled) * interval as real == (interval - level) as real
  {
    Times(filled, 1.0, interval as real);
    Times(1.0, filled, interval as real);
  }

  /** The level of the bucket at `now`. */
  function Filled(interval: int, burst: int, tokens: real, last: Option<int>, now: int): real
    requires interval > 0
  {
    match last
    case None => tokens
    case Some(at) =>
      var level := tokens + (now - at) as real / interval as real;
      if burst as real <= level then burst as real else level
  }

  /** How long to wait for the rest of a token, truncated to whole nanoseconds. */
  function Rest(interval: int, filled: real): int {
    ((1.0 - filled) * interval as real).Floor
  }

  /** The tokens, the time and the grant that one reservation leaves. */
  datatype Reserved = Reserved(tokens: real, last: int, grant: int)

  function Reserve(interval: int, burst: int, tokens: real, last: Option<int>, now: int): Reserved
    requires interval > 0
  {
    var filled := Filled(interval, burst, tokens, last, now);
    if filled >= 1.0 then Reserved(filled - 1.0, now, now)
    else
      var wait := Rest(interval, filled);
      Reserved(0.0, now + wait, now + wait)
  }

  /** What one reservation does to the empty instant, in exact arithmetic: the
      wait it computes is a whole number, so truncating it loses nothing. */
  lemma ReserveIsSchedule(interval: int, burst: int, tokens: real, last: Option<int>, s: Virtual, now: int)
    requires interval > 0 && Represents(interval, burst, tokens, last, s)
    ensures var r := Reserve(interval, burst, tokens, last, now);
            && Represents(interval, burst, r.tokens, Some(r.last), Schedule(interval, burst, s, now))
            && r.grant == GrantTime(interval, burst, s, now) >= now
  {
    var filled := Filled(interval, burst, tokens, last, now);
    var level := now - (Schedule(interval, burst, s, now).v - interval);
    LevelSinceEmpty(interval, burst, tokens, last, s, now);
    WholeNanoseconds(interval, filled, level);
    if filled < 1.0 {
      assert Rest(interval, filled) == interval - level;
      assert 0.0 * interval as real == 0.0;
    }
  }

  class Bucket {
    const interval: int
    const burst: int
    var tokens: real
    var last: Option<int>
    ghost var Empty: Virtual

    ghost predicate Valid()
      reads this
    {
      interval > 0 ==> Represents(interval, burst, tokens, last, Empty)
    }

    constructor (interval: int, burst: int)
      ensures Valid() && this.interval == interval && this.burst == burst && Empty == Unused
    {
      this.interval, this.burst := interval, burst;
      tokens, last := burst as real, None;
      Empty := Unused;
    }

    /** Reserves the next request; the caller may proceed at `grant`. */
    method Wait(now: int) returns (grant: int)
      requires Valid()
      modifies this
      ensures Valid()
      ensures interval <= 0 ==> grant == now && Empty == old(Empty)
      ensures interval > 0 ==>
                && grant == GrantTime(interval, burst, old(Empty), now)
                && Empty == Schedule(interval, burst, old(Empty), now)
    {
      if interval <= 0 {
        return now;
      }
      ReserveIsSchedule(interval, burst, tokens, last, Empty, now);
      ghost var reserved := Reserve(interval, burst, tokens, last, now);
      Empty := Schedule(interval, burst, Empty, now);
      tokens := Filled(interval, burst, tokens, last, now);
      last := Some(now);
      var wait := 0;
      if tokens >= 1.0 {
        tokens := tokens - 1.0;
      } else {
        wait := Rest(interval, tokens);
        tokens := 0.0;
        last := Some(now + wait);
      }
      assert Reserved(tokens, last.value, now + wait) == reserved;
      return now + wait;
    }
  }

  // -------------------------------------------------------------- any window

  /** The empty instant after the first `n` of the calls. */
  function StateAfter(interval: int, burst: int, nows: seq<int>, n: nat): (s: Virtual)
    requires n <= |nows|
    ensures s.Unused? <==> n == 0
  {
    if n == 0 then Unused else Schedule(interval, burst, StateAfter(interval, burst, nows, n - 1), nows[n - 1])
  }

  /** When each of the calls, made in this order on a new bucket, may proceed. */
  function Grants(interval: int, burst: int, nows: seq<int>): (grants: seq<int>)
    ensures |grants| == |nows|
  {
    seq(|nows|, k requires 0 <= k < |nows| => GrantTime(interval, burst, StateAfter(interval, burst, nows, k), nows[k]))
  }

  /** How many of the first `n` instants lie in a window. */
  function CountIn(times: seq<int>, from: int, to: int, n: nat): nat
    requires n <= |times|
  {
    if n == 0 then 0
    else CountIn(times, from, to, n - 1) + if from <= times[n - 1] <= to then 1 else 0
  }

  /** Instant `j` comes late enough after instant `i`. */
  predicate Spaced(interval: int, slack: int, times: seq<int>, i: int, j: int)
    requires 0 <= i < j < |times|
  {
    (j - i) * interval <= times[j] - times[i] + slack
  }

  /** The instants in a window lie between the first and the last of them. */
  lemma {:induction false} Span(times: seq<int>, from: int, to: int, n: nat) returns (i: nat, j: nat)
    requires n <= |times| && CountIn(times, from, to, n) > 0
    ensures i <= j < n && from <= times[i] <= to && from <= times[j] <= to
    ensures CountIn(times, from, to, n) <= j - i + 1
  {
    if CountIn(times, from, to, n - 1) > 0 {
      i, j := Span(times, from, to, n - 1);
      if from <= times[n - 1] <= to {
        j := n - 1;
      }
    } else {
      i, j := n - 1, n - 1;
    }
  }

  /** A bound on how fast instants follow each other bounds every window. */
  lemma SpacingBoundsWindow(interval: int, slack: int, times: seq<int>, from: int, width: nat)
    requires interval > 0 && slack >= 0
    requires forall i, j | 0 <= i < j < |times| :: Spaced(interval, slack, times, i, j)
    ensures CountIn(times, from, from + width, |times|) * interval <= width + slack + interval
  {
    var count := CountIn(times, from, from + width, |times|);
    if count > 0 {
      var i, j := Span(times, from, from + width, |times|);
      MulMono(count, j - i + 1, interval);
      assert (j - i + 1) * interval == (j - i) * interval + interval;
      if i < j {
        assert Spaced(interval, slack, times, i, j);
      }
    }
  }

  /** The empty instant moves by an interval at every grant. */
  lemma {:induction false} Advances(interval: int, burst: int, nows: seq<int>, i: nat, j: nat)
    requires interval > 0 && i <= j < |nows|
    ensures StateAfter(interval, burst, nows, j + 1).v >=
            StateAfter(interval, burst, nows, i + 1).v + (j - i) * interval
    decreases j
  {
    if i < j {
      Advances(interval, burst, nows, i, j - 1);
      assert (j - i) * interval == (j - 1 - i) * interval + interval;
    } else {
      assert (j - i) * interval == 0;
    }
  }

  /** It is never further behind a grant than a full bucket less one. */
  lemma CloseBehind(interval: int, burst: int, nows: seq<int>, i: nat, latest: int)
    requires interval > 0 && i < |nows| && latest <= nows[i]
    ensures StateAfter(interval, burst, nows, i + 1).v >= latest - (Max(burst, 1) - 1) * interval
    ensures StateAfter(interval, burst, nows, i + 1).v >=
            Grants(interval, burst, nows)[i] - (Max(burst, 1) - 1) * interval
  {
    assert (burst - 1) * interval == burst * interval - interval;
    if burst < 1 {
      assert (burst - 1) * interval <= 0;
      assert (Max(burst, 1) - 1) * interval == 0;
    } else {
      assert (burst - 1) * interval >= 0;
    }
  }

  lemma GrantSpacing(interval: int, burst: int, nows: seq<int>, i: nat, j: nat)
    requires interval > 0 && i < j < |nows|
    ensures (j - i) * interval <=
            Grants(interval, burst, nows)[j] - Grants(interval, burst, nows)[i] + (Max(burst, 1) - 1) * interval
  {
    Advances(interval, burst, nows, i, j);
    CloseBehind(interval, burst, nows, i, nows[i]);
  }

  /** Any window of length `width` holds at most burst + width / interval grants,
      whatever the order of the callers' clocks; a burst below one counts as one,
      for there is always a first grant. */
  lemma GrantsInWindow(interval: int, burst: int, nows: seq<int>, from: int, width: nat)
    requires interval > 0
    ensures CountIn(Grants(interval, burst, nows), from, from + width, |nows|) * interval <=
            Max(burst, 1) * interval + width
  {
    var grants, b := Grants(interval, burst, nows), Max(burst, 1);
    var slack := (b - 1) * interval;
    forall i, j | 0 <= i < j < |grants|
      ensures Spaced(interval, slack, grants, i, j)
    {
      GrantSpacing(interval, burst, nows, i, j);
    }
    MulMono(0, b - 1, interval);
    MulSucc(b - 1, interval);
    SpacingBoundsWindow(interval, slack, grants, from, width);
  }

  // ------------------------------------------------------- no later than it must

  /** When call `k` may proceed if the bucket was full at call `i`: the calls from `i`
      on take one interval each, but for a bucket of them. */
  function NotBefore(interval: int, burst: int, nows: seq<int>, i: nat, k: nat): int
    requires i <= k < |nows|
  {
    nows[i] + (k - i + 1 - burst) * interval
  }

  lemma OneCallMore(interval: int, burst: int, nows: seq<int>, i: nat, k: nat)
    requires i <= k < |nows|
    ensures i < k ==> NotBefore(interval, burst, nows, i, k) == NotBefore(interval, burst, nows, i, k - 1) + interval
    ensures NotBefore(interval, burst, nows, k, k) == nows[k] - burst * interval + interval
  {
    assert (k - i + 1 - burst) * interval == (k - i - burst) * interval + interval;
    assert (1 - burst) * interval == interval - burst * interval;
  }

  lemma {:induction false} EmptyInstantIsLatest(interval: int, burst: int, nows: seq<int>, k: nat) returns (i: nat)
    requires k < |nows|
    ensures i <= k && StateAfter(interval, burst, nows, k + 1).v == NotBefore(interval, burst, nows, i, k)
    ensures forall j | 0 <= j <= k :: NotBefore(interval, burst, nows, j, k) <= NotBefore(interval, burst, nows, i, k)
  {
    i := k;
    OneCallMore(interval, burst, nows, k, k);
    if k > 0 {
      var before := EmptyInstantIsLatest(interval, burst, nows, k - 1);
      forall j: nat | j < k {
        OneCallMore(interval, burst, nows, j, k);
      }
      if NotBefore(interval, burst, nows, k, k) < NotBefore(interval, burst, nows, before, k) {
        i := before;
      }
    }
  }

  /** Each call proceeds at the earliest instant that the calls before it allow: when it
      arrives, or when the bucket has refilled since one of them found it full. */
  lemma GrantIsEarliest(interval: int, burst: int, nows: seq<int>, k: nat)
    requires interval > 0 && k < |nows|
    ensures var grant := Grants(interval, burst, nows)[k];
            && grant >= nows[k]
            && (forall i | 0 <= i <= k :: grant >= nows[i] + (k - i + 1 - burst) * interval)
            && (grant == nows[k] || exists i :: 0 <= i <= k && grant == nows[i] + (k - i + 1 - burst) * interval)
  {
    var latest := EmptyInstantIsLatest(interval, burst, nows, k);
    var grant := Grants(interval, burst, nows)[k];
    forall i | 0 <= i <= k
      ensures grant >= nows[i] + (k - i + 1 - burst) * interval
    {
      assert NotBefore(interval, burst, nows, i, k) <= NotBefore(interval, burst, nows, latest, k);
    }
  }

  // ------------------------------------------------------------- a watch loop

  const WATCH_BURST := 2

  /** Request `k` is sent once it is allowed, and asked for after the one before
      was sent. */
  predicate InTurn(interval: int, nows: seq<int>, sends: seq<int>, k: nat)
    requires k < |nows| == |sends|
  {
    && sends[k] >= Grants(interval, WATCH_BURST, nows)[k]
    && (k > 0 ==> nows[k] >= sends[k - 1])
  }

  /** A loop that waits for its limiter, sends a request once it is allowed to,
      and waits again only after that. */
  ghost predicate WatchLoop(interval: int, nows: seq<int>, sends: seq<int>) {
    |sends| == |nows| && forall k | 0 <= k < |nows| :: InTurn(interval, nows, sends, k)
  }

  /** No request is sent later than `late` after it is allowed. */
  ghost predicate Prompt(interval: int, nows: seq<int>, sends: seq<int>, late: nat)
    requires |sends| == |nows|
  {
    forall k | 0 <= k < |nows| :: sends[k] <= Grants(interval, WATCH_BURST, nows)[k] + late
  }

  lemma PromptSpacing(interval: int, nows: seq<int>, sends: seq<int>, i: nat, j: nat, late: nat)
    requires interval > 0 && WatchLoop(interval, nows, sends) && i < j < |nows|
    requires Prompt(interval, nows, sends, late)
    ensures (j - i) * interval <= sends[j] - sends[i] + interval + late
  {
    GrantSpacing(interval, WATCH_BURST, nows, i, j);
    assert InTurn(interval, nows, sends, j);
    assert (Max(WATCH_BURST, 1) - 1) * interval == interval;
  }

  lemma WatchCloseBehind(interval: int, nows: seq<int>, i: nat, latest: int)
    requires interval > 0 && i < |nows| && latest <= nows[i]
    ensures StateAfter(interval, WATCH_BURST, nows, i + 1).v >= latest - interval
  {
    CloseBehind(interval, WATCH_BURST, nows, i, latest);
    assert (Max(WATCH_BURST, 1) - 1) * interval == interval;
  }

  lemma SendAt(interval: int, nows: seq<int>, sends: seq<int>, k: nat)
    requires WatchLoop(interval, nows, sends) && k < |nows|
    ensures sends[k] >= StateAfter(interval, WATCH_BURST, nows, k + 1).v
    ensures k > 0 ==> nows[k] >= sends[k - 1]
  {
    assert InTurn(interval, nows, sends, k);
  }

  lemma Chained(n: int, interval: int, sentI: int, sentJ: int, emptyI: int, emptyJ: int)
    requires emptyJ >= emptyI + (n - 1) * interval && emptyI >= sentI - interval && sentJ >= emptyJ
    ensures n * interval <= sentJ - sentI + 2 * interval
  {
    MulSucc(n - 1, interval);
  }

  lemma AnySpacing(interval: int, nows: seq<int>, sends: seq<int>, i: nat, j: nat)
    requires interval > 0 && WatchLoop(interval, nows, sends) && i < j < |nows|
    ensures (j - i) * interval <= sends[j] - sends[i] + 2 * interval
  {
    SendAt(interval, nows, sends, i + 1);
    SendAt(interval, nows, sends, j);
    var emptyI := StateAfter(interval, WATCH_BURST, nows, i + 2).v;
    var emptyJ := StateAfter(interval, WATCH_BURST, nows, j + 1).v;
    assert emptyJ >= emptyI + (j - i - 1) * interval by {
      Advances(interval, WATCH_BURST, nows, i + 1, j);
    }
    assert emptyI >= sends[i] - interval by {
      WatchCloseBehind(interval, nows, i + 1, sends[i]);
    }
    Chained(j - i, interval, sends[i], sends[j], emptyI, emptyJ);
  }

  /** A watch loop that sends each request no later than `late` after it is
      allowed to sends at most 2 + (width + late) / interval requests in any
      window; and never more than 3 + width / interval, however late it is. */
  lemma RequestsInWindow(interval: int, nows: seq<int>, sends: seq<int>, from: int, width: nat, late: nat)
    requires interval > 0 && WatchLoop(interval, nows, sends)
    requires late >= interval || Prompt(interval, nows, sends, late)
    ensures CountIn(sends, from, from + width, |sends|) * interval <= 2 * interval + width + late
  {
    var slack := interval + late;
    forall i, j | 0 <= i < j < |sends|
      ensures Spaced(interval, slack, sends, i, j)
    {
      if late < interval {
        PromptSpacing(interval, nows, sends, i, j, late);
      } else {
        AnySpacing(interval, nows, sends, i, j);
      }
    }
    SpacingBoundsWindow(interval, slack, sends, from, width);
  }

  /** The plain bound on one window: at most 2 + width / interval requests. */
  predicate PlainIn(interval: int, sends: seq<int>, from: int, width: nat) {
    CountIn(sends, from, from + width, |sends|) * interval <= 2 * interval + width
  }

  /** It holds in every window, for every watch loop that is never later than
      `late`. */
  ghost predicate PlainBound(interval: int, late: nat) {
    forall nows, sends, from, width: nat | WatchLoop(interval, nows, sends) && Prompt(interval, nows, sends, late) ::
      PlainIn(interval, sends, from, width)
  }

  /** That is so exactly when requests are sent the moment they are allowed: any
      lateness lets three requests fall closer together. */
  lemma PlainBoundExactly(interval: int, late: nat)
    requires interval > 0
    ensures PlainBound(interval, late) <==> late == 0
  {
    if late == 0 {
      forall nows, sends, from, width: nat | WatchLoop(interval, nows, sends) && Prompt(interval, nows, sends, late)
        ensures PlainIn(interval, sends, from, width)
      {
        RequestsInWindow(interval, nows, sends, from, width, 0);
      }
    } else {
      var d := if late < interval then late else interval;
      LateRequestsBunch(interval, late, d);
      assert !PlainIn(interval, [d, d, interval], d, interval - d);
    }
  }

  lemma FirstThree(interval: int, d: nat)
    requires 0 < d <= interval
    ensures Grants(interval, WATCH_BURST, [0, d, d]) == [0, d, interval]
  {
    var nows := [0, d, d];
    assert WATCH_BURST * interval == 2 * interval;
    assert StateAfter(interval, WATCH_BURST, nows, 1) == EmptyAt(-interval);
    assert StateAfter(interval, WATCH_BURST, nows, 2) == EmptyAt(0);
    assert StateAfter(interval, WATCH_BURST, nows, 3) == EmptyAt(interval);
  }

  /** The first request is sent `d` late and the second with it; the third one falls
      in the same window of less than an interval. */
  lemma LateRequestsBunch(interval: int, late: nat, d: nat)
    requires 0 < d <= interval && d <= late
    ensures WatchLoop(interval, [0, d, d], [d, d, interval])
    ensures Prompt(interval, [0, d, d], [d, d, interval], late)
    ensures !PlainIn(interval, [d, d, interval], d, interval - d)
  {
    var sends := [d, d, interval];
    FirstThree(interval, d);
    assert CountIn(sends, d, interval, 1) == 1;
    assert CountIn(sends, d, interval, 2) == 2;
    assert CountIn(sends, d, interval, 3) == 3;
  }
}
