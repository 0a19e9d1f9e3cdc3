/** The built-in pickers: round robin, random and weighted. A random number below
    `n` is `draw(n)`. */
module Pickers {
  import opened Arithmetic
  import opened Instances

  type List = seq<Instance>

  datatype Strategy = RoundRobin | Random | Weighted

  ghost predicate Fair(draw: nat -> nat) {
    forall n: nat | n > 0 :: draw(n) < n
  }

  // ----------------------------------------------------------------- round robin

  /** Index chosen by pick number `n` from a list of `size`. */
  function Turn(n: nat, size: nat): (i: nat)
    requires size > 0
    ensures i < size
  {
    n % size
  }

  /** How many of the `m` picks from number `start` on choose index `i`. */
  function TurnsOf(size: nat, start: nat, m: nat, i: nat): nat
    requires size > 0
  {
    if m == 0 then 0
    else TurnsOf(size, start, m - 1, i) + if Turn(start + m - 1, size) == i then 1 else 0
  }

  /** How many numbers below `n` leave the remainder `i`. */
  function Below(size: nat, n: nat, i: nat): nat
    requires i < size
  {
    (n + (size - 1 - i)) / size
  }

  lemma DivideStep(x: nat, size: nat)
    requires size > 0
    ensures (x + 1) / size == x / size + if (x + 1) % size == 0 then 1 else 0
  {
    var q, r := x / size, x % size;
    Divided(x, size);
    if r + 1 == size {
      MulSucc(q, size);
      Quotient(x + 1, q + 1, 0, size);
    } else {
      Quotient(x + 1, q, r + 1, size);
    }
  }

  lemma RemainderShift(n: nat, i: nat, size: nat)
    requires i < size
    ensures (n + size - i) % size == 0 <==> n % size == i
  {
    var q, r := n / size, n % size;
    Divided(n, size);
    if r >= i {
      MulSucc(q, size);
      Quotient(n + size - i, q + 1, r - i, size);
    } else {
      Quotient(n + size - i, q, r + size - i, size);
    }
  }

  lemma BelowStep(size: nat, n: nat, i: nat)
    requires i < size
    ensures Below(size, n + 1, i) == Below(size, n, i) + if n % size == i then 1 else 0
  {
    DivideStep(n + (size - 1 - i), size);
    RemainderShift(n, i, size);
  }

  lemma {:induction false} TurnsAreBelow(size: nat, start: nat, m: nat, i: nat)
    requires i < size
    ensures TurnsOf(size, start, m, i) == Below(size, start + m, i) - Below(size, start, i)
  {
    if m > 0 {
      TurnsAreBelow(size, start, m - 1, i);
      BelowStep(size, start + m - 1, i);
    }
  }

  lemma DivideSum(x: nat, m: nat, size: nat)
    requires size > 0
    ensures x / size + m / size <= (x + m) / size
    ensures (x + m) / size <= x / size + m / size + if m % size == 0 then 0 else 1
  {
    var q, r, p, s := x / size, x % size, m / size, m % size;
    Divided(x, size);
    Divided(m, size);
    MulAdd(q, p, size);
    if r + s < size {
      Quotient(x + m, q + p, r + s, size);
    } else {
      MulSucc(q + p, size);
      Quotient(x + m, q + p + 1, r + s - size, size);
    }
  }

  lemma TurnsAreEven(size: nat, start: nat, m: nat, i: nat)
    requires i < size
    ensures m / size <= TurnsOf(size, start, m, i) <= m / size + if m % size == 0 then 0 else 1
  {
    var x := start + (size - 1 - i);
    TurnsAreBelow(size, start, m, i);
    assert Below(size, start, i) == x / size && Below(size, start + m, i) == (x + m) / size;
    DivideSum(x, m, size);
  }

  // -------------------------------------------------------------------- weighted

  /** The weight that counts in the draw: never negative. */
  function Share(i: Instance): nat {
    if Weight(i) < 0 then 0 else Weight(i)
  }

  /** The weight of the first `k` instances. */
  function TotalUpTo(list: List, k: nat): nat
    requires k <= |list|
  {
    if k == 0 then 0 else TotalUpTo(list, k - 1) + Share(list[k - 1])
  }

  function Total(list: List): nat {
    TotalUpTo(list, |list|)
  }

  lemma {:induction false} TotalGrows(list: List, j: nat, k: nat)
    requires j <= k <= |list|
    ensures TotalUpTo(list, j) <= TotalUpTo(list, k)
    decreases k
  {
    if j < k {
      TotalGrows(list, j, k - 1);
    }
  }

  /** The instance on whose share the draw falls, among those from `k` on. */
  function SlotFrom(list: List, k: nat, r: nat): (i: nat)
    requires k <= |list| && TotalUpTo(list, k) <= r < Total(list)
    ensures k <= i < |list| && TotalUpTo(list, i) <= r < TotalUpTo(list, i + 1)
    decreases |list| - k
  {
    if r < TotalUpTo(list, k + 1) then k else SlotFrom(list, k + 1, r)
  }

  function Slot(list: List, r: nat): (i: nat)
    requires r < Total(list)
    ensures i < |list| && TotalUpTo(list, i) <= r < TotalUpTo(list, i + 1)
  {
    SlotFrom(list, 0, r)
  }

  /** A draw falls on one share only. */
  lemma SlotIsUnique(list: List, r: nat, k: nat)
    requires r < Total(list) && k < |list| && TotalUpTo(list, k) <= r < TotalUpTo(list, k + 1)
    ensures Slot(list, r) == k
  {
    var i := Slot(list, r);
    if i < k {
      TotalGrows(list, i + 1, k);
    } else if k < i {
      TotalGrows(list, k + 1, i);
    }
  }

  /** How many of the draws below `n` select instance `k`. */
  function DrawsFor(list: List, n: nat, k: nat): nat
    requires n <= Total(list)
  {
    if n == 0 then 0 else DrawsFor(list, n - 1, k) + if Slot(list, n - 1) == k then 1 else 0
  }

  lemma {:induction false} DrawsInShare(list: List, n: nat, k: nat)
    requires n <= Total(list) && k < |list|
    ensures var lo, hi := TotalUpTo(list, k), TotalUpTo(list, k + 1);
            DrawsFor(list, n, k) == if n <= lo then 0 else if n <= hi then n - lo else hi - lo
  {
    if n > 0 {
      DrawsInShare(list, n - 1, k);
      if TotalUpTo(list, k) <= n - 1 < TotalUpTo(list, k + 1) {
        SlotIsUnique(list, n - 1, k);
      }
    }
  }

  lemma DrawsAreShares(list: List, k: nat)
    requires k < |list|
    ensures DrawsFor(list, Total(list), k) == Share(list[k])
  {
    DrawsInShare(list, Total(list), k);
    TotalGrows(list, k + 1, |list|);
  }

  // --------------------------------------------------------------------- picking

  /** The index a picker selects, and its counter afterwards. */
  function Pick(strategy: Strategy, n: nat, draw: nat -> nat, list: List): (r: (nat, nat))
    requires list != [] && Fair(draw)
    ensures r.0 < |list|
  {
    match strategy
    case RoundRobin => (Turn(n, |list|), n + 1)
    case Random => (draw(|list|), n)
    case Weighted => (if Total(list) == 0 then draw(|list|) else Slot(list, draw(Total(list))), n)
  }

  /** The indexes that `m` picks in a row select, each with the counter left by the one
      before, and the counter they leave. */
  function Picks(strategy: Strategy, n: nat, draw: nat -> nat, list: List, m: nat): (r: (seq<nat>, nat))
    requires list != [] && Fair(draw)
  {
    if m == 0 then ([], n)
    else
      var before := Picks(strategy, n, draw, list, m - 1);
      var last := Pick(strategy, before.1, draw, list);
      (before.0 + [last.0], last.1)
  }

  /** How often `i` occurs. */
  function Occurrences(picks: seq<nat>, i: nat): nat {
    multiset(picks)[i]
  }

  lemma OneMorePick(picks: seq<nat>, last: nat, i: nat)
    ensures Occurrences(picks + [last], i) == Occurrences(picks, i) + if last == i then 1 else 0
  {
  }

  lemma {:induction false} PicksAreTurns(n: nat, draw: nat -> nat, list: List, m: nat, i: nat)
    requires list != [] && Fair(draw)
    ensures Picks(RoundRobin, n, draw, list, m).1 == n + m
    ensures Occurrences(Picks(RoundRobin, n, draw, list, m).0, i) == TurnsOf(|list|, n, m, i)
  {
    if m > 0 {
      var before, size := Picks(RoundRobin, n, draw, list, m - 1), |list|;
      PicksAreTurns(n, draw, list, m - 1, i);
      var last := Turn(n + m - 1, size);
      assert Pick(RoundRobin, n + m - 1, draw, list) == (last, n + m);
      assert Picks(RoundRobin, n, draw, list, m) == (before.0 + [last], n + m);
      OneMorePick(before.0, last, i);
      assert TurnsOf(size, n, m, i) == TurnsOf(size, n, m - 1, i) + if last == i then 1 else 0;
    }
  }

  /** Any `m` round-robin picks in a row from an unchanged list choose each index
      m / size times, rounded down or up. */
  lemma RoundRobinIsEven(n: nat, draw: nat -> nat, list: List, m: nat, i: nat)
    requires Fair(draw) && i < |list|
    ensures var picks := Picks(RoundRobin, n, draw, list, m).0;
            m / |list| <= Occurrences(picks, i) <= m / |list| + if m % |list| == 0 then 0 else 1
  {
    PicksAreTurns(n, draw, list, m, i);
    TurnsAreEven(|list|, n, m, i);
  }

  /** A source that draws `r` when asked for a number below `total`. */
  function Drawing(r: nat, total: nat): (draw: nat -> nat)
    requires r < total
    ensures Fair(draw) && draw(total) == r
  {
    (n: nat) => if n == total then r else 0
  }

  /** How many of the numbers below `n`, drawn out of `total`, select instance `k`. */
  function DrawsSelecting(strategy: Strategy, list: List, total: nat, n: nat, k: nat): nat
    requires list != [] && n <= total
  {
    if n == 0 then 0
    else
      DrawsSelecting(strategy, list, total, n - 1, k) +
      if Pick(strategy, 0, Drawing(n - 1, total), list).0 == k then 1 else 0
  }

  lemma {:induction false} WeightedDraws(list: List, n: nat, k: nat)
    requires list != [] && n <= Total(list)
    ensures DrawsSelecting(Weighted, list, Total(list), n, k) == DrawsFor(list, n, k)
  {
    if n > 0 {
      WeightedDraws(list, n - 1, k);
    }
  }

  /** Of the numbers drawn below the total weight, exactly as many as its weight select
      an instance: the warning weight while it warns, which may be zero or less and then
      excludes it, and otherwise the passing weight, at least one. */
  lemma WeightedIsProportional(list: List, k: nat)
    requires k < |list| && Total(list) > 0
    ensures var i := list[k];
            var weight := if i.status.Warning? then i.weights.warning
                          else if i.weights.passing < 1 then 1 else i.weights.passing;
            DrawsSelecting(Weighted, list, Total(list), Total(list), k) == if weight < 0 then 0 else weight
  {
    WeightedDraws(list, Total(list), k);
    DrawsAreShares(list, k);
  }

  lemma {:induction false} PlainDraws(strategy: Strategy, list: List, n: nat, k: nat)
    requires strategy.Random? || (strategy.Weighted? && Total(list) == 0)
    requires n <= |list| && k < |list|
    ensures DrawsSelecting(strategy, list, |list|, n, k) == if k < n then 1 else 0
  {
    if n > 0 {
      PlainDraws(strategy, list, n - 1, k);
    }
  }

  /** At random, and by weight when no instance has any, each instance is selected by
      one of the numbers drawn below the length of the list. */
  lemma RandomIsUniform(strategy: Strategy, list: List, k: nat)
    requires strategy.Random? || (strategy.Weighted? && Total(list) == 0)
    requires k < |list|
    ensures DrawsSelecting(strategy, list, |list|, |list|, k) == 1
  {
    PlainDraws(strategy, list, |list|, k);
  }

  /** The picker of one service. */
  class Picker {
    const strategy: Strategy
    var n: nat

    constructor (strategy: Strategy)
      ensures this.strategy == strategy && n == 0
    {
      this.strategy, n := strategy, 0;
    }

    method PickIndex(list: List, draw: nat -> nat) returns (i: nat)
      requires list != [] && Fair(draw)
      modifies this
      ensures (i, n) == Pick(strategy, old(n), draw, list)
    {
      match strategy {
        case RoundRobin =>
          n := n + 1;
          i := (n - 1) % |list|;
        case Random =>
          i := draw(|list|);
        case Weighted =>
          i := WeightedIndex(list, draw);
      }
    }
  }

  /** Sums the weights, draws, and walks the list until the draw is used up. The
      walk always ends inside the list: nothing is left for a fallback. */
  method WeightedIndex(list: List, draw: nat -> nat) returns (i: nat)
    requires list != [] && Fair(draw)
    ensures i == if Total(list) == 0 then draw(|list|) else Slot(list, draw(Total(list)))
  {
    var total := 0;
    for k := 0 to |list|
      invariant total == TotalUpTo(list, k)
    {
      total := total + Share(list[k]);
    }
    if total == 0 {
      return draw(|list|);
    }
    var r: int := draw(total);
    ghost var drawn := draw(total);
    for k := 0 to |list|
      invariant r == drawn - TotalUpTo(list, k) && r >= 0
    {
      r := r - Share(list[k]);
      if r < 0 {
        SlotIsUnique(list, drawn, k);
        return k;
      }
    }
    assert false;
  }
}
