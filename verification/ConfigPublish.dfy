/** What the reload loop of a configuration watcher publishes.

    Binding and validating a tree is one partial function, `bind`: None is a
    rejection. What an evaluation reads is a tree, or the reason there is none: a
    folder could not be listed, or a key in it is both a value and a folder. */
module ConfigPublish {
  import opened Outcomes
  import opened ConfigTree
  import opened FolderDecode
  import opened ConfigLoad

  type Read = Result<Tree, LoadError>

  /** How far the loop is with a new value. */
  datatype Phase = Waiting | Stored | Emptied

  /** The loop, its channel of changes (capacity one), the consumer, and the
      history the properties speak about: what every evaluation read, whether it
      reported an error, and every value the consumer received. */
  datatype State<T> = State(current: T, rejected: Option<Tree>, pending: Option<T>, phase: Phase,
                            evals: seq<Read>, reported: seq<bool>, published: seq<T>, received: seq<T>)

  datatype Step =
    | Evaluate(r: Read)
    | TakeBack           // a value the consumer has not taken is withdrawn
    | Send
    | Receive            // the consumer takes the pending value

  predicate Can<T>(s: State<T>, step: Step) {
    match step
    case Evaluate(_) => s.phase.Waiting?
    case TakeBack => s.phase.Stored?
    case Send => s.phase.Emptied?
    case Receive => s.pending.Some?
  }

  /** Without a tree nothing was evaluated: the error is reported, and what was
      rejected before stays remembered. */
  function Evaluated<T(==)>(bind: Tree -> Option<T>, s: State<T>, r: Read): State<T> {
    match r
    case Err(_) => s.(evals := s.evals + [r], reported := s.reported + [true])
    case Ok(t) =>
      var report := bind(t).None? && s.rejected != Some(t);
      var u := s.(evals := s.evals + [r], reported := s.reported + [report]);
      if bind(t).None? then u.(rejected := Some(t))
      else if bind(t).value == s.current then u.(rejected := None)
      else u.(rejected := None, current := bind(t).value, published := s.published + [bind(t).value], phase := Stored)
  }

  function After<T(==)>(bind: Tree -> Option<T>, s: State<T>, step: Step): State<T>
    requires Can(s, step)
  {
    match step
    case Evaluate(r) => Evaluated(bind, s, r)
    case TakeBack => s.(pending := None, phase := Emptied)
    case Send => s.(pending := Some(s.current), phase := Waiting)
    case Receive => s.(pending := None, received := s.received + [s.pending.value])
  }

  /** `Watch` returns once the first tree was accepted. */
  predicate Init<T(==)>(bind: Tree -> Option<T>, s: State<T>) {
    && |s.evals| == 1 && s.evals[0].Ok? && bind(s.evals[0].value) == Some(s.current) && s.reported == [false]
    && s.rejected.None? && s.pending.None? && s.phase.Waiting? && s.published == [] && s.received == []
  }

  predicate Run<T(==)>(bind: Tree -> Option<T>, s: State<T>, steps: seq<Step>, t: State<T>)
    decreases |steps|
  {
    if steps == [] then s == t
    else Can(s, steps[0]) && Run(bind, After(bind, s, steps[0]), steps[1..], t)
  }

  // --------------------------------------------------------------- properties

  /** The first evaluation accepted a tree. */
  predicate Begun<T>(bind: Tree -> Option<T>, evals: seq<Read>) {
    evals != [] && evals[0].Ok? && bind(evals[0].value).Some?
  }

  /** The last tree that was read. */
  function LastTree(evals: seq<Read>): (t: Tree)
    requires evals != [] && evals[0].Ok?
    ensures Ok(t) in evals
  {
    var last := evals[|evals| - 1];
    if last.Ok? then last.value else LastTree(evals[..|evals| - 1])
  }

  /** The last tree accepted; the first always is. */
  function LastAccepted<T(==)>(bind: Tree -> Option<T>, evals: seq<Read>): (t: Tree)
    requires Begun(bind, evals)
    ensures Ok(t) in evals && bind(t).Some?
  {
    var last := evals[|evals| - 1];
    if last.Ok? && bind(last.value).Some? then last.value else LastAccepted(bind, evals[..|evals| - 1])
  }

  /** Evaluation `k` reports: it read no tree, or it rejected one and the last tree
      read before was accepted or is another one. */
  predicate Due<T>(bind: Tree -> Option<T>, evals: seq<Read>, k: nat)
    requires 0 < k < |evals| && evals[0].Ok?
  {
    match evals[k]
    case Err(_) => true
    case Ok(t) =>
      var before := LastTree(evals[..k]);
      bind(t).None? && (bind(before).Some? || before != t)
  }

  /** What was reported is exactly what was due. */
  ghost predicate ReportedExactly<T>(bind: Tree -> Option<T>, evals: seq<Read>, reported: seq<bool>) {
    && |reported| == |evals| && evals != [] && evals[0].Ok?
    && forall k | 0 < k < |evals| :: reported[k] == Due(bind, evals, k)
  }

  /** What is remembered as rejected. */
  function Rejected<T>(bind: Tree -> Option<T>, evals: seq<Read>): Option<Tree>
    requires evals != [] && evals[0].Ok?
  {
    if bind(LastTree(evals)).None? then Some(LastTree(evals)) else None
  }

  /** The consumer has, or is about to get, the newest published value. */
  ghost predicate Delivered<T>(s: State<T>) {
    && (s.pending.Some? ==> s.published != [] && s.pending.value == s.published[|s.published| - 1])
    && (s.pending.None? && s.published != [] ==>
          s.received != [] && s.received[|s.received| - 1] == s.published[|s.published| - 1])
  }

  /** What the evaluations leave. */
  ghost predicate History<T>(bind: Tree -> Option<T>, s: State<T>) {
    && Begun(bind, s.evals)
    && bind(LastAccepted(bind, s.evals)) == Some(s.current)
    && s.rejected == Rejected(bind, s.evals)
    && ReportedExactly(bind, s.evals, s.reported)
  }

  /** What the channel and the consumer hold. */
  ghost predicate Channel<T>(s: State<T>) {
    && (forall v | v in s.received :: v in s.published)
    && (s.published != [] ==> s.published[|s.published| - 1] == s.current)
    && match s.phase
       case Waiting => Delivered(s)
       case Stored =>
         && s.published != []
         && (s.pending.Some? ==> s.pending.value in s.published)
       case Emptied => s.published != [] && s.pending.None?
  }

  ghost predicate Inv<T>(bind: Tree -> Option<T>, s: State<T>) {
    History(bind, s) && Channel(s)
  }

  /** One more evaluation. */
  lemma ReadOne<T>(bind: Tree -> Option<T>, evals: seq<Read>, r: Read)
    requires Begun(bind, evals)
    ensures var more := evals + [r];
            && Begun(bind, more)
            && LastTree(more) == (if r.Ok? then r.value else LastTree(evals))
            && LastAccepted(bind, more) ==
               if r.Ok? && bind(r.value).Some? then r.value else LastAccepted(bind, evals)
  {
    assert (evals + [r])[..|evals|] == evals;
  }

  lemma ReportOne<T>(bind: Tree -> Option<T>, evals: seq<Read>, reported: seq<bool>, r: Read, report: bool)
    requires Begun(bind, evals) && ReportedExactly(bind, evals, reported)
    requires report == match r case Err(_) => true case Ok(t) => bind(t).None? && Rejected(bind, evals) != Some(t)
    ensures ReportedExactly(bind, evals + [r], reported + [report])
  {
    var more := evals + [r];
    forall k | 0 < k < |more|
      ensures (reported + [report])[k] == Due(bind, more, k)
    {
      assert more[..k] == evals[..k];
      if k == |evals| {
        assert evals[..k] == evals;
      } else {
        assert reported[k] == Due(bind, evals, k);
      }
    }
  }

  lemma EvaluatedReads<T>(bind: Tree -> Option<T>, s: State<T>, r: Read)
    ensures Evaluated(bind, s, r).evals == s.evals + [r]
  {
  }

  lemma EvaluateKeeps<T>(bind: Tree -> Option<T>, s: State<T>, r: Read)
    requires Inv(bind, s) && s.phase.Waiting?
    ensures Inv(bind, Evaluated(bind, s, r))
  {
    ReadOne(bind, s.evals, r);
    var report := match r case Err(_) => true case Ok(t) => bind(t).None? && s.rejected != Some(t);
    ReportOne(bind, s.evals, s.reported, r, report);
    assert History(bind, Evaluated(bind, s, r));
  }

  lemma InvStep<T>(bind: Tree -> Option<T>, s: State<T>, step: Step)
    requires Inv(bind, s) && Can(s, step)
    ensures Inv(bind, After(bind, s, step))
  {
    if step.Evaluate? {
      EvaluateKeeps(bind, s, step.r);
    } else {
      assert History(bind, After(bind, s, step));
    }
  }

  lemma {:induction false} InvRun<T>(bind: Tree -> Option<T>, s: State<T>, steps: seq<Step>, t: State<T>)
    requires Inv(bind, s) && Run(bind, s, steps, t)
    ensures Inv(bind, t)
    decreases |steps|
  {
    if steps != [] {
      InvStep(bind, s, steps[0]);
      InvRun(bind, After(bind, s, steps[0]), steps[1..], t);
    }
  }

  lemma InitInv<T>(bind: Tree -> Option<T>, s: State<T>)
    requires Init(bind, s)
    ensures Inv(bind, s)
  {
  }

  /** What the invariant says of a loop that waits. */
  lemma WhileWaiting<T>(bind: Tree -> Option<T>, s: State<T>)
    requires Inv(bind, s) && s.phase.Waiting?
    ensures var last := s.evals[|s.evals| - 1];
            last.Ok? && bind(last.value).Some? ==> bind(last.value) == Some(s.current)
    ensures s.pending.Some? ==> s.pending.value == s.current
    ensures bind(LastAccepted(bind, s.evals)) == Some(s.current)
  {
  }

  /** At all times the current value is that of the last accepted tree, reports are
      made exactly when they are due, and while the loop waits a pending change is
      the current value; a consumer that has nothing pending has already received
      the current value, if it ever changed. */
  lemma CurrentIsAccepted<T>(bind: Tree -> Option<T>, s: State<T>, steps: seq<Step>, t: State<T>)
    requires Init(bind, s) && Run(bind, s, steps, t)
    ensures Begun(bind, t.evals) && bind(LastAccepted(bind, t.evals)) == Some(t.current)
    ensures ReportedExactly(bind, t.evals, t.reported)
    ensures t.phase.Waiting? && t.pending.Some? ==> t.pending.value == t.current
    ensures t.phase.Waiting? && t.pending.None? && t.published != [] ==>
              t.received != [] && t.received[|t.received| - 1] == t.current
    ensures t.phase.Emptied? ==> t.pending.None?
  {
    InitInv(bind, s);
    InvRun(bind, s, steps, t);
  }

  // ------------------------------------------------------- published when changed

  /** The values of the accepted trees, each only where it differs from the one
      accepted before. */
  function Changes<T(==)>(bind: Tree -> Option<T>, evals: seq<Read>): seq<T> {
    if evals == [] then []
    else
      var before := Changes(bind, evals[..|evals| - 1]);
      var value := match evals[|evals| - 1] case Err(_) => None case Ok(t) => bind(t);
      if value.None? || (before != [] && before[|before| - 1] == value.value) then before else before + [value.value]
  }

  lemma {:induction false} ChangesDiffer<T>(bind: Tree -> Option<T>, evals: seq<Read>, k: nat)
    requires 0 < k < |Changes(bind, evals)|
    ensures Changes(bind, evals)[k] != Changes(bind, evals)[k - 1]
    decreases |evals|
  {
    var before := Changes(bind, evals[..|evals| - 1]);
    if k < |before| {
      ChangesDiffer(bind, evals[..|evals| - 1], k);
    }
  }

  ghost predicate PublishedChanges<T>(bind: Tree -> Option<T>, first: T, s: State<T>) {
    [first] + s.published == Changes(bind, s.evals) && s.current == ([first] + s.published)[|s.published|]
  }

  lemma PublishedStep<T>(bind: Tree -> Option<T>, first: T, s: State<T>, step: Step)
    requires PublishedChanges(bind, first, s) && Can(s, step)
    ensures PublishedChanges(bind, first, After(bind, s, step))
  {
    if step.Evaluate? {
      assert (s.evals + [step.r])[..|s.evals|] == s.evals;
    }
  }

  lemma {:induction false} PublishedRun<T>(bind: Tree -> Option<T>, first: T, s: State<T>, steps: seq<Step>,
                                           t: State<T>)
    requires PublishedChanges(bind, first, s) && Run(bind, s, steps, t)
    ensures PublishedChanges(bind, first, t)
    decreases |steps|
  {
    if steps != [] {
      PublishedStep(bind, first, s, steps[0]);
      PublishedRun(bind, first, After(bind, s, steps[0]), steps[1..], t);
    }
  }

  /** An unchanged value is never published: after the first value exactly the values
      that differ from the one accepted before are, in order. */
  lemma PublishedDiffer<T>(bind: Tree -> Option<T>, s: State<T>, steps: seq<Step>, t: State<T>)
    requires Init(bind, s) && Run(bind, s, steps, t)
    ensures [s.current] + t.published == Changes(bind, t.evals)
    ensures t.published != [] ==> t.published[0] != s.current
    ensures forall k | 0 < k < |t.published| :: t.published[k] != t.published[k - 1]
  {
    assert s.evals[..0] == [];
    PublishedRun(bind, s.current, s, steps, t);
    var all := Changes(bind, t.evals);
    assert forall k | 0 < k < |all| :: all[k] == t.published[k - 1];
    forall k | 0 < k < |all|
      ensures all[k] != all[k - 1]
    {
      ChangesDiffer(bind, t.evals, k);
    }
    forall k | 0 < k < |t.published|
      ensures t.published[k] != t.published[k - 1]
    {
      assert all[k + 1] != all[k];
    }
    assert t.published != [] ==> all[1] != all[0];
  }

  // --------------------------------------------------------- received in order

  /** `a` is what is left of `b` when some of its values are dropped. */
  predicate InOrder<T(==)>(a: seq<T>, b: seq<T>)
    decreases |b|
  {
    a == [] ||
    (b != [] &&
     ((a[|a| - 1] == b[|b| - 1] && InOrder(a[..|a| - 1], b[..|b| - 1])) || InOrder(a, b[..|b| - 1])))
  }

  lemma OneMore<T>(a: seq<T>, b: seq<T>, v: T)
    requires InOrder(a, b)
    ensures InOrder(a, b + [v]) && InOrder(a + [v], b + [v])
  {
    assert (a + [v])[..|a|] == a && (b + [v])[..|b|] == b;
  }

  lemma {:induction false} OneLess<T>(a: seq<T>, v: T, b: seq<T>)
    requires InOrder(a + [v], b)
    ensures InOrder(a, b)
    decreases |b|
  {
    var before := b[..|b| - 1];
    assert (a + [v])[..|a|] == a && b == before + [b[|b| - 1]];
    if InOrder(a + [v], before) {
      OneLess(a, v, before);
    }
    OneMore(a, before, b[|b| - 1]);
  }

  /** What the consumer has, with the change that is pending. */
  function Offered<T>(s: State<T>): seq<T> {
    if s.pending.Some? then s.received + [s.pending.value] else s.received
  }

  /** The values offered are published ones in their order, and the one being
      published is not among them yet. */
  ghost predicate OfferedInOrder<T>(s: State<T>) {
    if s.phase.Waiting? then InOrder(Offered(s), s.published)
    else
      && s.published != [] && s.published[|s.published| - 1] == s.current
      && InOrder(Offered(s), s.published[..|s.published| - 1])
      && (s.phase.Emptied? ==> s.pending.None?)
  }

  lemma OfferedStep<T>(bind: Tree -> Option<T>, s: State<T>, step: Step)
    requires OfferedInOrder(s) && Can(s, step)
    ensures OfferedInOrder(After(bind, s, step))
  {
    var t := After(bind, s, step);
    match step
    case Evaluate(_) =>
      if t.phase.Stored? {
        assert t.published[..|s.published|] == s.published;
      }
    case TakeBack =>
      if s.pending.Some? {
        OneLess(s.received, s.pending.value, s.published[..|s.published| - 1]);
      }
    case Send =>
      var before := s.published[..|s.published| - 1];
      assert s.published == before + [s.current];
      OneMore(s.received, before, s.current);
    case Receive =>
      assert Offered(t) == Offered(s);
  }

  lemma {:induction false} OfferedRun<T>(bind: Tree -> Option<T>, s: State<T>, steps: seq<Step>, t: State<T>)
    requires OfferedInOrder(s) && Run(bind, s, steps, t)
    ensures OfferedInOrder(t)
    decreases |steps|
  {
    if steps != [] {
      OfferedStep(bind, s, steps[0]);
      OfferedRun(bind, After(bind, s, steps[0]), steps[1..], t);
    }
  }

  /** The consumer receives published values in the order they were published, each at
      most once. */
  lemma ReceivedInOrder<T>(bind: Tree -> Option<T>, s: State<T>, steps: seq<Step>, t: State<T>)
    requires Init(bind, s) && Run(bind, s, steps, t)
    ensures InOrder(t.received, t.published)
  {
    OfferedRun(bind, s, steps, t);
    if t.pending.Some? {
      OneLess(t.received, t.pending.value, if t.phase.Waiting? then t.published else t.published[..|t.published| - 1]);
    }
    if !t.phase.Waiting? {
      var before := t.published[..|t.published| - 1];
      assert t.published == before + [t.current];
      OneMore(t.received, before, t.current);
    }
  }

  // ------------------------------------------------------------ reported once?

  /** A state of the store that is evaluated twice in a row is reported the second
      time exactly when it cannot be read as layers: when a folder cannot be listed
      or a key is both a value and a folder. A rejected one is not. */
  lemma RepeatReportedExactly<T>(bind: Tree -> Option<T>, s: State<T>, steps: seq<Step>, t: State<T>, k: nat,
                                 folders: seq<string>, answers: seq<Answer>)
    requires Init(bind, s) && Run(bind, s, steps, t)
    requires 0 < k < |t.evals| && |answers| == |folders|
    requires t.evals[k - 1] == Reading(folders, answers) == t.evals[k]
    ensures |t.reported| == |t.evals| && (t.reported[k] <==> Layers(folders, answers).Err?)
  {
    CurrentIsAccepted(bind, s, steps, t);
    assert t.reported[k] == Due(bind, t.evals, k);
    assert t.evals[..k][k - 1] == t.evals[k - 1];
  }

  /** A rejected state that follows another state is reported exactly unless the
      other one could not be read, and the last that could be was this one. */
  lemma ChangeReportedExactly<T>(bind: Tree -> Option<T>, s: State<T>, steps: seq<Step>, t: State<T>, k: nat)
    requires Init(bind, s) && Run(bind, s, steps, t)
    requires 0 < k < |t.evals| && t.evals[k].Ok? && bind(t.evals[k].value).None? && t.evals[k - 1] != t.evals[k]
    ensures Begun(bind, t.evals) && |t.reported| == |t.evals|
    ensures t.reported[k] <==> !(t.evals[k - 1].Err? && LastTree(t.evals[..k]) == t.evals[k].value)
  {
    CurrentIsAccepted(bind, s, steps, t);
    assert t.reported[k] == Due(bind, t.evals, k);
    assert t.evals[..k][k - 1] == t.evals[k - 1];
  }

  /** Waiting for changes, with one accepted evaluation behind. */
  function Started<T>(tree: Tree, current: T): State<T> {
    State(current, None, None, Waiting, [Ok(tree)], [false], [], [])
  }

  lemma {:induction false} Evaluates<T>(bind: Tree -> Option<T>, s: State<T>, evals: seq<Read>)
    returns (steps: seq<Step>, t: State<T>)
    requires s.phase.Waiting? && forall i | 0 <= i < |evals| :: evals[i].Err? || bind(evals[i].value).None?
    ensures Run(bind, s, steps, t) && t.phase.Waiting? && t.evals == s.evals + evals
    decreases |evals|
  {
    if evals == [] {
      steps, t := [], s;
      assert s.evals + evals == s.evals;
    } else {
      var u := After(bind, s, Evaluate(evals[0]));
      var rest;
      rest, t := Evaluates(bind, u, evals[1..]);
      steps := [Evaluate(evals[0])] + rest;
      assert steps[1..] == rest;
      assert s.evals + [evals[0]] + evals[1..] == s.evals + evals;
    }
  }

  /** The keys "a" and "a/b" of a folder. */
  function BothValueAndFolderPairs(folder: string, x: string, y: string): seq<Pair> {
    [Pair(folder + "a", x), Pair(folder + "a/b", y)]
  }

  lemma BothDoNotDecode(folder: string, x: string, y: string)
    ensures Decode(folder, BothValueAndFolderPairs(folder, x, y)).None?
  {
    var pairs := BothValueAndFolderPairs(folder, x, y);
    assert pairs[0].key + "/" + "b" == pairs[1].key;
    assert pairs[0].key != pairs[1].key && Listing(folder, pairs);
    assert ValueAndFolder(folder, pairs[0].key, pairs[1].key);
    DecodeKeys(folder, pairs);
    assert pairs[0] in pairs && pairs[1] in pairs;
  }

  lemma ConflictIsErr(folder: string, x: string, y: string, index: nat)
    ensures Reading([folder], [Listed(BothValueAndFolderPairs(folder, x, y), index)]) == Err(BothValueAndFolder(folder))
  {
    var answer := Listed(BothValueAndFolderPairs(folder, x, y), index);
    BothDoNotDecode(folder, x, y);
    FirstLayerFails([folder], [answer]);
  }

  /** Such a folder is reported each time it is evaluated, not once. */
  lemma ConflictReportedTwice<T>(bind: Tree -> Option<T>, folder: string, x: string, y: string, index: nat)
    returns (s: State<T>, steps: seq<Step>, t: State<T>)
    requires bind(EMPTY).Some?
    ensures var read := Reading([folder], [Listed(BothValueAndFolderPairs(folder, x, y), index)]);
            && Init(bind, s) && Run(bind, s, steps, t) && t.evals == [Ok(EMPTY), read, read]
    ensures t.reported == [false, true, true]
  {
    var answers := [Listed(BothValueAndFolderPairs(folder, x, y), index)];
    var read := Reading([folder], answers);
    ConflictIsErr(folder, x, y, index);
    s := Started(EMPTY, bind(EMPTY).value);
    steps, t := Evaluates(bind, s, [read, read]);
    CurrentIsAccepted(bind, s, steps, t);
    RepeatReportedExactly(bind, s, steps, t, 2, [folder], answers);
    assert t.reported[1] == Due(bind, t.evals, 1);
    assert t.evals[0] == Ok(EMPTY) && |t.reported| == 3 && !t.reported[0] by {
      FirstNotReported(bind, s, steps, t);
    }
  }

  /** And a rejected state that comes back after it is not reported again, although
      the configuration changed in between. */
  lemma ConflictHidesRejection<T>(bind: Tree -> Option<T>, tree: Tree, folder: string, x: string, y: string, index: nat)
    returns (s: State<T>, steps: seq<Step>, t: State<T>)
    requires bind(EMPTY).Some? && bind(tree).None?
    ensures var read := Reading([folder], [Listed(BothValueAndFolderPairs(folder, x, y), index)]);
            Init(bind, s) && Run(bind, s, steps, t) && t.evals == [Ok(EMPTY), Ok(tree), read, Ok(tree)]
    ensures t.reported == [false, true, true, false]
  {
    var read := Reading([folder], [Listed(BothValueAndFolderPairs(folder, x, y), index)]);
    ConflictIsErr(folder, x, y, index);
    s := Started(EMPTY, bind(EMPTY).value);
    steps, t := Evaluates(bind, s, [Ok(tree), read, Ok(tree)]);
    CurrentIsAccepted(bind, s, steps, t);
    FirstNotReported(bind, s, steps, t);
    assert t.reported[2] == Due(bind, t.evals, 2);
    ChangeReportedExactly(bind, s, steps, t, 1);
    ChangeReportedExactly(bind, s, steps, t, 3);
    var before := t.evals[..3];
    assert before[..2] == [Ok(EMPTY), Ok(tree)];
    assert LastTree(before[..2]) == tree;
    assert LastTree(before) == tree;
  }

  /** The history only grows. */
  lemma {:induction false} FirstNotReported<T>(bind: Tree -> Option<T>, s: State<T>, steps: seq<Step>, t: State<T>)
    requires s.evals != [] && s.reported != [] && Run(bind, s, steps, t)
    ensures t.evals != [] && t.reported != [] && t.evals[0] == s.evals[0] && t.reported[0] == s.reported[0]
    decreases |steps|
  {
    if steps != [] {
      FirstNotReported(bind, After(bind, s, steps[0]), steps[1..], t);
    }
  }

  // ------------------------------------------------------------- the loop body

  /** The fields the loop and the readers share. */
  class Publisher<T(==)> {
    const bind: Tree -> Option<T>
    var current: T
    var rejectedTree: Option<Tree>
    var changes: Option<T>    // a channel of capacity one
    ghost var Phase: Phase
    ghost var Reads: seq<Read>
    ghost var Reported: seq<bool>
    ghost var Published: seq<T>
    ghost var Received: seq<T>

    ghost function Abstract(): State<T>
      reads this
    {
      State(current, rejectedTree, changes, Phase, Reads, Reported, Published, Received)
    }

    constructor (bind: Tree -> Option<T>, tree: Tree, first: T)
      requires bind(tree) == Some(first)
      ensures this.bind == bind && Init(bind, Abstract())
    {
      this.bind := bind;
      current, rejectedTree, changes := first, None, None;
      Phase, Reads, Reported, Published, Received := Waiting, [Ok(tree)], [false], [], [];
    }

    /** Evaluates what was read; `report` says whether an error is reported, `stored`
        whether a new value became current. */
    method Evaluate(read: Read) returns (report: bool, stored: bool)
      requires Can(Abstract(), Step.Evaluate(read))
      modifies this
      ensures Abstract() == After(bind, old(Abstract()), Step.Evaluate(read))
      ensures Reported == old(Reported) + [report] && (stored <==> Phase.Stored?)
    {
      Reads := Reads + [read];
      report, stored := true, false;
      if read.Ok? {
        match bind(read.value) {
          case None =>
            report := rejectedTree != Some(read.value);
            rejectedTree := Some(read.value);
          case Some(next) =>
            report, stored := false, current != next;
            rejectedTree := None;
            if stored {
              current := next;
              Phase, Published := Stored, Published + [next];
            }
        }
      }
      Reported := Reported + [report];
    }

    /** Withdraws a change nobody has taken. */
    method Withdraw()
      requires Can(Abstract(), TakeBack)
      modifies this
      ensures Abstract() == After(bind, old(Abstract()), TakeBack)
    {
      changes := None;
      Phase := Emptied;
    }

    /** Sends the new value; the invariant says that the channel has room. */
    method Offer()
      requires Inv(bind, Abstract()) && Can(Abstract(), Send)
      modifies this
      ensures old(changes).None? && Abstract() == After(bind, old(Abstract()), Send)
    {
      changes := Some(current);
      Phase := Waiting;
    }
  }
}
