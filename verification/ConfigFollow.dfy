/** The configuration watcher as a whole: the folder watchers and the wake-up channel
    of `ConfigWatch`, and the reload loop publishing as in `ConfigPublish`. One
    goroutine evaluates and publishes, so it answers no signal before it has sent
    what it stored. */
module ConfigFollow {
  import opened Outcomes
  import opened ConfigTree
  import opened FolderDecode
  import opened ConfigLoad
  import W = ConfigWatch
  import P = ConfigPublish

  /** The folders, which contents of them decode, what reading contents amounts to,
      and the binding. */
  datatype Setup<!T> = Setup(prefixes: seq<string>, decodes: W.Decodes, read: seq<W.Content> -> P.Read,
                             bind: Tree -> Option<T>)

  datatype System<T> = System(watch: W.System, publish: P.State<T>)

  datatype Step = Watch(w: W.Step) | Publish(p: P.Step)

  function Contents(folders: seq<W.Folder>): (contents: seq<W.Content>)
    ensures |contents| == |folders| && forall f | 0 <= f < |folders| :: contents[f] == folders[f].content
  {
    seq(|folders|, f requires 0 <= f < |folders| => folders[f].content)
  }

  /** What evaluating the store as it is now would read. */
  function Store<T>(c: Setup<T>, s: System<T>): P.Read {
    c.read(Contents(s.watch.folders))
  }

  /** A step of the goroutine that reads and publishes. */
  predicate OfLoop(w: W.Step) {
    w.Take? || w.Drain? || w.Begin? || w.Read? || W.Ends(w)
  }

  predicate Can<T>(c: Setup<T>, s: System<T>, step: Step) {
    match step
    case Watch(w) =>
      && W.Can(c.decodes, s.watch, w)
      && (OfLoop(w) ==> s.publish.phase.Waiting?)
      && (w.GiveUp? ==> |s.watch.loop.read| < |c.prefixes|)
    case Publish(p) => !p.Evaluate? && P.Can(s.publish, p)
  }

  /** What an evaluation that ends with this step has read. */
  function Outcome<T>(c: Setup<T>, s: System<T>, w: W.Step): P.Read
    requires Can(c, s, Watch(w)) && W.Ends(w)
  {
    if w.GiveUp? then Err(ReadFailed(c.prefixes[|s.watch.loop.read|])) else c.read(s.watch.loop.read)
  }

  function After<T(==)>(c: Setup<T>, s: System<T>, step: Step): System<T>
    requires Can(c, s, step)
  {
    match step
    case Watch(w) =>
      System(W.After(c.decodes, s.watch, w),
             if W.Ends(w) then P.Evaluated(c.bind, s.publish, Outcome(c, s, w)) else s.publish)
    case Publish(p) => s.(publish := P.After(c.bind, s.publish, p))
  }

  /** The first evaluation gave the first value. */
  predicate Init<T(==)>(c: Setup<T>, s: System<T>) {
    && |s.watch.folders| == |c.prefixes|
    && W.Init(c.decodes, s.watch) && P.Init(c.bind, s.publish)
    && s.publish.evals[0] == c.read(s.watch.evaluated)
  }

  predicate Run<T(==)>(c: Setup<T>, s: System<T>, steps: seq<Step>, t: System<T>)
    decreases |steps|
  {
    if steps == [] then s == t
    else Can(c, s, steps[0]) && Run(c, After(c, s, steps[0]), steps[1..], t)
  }

  // ---------------------------------------------------------------- invariant

  /** The last evaluation read what the watch remembers as evaluated, unless it could
      not list a folder. */
  ghost predicate Agrees<T>(c: Setup<T>, s: System<T>) {
    && |s.watch.folders| == |c.prefixes| && s.publish.evals != []
    && (s.watch.loaded ==> s.publish.evals[|s.publish.evals| - 1] == c.read(s.watch.evaluated))
  }

  ghost predicate Inv<T>(c: Setup<T>, s: System<T>) {
    W.Inv(c.decodes, s.watch) && P.Inv(c.bind, s.publish) && Agrees(c, s)
  }

  lemma WatchAgrees<T>(c: Setup<T>, s: System<T>, w: W.Step)
    requires Agrees(c, s) && Can(c, s, Watch(w))
    ensures Agrees(c, After(c, s, Watch(w)))
  {
    W.EvaluatedAfter(c.decodes, s.watch, w);
    if W.Ends(w) {
      P.EvaluatedReads(c.bind, s.publish, Outcome(c, s, w));
    }
  }

  lemma WatchKeeps<T>(c: Setup<T>, s: System<T>, w: W.Step)
    requires Inv(c, s) && Can(c, s, Watch(w))
    ensures Inv(c, After(c, s, Watch(w)))
  {
    W.InvStep(c.decodes, s.watch, w);
    if W.Ends(w) {
      P.EvaluateKeeps(c.bind, s.publish, Outcome(c, s, w));
    }
    WatchAgrees(c, s, w);
  }

  lemma InvStep<T>(c: Setup<T>, s: System<T>, step: Step)
    requires Inv(c, s) && Can(c, s, step)
    ensures Inv(c, After(c, s, step))
  {
    match step
    case Watch(w) => WatchKeeps(c, s, w);
    case Publish(p) => P.InvStep(c.bind, s.publish, p);
  }

  lemma {:induction false} InvRun<T>(c: Setup<T>, s: System<T>, steps: seq<Step>, t: System<T>)
    requires Inv(c, s) && Run(c, s, steps, t)
    ensures Inv(c, t)
    decreases |steps|
  {
    if steps != [] {
      InvStep(c, s, steps[0]);
      InvRun(c, After(c, s, steps[0]), steps[1..], t);
    }
  }

  lemma InvReached<T>(c: Setup<T>, s: System<T>, steps: seq<Step>, t: System<T>)
    requires Init(c, s) && Run(c, s, steps, t)
    ensures Inv(c, t)
  {
    P.InitInv(c.bind, s.publish);
    InvRun(c, s, steps, t);
  }

  // ----------------------------------------------------------------- theorems

  /** Nothing is under way, and no folder was filled for a moment and read then. */
  ghost predicate AtRest<T>(s: System<T>) {
    && W.Settled(s.watch) && s.publish.phase.Waiting?
    && forall f | 0 <= f < |s.watch.folders| :: !s.watch.folders[f].missed
  }

  /** The last evaluation read `read`. If that is a tree that binds, its value is the
      current one; the current value is in any case that of the last tree that was
      accepted, and a pending change is that value. */
  ghost predicate CurrentIs<T>(bind: Tree -> Option<T>, s: P.State<T>, read: P.Read) {
    && P.Begun(bind, s.evals) && s.evals[|s.evals| - 1] == read
    && (read.Ok? && bind(read.value).Some? ==> bind(read.value) == Some(s.current))
    && bind(P.LastAccepted(bind, s.evals)) == Some(s.current)
    && (s.pending.Some? ==> s.pending.value == s.current)
  }

  lemma LastIsCurrent<T>(bind: Tree -> Option<T>, s: P.State<T>, read: P.Read)
    requires P.Inv(bind, s) && s.phase.Waiting? && s.evals[|s.evals| - 1] == read
    ensures CurrentIs(bind, s, read)
  {
    P.WhileWaiting(bind, s);
  }

  /** A reading that stops at the content number `n - 1`, which does not decode, is the
      reading of all of them. */
  predicate StopsAt<T>(c: Setup<T>, contents: seq<W.Content>, n: nat) {
    n <= |contents| == |c.prefixes| && W.Stuck(c.decodes, contents[..n]) ==> c.read(contents[..n]) == c.read(contents)
  }

  lemma RestFollows<T>(c: Setup<T>, t: System<T>)
    requires Inv(c, t) && AtRest(t)
    requires StopsAt(c, Contents(t.watch.folders), |t.watch.evaluated|)
    ensures CurrentIs(c.bind, t.publish, Store(c, t))
  {
    var contents, n := Contents(t.watch.folders), |t.watch.evaluated|;
    forall f: nat | f < n {
      W.EvaluatedIsStored(c.decodes, t.watch, f);
    }
    assert contents[..n] == t.watch.evaluated;
    if n == |contents| {
      assert contents[..n] == contents;
    }
    LastIsCurrent(c.bind, t.publish, Store(c, t));
  }

  // ---------------------------------------------------------- reading the folders

  /** What the store answers about folders that hold this. */
  function Listings(read: seq<W.Content>): (answers: seq<Answer>)
    ensures |answers| == |read|
  {
    seq(|read|, i requires 0 <= i < |read| => Listed(read[i], 0))
  }

  /** What reading the first of the folders, in order, amounts to. */
  function ReadingOf(prefixes: seq<string>, contents: seq<W.Content>): P.Read {
    if |contents| <= |prefixes| then Reading(prefixes[..|contents|], Listings(contents)) else Err(ReadFailed(""))
  }

  /** The watcher of these folders. */
  function Loading<T>(prefixes: seq<string>, bind: Tree -> Option<T>): Setup<T> {
    Setup(prefixes, W.DecodesUnder(prefixes), (contents: seq<W.Content>) => ReadingOf(prefixes, contents), bind)
  }

  lemma StuckFails(folders: seq<string>, answers: seq<Answer>, n: nat)
    requires 0 < n <= |answers| == |folders| && LayerOf(folders[n - 1], answers[n - 1]).Err?
    ensures Reading(folders[..n], answers[..n]).Err?
  {
    assert LayersUpTo(folders, answers, n).Err?;
    LayersOfPrefix(folders, answers, n, n);
  }

  lemma WholeReading(prefixes: seq<string>, contents: seq<W.Content>)
    requires |contents| == |prefixes|
    ensures ReadingOf(prefixes, contents) == Reading(prefixes, Listings(contents))
  {
    assert prefixes[..|contents|] == prefixes;
  }

  lemma StoppedReading(prefixes: seq<string>, contents: seq<W.Content>, n: nat)
    requires 0 < n <= |contents| == |prefixes|
    requires LayerOf(prefixes[n - 1], Listings(contents)[n - 1]).Err?
    ensures ReadingOf(prefixes, contents[..n]) == ReadingOf(prefixes, contents)
  {
    StuckFails(prefixes, Listings(contents), n);
    FailedPrefix(prefixes, Listings(contents), n);
    assert Listings(contents[..n]) == Listings(contents)[..n];
    WholeReading(prefixes, contents);
  }

  lemma StuckLayer(prefixes: seq<string>, contents: seq<W.Content>, n: nat)
    requires 0 < n <= |contents| == |prefixes| && W.Stuck(W.DecodesUnder(prefixes), contents[..n])
    ensures LayerOf(prefixes[n - 1], Listings(contents)[n - 1]).Err?
  {
    assert contents[..n][n - 1] == contents[n - 1];
  }

  lemma LoadingStops<T>(prefixes: seq<string>, bind: Tree -> Option<T>, contents: seq<W.Content>, n: nat)
    ensures StopsAt(Loading(prefixes, bind), contents, n)
  {
    if n <= |contents| == |prefixes| && W.Stuck(W.DecodesUnder(prefixes), contents[..n]) {
      StuckLayer(prefixes, contents, n);
      StoppedReading(prefixes, contents, n);
    }
  }

  /** Once nothing is under way, the last evaluation read exactly what the store
      holds: where its layers decode and bind, their value is the current one. */
  lemma CurrentFollowsStore<T>(prefixes: seq<string>, bind: Tree -> Option<T>,
                               s: System<T>, steps: seq<Step>, t: System<T>)
    requires Init(Loading(prefixes, bind), s) && Run(Loading(prefixes, bind), s, steps, t) && AtRest(t)
    ensures |t.watch.folders| == |prefixes|
    ensures CurrentIs(bind, t.publish, Reading(prefixes, Listings(Contents(t.watch.folders))))
  {
    var c := Loading(prefixes, bind);
    InvReached(c, s, steps, t);
    LoadingStops(prefixes, bind, Contents(t.watch.folders), |t.watch.evaluated|);
    RestFollows(c, t);
    WholeReading(prefixes, Contents(t.watch.folders));
  }

  /** In the terms of the listed keys: if the folders decode into a tree that binds,
      the current value is bound from it, and it has at every path the word of the
      folder that has the last one. */
  lemma CurrentHasLastWord<T>(prefixes: seq<string>, bind: Tree -> Option<T>,
                              s: System<T>, steps: seq<Step>, t: System<T>, p: Path, v: string)
    requires Init(Loading(prefixes, bind), s) && Run(Loading(prefixes, bind), s, steps, t) && AtRest(t)
    requires forall f | 0 <= f < |t.watch.folders| && f < |prefixes| :: Listing(prefixes[f], t.watch.folders[f].content)
    ensures |t.watch.folders| == |prefixes|
    ensures var answers := Listings(Contents(t.watch.folders)); var read := Reading(prefixes, answers);
            read.Ok? && bind(read.value).Some? ==>
              && bind(read.value) == Some(t.publish.current)
              && (LeafAt(read.value, p) == Some(Text(v)) <==> exists i :: LastWord(prefixes, answers, i, p, v))
  {
    CurrentFollowsStore(prefixes, bind, s, steps, t);
    var answers := Listings(Contents(t.watch.folders));
    if Layers(prefixes, answers).Ok? {
      LoadedValue(prefixes, answers, p, v);
    }
  }
}
