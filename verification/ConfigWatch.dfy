/** How the watcher of one configuration learns that a folder changed.

    One folder watcher per folder follows the index of its folder and signals
    through a channel of capacity one; one loop answers a signal by reading every
    folder again. The folders, the watchers, the channel and the loop take their
    steps in any order. */
module ConfigWatch {
  import opened Outcomes
  import opened BlockingIndex
  import opened FolderDecode

  /** What one folder holds, as the store lists it. */
  type Content = seq<Pair>

  // ------------------------------------------------------- one folder watcher

  /** What a folder watcher remembers between requests. */
  datatype Memory = Memory(index: nat, hadKeys: bool, failures: nat)

  const FRESH := Memory(0, false, 0)

  /** Whether an answer is worth a signal. */
  predicate Signals(m: Memory, hasKeys: bool, got: nat) {
    m.index == 0 || m.failures > 0 || (NextIndex(m.index, got) != m.index && (hasKeys || m.hadKeys))
  }

  function AfterAnswer(m: Memory, hasKeys: bool, got: nat): Memory {
    Memory(NextIndex(m.index, got), hasKeys, 0)
  }

  function AfterFailure(m: Memory): Memory {
    m.(index := 0, failures := m.failures + 1)
  }

  /** The goroutine following one folder. */
  class FolderWatcher {
    var index: nat
    var hadKeys: bool
    var failures: nat

    function Remembers(): Memory
      reads this
    {
      Memory(index, hadKeys, failures)
    }

    constructor ()
      ensures Remembers() == FRESH
    {
      index, hadKeys, failures := 0, false, 0;
    }

    /** Handles an answer; `queued` is the channel of capacity one. */
    method Answered(hasKeys: bool, got: nat, queued: bool) returns (queued': bool)
      modifies this
      ensures Remembers() == AfterAnswer(old(Remembers()), hasKeys, got)
      ensures queued' <==> queued || Signals(old(Remembers()), hasKeys, got)
    {
      queued' := queued;
      var prev := index;
      index := NextIndex(index, got);
      if prev == 0 || failures > 0 || (index != prev && (hasKeys || hadKeys)) {
        queued' := true;
      }
      hadKeys := hasKeys;
      failures := 0;
    }

    method Failed()
      modifies this
      ensures Remembers() == AfterFailure(old(Remembers()))
    {
      failures := failures + 1;
      index := 0;
    }
  }

  // -------------------------------------------------------------- the system

  /** A folder watcher waits for an answer, or has one and has not handled it. */
  datatype Phase = Asking | Holding(hasKeys: bool, got: nat)

  /** One folder, its watcher, and what the proof records about them: the content
      at the last answer, whether it changed since, and whether it changed between
      the answer held and the one before. `missed`: since the loop last read the
      folder, and read it filled, it was emptied when its watcher had last seen it
      empty and no signal was queued. */
  datatype Folder = Folder(content: Content, index: nat, memory: Memory, phase: Phase,
                           answered: Option<Content>, dirty: bool, gap: bool, missed: bool)

  /** The reload loop. */
  datatype Loop = Idle | Draining | Reading(read: seq<Content>)

  /** `evaluated` is what the last evaluation read: every folder, or as far as the
      first one that does not decode; `loaded` is false when the last one could not
      list a folder. */
  datatype System = System(folders: seq<Folder>, changed: bool, loop: Loop,
                           evaluated: seq<Content>, loaded: bool)

  /** Whether a content of folder number `f` decodes. */
  type Decodes = (nat, Content) -> bool

  function DecodesUnder(prefixes: seq<string>): Decodes {
    (f: nat, c: Content) => f < |prefixes| && Decode(prefixes[f], c).Some?
  }

  datatype Step =
    | Write(f: nat, content: Content, index: nat)   // a change, which raises the index of the folder
    | Touch(f: nat, index: nat)                     // the index rises and nothing else changes
    | Answer(f: nat)                                // the store answers, with news or after the wait
    | Handle(f: nat)
    | Fail(f: nat)
    | Take                                          // the loop takes the signal
    | Drain                                         // and those queued behind it
    | Begin                                         // none left: it starts to read
    | Read                                          // one folder
    | Finish                                        // every folder read and decoded
    | Refuse                                        // the folder read last does not decode
    | GiveUp                                        // the next folder cannot be listed

  /** The content read last does not decode: a key in it is both a value and a
      folder. */
  predicate Stuck(d: Decodes, read: seq<Content>) {
    read != [] && !d(|read| - 1, read[|read| - 1])
  }

  predicate Can(d: Decodes, s: System, step: Step) {
    match step
    case Write(f, c, i) => f < |s.folders| && c != s.folders[f].content && i > s.folders[f].index
    case Touch(f, i) => f < |s.folders| && i > s.folders[f].index
    case Answer(f) => f < |s.folders| && s.folders[f].phase.Asking?
    case Handle(f) => f < |s.folders| && s.folders[f].phase.Holding?
    case Fail(f) => f < |s.folders| && s.folders[f].phase.Asking?
    case Take => s.loop.Idle? && s.changed
    case Drain => s.loop.Draining? && s.changed
    case Begin => s.loop.Draining? && !s.changed
    case Read => s.loop.Reading? && !Stuck(d, s.loop.read) && |s.loop.read| < |s.folders|
    case Finish => s.loop.Reading? && !Stuck(d, s.loop.read) && |s.loop.read| == |s.folders|
    case Refuse => s.loop.Reading? && Stuck(d, s.loop.read)
    case GiveUp => s.loop.Reading? && !Stuck(d, s.loop.read) && |s.loop.read| < |s.folders|
  }

  /** Folder `f` was filled when the loop read it, for the evaluation it is at or the
      last one, and no signal is queued. */
  predicate ReadFilled(s: System, f: nat) {
    !s.changed &&
    match s.loop
    case Draining => false
    case Reading(read) => f < |read| && read[f] != []
    case Idle => s.loaded && f < |s.evaluated| && s.evaluated[f] != []
  }

  /** Writing this to folder `f` empties what its watcher last saw empty and the loop
      read filled. */
  predicate Misses(s: System, f: nat, content: Content)
    requires f < |s.folders|
  {
    s.folders[f].answered == Some([]) && content == [] && ReadFilled(s, f)
  }

  function After(d: Decodes, s: System, step: Step): System
    requires Can(d, s, step)
  {
    match step
    case Write(f, c, i) =>
      s.(folders := s.folders[f := s.folders[f].(content := c, index := i, dirty := true,
                                                 missed := s.folders[f].missed || Misses(s, f, c))])
    case Touch(f, i) =>
      s.(folders := s.folders[f := s.folders[f].(index := i)])
    case Answer(f) =>
      var folder := s.folders[f];
      s.(folders := s.folders[f := folder.(phase := Holding(folder.content != [], folder.index),
                                           answered := Some(folder.content), gap := folder.dirty, dirty := false)])
    case Handle(f) =>
      var folder := s.folders[f];
      var Holding(hasKeys, got) := folder.phase;
      s.(folders := s.folders[f := folder.(memory := AfterAnswer(folder.memory, hasKeys, got), phase := Asking)],
         changed := s.changed || Signals(folder.memory, hasKeys, got))
    case Fail(f) =>
      s.(folders := s.folders[f := s.folders[f].(memory := AfterFailure(s.folders[f].memory))])
    case Take => s.(changed := false, loop := Draining)
    case Drain => s.(changed := false)
    case Begin => s.(loop := Reading([]))
    case Read =>
      var f := |s.loop.read|;
      s.(loop := Reading(s.loop.read + [s.folders[f].content]),
         folders := s.folders[f := s.folders[f].(missed := false)])
    case Finish => s.(loop := Idle, evaluated := s.loop.read, loaded := true)
    case Refuse => s.(loop := Idle, evaluated := s.loop.read, loaded := true)
    case GiveUp => s.(loop := Idle, loaded := false)
  }

  /** The watch has just started: the first value was built from folders read
      earlier, which may have changed since. */
  predicate Init(d: Decodes, s: System) {
    && (forall f | 0 <= f < |s.folders| ::
          s.folders[f].index > 0 && s.folders[f].memory == FRESH && s.folders[f].phase.Asking? && !s.folders[f].missed)
    && !s.changed && s.loop.Idle? && s.loaded
    && |s.evaluated| == |s.folders| && !Stuck(d, s.evaluated)
  }

  predicate Run(d: Decodes, s: System, steps: seq<Step>, t: System)
    decreases |steps|
  {
    if steps == [] then s == t
    else Can(d, s, steps[0]) && Run(d, After(d, s, steps[0]), steps[1..], t)
  }

  // ---------------------------------------------------------------- invariant

  /** The last answer handled was a good one. */
  predicate Following(folder: Folder) {
    folder.memory.index > 0 && folder.memory.failures == 0
  }

  /** The content of folder `f` is in the last evaluation, or a reload that will
      see it is certain: it is signalled, due, or under way. */
  predicate Covered(s: System, f: nat)
    requires f < |s.folders|
  {
    s.changed ||
    match s.loop
    case Draining => true
    case Reading(read) => f < |read| ==> read[f] == s.folders[f].content
    case Idle => s.loaded && f < |s.evaluated| ==> s.evaluated[f] == s.folders[f].content
  }

  predicate Tracked(s: System, f: nat)
    requires f < |s.folders|
  {
    Covered(s, f) || (s.folders[f].missed && s.folders[f].content == [])
  }

  predicate FolderInv(folder: Folder) {
    var m := folder.memory;
    && folder.index > 0
    && (m.failures > 0 ==> m.index == 0)
    && match folder.phase
       case Asking =>
         Following(folder) ==>
           && m.index <= folder.index
           && folder.answered.Some? && (m.hadKeys <==> folder.answered != Some([]))
           && (folder.dirty ==> m.index < folder.index)
           && (!folder.dirty ==> folder.answered == Some(folder.content))
       case Holding(hasKeys, got) =>
         && 0 < got <= folder.index
         && folder.answered.Some? && (hasKeys <==> folder.answered != Some([]))
         && (folder.dirty ==> got < folder.index)
         && (!folder.dirty ==> folder.answered == Some(folder.content))
         && m.index <= got
         && (Following(folder) && folder.gap ==> m.index < got)
  }

  /** Whoever is up to date with its folder has nothing left to tell. */
  predicate Told(s: System, f: nat)
    requires f < |s.folders|
  {
    var folder := s.folders[f];
    Following(folder) && !folder.dirty && (folder.phase.Holding? ==> !folder.gap) ==> Tracked(s, f)
  }

  /** The watcher saw the folder empty, and would not tell if it is empty again. */
  predicate Quiet(folder: Folder) {
    folder.answered == Some([]) &&
    match folder.phase
    case Asking => Following(folder)
    case Holding(_, _) => folder.dirty || (Following(folder) && !folder.memory.hadKeys)
  }

  /** What such a watcher will not tell needs no telling. */
  predicate Silent(s: System, f: nat)
    requires f < |s.folders|
  {
    Quiet(s.folders[f]) && s.folders[f].content == [] ==> Tracked(s, f)
  }

  /** What was missed was read filled. */
  predicate Stale(s: System, f: nat)
    requires f < |s.folders|
  {
    s.folders[f].missed ==>
      match s.loop
      case Draining => true
      case Reading(read) => f < |read| ==> read[f] != []
      case Idle => s.loaded && f < |s.evaluated| ==> s.evaluated[f] != []
  }

  /** If it is filled again, its watcher tells, and then a reload will read it. */
  predicate Refilled(s: System, f: nat)
    requires f < |s.folders|
  {
    var folder := s.folders[f];
    && folder.missed && folder.content != []
    && Following(folder) && !folder.dirty && (folder.phase.Holding? ==> !folder.gap) ==>
      s.changed ||
      match s.loop
      case Draining => true
      case Reading(read) => |read| <= f
      case Idle => s.loaded ==> |s.evaluated| <= f
  }

  predicate Known(s: System, f: nat)
    requires f < |s.folders|
  {
    FolderInv(s.folders[f]) && Told(s, f) && Silent(s, f) && Stale(s, f) && Refilled(s, f)
  }

  /** An evaluation ends with the last folder or with one that does not decode. */
  predicate Ended(d: Decodes, s: System) {
    && |s.evaluated| <= |s.folders|
    && (|s.evaluated| < |s.folders| ==> Stuck(d, s.evaluated))
  }

  predicate Inv(d: Decodes, s: System) {
    && Ended(d, s)
    && (s.loop.Reading? ==> |s.loop.read| <= |s.folders|)
    && forall f | 0 <= f < |s.folders| :: Known(s, f)
  }

  /** A step of one folder or its watcher. */
  predicate OfFolder(step: Step) {
    step.Write? || step.Touch? || step.Answer? || step.Handle? || step.Fail?
  }

  lemma FolderStep(d: Decodes, s: System, step: Step)
    requires Inv(d, s) && Can(d, s, step) && OfFolder(step)
    ensures Known(After(d, s, step), step.f)
  {
    assert Known(s, step.f);
  }

  /** A step of the loop leaves the folders as they are, but for what was missed. */
  lemma LoopStep(d: Decodes, s: System, step: Step)
    requires Inv(d, s) && Can(d, s, step) && !OfFolder(step)
    ensures Inv(d, After(d, s, step))
  {
    var t := After(d, s, step);
    forall f | 0 <= f < |t.folders|
      ensures Known(t, f)
    {
      assert Known(s, f);
      assert t.folders[f] == s.folders[f] || t.folders[f] == s.folders[f].(missed := false);
    }
  }

  lemma InvStep(d: Decodes, s: System, step: Step)
    requires Inv(d, s) && Can(d, s, step)
    ensures Inv(d, After(d, s, step))
  {
    if OfFolder(step) {
      var t := After(d, s, step);
      FolderStep(d, s, step);
      forall f | 0 <= f < |t.folders| && f != step.f
        ensures Known(t, f)
      {
        assert t.folders[f] == s.folders[f] && Known(s, f);
      }
    } else {
      LoopStep(d, s, step);
    }
  }

  /** A step ends an evaluation. */
  predicate Ends(step: Step) {
    step.Finish? || step.Refuse? || step.GiveUp?
  }

  lemma EvaluatedAfter(d: Decodes, s: System, step: Step)
    requires Can(d, s, step)
    ensures var t := After(d, s, step);
            && |t.folders| == |s.folders|
            && (!Ends(step) ==> t.evaluated == s.evaluated && t.loaded == s.loaded)
            && (step.GiveUp? ==> !t.loaded && t.evaluated == s.evaluated)
            && (step.Finish? || step.Refuse? ==> t.loaded && t.evaluated == s.loop.read)
  {
  }

  lemma {:induction false} InvRun(d: Decodes, s: System, steps: seq<Step>, t: System)
    requires Inv(d, s) && Run(d, s, steps, t)
    ensures Inv(d, t)
    decreases |steps|
  {
    if steps != [] {
      InvStep(d, s, steps[0]);
      InvRun(d, After(d, s, steps[0]), steps[1..], t);
    }
  }

  // ----------------------------------------------------------------- theorems

  /** Nothing is under way: the loop waits, no signal is queued, every watcher
      has handled the newest index of its folder, and the last load succeeded. */
  predicate Settled(s: System) {
    && s.loop.Idle? && !s.changed && s.loaded
    && forall f | 0 <= f < |s.folders| ::
         s.folders[f].phase.Asking? && s.folders[f].memory.index == s.folders[f].index
  }

  lemma EvaluatedIsStored(d: Decodes, t: System, f: nat)
    requires Inv(d, t) && Settled(t) && f < |t.evaluated|
    ensures t.evaluated[f] == t.folders[f].content <==> !t.folders[f].missed
    ensures t.folders[f].missed ==> t.folders[f].content == []
  {
    assert Known(t, f);
    assert Tracked(t, f);
  }

  /** No wake-up is lost: once nothing is under way, the last evaluation read what
      the store holds, as far as the folders decode, exactly but for the folders that
      were filled for a moment and read then; these are empty now. */
  lemma NoWakeUpLost(d: Decodes, s: System, steps: seq<Step>, t: System)
    requires Init(d, s) && Run(d, s, steps, t) && Settled(t)
    ensures Ended(d, t)
    ensures forall f | 0 <= f < |t.evaluated| ::
              && (t.evaluated[f] == t.folders[f].content <==> !t.folders[f].missed)
              && (t.folders[f].missed ==> t.folders[f].content == [])
  {
    InvRun(d, s, steps, t);
    forall f: nat | f < |t.evaluated| {
      EvaluatedIsStored(d, t, f);
    }
  }

  // -------------------------------------------------------- after a failure

  /** Whether the last request for folder `f` that ended was answered; `before` is what
      holds of the one before the step, or the steps. */
  predicate Answers(step: Step, f: nat, before: bool) {
    if step == Step.Handle(f) then true else if step == Fail(f) then false else before
  }

  predicate AnsweredLast(steps: seq<Step>, f: nat, before: bool) {
    if steps == [] then before else AnsweredLast(steps[1..], f, Answers(steps[0], f, before))
  }

  lemma AsksStep(d: Decodes, s: System, step: Step, f: nat)
    requires Can(d, s, step) && f < |s.folders| && FolderInv(s.folders[f])
    ensures f < |After(d, s, step).folders|
    ensures After(d, s, step).folders[f].memory.index > 0 <==> Answers(step, f, s.folders[f].memory.index > 0)
  {
  }

  lemma {:induction false} AsksRun(d: Decodes, s: System, steps: seq<Step>, t: System, f: nat)
    requires Inv(d, s) && Run(d, s, steps, t) && f < |s.folders|
    ensures f < |t.folders|
    ensures t.folders[f].memory.index > 0 <==> AnsweredLast(steps, f, s.folders[f].memory.index > 0)
    decreases |steps|
  {
    if steps != [] {
      assert Known(s, f);
      AsksStep(d, s, steps[0], f);
      InvStep(d, s, steps[0]);
      AsksRun(d, After(d, s, steps[0]), steps[1..], t, f);
    }
  }

  /** A watcher asks without an index, so that no store holds it back, exactly until its
      first answer and from a failure to the next answer. */
  lemma AsksFromZero(d: Decodes, s: System, steps: seq<Step>, t: System, f: nat)
    requires Init(d, s) && Run(d, s, steps, t) && f < |s.folders|
    ensures f < |t.folders| && (t.folders[f].memory.index == 0 <==> !AnsweredLast(steps, f, false))
    ensures !AnsweredLast(steps, f, false) ==> forall now :: !Blocks(t.folders[f].memory.index, now)
  {
    AsksRun(d, s, steps, t, f);
  }

  // -------------------------------------------------------- no needless reload

  /** Nothing changes for the application: no folder is written, no request fails, and
      the index moves only for folders without keys. */
  predicate Changeless(s: System, step: Step) {
    !step.Write? && !step.Fail? && (step.Touch? && step.f < |s.folders| ==> s.folders[step.f].content == [])
  }

  predicate ChangelessRun(d: Decodes, s: System, steps: seq<Step>, t: System)
    decreases |steps|
  {
    if steps == [] then s == t
    else
      && Can(d, s, steps[0]) && Changeless(s, steps[0])
      && ChangelessRun(d, After(d, s, steps[0]), steps[1..], t)
  }

  /** The watcher knows whether its folder has keys, and the index of one that has. */
  predicate UpToDate(folder: Folder) {
    var m, filled := folder.memory, folder.content != [];
    && m.failures == 0 && 0 < m.index <= folder.index
    && (m.hadKeys <==> filled) && (filled ==> m.index == folder.index)
    && match folder.phase
       case Asking => true
       case Holding(hasKeys, got) => (hasKeys <==> filled) && m.index <= got <= folder.index
  }

  ghost predicate Resting(s: System) {
    s.loop.Idle? && !s.changed && forall f | 0 <= f < |s.folders| :: UpToDate(s.folders[f])
  }

  lemma {:induction false} RestingRun(d: Decodes, s: System, steps: seq<Step>, t: System)
    requires Resting(s) && ChangelessRun(d, s, steps, t)
    ensures Resting(t) && t.evaluated == s.evaluated
    decreases |steps|
  {
    if steps != [] {
      RestingRun(d, After(d, s, steps[0]), steps[1..], t);
    }
  }

  lemma SettledIsUpToDate(d: Decodes, s: System, f: nat)
    requires Inv(d, s) && Settled(s) && f < |s.folders|
    ensures UpToDate(s.folders[f])
  {
    assert Known(s, f);
  }

  /** Once nothing is under way, whatever the watchers are answered again, no signal is
      queued and nothing is reloaded before a folder is written, a request fails, or
      the index of a folder with keys moves. */
  lemma NoNeedlessReload(d: Decodes, init: System, before: seq<Step>, s: System, later: seq<Step>, t: System)
    requires Init(d, init) && Run(d, init, before, s) && Settled(s) && ChangelessRun(d, s, later, t)
    ensures t.loop.Idle? && !t.changed && t.evaluated == s.evaluated
  {
    InvRun(d, init, before, s);
    forall f: nat | f < |s.folders|
      ensures UpToDate(s.folders[f])
    {
      SettledIsUpToDate(d, s, f);
    }
    RestingRun(d, s, later, t);
  }

  lemma Extend(d: Decodes, s: System, step: Step, u: System, rest: seq<Step>, t: System) returns (steps: seq<Step>)
    requires Can(d, s, step) && After(d, s, step) == u && Run(d, u, rest, t)
    ensures Run(d, s, steps, t)
  {
    steps := [step] + rest;
    assert steps[1..] == rest;
  }

  lemma AnswersEmpty(d: Decodes, s: System) returns (steps: seq<Step>, t: System)
    requires |s.folders| == 1 && s.folders[0].phase.Asking? && s.folders[0].content == []
    requires NextIndex(s.folders[0].memory.index, s.folders[0].index) == s.folders[0].index
    ensures Run(d, s, steps, t)
    ensures var folder := s.folders[0];
            var m := folder.memory;
            var after := AfterAnswer(m, false, folder.index);
            var next := Folder([], folder.index, after, Asking, Some([]), false, folder.dirty, folder.missed);
            t == s.(folders := [next], changed := s.changed || Signals(m, false, folder.index))
  {
    var u := After(d, s, Answer(0));
    t := After(d, u, Handle(0));
    steps := Extend(d, u, Handle(0), t, [], t);
    steps := Extend(d, s, Answer(0), u, steps, t);
  }

  /** The loop takes a signal and reads the only folder. */
  lemma Reloads(d: Decodes, s: System) returns (steps: seq<Step>, t: System)
    requires |s.folders| == 1 && s.loop.Idle? && s.changed && !Stuck(d, [s.folders[0].content])
    ensures Run(d, s, steps, t)
    ensures t == s.(folders := [s.folders[0].(missed := false)], changed := false,
                    evaluated := [s.folders[0].content], loaded := true)
  {
    t := s.(folders := [s.folders[0].(missed := false)], changed := false,
            evaluated := [s.folders[0].content], loaded := true);
    var drained := s.(changed := false, loop := Draining);
    var begun := drained.(loop := Reading([]));
    var read := drained.(loop := Reading([s.folders[0].content]), folders := t.folders);
    steps := Extend(d, read, Finish, t, [], t);
    steps := Extend(d, begun, Read, read, steps, t);
    steps := Extend(d, drained, Begin, begun, steps, t);
    steps := Extend(d, s, Take, drained, steps, t);
  }

  lemma {:induction false} Joined(d: Decodes, s: System, a: seq<Step>, m: System, b: seq<Step>, t: System)
    requires Run(d, s, a, m) && Run(d, m, b, t)
    ensures Run(d, s, a + b, t)
    decreases |a|
  {
    if a == [] {
      assert a + b == b;
    } else {
      var all := a + b;
      assert all[0] == a[0] && all[1..] == a[1..] + b;
      Joined(d, After(d, s, a[0]), a[1..], m, b, t);
    }
  }

  /** A folder whose watcher last handled an answer with index `handled`, which found
      it empty; it holds `content` now. */
  function OneFolder(content: Content, index: nat, handled: nat, dirty: bool, gap: bool, missed: bool): Folder {
    Folder(content, index, Memory(handled, false, 0), Asking, Some([]), dirty, gap, missed)
  }

  /** The first answer found the folder empty. */
  const SEEN_EMPTY := System([OneFolder([], 1, 1, false, false, false)], true, Idle, [[]], true)

  /** The folder was filled, and the loop read it. */
  function SeenFilled(content: Content): System {
    System([OneFolder(content, 2, 1, true, false, false)], false, Idle, [content], true)
  }

  /** It was emptied again, and the next answer found it empty. */
  function SeenEmptyAgain(content: Content): System {
    System([OneFolder([], 3, 3, false, true, true)], false, Idle, [content], true)
  }

  lemma StartsEmpty(d: Decodes) returns (s: System, steps: seq<Step>)
    requires d(0, [])
    ensures Init(d, s) && Run(d, s, steps, SEEN_EMPTY)
  {
    s := System([Folder([], 1, FRESH, Asking, None, false, false, false)], false, Idle, [[]], true);
    var t;
    steps, t := AnswersEmpty(d, s);
  }

  lemma IsReadFilled(d: Decodes, content: Content) returns (steps: seq<Step>)
    requires d(0, content) && content != []
    ensures Run(d, SEEN_EMPTY, steps, SeenFilled(content))
  {
    var filled := SEEN_EMPTY.(folders := SeenFilled(content).folders);
    var t;
    steps, t := Reloads(d, filled);
    steps := Extend(d, SEEN_EMPTY, Write(0, content, 2), filled, steps, t);
  }

  lemma EmptiesAgain(d: Decodes, content: Content) returns (steps: seq<Step>)
    requires content != []
    ensures Run(d, SeenFilled(content), steps, SeenEmptyAgain(content))
  {
    var s := SeenFilled(content);
    var emptied := s.(folders := [OneFolder([], 3, 1, true, false, true)]);
    var t;
    steps, t := AnswersEmpty(d, emptied);
    steps := Extend(d, s, Write(0, [], 3), emptied, steps, t);
  }

  lemma FilledForAMoment(d: Decodes, content: Content) returns (s: System, steps: seq<Step>)
    requires d(0, []) && d(0, content) && content != []
    ensures Init(d, s) && Run(d, s, steps, SeenEmptyAgain(content)) && Settled(SeenEmptyAgain(content))
  {
    var first, second, third;
    s, first := StartsEmpty(d);
    second := IsReadFilled(d, content);
    third := EmptiesAgain(d, content);
    Joined(d, s, first, SEEN_EMPTY, second, SeenFilled(content));
    Joined(d, s, first + second, SeenFilled(content), third, SeenEmptyAgain(content));
    steps := first + second + third;
  }

  /** Such a run: a folder read while it was filled for a moment, between two answers
      that both saw it empty, stays evaluated. */
  lemma FilledForAMomentStays(prefix: string, x: Pair) returns (s: System, steps: seq<Step>, t: System)
    ensures Init(DecodesUnder([prefix]), s) && Run(DecodesUnder([prefix]), s, steps, t) && Settled(t)
    ensures |t.folders| == 1 && t.folders[0].content == [] && t.evaluated == [[x]]
  {
    OnePairDecodes(prefix, x);
    s, steps := FilledForAMoment(DecodesUnder([prefix]), [x]);
    t := SeenEmptyAgain([x]);
  }
}
