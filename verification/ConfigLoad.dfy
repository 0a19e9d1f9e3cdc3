/** Reading every folder of an application and merging what they hold. */
module ConfigLoad {
  import opened Outcomes
  import opened ConfigTree
  import opened FolderDecode
  import opened ConfigHeap

  /** Where the configuration of an application lies. */
  datatype Layout = Layout(name: string, profiles: seq<string>, prefix: string,
                           defaultContext: string, separator: string)

  /** A context is the one shared by every application or the application's own. */
  function Names(c: Layout): (names: seq<string>)
    ensures 1 <= |names| <= 2
  {
    [c.defaultContext] + if c.name != "" && c.name != c.defaultContext then [c.name] else []
  }

  function FolderOf(c: Layout, name: string): string {
    c.prefix + "/" + name + "/"
  }

  function FoldersOf(c: Layout, name: string): (folders: seq<string>)
    ensures |folders| == 1 + |c.profiles|
  {
    [FolderOf(c, name)] +
    seq(|c.profiles|, i requires 0 <= i < |c.profiles| => FolderOf(c, name + c.separator + c.profiles[i]))
  }

  /** The folders read, lowest precedence first: a context before the one more
      specific to the application, and within a context the common folder before
      those of the profiles, in the order of the profiles. */
  function Contexts(c: Layout): (folders: seq<string>)
    ensures var n := 1 + |c.profiles|; var own := c.name != "" && c.name != c.defaultContext;
            && |folders| == (if own then 2 * n else n)
            && folders[0] == c.prefix + "/" + c.defaultContext + "/"
            && (forall j | 0 <= j < |c.profiles| ::
                  folders[j + 1] == c.prefix + "/" + (c.defaultContext + c.separator + c.profiles[j]) + "/")
            && (own ==> folders[n] == c.prefix + "/" + c.name + "/")
            && (own ==> forall j | 0 <= j < |c.profiles| ::
                  folders[n + (j + 1)] == c.prefix + "/" + (c.name + c.separator + c.profiles[j]) + "/")
  {
    var names := Names(c);
    if |names| == 1 then FoldersOf(c, names[0]) else FoldersOf(c, names[0]) + FoldersOf(c, names[1])
  }

  /** What the store answers about one folder. */
  datatype Answer = Unreachable | Listed(pairs: seq<Pair>, index: nat)

  datatype LoadError = ReadFailed(folder: string) | BothValueAndFolder(folder: string)

  /** The layers of the first `n` folders, or the first failure among them. */
  function LayersUpTo(folders: seq<string>, answers: seq<Answer>, n: nat): (r: Result<seq<Tree>, LoadError>)
    requires n <= |folders| == |answers|
    ensures r.Ok? ==> |r.value| == n && forall layer | layer in r.value :: layer.Node?
  {
    if n == 0 then Ok([])
    else
      match LayersUpTo(folders, answers, n - 1)
      case Err(e) => Err(e)
      case Ok(layers) =>
        match LayerOf(folders[n - 1], answers[n - 1])
        case Err(e) => Err(e)
        case Ok(t) => Ok(layers + [t])
  }

  function LayerOf(folder: string, answer: Answer): (r: Result<Tree, LoadError>)
    ensures r.Ok? ==> r.value.Node?
  {
    match answer
    case Unreachable => Err(ReadFailed(folder))
    case Listed(pairs, _) =>
      match Decode(folder, pairs)
      case None => Err(BothValueAndFolder(folder))
      case Some(t) => Ok(t)
  }

  function Layers(folders: seq<string>, answers: seq<Answer>): (r: Result<seq<Tree>, LoadError>)
    requires |answers| == |folders|
    ensures r.Ok? ==> |r.value| == |folders| && forall layer | layer in r.value :: layer.Node?
  {
    LayersUpTo(folders, answers, |folders|)
  }

  /** Layer `i` is folder `i` decoded. */
  lemma {:induction false} LayerIs(folders: seq<string>, answers: seq<Answer>, n: nat, i: nat)
    requires i < n <= |folders| == |answers| && LayersUpTo(folders, answers, n).Ok?
    ensures LayerOf(folders[i], answers[i]) == Ok(LayersUpTo(folders, answers, n).value[i])
  {
    var before := LayersUpTo(folders, answers, n - 1);
    assert LayersUpTo(folders, answers, n).value == before.value + [LayerOf(folders[n - 1], answers[n - 1]).value];
    if i < n - 1 {
      LayerIs(folders, answers, n - 1, i);
    }
  }

  /** A failure ends the reading: what the later folders hold does not count. */
  lemma {:induction false} FirstFailure(folders: seq<string>, answers: seq<Answer>, n: nat)
    requires n <= |folders| == |answers| && LayersUpTo(folders, answers, n).Err?
    ensures Layers(folders, answers) == LayersUpTo(folders, answers, n)
    decreases |folders| - n
  {
    if n < |folders| {
      FirstFailure(folders, answers, n + 1);
    }
  }

  /** The first `n` folders were read, and merging them gave `view`. */
  ghost predicate Merged(folders: seq<string>, answers: seq<Answer>, n: nat, view: Tree) {
    && n <= |folders| == |answers|
    && LayersUpTo(folders, answers, n).Ok?
    && view == MergeAll(LayersUpTo(folders, answers, n).value)
  }

  lemma OneMoreLayer(folders: seq<string>, answers: seq<Answer>, n: nat, view: Tree)
    requires n < |folders| && Merged(folders, answers, n, view) && LayerOf(folders[n], answers[n]).Ok?
    ensures view.Node? && Merged(folders, answers, n + 1, Merge(view, LayerOf(folders[n], answers[n]).value))
  {
    var layers, t := LayersUpTo(folders, answers, n).value, LayerOf(folders[n], answers[n]).value;
    assert (layers + [t])[..n] == layers;
  }

  lemma NoMoreLayers(folders: seq<string>, answers: seq<Answer>, n: nat, view: Tree)
    requires n < |folders| && Merged(folders, answers, n, view) && LayerOf(folders[n], answers[n]).Err?
    ensures Layers(folders, answers) == Err(LayerOf(folders[n], answers[n]).error)
  {
    FirstFailure(folders, answers, n + 1);
  }

  lemma FirstLayerFails(folders: seq<string>, answers: seq<Answer>)
    requires 0 < |folders| == |answers| && LayerOf(folders[0], answers[0]).Err?
    ensures Reading(folders, answers) == Err(LayerOf(folders[0], answers[0]).error)
  {
    NoMoreLayers(folders, answers, 0, EMPTY);
  }

  /** `decode` for a folder of keys: the new tree holds exactly the decoded
      settings; None when some key is both a value and a folder. */
  method DecodeFolder(prefix: string, pairs: seq<Pair>) returns (r: Option<Obj>)
    ensures r.Some? <==> Decode(prefix, pairs).Some?
    ensures r.Some? ==> fresh(r.value.Repr) && r.value.Valid() && r.value.View == Decode(prefix, pairs).value
  {
    var tree := new Obj();
    assert pairs[..0] == [];
    for i := 0 to |pairs|
      invariant fresh(tree.Repr) && tree.Valid() && Decode(prefix, pairs[..i]) == Some(tree.View)
    {
      DecodeStep(prefix, pairs, i);
      var rel := TrimPrefix(prefix, pairs[i].key);
      if !IsMarker(rel) {
        var ok := InsertSetting(tree, Split(rel), Text(pairs[i].value));
        if !ok {
          RefusedStays(prefix, pairs, i + 1);
          return None;
        }
      }
    }
    assert pairs[..|pairs|] == pairs;
    return Some(tree);
  }

  /** The highest index among the answers. */
  function MaxIndex(answers: seq<Answer>, n: nat): (m: nat)
    requires n <= |answers|
    ensures forall i | 0 <= i < n && answers[i].Listed? :: answers[i].index <= m
    ensures m == 0 || exists i :: 0 <= i < n && answers[i].Listed? && answers[i].index == m
  {
    if n == 0 then 0
    else
      var rest := MaxIndex(answers, n - 1);
      if answers[n - 1].Listed? && answers[n - 1].index > rest then answers[n - 1].index else rest
  }

  /** `load`: reads the folders in order and merges each into the result. The
      tree it returns is the merge of the layers, and nothing else refers to its
      maps. */
  method Load(folders: seq<string>, answers: seq<Answer>) returns (r: Result<Obj, LoadError>, maxIndex: nat)
    requires |answers| == |folders|
    ensures match Layers(folders, answers)
            case Ok(layers) =>
              && r.Ok? && fresh(r.value.Repr) && r.value.Valid() && r.value.View == MergeAll(layers)
              && maxIndex == MaxIndex(answers, |answers|)
            case Err(e) => r == Err(e) && maxIndex == 0
  {
    var merged := new Obj();
    maxIndex := 0;
    for i := 0 to |folders|
      invariant fresh(merged.Repr) && merged.Valid()
      invariant Merged(folders, answers, i, merged.View)
      invariant maxIndex == MaxIndex(answers, i)
    {
      match answers[i] {
        case Unreachable =>
          NoMoreLayers(folders, answers, i, merged.View);
          return Err(ReadFailed(folders[i])), 0;
        case Listed(pairs, index) =>
          maxIndex := if index > maxIndex then index else maxIndex;
          var layer := DecodeFolder(folders[i], pairs);
          if layer.None? {
            NoMoreLayers(folders, answers, i, merged.View);
            return Err(BothValueAndFolder(folders[i])), 0;
          }
          OneMoreLayer(folders, answers, i, merged.View);
          MergeInto(merged, layer.value);
      }
    }
    return Ok(merged), maxIndex;
  }

  /** What one evaluation reads: the merged tree, or why there is none. */
  function Reading(folders: seq<string>, answers: seq<Answer>): Result<Tree, LoadError>
    requires |answers| == |folders|
  {
    match Layers(folders, answers)
    case Err(e) => Err(e)
    case Ok(layers) => Ok(MergeAll(layers))
  }

  lemma {:induction false} LayersOfPrefix(folders: seq<string>, answers: seq<Answer>, n: nat, k: nat)
    requires k <= n <= |folders| == |answers|
    ensures LayersUpTo(folders, answers, k) == LayersUpTo(folders[..n], answers[..n], k)
  {
    if k > 0 {
      LayersOfPrefix(folders, answers, n, k - 1);
    }
  }

  /** Reading stops at the first folder that fails: what lies behind it is the same
      failure. */
  lemma FailedPrefix(folders: seq<string>, answers: seq<Answer>, n: nat)
    requires n <= |folders| == |answers| && Reading(folders[..n], answers[..n]).Err?
    ensures Reading(folders, answers) == Reading(folders[..n], answers[..n])
  {
    LayersOfPrefix(folders, answers, n, n);
    FirstFailure(folders, answers, n);
  }

  // ------------------------------------------------- what an application reads

  /** A decoded layer decides what lies at `p` exactly when it sets a value at
      `p`, above it or below it. */
  lemma DecidesComparable(layer: Tree, p: Path)
    requires Rooted(layer) && p != []
    ensures Decides(layer, p) <==> exists q :: LeafAt(layer, q).Some? && (q <= p || p <= q)
  {
    if Decides(layer, p) {
      var n :| 0 < n <= |p| && At(layer, p[..n]).Some? && (n == |p| || At(layer, p[..n]).value.Leaf?);
      var below := LeafBelow(layer, p[..n]);
      var q := p[..n] + below;
      assert LeafAt(layer, q).Some?;
      if n == |p| {
        assert p[..n] == p;
        assert p <= q;
      } else {
        assert At(layer, p[..n]).value.Leaf?;
        assert below == [] by {
          AtAppend(layer, p[..n], below);
        }
        assert q == p[..n];
      }
    }
    if q :| LeafAt(layer, q).Some? && (q <= p || p <= q) {
      if q <= p {
        assert q == p[..|q|];
      } else {
        assert q == p + q[|p|..];
        AtAppend(layer, p, q[|p|..]);
        assert p[..|p|] == p;
        assert At(layer, p[..|p|]).Some?;
      }
    }
  }

  lemma {:induction false} AtAppend(t: Tree, p: Path, q: Path)
    ensures At(t, p + q) == match At(t, p) case None => None case Some(u) => At(u, q)
    decreases |p|
  {
    if p == [] {
      assert p + q == q;
    } else if t.Node? && p[0] in t.kids {
      assert (p + q)[1..] == p[1..] + q;
      AtAppend(t.kids[p[0]], p[1..], q);
    }
  }

  lemma {:induction false} LeafBelow(t: Tree, p: Path) returns (below: Path)
    requires Rooted(t) && p != [] && At(t, p).Some?
    ensures LeafAt(t, p + below).Some?
  {
    PopulatedBelow(t, p);
    below := SomeLeaf(At(t, p).value);
    AtAppend(t, p, below);
  }

  lemma {:induction false} PopulatedBelow(t: Tree, p: Path)
    requires Rooted(t) && p != [] && At(t, p).Some?
    ensures Populated(At(t, p).value)
    decreases |p|
  {
    if |p| > 1 {
      PopulatedBelow(t.kids[p[0]], p[1..]);
    }
  }

  /** The folder gives path `p` the value `v`: the segments of `p`, joined by slashes,
      are a key below it. */
  ghost predicate Sets(folder: string, answer: Answer, p: Path, v: string) {
    answer.Listed? && Settable(p) && Pair(folder + Join(p), v) in answer.pairs
  }

  /** The folder sets `p`, something above it or something below it. */
  ghost predicate Touches(folder: string, answer: Answer, p: Path) {
    exists q, w :: Sets(folder, answer, q, w) && (q <= p || p <= q)
  }

  /** Folder `i` has the last word on `p`: it gives it `v`, and no later folder
      touches it. */
  ghost predicate LastWord(folders: seq<string>, answers: seq<Answer>, i: nat, p: Path, v: string)
    requires |folders| == |answers|
  {
    && i < |folders|
    && Sets(folders[i], answers[i], p, v)
    && forall j | i < j < |folders| :: !Touches(folders[j], answers[j], p)
  }

  /** The value an application reads at a path is the one given by the folder
      that has the last word on it, straight from the listed keys. */
  lemma {:induction false} LoadedValue(folders: seq<string>, answers: seq<Answer>, p: Path, v: string)
    requires |folders| == |answers| && Layers(folders, answers).Ok?
    requires forall i | 0 <= i < |folders| && answers[i].Listed? :: Listing(folders[i], answers[i].pairs)
    ensures LeafAt(MergeAll(Layers(folders, answers).value), p) == Some(Text(v)) <==>
            exists i :: LastWord(folders, answers, i, p, v)
  {
    var layers := Layers(folders, answers).value;
    forall i: nat | i < |folders|
      ensures LayerOf(folders[i], answers[i]) == Ok(layers[i])
    {
      LayerIs(folders, answers, |folders|, i);
    }
    Precedence(layers, p, Text(v));
    forall i: nat
      ensures Governs(layers, i, p, Text(v)) <==> LastWord(folders, answers, i, p, v)
    {
      GovernsIsLastWord(folders, answers, layers, i, p, v);
    }
  }

  lemma {:induction false} GovernsIsLastWord(folders: seq<string>, answers: seq<Answer>, layers: seq<Tree>, i: nat,
                                             p: Path, v: string)
    requires |folders| == |answers| == |layers|
    requires forall j | 0 <= j < |folders| :: LayerOf(folders[j], answers[j]) == Ok(layers[j])
    requires forall j | 0 <= j < |folders| && answers[j].Listed? :: Listing(folders[j], answers[j].pairs)
    ensures Governs(layers, i, p, Text(v)) <==> LastWord(folders, answers, i, p, v)
  {
    if i < |layers| {
      LayerSets(folders[i], answers[i], p, v);
      if p == [] {
        assert layers[i].Node?;
      } else {
        forall j | i < j < |folders|
          ensures Decides(layers[j], p) <==> Touches(folders[j], answers[j], p)
        {
          LayerTouches(folders[j], answers[j], p);
        }
      }
    }
  }

  lemma LayerSets(folder: string, answer: Answer, p: Path, v: string)
    requires answer.Listed? && Listing(folder, answer.pairs) && LayerOf(folder, answer).Ok?
    ensures LeafAt(LayerOf(folder, answer).value, p) == Some(Text(v)) <==> Sets(folder, answer, p, v)
  {
    DecodedLeaf(folder, answer.pairs, p, v);
  }

  lemma LayerTouches(folder: string, answer: Answer, p: Path)
    requires answer.Listed? && Listing(folder, answer.pairs) && LayerOf(folder, answer).Ok?
    requires p != []
    ensures Decides(LayerOf(folder, answer).value, p) <==> Touches(folder, answer, p)
  {
    var layer := LayerOf(folder, answer).value;
    InsertAllLeaves(Settings(folder, answer.pairs));
    DecidesComparable(layer, p);
    if Decides(layer, p) {
      var q :| LeafAt(layer, q).Some? && (q <= p || p <= q);
      var v := LeafAt(layer, q).value;
      LeavesAreText(folder, answer, q);
      LayerSets(folder, answer, q, v.text);
    }
    if q, w :| Sets(folder, answer, q, w) && (q <= p || p <= q) {
      LayerSets(folder, answer, q, w);
    }
  }

  lemma LeavesAreText(folder: string, answer: Answer, p: Path)
    requires answer.Listed? && Listing(folder, answer.pairs) && LayerOf(folder, answer).Ok?
    requires LeafAt(LayerOf(folder, answer).value, p).Some?
    ensures LeafAt(LayerOf(folder, answer).value, p).value.Text?
  {
    DecodeLeaves(folder, answer.pairs);
  }
}
