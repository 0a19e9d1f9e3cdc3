/** Layered configuration as values: trees, paths, the deep merge of two layers and
    subtrees. `ConfigHeap` proves that merging in place computes exactly this
    merge. */
module ConfigTree {
  import opened Outcomes

  /** The keys leading from the root of a tree to one of its values. */
  type Path = seq<string>

  /** Anything that is not an object. Lists are values: a layer replaces a list
      as a whole, whatever it holds. */
  datatype Scalar =
    | Text(text: string)
    | Number(number: real)
    | Flag(on: bool)
    | Null
    | List(items: seq<Tree>)

  datatype Tree = Leaf(scalar: Scalar) | Node(kids: map<string, Tree>)

  const EMPTY: Tree := Node(map[])

  function At(t: Tree, p: Path): Option<Tree>
    decreases |p|
  {
    if p == [] then Some(t)
    else if t.Node? && p[0] in t.kids then At(t.kids[p[0]], p[1..])
    else None
  }

  function LeafAt(t: Tree, p: Path): Option<Scalar> {
    match At(t, p)
    case Some(Leaf(v)) => Some(v)
    case _ => None
  }

  lemma LeafAtStep(t: Tree, p: Path)
    requires p != []
    ensures LeafAt(t, p) == if t.Node? && p[0] in t.kids then LeafAt(t.kids[p[0]], p[1..]) else None
  {
  }

  // ---------------------------------------------------------------- merging

  function Get(t: Tree, k: string): Option<Tree>
    requires t.Node?
  {
    if k in t.kids then Some(t.kids[k]) else None
  }

  /** `src` deep-merged over `dst`: objects merge key by key, any other value
      replaces the destination. */
  function Merge(dst: Tree, src: Tree): (merged: Tree)
    requires dst.Node? && src.Node?
    ensures merged.Node? && merged.kids.Keys == dst.kids.Keys + src.kids.Keys
    decreases src, 0
  {
    Node(map k | k in dst.kids.Keys + src.kids.Keys ::
           if k in src.kids then Combine(Get(dst, k), src.kids[k]) else dst.kids[k])
  }

  /** What the merged tree has under a key of the source. */
  function Combine(below: Option<Tree>, above: Tree): Tree
    decreases above, 1
  {
    if above.Leaf? then above
    else if below.Some? && below.value.Node? then Merge(below.value, above)
    else Merge(EMPTY, above)
  }

  /** `kids` is what merging has made of `dst` while the keys in `todo` are
      still to be merged. */
  ghost predicate PartlyMerged(dst: Tree, src: Tree, todo: set<string>, kids: map<string, Tree>)
    requires dst.Node? && src.Node?
  {
    && todo <= src.kids.Keys
    && kids.Keys == dst.kids.Keys + (src.kids.Keys - todo)
    && forall k | k in kids ::
         kids[k] == if k in src.kids && k !in todo then Combine(Get(dst, k), src.kids[k]) else dst.kids[k]
  }

  lemma MergedOneKey(dst: Tree, src: Tree, todo: set<string>, kids: map<string, Tree>, k: string)
    requires dst.Node? && src.Node? && k in todo && PartlyMerged(dst, src, todo, kids)
    ensures PartlyMerged(dst, src, todo - {k}, kids[k := Combine(Get(Node(kids), k), src.kids[k])])
  {
  }

  lemma MergedAllKeys(dst: Tree, src: Tree, kids: map<string, Tree>)
    requires dst.Node? && src.Node? && PartlyMerged(dst, src, {}, kids)
    ensures Node(kids) == Merge(dst, src)
  {
    assert kids == Merge(dst, src).kids;
  }

  /** The layers merged one after the other, lowest precedence first. */
  function MergeAll(layers: seq<Tree>): (merged: Tree)
    requires forall layer | layer in layers :: layer.Node?
    ensures merged.Node?
  {
    if layers == [] then EMPTY
    else Merge(MergeAll(layers[..|layers| - 1]), layers[|layers| - 1])
  }

  /** `layer` decides what lies at `p`: it has an object or another value at
      `p`, or a value that is not an object somewhere above `p`. */
  ghost predicate Decides(layer: Tree, p: Path) {
    exists n | 0 < n <= |p| ::
      At(layer, p[..n]).Some? && (n == |p| || At(layer, p[..n]).value.Leaf?)
  }

  lemma AtStep(t: Tree, p: Path, n: nat)
    requires 0 < n <= |p|
    ensures At(t, p[..n]) ==
            if t.Node? && p[0] in t.kids then At(t.kids[p[0]], p[1..][..n - 1]) else None
  {
    assert p[..n][1..] == p[1..][..n - 1];
  }

  lemma DecidesStep(layer: Tree, p: Path)
    requires layer.Node? && p != []
    ensures Decides(layer, p) <==>
            p[0] in layer.kids && (|p| == 1 || layer.kids[p[0]].Leaf? || Decides(layer.kids[p[0]], p[1..]))
  {
    var rest := p[1..];
    if Decides(layer, p) {
      var n :| 0 < n <= |p| && At(layer, p[..n]).Some? && (n == |p| || At(layer, p[..n]).value.Leaf?);
      AtStep(layer, p, n);
      assert n > 1 ==> At(layer.kids[p[0]], rest[..n - 1]).Some?;
    }
    if p[0] in layer.kids {
      var kid := layer.kids[p[0]];
      AtStep(layer, p, 1);
      if kid.Node? && |p| > 1 && Decides(kid, rest) {
        var n :| 0 < n <= |rest| && At(kid, rest[..n]).Some? && (n == |rest| || At(kid, rest[..n]).value.Leaf?);
        AtStep(layer, p, n + 1);
        assert At(layer, p[..n + 1]).Some?;
      }
    }
  }

  /** Where the source decides, the merged tree has the leaves of the source;
      everywhere else it has the leaves of the destination. */
  lemma {:induction false} MergeLeaf(dst: Tree, src: Tree, p: Path)
    requires dst.Node? && src.Node? && p != []
    ensures LeafAt(Merge(dst, src), p) == if Decides(src, p) then LeafAt(src, p) else LeafAt(dst, p)
    decreases |p|
  {
    DecidesStep(src, p);
    LeafAtStep(src, p);
    LeafAtStep(dst, p);
    LeafAtStep(Merge(dst, src), p);
    var k, rest := p[0], p[1..];
    if k in src.kids && src.kids[k].Node? && rest != [] {
      if k in dst.kids && dst.kids[k].Node? {
        MergeLeaf(dst.kids[k], src.kids[k], rest);
      } else {
        MergeLeaf(EMPTY, src.kids[k], rest);
        LeafAtStep(EMPTY, rest);
      }
    }
  }

  /** A layer that decides nothing more about a path than the layers before it
      leaves it alone; so the leaf at a path is that of the highest layer having
      one there that no later layer overrides. */
  ghost predicate Governs(layers: seq<Tree>, i: nat, p: Path, v: Scalar) {
    && i < |layers|
    && LeafAt(layers[i], p) == Some(v)
    && forall j | i < j < |layers| :: !Decides(layers[j], p)
  }

  lemma {:induction false} Precedence(layers: seq<Tree>, p: Path, v: Scalar)
    requires forall layer | layer in layers :: layer.Node?
    ensures LeafAt(MergeAll(layers), p) == Some(v) <==> exists i :: Governs(layers, i, p, v)
  {
    if layers == [] {
      assert LeafAt(EMPTY, p) == None;
    } else if p == [] {
      assert forall layer: Tree | layer.Node? :: LeafAt(layer, p) == None;
      assert forall i | 0 <= i < |layers| :: layers[i] in layers;
    } else {
      var last := |layers| - 1;
      var lower, top := layers[..last], layers[last];
      Precedence(lower, p, v);
      MergeLeaf(MergeAll(lower), top, p);
      if LeafAt(top, p).Some? {
        LeafDecides(top, p);
      }
      if Decides(top, p) {
        if LeafAt(top, p) == Some(v) {
          assert Governs(layers, last, p, v);
        }
        assert forall i | Governs(layers, i, p, v) :: i == last;
      } else {
        forall i: nat
          ensures Governs(lower, i, p, v) <==> Governs(layers, i, p, v)
        {
          if Governs(lower, i, p, v) {
            assert forall j | i < j < |layers| :: j == last || layers[j] == lower[j];
          }
          if Governs(layers, i, p, v) {
            assert i != last;
            assert forall j | i < j < |lower| :: lower[j] == layers[j];
          }
        }
      }
    }
  }

  lemma LeafDecides(layer: Tree, p: Path)
    requires p != [] && LeafAt(layer, p).Some?
    ensures Decides(layer, p)
  {
    assert p[..|p|] == p;
  }

  /** Merging into an empty object copies the source: the copy made for a new
      key holds exactly what the source holds. */
  lemma {:induction false} MergeIntoEmpty(src: Tree)
    requires src.Node?
    ensures Merge(EMPTY, src) == src
    decreases src
  {
    forall k | k in src.kids && src.kids[k].Node? {
      MergeIntoEmpty(src.kids[k]);
    }
    assert Merge(EMPTY, src).kids == src.kids;
  }

  // ---------------------------------------------------------------- subtrees

  /** The object at a path, or an empty one. */
  function Subtree(t: Tree, p: Path): (sub: Tree)
    requires t.Node?
    ensures sub.Node?
    decreases |p|
  {
    if p == [] then t
    else if p[0] in t.kids && t.kids[p[0]].Node? then Subtree(t.kids[p[0]], p[1..])
    else EMPTY
  }

  /** Binding a subtree sees the leaves below its path, and no others. */
  lemma {:induction false} SubtreeLeaf(t: Tree, p: Path, q: Path)
    requires t.Node? && q != []
    ensures LeafAt(Subtree(t, p), q) == LeafAt(t, p + q)
    decreases |p|
  {
    if p == [] {
      assert p + q == q;
    } else {
      assert (p + q)[1..] == p[1..] + q;
      LeafAtStep(t, p + q);
      if p[0] in t.kids && t.kids[p[0]].Node? {
        SubtreeLeaf(t.kids[p[0]], p[1..], q);
      } else {
        LeafAtStep(EMPTY, q);
      }
    }
  }
}
