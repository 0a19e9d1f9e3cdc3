/** The maps the loader changes in place: `merge` and `decode` on mutable
    objects, each proved to compute its function on values. */
module ConfigHeap {
  import opened Outcomes
  import opened ConfigTree
  import opened FolderDecode

  datatype Slot = Atom(scalar: Scalar) | Ref(obj: Obj)

  /** A mutable object: one Go map from keys to values. */
  class Obj {
    var entries: map<string, Slot>
    ghost var Repr: set<Obj>   // this object and the objects below it
    ghost var View: Tree       // the tree these objects hold

    /** The objects below this one form a tree: no map is reached twice. */
    ghost predicate Valid()
      reads this, Repr
      decreases Repr
      ensures Valid() ==> this in Repr && View.Node?
    {
      && this in Repr
      && View.Node?
      && View.kids.Keys == entries.Keys
      && (forall k | k in entries :: Holds(k))
      && (forall j, k | j in entries && k in entries && j != k && entries[j].Ref? && entries[k].Ref? ::
            entries[j].obj.Repr !! entries[k].obj.Repr)
    }

    /** The slot of `k` holds the tree the view has there. */
    ghost predicate Holds(k: string)
      requires this in Repr && View.Node? && View.kids.Keys == entries.Keys && k in entries
      reads this, Repr
      decreases Repr, 0
    {
      match entries[k]
      case Atom(v) => View.kids[k] == Leaf(v)
      case Ref(o) => o in Repr && o.Repr < Repr && this !in o.Repr && o.Valid() && View.kids[k] == o.View
    }

    /** Valid but for the object under `k`, which may have changed. */
    ghost predicate ValidExcept(k: string)
      reads this, Repr
    {
      && this in Repr
      && View.Node?
      && View.kids.Keys == entries.Keys
      && k in entries && entries[k].Ref?
      && (forall j | j in entries && j != k :: Holds(j))
      && (forall i, j | i in entries && j in entries && i != j && i != k && j != k &&
                        entries[i].Ref? && entries[j].Ref? ::
            entries[i].obj.Repr !! entries[j].obj.Repr)
    }

    /** The maps in `objs` are neither this one nor below another key than `k`. */
    ghost predicate Apart(k: string, objs: set<Obj>)
      requires ValidExcept(k)
      reads this, Repr
    {
      && this !in objs
      && forall j | j in entries && j != k && entries[j].Ref? :: entries[j].obj.Repr !! objs
    }

    /** Takes a change of the object under `k` into account. */
    ghost method Restore(k: string)
      requires ValidExcept(k) && entries[k].obj.Valid() && Apart(k, entries[k].obj.Repr)
      modifies this`Repr, this`View
      ensures Valid() && entries == old(entries)
      ensures Repr == old(Repr) + entries[k].obj.Repr
      ensures View == Node(old(View).kids[k := entries[k].obj.View])
    {
      var o := entries[k].obj;
      Repr := Repr + o.Repr;
      View := Node(View.kids[k := o.View]);
      assert forall j | j in entries :: Holds(j);
    }

    constructor ()
      ensures Valid() && fresh(Repr) && View == EMPTY && Repr == {this} && entries == map[]
    {
      entries := map[];
      Repr := {this};
      View := EMPTY;
    }

    /** Stores a value that is not an object. */
    method PutAtom(k: string, v: Scalar)
      requires Valid()
      modifies this
      ensures Valid() && Repr == old(Repr) && entries == old(entries)[k := Atom(v)]
      ensures View == Node(old(View.kids)[k := Leaf(v)])
    {
      entries := entries[k := Atom(v)];
      View := Node(View.kids[k := Leaf(v)]);
    }

    /** Stores an object that shares no map with this one. */
    method PutObj(k: string, o: Obj)
      requires Valid() && o.Valid() && o.Repr !! Repr
      modifies this
      ensures Valid() && Repr == old(Repr) + o.Repr && entries == old(entries)[k := Ref(o)]
      ensures View == Node(old(View.kids)[k := o.View])
    {
      entries := entries[k := Ref(o)];
      Repr := Repr + o.Repr;
      View := Node(View.kids[k := o.View]);
    }
  }

  /** `merge(dst, src)`, visiting the keys of `src` in any order. Afterwards the
      two trees have no map in common, and no map of `src` has changed. */
  method MergeInto(dst: Obj, src: Obj)
    requires dst.Valid() && src.Valid() && dst.Repr !! src.Repr
    modifies dst.Repr
    ensures dst.Valid() && dst.View == Merge(old(dst.View), src.View)
    ensures fresh(dst.Repr - old(dst.Repr)) && old(dst.Repr) <= dst.Repr
    ensures src.Valid() && dst.Repr !! src.Repr
    ensures forall o | o in src.Repr :: unchanged(o)
    decreases src.Repr, 2
  {
    var todo := src.entries.Keys;
    ghost var before, source := dst.View, src.View;
    while todo != {}
      invariant todo <= src.entries.Keys
      invariant dst.Valid() && src.Valid() && src.View == source && dst.Repr !! src.Repr
      invariant fresh(dst.Repr - old(dst.Repr)) && old(dst.Repr) <= dst.Repr
      invariant PartlyMerged(before, source, todo, dst.View.kids)
      decreases todo
    {
      var k :| k in todo;
      MergedOneKey(before, source, todo, dst.View.kids, k);
      MergeKey(dst, src, k);
      todo := todo - {k};
    }
    MergedAllKeys(before, source, dst.View.kids);
  }

  /** The step of `merge` for one key: the destination gets what the merged
      tree has there. */
  method MergeKey(dst: Obj, src: Obj, k: string)
    requires dst.Valid() && src.Valid() && dst.Repr !! src.Repr && k in src.entries
    modifies dst.Repr
    ensures dst.Valid() && src.Valid() && dst.Repr !! src.Repr
    ensures dst.View == Node(old(dst.View).kids[k := Combine(Get(old(dst.View), k), src.View.kids[k])])
    ensures fresh(dst.Repr - old(dst.Repr)) && old(dst.Repr) <= dst.Repr
    decreases src.Repr, 1
  {
    assert src.Holds(k);
    match src.entries[k] {
      case Atom(v) =>
        dst.PutAtom(k, v);
      case Ref(sm) =>
        if k in dst.entries {
          assert dst.Holds(k);
        }
        if k in dst.entries && dst.entries[k].Ref? {
          MergeChild(dst, k, sm);
        } else {
          MergeCopy(dst, k, sm);
        }
    }
  }

  /** Merging into a new object, stored under `k`. */
  method MergeCopy(dst: Obj, k: string, sm: Obj)
    requires dst.Valid() && sm.Valid() && dst.Repr !! sm.Repr
    modifies dst
    ensures dst.Valid() && sm.Valid() && dst.Repr !! sm.Repr
    ensures dst.View == Node(old(dst.View).kids[k := Merge(EMPTY, sm.View)])
    ensures fresh(dst.Repr - old(dst.Repr)) && old(dst.Repr) <= dst.Repr
    decreases sm.Repr, 3
  {
    var cp := new Obj();
    MergeInto(cp, sm);
    dst.PutObj(k, cp);
  }

  /** Merging into the object the destination already has under `k`. */
  method MergeChild(dst: Obj, k: string, sm: Obj)
    requires dst.Valid() && sm.Valid() && dst.Repr !! sm.Repr
    requires k in dst.entries && dst.entries[k].Ref? && dst.Holds(k)
    modifies dst.Repr
    ensures dst.Valid() && sm.Valid() && dst.Repr !! sm.Repr
    ensures dst.View == Node(old(dst.View).kids[k := Merge(old(dst.View).kids[k], sm.View)])
    ensures fresh(dst.Repr - old(dst.Repr)) && old(dst.Repr) <= dst.Repr
    decreases sm.Repr, 3
  {
    var dm := dst.entries[k].obj;
    assert dst.ValidExcept(k) && dst.Apart(k, dm.Repr);
    MergeInto(dm, sm);
    assert dst.ValidExcept(k) && dst.Apart(k, dm.Repr);
    dst.Restore(k);
  }

  // --------------------------------------------------------------- decoding

  /** The first `n` maps walked from the root: each holds the next one under its
      part of the path, and is in order but for what lies below that. */
  ghost predicate Spine(chain: seq<Obj>, parts: Path, n: nat)
    requires 0 < n <= |chain| <= |parts|
    reads chain, set o, x | o in chain && x in o.Repr :: x
  {
    forall j | 0 <= j < n - 1 ::
      && chain[j].ValidExcept(parts[j])
      && chain[j].entries[parts[j]].obj == chain[j + 1]
      && forall m | j < m < n :: chain[j].Apart(parts[j], chain[m].Repr)
  }

  /** What inserting at each map of the walk amounts to: inserting in the next
      one and storing the result. */
  ghost predicate Wants(chain: seq<Obj>, parts: Path, v: Scalar, wants: seq<Option<Tree>>)
    requires |parts| >= |chain| > 0
    reads chain
  {
    && |wants| == |chain|
    && (forall j | 0 <= j < |chain| :: chain[j].View.Node? && wants[j] == Insert(chain[j].View, parts[j..], v))
    && (forall j | 0 <= j < |chain| - 1 :: wants[j] == Lift(chain[j].View, parts[j], wants[j + 1]))
  }

  ghost function Lift(t: Tree, k: string, kid: Option<Tree>): Option<Tree>
    requires t.Node?
  {
    match kid
    case None => None
    case Some(u) => Some(Node(t.kids[k := u]))
  }

  /** The state of a walk: `chain` leads from the root to the current map, which
      is in order; `mine` holds every map the walk may change. */
  ghost predicate Walking(chain: seq<Obj>, parts: Path, v: Scalar, wants: seq<Option<Tree>>, mine: set<Obj>)
    requires 0 < |chain| <= |parts|
    reads chain, set o, x | o in chain && x in o.Repr :: x
  {
    && Spine(chain, parts, |chain|)
    && chain[|chain| - 1].Valid()
    && Wants(chain, parts, v, wants)
    && (forall j | 0 <= j < |chain| :: chain[j].Repr <= mine && chain[j] in mine)
    && (forall j, m | 0 <= j < m < |chain| :: chain[j] != chain[m])
  }

  /** The current map holds the next one under the next part, and is set aside for
      what lies below that. */
  lemma SpineDown(chain: seq<Obj>, parts: Path, next: Obj)
    requires 0 < |chain| < |parts| && Spine(chain, parts, |chain|) && chain[|chain| - 1].Valid()
    requires var node := chain[|chain| - 1]; var k := parts[|chain| - 1];
             k in node.entries && node.entries[k] == Ref(next)
    ensures next.Valid() && next.Repr <= chain[|chain| - 1].Repr && Spine(chain + [next], parts, |chain| + 1)
    ensures forall j | 0 <= j < |chain| :: chain[j] != next
  {
    var i := |chain| - 1;
    var node, longer := chain[i], chain + [next];
    assert node.Holds(parts[i]);
    assert node.ValidExcept(parts[i]) && node.Apart(parts[i], next.Repr);
    forall j | 0 <= j < i
      ensures longer[j].Apart(parts[j], next.Repr)
    {
      assert chain[j].Apart(parts[j], chain[i].Repr);
    }
  }

  lemma WantsDown(chain: seq<Obj>, parts: Path, v: Scalar, wants: seq<Option<Tree>>, next: Obj)
    requires 0 < |chain| < |parts| && Wants(chain, parts, v, wants)
    requires chain[|chain| - 1].Valid() && next.Valid()
    requires var node := chain[|chain| - 1]; var k := parts[|chain| - 1];
             k in node.entries && node.entries[k] == Ref(next)
    ensures Wants(chain + [next], parts, v, wants + [Insert(next.View, parts[|chain|..], v)])
  {
    var i := |chain| - 1;
    assert chain[i].Holds(parts[i]);
    assert parts[i..][1..] == parts[i + 1..];
    assert wants[i] == Lift(chain[i].View, parts[i], Insert(next.View, parts[i + 1..], v));
  }

  /** One step of the walk into the map stored under the next part. */
  lemma StepDown(chain: seq<Obj>, parts: Path, v: Scalar, wants: seq<Option<Tree>>, mine: set<Obj>, next: Obj)
    requires 0 < |chain| < |parts| && Walking(chain, parts, v, wants, mine)
    requires var node := chain[|chain| - 1]; var k := parts[|chain| - 1];
             k in node.entries && node.entries[k] == Ref(next)
    ensures next.Valid() &&
            Walking(chain + [next], parts, v, wants + [Insert(next.View, parts[|chain|..], v)], mine)
  {
    SpineDown(chain, parts, next);
    WantsDown(chain, parts, v, wants, next);
  }

  /** Where the walk meets a value, the setting cannot be stored. */
  lemma {:induction false} Refused(chain: seq<Obj>, parts: Path, v: Scalar, wants: seq<Option<Tree>>, mine: set<Obj>,
                                   j: nat)
    requires j < |chain| <= |parts| && Walking(chain, parts, v, wants, mine) && wants[|chain| - 1].None?
    ensures wants[j].None?
    decreases |chain| - j
  {
    if j < |chain| - 1 {
      Refused(chain, parts, v, wants, mine, j + 1);
    }
  }

  /** The walk stands where a key is both a value and a folder. */
  lemma Blocked(chain: seq<Obj>, parts: Path, v: Scalar, wants: seq<Option<Tree>>, mine: set<Obj>)
    requires 0 < |chain| <= |parts| && Walking(chain, parts, v, wants, mine)
    requires var node := chain[|chain| - 1]; var k := parts[|chain| - 1];
             k in node.entries && (if |chain| < |parts| then node.entries[k].Atom? else node.entries[k].Ref?)
    ensures wants[0].None?
  {
    var last := |chain| - 1;
    assert chain[last].Holds(parts[last]);
    assert parts[last..][0] == parts[last];
    Refused(chain, parts, v, wants, mine, 0);
  }

  /** Creates the folder the walk is to enter. */
  method PutFolder(node: Obj, k: string, ghost chain: seq<Obj>, ghost parts: Path) returns (next: Obj)
    requires 0 < |chain| < |parts| && Spine(chain, parts, |chain|)
    requires node == chain[|chain| - 1] && node.Valid() && k == parts[|chain| - 1] && k !in node.entries
    requires forall j | 0 <= j < |chain| - 1 :: chain[j] != node
    modifies node
    ensures fresh(next) && node.Valid() && Spine(chain, parts, |chain|)
    ensures k in node.entries && node.entries[k] == Ref(next)
    ensures node.Repr == old(node.Repr) + {next}
    ensures node.View == Node(old(node.View).kids[k := EMPTY])
  {
    next := new Obj();
    node.PutObj(k, next);
    forall j | 0 <= j < |chain| - 1
      ensures chain[j].ValidExcept(parts[j])
      ensures forall m | j < m < |chain| :: chain[j].Apart(parts[j], chain[m].Repr)
    {
      assert old(chain[j].ValidExcept(parts[j])) && old(chain[j].Apart(parts[j], node.Repr));
      assert chain[j].ValidExcept(parts[j]);
      forall m | j < m < |chain|
        ensures chain[j].Apart(parts[j], chain[m].Repr)
      {
        assert old(chain[j].Apart(parts[j], chain[m].Repr));
      }
    }
    assert Spine(chain, parts, |chain|);
  }

  method AddFolder(node: Obj, k: string, ghost chain: seq<Obj>, ghost parts: Path, ghost v: Scalar,
                   ghost wants: seq<Option<Tree>>, ghost mine: set<Obj>) returns (next: Obj)
    requires 0 < |chain| < |parts| && Walking(chain, parts, v, wants, mine)
    requires node == chain[|chain| - 1] && k == parts[|chain| - 1] && k !in node.entries
    modifies node
    ensures fresh(next) && Walking(chain, parts, v, wants, mine + {next})
    ensures k in node.entries && node.entries[k] == Ref(next)
  {
    next := PutFolder(node, k, chain, parts);
    InsertInNewFolder(old(node.View), parts[|chain| - 1..], v);
    assert Wants(chain, parts, v, wants);
  }

  /** One round of the walk: enters the folder under `part`, creating it when it
      is missing. */
  method Enter(node: Obj, part: string, ghost chain: seq<Obj>, ghost parts: Path, ghost v: Scalar,
               ghost wants: seq<Option<Tree>>, ghost mine: set<Obj>)
    returns (next: Obj, ghost chain': seq<Obj>, ghost wants': seq<Option<Tree>>, ghost mine': set<Obj>)
    requires 0 < |chain| < |parts| && Walking(chain, parts, v, wants, mine)
    requires node == chain[|chain| - 1] && part == parts[|chain| - 1]
    requires part in node.entries ==> node.entries[part].Ref?
    modifies node
    ensures chain' == chain + [next] && Walking(chain', parts, v, wants', mine')
    ensures wants <= wants' && fresh(mine' - mine) && mine <= mine'
  {
    mine' := mine;
    if part !in node.entries {
      var made := AddFolder(node, part, chain, parts, v, wants, mine);
      mine' := mine' + {made};
    }
    next := node.entries[part].obj;
    StepDown(chain, parts, v, wants, mine', next);
    chain', wants' := chain + [next], wants + [Insert(next.View, parts[|chain|..], v)];
  }

  lemma InsertInNewFolder(t: Tree, p: Path, v: Scalar)
    requires t.Node? && |p| > 1 && p[0] !in t.kids
    ensures Insert(t, p, v) == Insert(Node(t.kids[p[0] := EMPTY]), p, v)
  {
    var t' := Node(t.kids[p[0] := EMPTY]);
    var kid := Insert(EMPTY, p[1..], v);
    if kid.Some? {
      assert t.kids[p[0] := kid.value] == t'.kids[p[0] := kid.value];
    }
  }

  lemma WalkStarts(tree: Obj, parts: Path, v: Scalar)
    requires tree.Valid() && parts != []
    ensures Walking([tree], parts, v, [Insert(tree.View, parts, v)], tree.Repr)
  {
    assert parts[0..] == parts;
  }

  /** Walks down the path as far as the map that is to hold the value, creating the
      folders that are missing. False when a key on the way holds a value. */
  method Walk(tree: Obj, parts: Path, ghost v: Scalar)
    returns (ok: bool, node: Obj, ghost chain: seq<Obj>, ghost wants: seq<Option<Tree>>, ghost mine: set<Obj>)
    requires tree.Valid() && parts != []
    modifies tree.Repr
    ensures ok ==> |chain| == |parts| && chain[0] == tree && chain[|chain| - 1] == node
    ensures ok ==> Walking(chain, parts, v, wants, mine) && wants[0] == Insert(old(tree.View), parts, v)
    ensures ok ==> fresh(mine - old(tree.Repr))
    ensures !ok ==> Insert(old(tree.View), parts, v).None?
  {
    var i := 0;
    node := tree;
    WalkStarts(tree, parts, v);
    chain, wants, mine := [tree], [Insert(tree.View, parts, v)], tree.Repr;
    while i < |parts| - 1
      invariant 0 <= i < |parts| && |chain| == i + 1 && chain[0] == tree && chain[i] == node
      invariant Walking(chain, parts, v, wants, mine)
      invariant wants[0] == Insert(old(tree.View), parts, v)
      invariant fresh(mine - old(tree.Repr))
    {
      var part := parts[i];
      if part in node.entries && node.entries[part].Atom? {
        Blocked(chain, parts, v, wants, mine);
        ok := false;
        return;
      }
      node, chain, wants, mine := Enter(node, part, chain, parts, v, wants, mine);
      i := i + 1;
    }
    ok := true;
  }

  /** One setting stored in place. False when a key on the way is both a value and a
      folder. */
  method InsertSetting(tree: Obj, parts: Path, v: Scalar) returns (ok: bool)
    requires tree.Valid() && parts != []
    modifies tree.Repr
    ensures ok <==> Insert(old(tree.View), parts, v).Some?
    ensures ok ==> tree.Valid() && tree.View == Insert(old(tree.View), parts, v).value
    ensures ok ==> fresh(tree.Repr - old(tree.Repr))
  {
    var node;
    ghost var chain, wants, mine;
    ok, node, chain, wants, mine := Walk(tree, parts, v);
    if !ok {
      return;
    }
    var leaf := parts[|parts| - 1];
    if leaf in node.entries && node.entries[leaf].Ref? {
      Blocked(chain, parts, v, wants, mine);
      return false;
    }
    StoreLeaf(node, leaf, v, chain, parts, wants, mine);
    RestoreAll(chain, parts, wants, mine);
  }

  /** On the way back up: the maps from the root to number `j` form a spine whose
      last map is in order and holds the tree wanted there. */
  ghost predicate Rising(chain: seq<Obj>, parts: Path, wants: seq<Option<Tree>>, mine: set<Obj>, j: nat)
    requires j < |chain| <= |parts| && |wants| == |chain|
    reads chain, set o, x | o in chain && x in o.Repr :: x
  {
    && Spine(chain, parts, j + 1)
    && chain[j].Valid() && Some(chain[j].View) == wants[j]
    && (forall l | 0 <= l < j :: chain[l].View.Node? && wants[l] == Lift(chain[l].View, parts[l], wants[l + 1]))
    && (forall l | 0 <= l <= j :: chain[l].Repr <= mine)
    && (forall l, m | 0 <= l < m < |chain| :: chain[l] != chain[m])
  }

  ghost method RestoreAbove(up: Obj, chain: seq<Obj>, parts: Path, wants: seq<Option<Tree>>, mine: set<Obj>, j: nat)
    requires 0 < j < |chain| <= |parts| && |wants| == |chain| && Rising(chain, parts, wants, mine, j)
    requires up == chain[j - 1]
    modifies up`Repr, up`View
    ensures Rising(chain, parts, wants, mine, j - 1)
  {
    up.Restore(parts[j - 1]);
    forall l | 0 <= l < j - 1
      ensures chain[l].ValidExcept(parts[l])
      ensures forall m | l < m < j :: chain[l].Apart(parts[l], chain[m].Repr)
    {
      assert old(chain[l].ValidExcept(parts[l]));
      assert old(chain[l].Apart(parts[l], up.Repr)) && old(chain[l].Apart(parts[l], chain[j].Repr));
      assert chain[l].ValidExcept(parts[l]);
      forall m | l < m < j
        ensures chain[l].Apart(parts[l], chain[m].Repr)
      {
        assert old(chain[l].Apart(parts[l], chain[m].Repr));
      }
    }
    assert Spine(chain, parts, j);
  }

  /** Stores the value at the end of the walk. */
  method StoreLeaf(node: Obj, leaf: string, v: Scalar, ghost chain: seq<Obj>, ghost parts: Path,
                   ghost wants: seq<Option<Tree>>, ghost mine: set<Obj>)
    requires 0 < |chain| == |parts| && Walking(chain, parts, v, wants, mine)
    requires node == chain[|chain| - 1] && leaf == parts[|chain| - 1]
    requires leaf in node.entries ==> node.entries[leaf].Atom?
    modifies node
    ensures Rising(chain, parts, wants, mine, |chain| - 1)
  {
    assert leaf in node.entries ==> node.Holds(leaf);
    assert parts[|chain| - 1..] == [leaf];
    node.PutAtom(leaf, v);
    forall j | 0 <= j < |chain| - 1
      ensures chain[j].ValidExcept(parts[j])
      ensures forall m | j < m < |chain| :: chain[j].Apart(parts[j], chain[m].Repr)
    {
      assert old(chain[j].ValidExcept(parts[j])) && old(chain[j].Apart(parts[j], node.Repr));
      assert chain[j].ValidExcept(parts[j]);
      forall m | j < m < |chain|
        ensures chain[j].Apart(parts[j], chain[m].Repr)
      {
        assert old(chain[j].Apart(parts[j], chain[m].Repr));
      }
    }
    assert Spine(chain, parts, |chain|);
  }

  /** The maps above the one changed are put in order again, up to the root. */
  ghost method RestoreAll(chain: seq<Obj>, parts: Path, wants: seq<Option<Tree>>, mine: set<Obj>)
    requires 0 < |chain| <= |parts| && |wants| == |chain|
    requires Rising(chain, parts, wants, mine, |chain| - 1)
    modifies chain
    ensures chain[0].Valid() && Some(chain[0].View) == wants[0]
    ensures chain[0].Repr <= mine
  {
    var j := |chain| - 1;
    while j > 0
      invariant 0 <= j < |chain| && Rising(chain, parts, wants, mine, j)
    {
      RestoreAbove(chain[j - 1], chain, parts, wants, mine, j);
      j := j - 1;
    }
  }
}
