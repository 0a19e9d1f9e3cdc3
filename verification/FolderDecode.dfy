/** Decoding one folder of flat keys into a tree, as values. */
module FolderDecode {
  import opened Outcomes
  import opened ConfigTree

  /** One key of a folder, as the store lists it. */
  datatype Pair = Pair(key: string, value: string)

  /** One setting: the path of a key below its folder and its value. */
  datatype Setting = Setting(path: Path, value: string)

  // ------------------------------------------------------------------- keys

  function TrimPrefix(prefix: string, key: string): string {
    if prefix <= key then key[|prefix|..] else key
  }

  /** Keys naming a folder hold no setting. */
  predicate IsMarker(rel: string) {
    rel == "" || rel[|rel| - 1] == '/'
  }

  function SlashIndex(s: string): (n: nat)
    ensures n <= |s|
    ensures forall i | 0 <= i < n :: s[i] != '/'
    ensures n < |s| ==> s[n] == '/'
  {
    if s == "" || s[0] == '/' then 0 else 1 + SlashIndex(s[1..])
  }

  function Split(s: string): (parts: Path)
    ensures parts != []
    decreases |s|
  {
    var n := SlashIndex(s);
    if n == |s| then [s] else [s[..n]] + Split(s[n + 1..])
  }

  function Join(parts: Path): string
    requires parts != []
  {
    if |parts| == 1 then parts[0] else parts[0] + "/" + Join(parts[1..])
  }

  lemma {:induction false} JoinFirst(part: string, rest: Path)
    requires rest != []
    ensures Join([part] + rest) == part + "/" + Join(rest)
  {
    assert ([part] + rest)[1..] == rest;
  }

  lemma {:induction false} CutAt(s: string, n: nat)
    requires n < |s| && s[n] == '/'
    ensures s[..n] + "/" + s[n + 1..] == s
  {
    assert s[n..] == "/" + s[n + 1..];
  }

  /** Splitting loses nothing, so different keys of a folder have different paths. */
  lemma {:induction false} JoinSplit(s: string)
    ensures Join(Split(s)) == s
    decreases |s|
  {
    var n := SlashIndex(s);
    if n < |s| {
      var front, rest := s[..n], s[n + 1..];
      JoinSplit(rest);
      JoinFirst(front, Split(rest));
      CutAt(s, n);
    }
  }

  ghost predicate NoSlash(part: string) {
    forall i | 0 <= i < |part| :: part[i] != '/'
  }

  /** The segments of some key: one at least, and none with a slash in it. */
  ghost predicate Segments(parts: Path) {
    parts != [] && forall i | 0 <= i < |parts| :: NoSlash(parts[i])
  }

  lemma {:induction false} SplitSegments(s: string)
    ensures Segments(Split(s))
    decreases |s|
  {
    var n := SlashIndex(s);
    if n < |s| {
      SplitSegments(s[n + 1..]);
    }
  }

  lemma SplitFirst(part: string, rest: string)
    requires NoSlash(part)
    ensures Split(part) == [part] && Split(part + "/" + rest) == [part] + Split(rest)
  {
    var s := part + "/" + rest;
    assert s[|part|] == '/';
    assert forall i | 0 <= i < |part| :: s[i] == part[i];
    assert SlashIndex(part) == |part| && SlashIndex(s) == |part|;
    assert s[..|part|] == part && s[|part| + 1..] == rest;
  }

  /** Splitting cuts at every slash: what was joined comes apart again. */
  lemma {:induction false} SplitJoin(parts: Path)
    requires Segments(parts)
    ensures Split(Join(parts)) == parts
  {
    var part, rest := parts[0], parts[1..];
    assert parts == [part] + rest;
    if rest == [] {
      SplitFirst(part, "");
    } else {
      SplitFirst(part, Join(rest));
      SplitJoin(rest);
    }
  }

  lemma {:induction false} JoinAppend(a: Path, b: Path)
    requires a != [] && b != []
    ensures Join(a + b) == Join(a) + "/" + Join(b)
  {
    assert (a + b)[0] == a[0] && (a + b)[1..] == a[1..] + b;
    if |a| == 1 {
      assert (a + b)[1..] == b;
    } else {
      JoinAppend(a[1..], b);
    }
  }

  lemma {:induction false} SplitAppend(a: string, rest: string)
    ensures Split(a + "/" + rest) == Split(a) + Split(rest)
  {
    JoinSplit(a);
    JoinSplit(rest);
    SplitSegments(a);
    SplitSegments(rest);
    JoinAppend(Split(a), Split(rest));
    SplitJoin(Split(a) + Split(rest));
  }

  /** A path lies strictly above another exactly when its key with a slash starts the
      other's. */
  lemma AboveIsPrefix(a: string, b: string)
    ensures Split(a) < Split(b) <==> a + "/" <= b
  {
    if Split(a) < Split(b) {
      var rest := Split(b)[|Split(a)|..];
      assert Split(b) == Split(a) + rest;
      JoinSplit(a);
      JoinSplit(b);
      JoinAppend(Split(a), rest);
    }
    if a + "/" <= b {
      var rest := b[|a + "/"|..];
      assert b == a + "/" + rest;
      SplitAppend(a, rest);
    }
  }

  lemma {:induction false} JoinEnds(parts: Path)
    requires Segments(parts)
    ensures IsMarker(Join(parts)) <==> parts[|parts| - 1] == ""
  {
    if |parts| > 1 {
      JoinEnds(parts[1..]);
      var rest := Join(parts[1..]);
      assert rest != "" ==> Join(parts)[|Join(parts)| - 1] == rest[|rest| - 1];
    }
  }

  /** The settings among the pairs listed for a folder, in their order. */
  function Settings(prefix: string, pairs: seq<Pair>): (settings: seq<Setting>)
    ensures forall s | s in settings :: s.path != []
  {
    if pairs == [] then []
    else
      var last := pairs[|pairs| - 1];
      var rel := TrimPrefix(prefix, last.key);
      Settings(prefix, pairs[..|pairs| - 1]) +
      (if IsMarker(rel) then [] else [Setting(Split(rel), last.value)])
  }

  // -------------------------------------------------------------- insertion

  /** `t` with one more setting; None when a key on the way is both a value and
      a folder. */
  function Insert(t: Tree, p: Path, v: Scalar): (r: Option<Tree>)
    requires t.Node? && p != []
    ensures r.Some? ==> r.value.Node?
    decreases |p|
  {
    var k := p[0];
    if |p| == 1 then
      if k in t.kids && t.kids[k].Node? then None else Some(Node(t.kids[k := Leaf(v)]))
    else if k in t.kids && t.kids[k].Leaf? then None
    else
      match Insert(if k in t.kids then t.kids[k] else EMPTY, p[1..], v)
      case None => None
      case Some(kid) => Some(Node(t.kids[k := kid]))
  }

  function InsertAll(settings: seq<Setting>): (r: Option<Tree>)
    requires forall s | s in settings :: s.path != []
    ensures r.Some? ==> r.value.Node?
  {
    if settings == [] then Some(EMPTY)
    else
      var last := settings[|settings| - 1];
      match InsertAll(settings[..|settings| - 1])
      case None => None
      case Some(t) => Insert(t, last.path, Text(last.value))
  }

  function Decode(prefix: string, pairs: seq<Pair>): (r: Option<Tree>)
    ensures r.Some? ==> r.value.Node?
  {
    InsertAll(Settings(prefix, pairs))
  }

  // ------------------------------------------------------------ properties

  /** Every object holds something: decoding makes no empty folder. */
  predicate Populated(t: Tree) {
    t.Node? ==> t.kids != map[] && forall k | k in t.kids :: Populated(t.kids[k])
  }

  predicate Rooted(t: Tree) {
    t.Node? && forall k | k in t.kids :: Populated(t.kids[k])
  }

  /** No leaf of `t` lies strictly above or strictly below `p`. */
  ghost predicate Fits(t: Tree, p: Path) {
    forall q | LeafAt(t, q).Some? :: !(q < p) && !(p < q)
  }

  lemma {:induction false} SomeLeaf(t: Tree) returns (p: Path)
    requires Populated(t)
    ensures LeafAt(t, p).Some?
    decreases t
  {
    if t.Leaf? {
      p := [];
    } else {
      var k :| k in t.kids;
      var rest := SomeLeaf(t.kids[k]);
      p := [k] + rest;
      assert p[1..] == rest;
    }
  }

  lemma FitsStep(t: Tree, p: Path)
    requires Rooted(t) && p != []
    ensures Fits(t, p) <==>
            p[0] in t.kids ==>
              if |p| == 1 then t.kids[p[0]].Leaf? else t.kids[p[0]].Node? && Fits(t.kids[p[0]], p[1..])
  {
    var k, rest := p[0], p[1..];
    if k in t.kids {
      var kid := t.kids[k];
      forall q | LeafAt(kid, q).Some?
        ensures LeafAt(t, [k] + q).Some?
        ensures [k] + q < p <==> q < rest
        ensures p < [k] + q <==> rest < q
      {
        assert ([k] + q)[1..] == q;
        assert p == [k] + rest;
      }
      forall q | LeafAt(t, q).Some? && q != [] && q[0] == k
        ensures LeafAt(kid, q[1..]).Some?
        ensures q < p <==> q[1..] < rest
        ensures p < q <==> rest < q[1..]
      {
        assert p == [k] + rest && q == [k] + q[1..];
      }
      if |p| == 1 && kid.Node? {
        var q := SomeLeaf(kid);
        assert q != [];
        assert LeafAt(t, [k] + q).Some?;
      }
      if |p| > 1 && kid.Leaf? {
        assert LeafAt(kid, []).Some?;
        assert LeafAt(t, [k] + []).Some?;
      }
    }
    assert forall q | LeafAt(t, q).Some? :: q != [] && q[0] in t.kids;
  }

  /** A setting goes in exactly when it fits, and then changes that one leaf. */
  lemma {:induction false} InsertLeaf(t: Tree, p: Path, v: Scalar)
    requires Rooted(t) && p != []
    ensures Insert(t, p, v).Some? <==> Fits(t, p)
    ensures Insert(t, p, v).Some? ==>
              var u := Insert(t, p, v).value;
              Rooted(u) && Populated(u) &&
              forall q :: LeafAt(u, q) == if q == p then Some(v) else LeafAt(t, q)
    decreases |p|
  {
    FitsStep(t, p);
    var k, rest := p[0], p[1..];
    if |p| > 1 && !(k in t.kids && t.kids[k].Leaf?) {
      var below := if k in t.kids then t.kids[k] else EMPTY;
      InsertLeaf(below, rest, v);
      if k !in t.kids {
        assert forall q :: LeafAt(EMPTY, q) == None;
        assert Fits(EMPTY, rest);
      }
    }
    if Insert(t, p, v).Some? {
      var u := Insert(t, p, v).value;
      assert k in u.kids;
      forall q
        ensures LeafAt(u, q) == if q == p then Some(v) else LeafAt(t, q)
      {
        if q != [] {
          LeafAtStep(u, q);
          LeafAtStep(t, q);
          assert q == p <==> q[0] == k && q[1..] == rest by {
            assert q == [q[0]] + q[1..] && p == [k] + rest;
          }
          if |p| > 1 && q[0] == k && k !in t.kids {
            assert LeafAt(EMPTY, q[1..]) == None;
          }
          if |p| == 1 && q[0] == k && q[1..] != [] {
            assert LeafAt(Leaf(v), q[1..]) == None;
            assert k in t.kids ==> LeafAt(t.kids[k], q[1..]) == None;
          }
        }
      }
    }
  }

  /** The value the settings give to a path: that of the last one, as when they
      are written one after the other. */
  function ValueAt(settings: seq<Setting>, p: Path): Option<Scalar> {
    if settings == [] then None
    else if settings[|settings| - 1].path == p then Some(Text(settings[|settings| - 1].value))
    else ValueAt(settings[..|settings| - 1], p)
  }

  /** No path is a strict segment-prefix of another: nothing is both a value
      and a folder. */
  ghost predicate Consistent(settings: seq<Setting>) {
    forall a, b | a in settings && b in settings :: !(a.path < b.path)
  }

  lemma {:induction false} ValueAtSome(settings: seq<Setting>, p: Path)
    ensures ValueAt(settings, p).Some? <==> exists s :: s in settings && s.path == p
  {
    if settings != [] {
      var init, last := settings[..|settings| - 1], settings[|settings| - 1];
      assert settings == init + [last];
      ValueAtSome(init, p);
    }
  }

  /** Decoding succeeds exactly on consistent settings, and then the leaves of
      the tree are exactly the settings. */
  lemma {:induction false} InsertAllLeaves(settings: seq<Setting>)
    requires forall s | s in settings :: s.path != []
    ensures InsertAll(settings).Some? <==> Consistent(settings)
    ensures InsertAll(settings).Some? ==>
              Rooted(InsertAll(settings).value) &&
              forall p :: LeafAt(InsertAll(settings).value, p) == ValueAt(settings, p)
  {
    if settings == [] {
      assert forall p :: LeafAt(EMPTY, p) == None;
    } else {
      var init, last := settings[..|settings| - 1], settings[|settings| - 1];
      assert settings == init + [last];
      InsertAllLeaves(init);
      if InsertAll(init).Some? {
        var t := InsertAll(init).value;
        InsertLeaf(t, last.path, Text(last.value));
        forall p { ValueAtSome(init, p); }
        FitsSettings(t, init, last.path);
      }
    }
  }

  lemma FitsSettings(t: Tree, settings: seq<Setting>, p: Path)
    requires forall q :: LeafAt(t, q).Some? <==> exists s :: s in settings && s.path == q
    ensures Fits(t, p) <==> forall s | s in settings :: !(s.path < p) && !(p < s.path)
  {
    forall s | s in settings
      ensures LeafAt(t, s.path).Some?
    {
    }
  }

  /** The order of the pairs does not matter when the paths are distinct: the
      same settings in any order give the same tree, or are refused alike. */
  lemma InsertAllOrder(a: seq<Setting>, b: seq<Setting>)
    requires forall s | s in a :: s.path != []
    requires forall s :: s in a <==> s in b
    requires forall s, t | s in a && t in a :: s.path == t.path ==> s == t
    ensures InsertAll(a) == InsertAll(b)
  {
    InsertAllLeaves(a);
    InsertAllLeaves(b);
    if InsertAll(a).Some? {
      var t, u := InsertAll(a).value, InsertAll(b).value;
      forall p
        ensures LeafAt(t, p) == LeafAt(u, p)
      {
        SoleValue(a, p);
        SoleValue(b, p);
      }
      SameLeaves(t, u);
    }
  }

  lemma {:induction false} SoleValue(settings: seq<Setting>, p: Path)
    ensures ValueAt(settings, p).Some? ==>
              exists s :: s in settings && s.path == p && Some(Text(s.value)) == ValueAt(settings, p)
    ensures (exists s :: s in settings && s.path == p) ==> ValueAt(settings, p).Some?
  {
    ValueAtSome(settings, p);
    if settings != [] && settings[|settings| - 1].path != p {
      SoleValue(settings[..|settings| - 1], p);
    }
  }

  /** Trees without empty objects are determined by their leaves. */
  lemma {:induction false} SameLeaves(t: Tree, u: Tree)
    requires Rooted(t) && Rooted(u)
    requires forall p :: LeafAt(t, p) == LeafAt(u, p)
    ensures t == u
    decreases t
  {
    SameKeys(t, u);
    SameKeys(u, t);
    forall k | k in t.kids
      ensures t.kids[k] == u.kids[k]
    {
      var x, y := t.kids[k], u.kids[k];
      forall p
        ensures LeafAt(x, p) == LeafAt(y, p)
      {
        assert ([k] + p)[1..] == p;
        assert LeafAt(t, [k] + p) == LeafAt(x, p);
        assert LeafAt(u, [k] + p) == LeafAt(y, p);
      }
      assert LeafAt(x, []) == LeafAt(y, []);
      if x.Node? {
        SameLeaves(x, y);
      }
    }
    assert t.kids == u.kids;
  }

  lemma SameKeys(t: Tree, u: Tree)
    requires Rooted(t) && Rooted(u)
    requires forall p :: LeafAt(t, p) == LeafAt(u, p)
    ensures t.kids.Keys <= u.kids.Keys
  {
    forall k | k in t.kids
      ensures k in u.kids
    {
      var p := SomeLeaf(t.kids[k]);
      assert ([k] + p)[1..] == p;
      assert LeafAt(t, [k] + p).Some?;
      LeafAtStep(u, [k] + p);
    }
  }

  // ------------------------------------------------------- from pairs to leaves

  /** What a pair contributes: a setting, unless it marks a folder. */
  predicate Gives(prefix: string, pair: Pair, s: Setting) {
    var rel := TrimPrefix(prefix, pair.key);
    !IsMarker(rel) && s == Setting(Split(rel), pair.value)
  }

  lemma {:induction false} SettingsMembers(prefix: string, pairs: seq<Pair>, s: Setting)
    ensures s in Settings(prefix, pairs) <==> exists pair :: pair in pairs && Gives(prefix, pair, s)
  {
    if pairs != [] {
      var init, last := pairs[..|pairs| - 1], pairs[|pairs| - 1];
      assert pairs == init + [last];
      SettingsMembers(prefix, init, s);
      if Gives(prefix, last, s) {
        assert last in pairs;
      }
      assert s in Settings(prefix, pairs) <==> s in Settings(prefix, init) || Gives(prefix, last, s);
    }
  }

  /** The listing of a folder: its keys lie below the prefix and are distinct. */
  ghost predicate Listing(prefix: string, pairs: seq<Pair>) {
    && (forall x | x in pairs :: prefix <= x.key)
    && (forall x, y | x in pairs && y in pairs :: x.key == y.key ==> x == y)
  }

  /** In a listing, a path belongs to one pair only. */
  lemma OnePairPerPath(prefix: string, pairs: seq<Pair>, x: Pair, y: Pair)
    requires Listing(prefix, pairs) && x in pairs && y in pairs
    requires Split(TrimPrefix(prefix, x.key)) == Split(TrimPrefix(prefix, y.key))
    ensures x == y
  {
    JoinSplit(TrimPrefix(prefix, x.key));
    JoinSplit(TrimPrefix(prefix, y.key));
    assert x.key == prefix + TrimPrefix(prefix, x.key);
    assert y.key == prefix + TrimPrefix(prefix, y.key);
  }

  /** No two listed pairs give paths one of which is a strict prefix of the other. */
  ghost predicate NoneAbove(prefix: string, pairs: seq<Pair>) {
    forall x, y, s, t | x in pairs && y in pairs && Gives(prefix, x, s) && Gives(prefix, y, t) :: !(s.path < t.path)
  }

  lemma {:induction false} ConsistentPairs(prefix: string, pairs: seq<Pair>)
    ensures Consistent(Settings(prefix, pairs)) <==> NoneAbove(prefix, pairs)
  {
    var settings := Settings(prefix, pairs);
    forall s { SettingsMembers(prefix, pairs, s); }
  }

  /** In a listing, the settings give a path the value of the one pair that has it. */
  lemma {:induction false} ValueOfPair(prefix: string, pairs: seq<Pair>, p: Path, v: string)
    requires Listing(prefix, pairs)
    ensures ValueAt(Settings(prefix, pairs), p) == Some(Text(v)) <==>
            exists x :: x in pairs && Gives(prefix, x, Setting(p, v))
  {
    var settings := Settings(prefix, pairs);
    SoleValue(settings, p);
    SettingsMembers(prefix, pairs, Setting(p, v));
    if x :| x in pairs && Gives(prefix, x, Setting(p, v)) {
      assert Setting(p, v) in settings;
      var s :| s in settings && s.path == p && Some(Text(s.value)) == ValueAt(settings, p);
      SettingsMembers(prefix, pairs, s);
      var y :| y in pairs && Gives(prefix, y, s);
      OnePairPerPath(prefix, pairs, x, y);
    }
  }

  /** Decoding a listing succeeds exactly when no setting's path is a strict
      prefix of another's, and its leaves are then exactly the listed values. */
  lemma {:induction false} DecodeLeaves(prefix: string, pairs: seq<Pair>)
    requires Listing(prefix, pairs)
    ensures Decode(prefix, pairs).Some? <==> NoneAbove(prefix, pairs)
    ensures Decode(prefix, pairs).Some? ==>
              forall p, v :: LeafAt(Decode(prefix, pairs).value, p) == Some(Text(v)) <==>
                             exists x :: x in pairs && Gives(prefix, x, Setting(p, v))
    ensures Decode(prefix, pairs).Some? ==>
              forall p | LeafAt(Decode(prefix, pairs).value, p).Some? ::
                LeafAt(Decode(prefix, pairs).value, p).value.Text?
  {
    InsertAllLeaves(Settings(prefix, pairs));
    ConsistentPairs(prefix, pairs);
    if Decode(prefix, pairs).Some? {
      forall p { SoleValue(Settings(prefix, pairs), p); }
      forall p, v { ValueOfPair(prefix, pairs, p, v); }
    }
  }

  /** The path of a setting: slash-free segments, the last one not empty. */
  ghost predicate Settable(p: Path) {
    Segments(p) && p[|p| - 1] != ""
  }

  /** What a key below a folder sets, in terms of its text: the pair that sets `p` has
      the prefix and the segments joined by slashes for its key. */
  lemma GivesExactly(prefix: string, x: Pair, p: Path, v: string)
    requires prefix <= x.key
    ensures Gives(prefix, x, Setting(p, v)) <==> Settable(p) && x == Pair(prefix + Join(p), v)
  {
    var rel := TrimPrefix(prefix, x.key);
    assert x.key == prefix + rel;
    JoinSplit(rel);
    SplitSegments(rel);
    if Gives(prefix, x, Setting(p, v)) {
      JoinEnds(p);
    }
    if Settable(p) && x == Pair(prefix + Join(p), v) {
      assert rel == Join(p);
      SplitJoin(p);
      JoinEnds(p);
    }
  }

  /** A key that is no folder marker also names a folder: another such key starts with
      it and a slash. */
  predicate ValueAndFolder(prefix: string, a: string, b: string) {
    prefix <= a && a != prefix && a[|a| - 1] != '/' && a + "/" <= b && b[|b| - 1] != '/'
  }

  lemma SamePrefix(front: string, a: string, b: string)
    ensures a <= b <==> front + a <= front + b
  {
    if front + a <= front + b {
      assert a == (front + a)[|front|..] && b == (front + b)[|front|..];
    }
  }

  lemma GivesAbove(prefix: string, x: Pair, y: Pair)
    ensures var a, b := TrimPrefix(prefix, x.key), TrimPrefix(prefix, y.key);
            (exists s, t :: Gives(prefix, x, s) && Gives(prefix, y, t) && s.path < t.path) <==>
            !IsMarker(a) && !IsMarker(b) && Split(a) < Split(b)
  {
    var a, b := TrimPrefix(prefix, x.key), TrimPrefix(prefix, y.key);
    if !IsMarker(a) && !IsMarker(b) && Split(a) < Split(b) {
      assert Gives(prefix, x, Setting(Split(a), x.value)) && Gives(prefix, y, Setting(Split(b), y.value));
    }
  }

  lemma MarkerText(prefix: string, rel: string)
    ensures IsMarker(rel) <==> prefix + rel == prefix || (prefix + rel)[|prefix + rel| - 1] == '/'
  {
    assert rel != "" ==> (prefix + rel)[|prefix + rel| - 1] == rel[|rel| - 1];
  }

  lemma AboveText(prefix: string, a: string, b: string)
    ensures ValueAndFolder(prefix, prefix + a, prefix + b) <==> !IsMarker(a) && !IsMarker(b) && a + "/" <= b
  {
    MarkerText(prefix, a);
    MarkerText(prefix, b);
    assert prefix + (a + "/") == prefix + a + "/";
    SamePrefix(prefix, a + "/", b);
  }

  lemma AboveExactly(prefix: string, x: Pair, y: Pair)
    requires prefix <= x.key && prefix <= y.key
    ensures (exists s, t :: Gives(prefix, x, s) && Gives(prefix, y, t) && s.path < t.path) <==>
            ValueAndFolder(prefix, x.key, y.key)
  {
    var a, b := TrimPrefix(prefix, x.key), TrimPrefix(prefix, y.key);
    assert x.key == prefix + a && y.key == prefix + b;
    GivesAbove(prefix, x, y);
    AboveIsPrefix(a, b);
    AboveText(prefix, a, b);
  }

  ghost predicate NoneBoth(prefix: string, pairs: seq<Pair>) {
    forall x, y | x in pairs && y in pairs :: !ValueAndFolder(prefix, x.key, y.key)
  }

  lemma NoneAboveByKey(prefix: string, pairs: seq<Pair>)
    requires Listing(prefix, pairs)
    ensures NoneAbove(prefix, pairs) <==> NoneBoth(prefix, pairs)
  {
    forall x, y | x in pairs && y in pairs
      ensures ValueAndFolder(prefix, x.key, y.key) <==>
              exists s, t :: Gives(prefix, x, s) && Gives(prefix, y, t) && s.path < t.path
    {
      AboveExactly(prefix, x, y);
    }
  }

  lemma GivenByKey(prefix: string, pairs: seq<Pair>, p: Path, v: string)
    requires Listing(prefix, pairs)
    ensures (exists x :: x in pairs && Gives(prefix, x, Setting(p, v))) <==>
            Settable(p) && Pair(prefix + Join(p), v) in pairs
  {
    if x :| x in pairs && Gives(prefix, x, Setting(p, v)) {
      GivesExactly(prefix, x, p, v);
    }
    if Settable(p) && Pair(prefix + Join(p), v) in pairs {
      GivesExactly(prefix, Pair(prefix + Join(p), v), p, v);
    }
  }

  /** From the keys to the tree, without a word about splitting: a listing decodes
      exactly when no key that is a value is also a folder, and its leaf at a path is
      exactly the value of the key that joins the path. */
  lemma DecodeKeys(prefix: string, pairs: seq<Pair>)
    requires Listing(prefix, pairs)
    ensures Decode(prefix, pairs).Some? <==> NoneBoth(prefix, pairs)
    ensures Decode(prefix, pairs).Some? ==>
              forall p, v :: LeafAt(Decode(prefix, pairs).value, p) == Some(Text(v)) <==>
                             Settable(p) && Pair(prefix + Join(p), v) in pairs
  {
    DecodeLeaves(prefix, pairs);
    NoneAboveByKey(prefix, pairs);
    forall p, v { GivenByKey(prefix, pairs, p, v); }
  }

  lemma DecodedLeaf(prefix: string, pairs: seq<Pair>, p: Path, v: string)
    requires Listing(prefix, pairs) && Decode(prefix, pairs).Some?
    ensures LeafAt(Decode(prefix, pairs).value, p) == Some(Text(v)) <==>
            Settable(p) && Pair(prefix + Join(p), v) in pairs
  {
    DecodeKeys(prefix, pairs);
  }

  /** One key alone becomes one leaf, at exactly its segments. */
  lemma OneKeyOneLeaf(prefix: string, parts: Path, v: string)
    requires Settable(parts)
    ensures var r := Decode(prefix, [Pair(prefix + Join(parts), v)]);
            && r.Some?
            && forall q :: LeafAt(r.value, q) == if q == parts then Some(Text(v)) else None
  {
    var pairs := [Pair(prefix + Join(parts), v)];
    DecodeKeys(prefix, pairs);
    DecodeLeaves(prefix, pairs);
    var t := Decode(prefix, pairs).value;
    forall q
      ensures LeafAt(t, q) == if q == parts then Some(Text(v)) else None
    {
      if LeafAt(t, q).Some? {
        var w := LeafAt(t, q).value.text;
        assert Pair(prefix + Join(q), w) in pairs;
        assert (prefix + Join(q))[|prefix|..] == Join(q) && (prefix + Join(parts))[|prefix|..] == Join(parts);
        SplitJoin(q);
        SplitJoin(parts);
      }
    }
  }

  lemma OnePairDecodes(prefix: string, x: Pair)
    ensures Decode(prefix, [x]).Some?
  {
    var settings := Settings(prefix, [x]);
    assert [x][..0] == [];
    assert settings == Settings(prefix, []) + (if IsMarker(TrimPrefix(prefix, x.key)) then []
                                               else [Setting(Split(TrimPrefix(prefix, x.key)), x.value)]);
    InsertAllLeaves(settings);
  }

  /** A listing decodes alike in any order. */
  lemma DecodeOrder(prefix: string, a: seq<Pair>, b: seq<Pair>)
    requires Listing(prefix, a)
    requires forall x :: x in a <==> x in b
    ensures Decode(prefix, a) == Decode(prefix, b)
  {
    forall s { SettingsMembers(prefix, a, s); }
    forall s { SettingsMembers(prefix, b, s); }
    forall s, t | s in Settings(prefix, a) && t in Settings(prefix, a) && s.path == t.path
      ensures s == t
    {
      var x :| x in a && Gives(prefix, x, s);
      var y :| y in a && Gives(prefix, y, t);
      OnePairPerPath(prefix, a, x, y);
    }
    InsertAllOrder(Settings(prefix, a), Settings(prefix, b));
  }

  /** Decoding goes pair by pair. */
  lemma DecodeStep(prefix: string, pairs: seq<Pair>, i: nat)
    requires i < |pairs|
    ensures var rel := TrimPrefix(prefix, pairs[i].key);
            Decode(prefix, pairs[..i + 1]) ==
            match Decode(prefix, pairs[..i])
            case None => None
            case Some(t) => if IsMarker(rel) then Some(t) else Insert(t, Split(rel), Text(pairs[i].value))
  {
    var rel := TrimPrefix(prefix, pairs[i].key);
    var init, all := pairs[..i], pairs[..i + 1];
    assert all[..|all| - 1] == init;
    var before := Settings(prefix, init);
    if IsMarker(rel) {
      assert Settings(prefix, all) == before;
    } else {
      var setting := Setting(Split(rel), pairs[i].value);
      assert Settings(prefix, all) == before + [setting];
      assert (before + [setting])[..|before|] == before;
    }
  }

  /** Once a pair is refused, the folder is refused whatever follows. */
  lemma {:induction false} RefusedStays(prefix: string, pairs: seq<Pair>, i: nat)
    requires i <= |pairs| && Decode(prefix, pairs[..i]).None?
    ensures Decode(prefix, pairs).None?
    decreases |pairs| - i
  {
    if i < |pairs| {
      DecodeStep(prefix, pairs, i);
      RefusedStays(prefix, pairs, i + 1);
    } else {
      assert pairs[..i] == pairs;
    }
  }
}
