/** Service instances, and the event that leads from one list of them to the next. */
module Instances {

  // ---------------------------------------------------------------- instances

  datatype Status = Passing | Warning | Critical | Maintenance

  datatype Port = Port(name: string, port: int, isDefault: bool)

  datatype Address = Address(address: string, port: int)

  datatype Weights = Weights(passing: int, warning: int)

  datatype Check = Check(id: string, name: string, status: Status, output: string, serviceId: string, kind: string)

  /** A slice or map that may be nil. */
  datatype Maybe<+C> = Nil | Has(value: C)

  function Elems<T>(m: Maybe<seq<T>>): seq<T> {
    if m.Nil? then [] else m.value
  }

  function Entries<K, V>(m: Maybe<map<K, V>>): map<K, V> {
    if m.Nil? then map[] else m.value
  }

  datatype HostNode = HostNode(id: string, name: string, address: string, datacenter: string,
                               taggedAddresses: Maybe<map<string, string>>, meta: Maybe<map<string, string>>)

  datatype Instance = Instance(
    id: string, name: string, address: string, port: int, ports: Maybe<seq<Port>>, scheme: string,
    tags: Maybe<seq<string>>, meta: Maybe<map<string, string>>, taggedAddresses: Maybe<map<string, Address>>,
    weights: Weights, datacenter: string, namespace: string, partition: string,
    node: HostNode, status: Status, checks: Maybe<seq<Check>>)

  /** `equalInstance`: the same values, nil and empty collections being alike. */
  predicate EqualInstance(a: Instance, b: Instance) {
    && a.id == b.id && a.name == b.name && a.address == b.address && a.port == b.port
    && a.scheme == b.scheme && a.weights == b.weights && a.datacenter == b.datacenter
    && a.namespace == b.namespace && a.partition == b.partition && a.status == b.status
    && a.node.id == b.node.id && a.node.name == b.node.name && a.node.address == b.node.address
    && a.node.datacenter == b.node.datacenter
    && Elems(a.ports) == Elems(b.ports) && Elems(a.tags) == Elems(b.tags) && Elems(a.checks) == Elems(b.checks)
    && Entries(a.meta) == Entries(b.meta) && Entries(a.taggedAddresses) == Entries(b.taggedAddresses)
    && Entries(a.node.taggedAddresses) == Entries(b.node.taggedAddresses)
    && Entries(a.node.meta) == Entries(b.node.meta)
  }

  /** The instance with every nil collection made empty. */
  function Filled(a: Instance): Instance {
    a.(ports := Has(Elems(a.ports)), tags := Has(Elems(a.tags)), checks := Has(Elems(a.checks)),
       meta := Has(Entries(a.meta)), taggedAddresses := Has(Entries(a.taggedAddresses)),
       node := a.node.(taggedAddresses := Has(Entries(a.node.taggedAddresses)), meta := Has(Entries(a.node.meta))))
  }

  /** Comparing field by field forgets no field: two instances compare equal
      exactly when they are the same but for nil collections. */
  lemma EqualIsSameFilled(a: Instance, b: Instance)
    ensures EqualInstance(a, b) <==> Filled(a) == Filled(b)
  {
  }

  predicate EqualLists(a: seq<Instance>, b: seq<Instance>) {
    |a| == |b| && forall i | 0 <= i < |a| :: EqualInstance(a[i], b[i])
  }

  /** What identifies an instance: IDs are unique per node only. */
  datatype Key = Key(node: string, id: string)

  function KeyOf(i: Instance): Key {
    Key(i.node.name, i.id)
  }

  /** The weight that counts: of the status while warning, and otherwise at least
      one, so that an unset weight excludes nobody. */
  function Weight(i: Instance): int {
    if i.status.Warning? then i.weights.warning
    else if i.weights.passing < 1 then 1 else i.weights.passing
  }

  // --------------------------------------------------------------------- events

  datatype Event = Event(instances: seq<Instance>, added: seq<Instance>, removed: seq<Instance>, changed: seq<Instance>)

  predicate UniqueKeys(list: seq<Instance>) {
    forall i, j | 0 <= i < j < |list| :: KeyOf(list[i]) != KeyOf(list[j])
  }

  predicate Appears(list: seq<Instance>, k: Key) {
    exists i | 0 <= i < |list| :: KeyOf(list[i]) == k
  }

  /** Where each key appears last in the list. */
  function ByKey(list: seq<Instance>): (index: map<Key, nat>)
    ensures forall k | k in index :: index[k] < |list| && KeyOf(list[index[k]]) == k
  {
    if list == [] then map[]
    else ByKey(list[..|list| - 1])[KeyOf(list[|list| - 1]) := |list| - 1]
  }

  lemma {:induction false} ByKeyHas(list: seq<Instance>, k: Key)
    ensures k in ByKey(list) <==> Appears(list, k)
  {
    if list != [] {
      var init := list[..|list| - 1];
      ByKeyHas(init, k);
      AppearsInLonger(init, list[|list| - 1], k);
      assert list == init + [list[|list| - 1]];
    }
  }

  lemma AppearsInLonger(list: seq<Instance>, i: Instance, k: Key)
    ensures Appears(list + [i], k) <==> Appears(list, k) || KeyOf(i) == k
  {
    var longer := list + [i];
    assert longer[|list|] == i;
    if Appears(list, k) {
      var j :| 0 <= j < |list| && KeyOf(list[j]) == k;
      assert KeyOf(longer[j]) == k;
    }
  }

  /** What the event says about instance `n` of the new list. */
  datatype Mark = New | Altered | Kept

  function MarkOf(prev: seq<Instance>, cur: seq<Instance>, n: nat): Mark
    requires n < |cur|
  {
    var k := KeyOf(cur[n]);
    if k !in ByKey(prev) || Appears(cur[..n], k) then New
    else if !EqualInstance(prev[ByKey(prev)[k]], cur[n]) then Altered
    else Kept
  }

  /** The instances among the first `n` of the new list with a mark. */
  function Marked(prev: seq<Instance>, cur: seq<Instance>, n: nat, mark: Mark): seq<Instance>
    requires n <= |cur|
  {
    if n == 0 then []
    else Marked(prev, cur, n - 1, mark) + if MarkOf(prev, cur, n - 1) == mark then [cur[n - 1]] else []
  }

  /** The instances among the first `n` of the old list that are gone. */
  function Gone(prev: seq<Instance>, cur: seq<Instance>, n: nat): seq<Instance>
    requires n <= |prev|
  {
    if n == 0 then []
    else Gone(prev, cur, n - 1) + if Appears(cur, KeyOf(prev[n - 1])) then [] else [prev[n - 1]]
  }

  function EventBetween(prev: seq<Instance>, cur: seq<Instance>): Event {
    Event(cur, Marked(prev, cur, |cur|, New), Gone(prev, cur, |prev|), Marked(prev, cur, |cur|, Altered))
  }

  lemma {:induction false} ByKeyIsLast(list: seq<Instance>, n: nat)
    requires n < |list|
    ensures KeyOf(list[n]) in ByKey(list) && n <= ByKey(list)[KeyOf(list[n])]
  {
    if n < |list| - 1 {
      ByKeyIsLast(list[..|list| - 1], n);
    }
  }

  /** Indexes a list: each key that appears, and no other, is mapped to its last
      position. */
  method IndexByKey(list: seq<Instance>) returns (index: map<Key, nat>)
    ensures index == ByKey(list)
    ensures forall k | k in index :: index[k] < |list| && KeyOf(list[index[k]]) == k
    ensures forall n | 0 <= n < |list| :: KeyOf(list[n]) in index && n <= index[KeyOf(list[n])]
  {
    index := map[];
    for n := 0 to |list|
      invariant index == ByKey(list[..n])
    {
      assert list[..n + 1][..n] == list[..n];
      index := index[KeyOf(list[n]) := n];
    }
    assert list[..|list|] == list;
    forall n: nat | n < |list| {
      ByKeyIsLast(list, n);
    }
  }

  /** What is left of the index once every key of the new list is struck out. */
  ghost predicate Struck(index: map<Key, nat>, list: seq<Instance>, left: map<Key, nat>) {
    && (forall k :: k in left <==> k in index && !Appears(list, k))
    && (forall k | k in left :: left[k] == index[k])
  }

  lemma StrikeOne(index: map<Key, nat>, list: seq<Instance>, left: map<Key, nat>, i: Instance)
    requires Struck(index, list, left)
    ensures Struck(index, list + [i], left - {KeyOf(i)})
  {
    forall k { AppearsInLonger(list, i, k); }
  }

  /** What the loop has found in the first `n` instances of the new list. */
  ghost predicate Parted(prev: seq<Instance>, cur: seq<Instance>, n: nat,
                         added: seq<Instance>, changed: seq<Instance>, left: map<Key, nat>)
    requires n <= |cur|
  {
    && added == Marked(prev, cur, n, New) && changed == Marked(prev, cur, n, Altered)
    && Struck(ByKey(prev), cur[..n], left)
  }

  lemma PartOne(prev: seq<Instance>, cur: seq<Instance>, n: nat,
                added: seq<Instance>, changed: seq<Instance>, left: map<Key, nat>)
    requires n < |cur| && Parted(prev, cur, n, added, changed, left)
    ensures KeyOf(cur[n]) in left ==> left[KeyOf(cur[n])] < |prev|
    ensures var i, k := cur[n], KeyOf(cur[n]);
            Parted(prev, cur, n + 1,
                   if k !in left then added + [i] else added,
                   if k in left && !EqualInstance(prev[left[k]], i) then changed + [i] else changed,
                   left - {k})
  {
    assert cur[..n + 1] == cur[..n] + [cur[n]];
    StrikeOne(ByKey(prev), cur[..n], left, cur[n]);
    assert added + [] == added && changed + [] == changed;
  }

  /** `diff`: indexes the old list by key, and strikes out every key the new list
      has. */
  method Diff(prev: seq<Instance>, cur: seq<Instance>) returns (ev: Event)
    ensures ev == EventBetween(prev, cur)
  {
    var unseen := IndexByKey(prev);
    var added, changed := [], [];
    for n := 0 to |cur|
      invariant Parted(prev, cur, n, added, changed, unseen)
    {
      PartOne(prev, cur, n, added, changed, unseen);
      var k := KeyOf(cur[n]);
      if k !in unseen {
        added := added + [cur[n]];
      } else if !EqualInstance(prev[unseen[k]], cur[n]) {
        changed := changed + [cur[n]];
      }
      unseen := unseen - {k};
    }
    assert cur[..|cur|] == cur;
    var removed := CollectGone(prev, cur, unseen);
    ev := Event(cur, added, removed, changed);
  }

  /** The old instances whose keys were not struck out. */
  method CollectGone(prev: seq<Instance>, cur: seq<Instance>, left: map<Key, nat>) returns (removed: seq<Instance>)
    requires Struck(ByKey(prev), cur, left)
    ensures removed == Gone(prev, cur, |prev|)
  {
    removed := [];
    for n := 0 to |prev|
      invariant removed == Gone(prev, cur, n)
    {
      ByKeyHas(prev, KeyOf(prev[n]));
      if KeyOf(prev[n]) in left {
        removed := removed + [prev[n]];
      }
    }
  }

  // ------------------------------------------------- what an event amounts to

  /** The instances of a list by key. */
  function AsMap(list: seq<Instance>): (m: map<Key, Instance>) {
    if list == [] then map[]
    else AsMap(list[..|list| - 1])[KeyOf(list[|list| - 1]) := list[|list| - 1]]
  }

  lemma {:induction false} AsMapHas(list: seq<Instance>, k: Key)
    ensures k in AsMap(list) <==> Appears(list, k)
    ensures k in AsMap(list) ==> AsMap(list)[k] in list && KeyOf(AsMap(list)[k]) == k
    ensures k in AsMap(list) ==> k in ByKey(list) && AsMap(list)[k] == list[ByKey(list)[k]]
  {
    if list != [] {
      var init, last := list[..|list| - 1], list[|list| - 1];
      AsMapHas(init, k);
      AppearsInLonger(init, last, k);
      assert list == init + [last];
    }
  }

  lemma AsMapUnique(list: seq<Instance>, i: Instance)
    requires UniqueKeys(list) && i in list
    ensures KeyOf(i) in AsMap(list) && AsMap(list)[KeyOf(i)] == i
  {
    AsMapHas(list, KeyOf(i));
    var n :| 0 <= n < |list| && list[n] == i;
    var m := ByKey(list)[KeyOf(i)];
    assert m == n;
  }

  lemma {:induction false} MarkedMembers(prev: seq<Instance>, cur: seq<Instance>, n: nat, mark: Mark, i: Instance)
    requires n <= |cur|
    ensures i in Marked(prev, cur, n, mark) <==> exists j :: 0 <= j < n && cur[j] == i && MarkOf(prev, cur, j) == mark
  {
    if n > 0 {
      MarkedMembers(prev, cur, n - 1, mark, i);
    }
  }

  lemma {:induction false} GoneMembers(prev: seq<Instance>, cur: seq<Instance>, n: nat, i: Instance)
    requires n <= |prev|
    ensures i in Gone(prev, cur, n) <==> i in prev[..n] && !Appears(cur, KeyOf(i))
  {
    if n > 0 {
      GoneMembers(prev, cur, n - 1, i);
      assert prev[..n] == prev[..n - 1] + [prev[n - 1]];
    }
  }

  function UniqueMark(prev: seq<Instance>, i: Instance): Mark {
    var k := KeyOf(i);
    if k !in AsMap(prev) then New
    else if EqualInstance(AsMap(prev)[k], i) then Kept
    else Altered
  }

  lemma MarkUnique(prev: seq<Instance>, cur: seq<Instance>, n: nat)
    requires UniqueKeys(prev) && UniqueKeys(cur) && n < |cur|
    ensures MarkOf(prev, cur, n) == UniqueMark(prev, cur[n])
  {
    var k := KeyOf(cur[n]);
    AsMapHas(prev, k);
    ByKeyHas(prev, k);
  }

  /** For unique keys, a mark goes to exactly the instances of the new list that
      deserve it. */
  lemma {:induction false} MarkDeserved(prev: seq<Instance>, cur: seq<Instance>, mark: Mark, i: Instance)
    requires UniqueKeys(prev) && UniqueKeys(cur)
    ensures i in Marked(prev, cur, |cur|, mark) <==> i in cur && UniqueMark(prev, i) == mark
  {
    MarkedMembers(prev, cur, |cur|, mark, i);
    forall j | 0 <= j < |cur|
      ensures MarkOf(prev, cur, j) == UniqueMark(prev, cur[j])
    {
      MarkUnique(prev, cur, j);
    }
  }

  /** Lists with unique keys: what the three parts of an event hold. */
  lemma {:induction false} DiffByKey(prev: seq<Instance>, cur: seq<Instance>, i: Instance)
    requires UniqueKeys(prev) && UniqueKeys(cur)
    ensures var ev := EventBetween(prev, cur); var k := KeyOf(i);
            && (i in ev.added <==> i in cur && k !in AsMap(prev))
            && (i in ev.removed <==> i in prev && k !in AsMap(cur))
            && (i in ev.changed <==> i in cur && k in AsMap(prev) && !EqualInstance(AsMap(prev)[k], i))
  {
    MarkDeserved(prev, cur, New, i);
    MarkDeserved(prev, cur, Altered, i);
    GoneMembers(prev, cur, |prev|, i);
    assert prev[..|prev|] == prev;
    AsMapHas(cur, KeyOf(i));
  }

  /** One instance at two times: IDs are unique per node only. */
  predicate SameInstance(a: Instance, b: Instance) {
    a.node.name == b.node.name && a.id == b.id
  }

  ghost predicate Listed(list: seq<Instance>, i: Instance) {
    exists j :: j in list && SameInstance(j, i)
  }

  ghost predicate ListedOtherwise(list: seq<Instance>, i: Instance) {
    exists j :: j in list && SameInstance(j, i) && Filled(j) != Filled(i)
  }

  ghost predicate EachOnce(list: seq<Instance>) {
    forall a, b | 0 <= a < b < |list| :: !SameInstance(list[a], list[b])
  }

  lemma ListedByKey(list: seq<Instance>, i: Instance)
    requires EachOnce(list)
    ensures UniqueKeys(list)
    ensures Listed(list, i) <==> KeyOf(i) in AsMap(list)
    ensures ListedOtherwise(list, i) <==> KeyOf(i) in AsMap(list) && !EqualInstance(AsMap(list)[KeyOf(i)], i)
  {
    assert forall a, b | 0 <= a < b < |list| :: KeyOf(list[a]) == KeyOf(list[b]) ==> SameInstance(list[a], list[b]);
    AsMapHas(list, KeyOf(i));
    AppearsIn(list, KeyOf(i));
    forall j | j in list && SameInstance(j, i)
      ensures KeyOf(i) in AsMap(list) && AsMap(list)[KeyOf(i)] == j
    {
      AsMapUnique(list, j);
    }
    forall j { EqualIsSameFilled(j, i); }
  }

  /** In terms of the instances alone: the three parts of an event hold exactly those
      that were not there before, those that are not there any more, and those that
      were there with other contents, nil and empty collections being alike. */
  lemma DiffExact(prev: seq<Instance>, cur: seq<Instance>, i: Instance)
    requires EachOnce(prev) && EachOnce(cur)
    ensures var ev := EventBetween(prev, cur);
            && ev.instances == cur
            && (i in ev.added <==> i in cur && !Listed(prev, i))
            && (i in ev.removed <==> i in prev && !Listed(cur, i))
            && (i in ev.changed <==> i in cur && ListedOtherwise(prev, i))
  {
    ListedByKey(prev, i);
    ListedByKey(cur, i);
    DiffByKey(prev, cur, i);
  }

  /** Applying an event to a view of the instances. */
  function Patch(view: map<Key, Instance>, ev: Event): map<Key, Instance> {
    view - AsMap(ev.removed).Keys + AsMap(ev.added) + AsMap(ev.changed)
  }

  /** The same keys, holding equal instances. */
  ghost predicate Similar(a: map<Key, Instance>, b: map<Key, Instance>) {
    a.Keys == b.Keys && forall k | k in a :: EqualInstance(a[k], b[k])
  }

  lemma {:induction false} PartKeys(prev: seq<Instance>, cur: seq<Instance>, k: Key)
    requires UniqueKeys(prev) && UniqueKeys(cur)
    ensures var ev := EventBetween(prev, cur);
            && (k in AsMap(ev.added) <==> k in AsMap(cur) && k !in AsMap(prev))
            && (k in AsMap(ev.removed) <==> k in AsMap(prev) && k !in AsMap(cur))
            && (k in AsMap(ev.changed) <==>
                  k in AsMap(cur) && k in AsMap(prev) && !EqualInstance(AsMap(prev)[k], AsMap(cur)[k]))
            && (k in AsMap(ev.added) ==> AsMap(ev.added)[k] == AsMap(cur)[k])
            && (k in AsMap(ev.changed) ==> AsMap(ev.changed)[k] == AsMap(cur)[k])
  {
    var ev := EventBetween(prev, cur);
    AsMapHas(prev, k);
    AsMapHas(cur, k);
    AsMapHas(ev.added, k);
    AsMapHas(ev.removed, k);
    AsMapHas(ev.changed, k);
    forall i | i in cur && KeyOf(i) == k
      ensures i == AsMap(cur)[k]
    {
      AsMapUnique(cur, i);
    }
    forall i | i in prev && KeyOf(i) == k
      ensures i == AsMap(prev)[k]
    {
      AsMapUnique(prev, i);
    }
    forall i { DiffByKey(prev, cur, i); }
    AppearsIn(ev.added, k);
    AppearsIn(ev.removed, k);
    AppearsIn(ev.changed, k);
  }

  lemma AppearsIn(list: seq<Instance>, k: Key)
    ensures Appears(list, k) <==> exists i :: i in list && KeyOf(i) == k
  {
  }

  /** Whoever holds the old instances and applies the event holds the new ones. */
  lemma {:induction false} PatchReaches(view: map<Key, Instance>, prev: seq<Instance>, cur: seq<Instance>)
    requires UniqueKeys(prev) && UniqueKeys(cur) && Similar(view, AsMap(prev))
    ensures Similar(Patch(view, EventBetween(prev, cur)), AsMap(cur))
    ensures var ev := EventBetween(prev, cur);
            && AsMap(ev.added).Keys !! AsMap(ev.removed).Keys
            && AsMap(ev.added).Keys !! AsMap(ev.changed).Keys
            && AsMap(ev.removed).Keys !! AsMap(ev.changed).Keys
  {
    var patched := Patch(view, EventBetween(prev, cur));
    forall k
      ensures k in patched <==> k in AsMap(cur)
      ensures k in patched ==> EqualInstance(patched[k], AsMap(cur)[k])
    {
      PartKeys(prev, cur, k);
    }
    forall k { PartKeys(prev, cur, k); }
  }
}
