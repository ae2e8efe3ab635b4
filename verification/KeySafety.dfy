/** Keys with which the diff makes no bad lookup, and keys with which it does. */
module KeySafety {
  import opened Options
  import opened Keys
  import opened Dom
  import opened VNodes
  import opened KeyIndex

  /**
   * The new keys name different properties, and one that names an inherited property belongs to an old
   * child too, which gives the index an own property of that name. `__proto__` cannot become one.
   */
  ghost predicate KeysSafe(olds: seq<Mounted>, news: seq<VNode>) {
    && KeysDistinct(news)
    && forall j :: 0 <= j < |news| && KeyName(news[j]).Some? && KeyName(news[j]).value in INHERITED_NAMES ==>
         KeyName(news[j]).value != PROTO && exists i :: 0 <= i < |olds| && KeyName(olds[i].vnode) == KeyName(news[j])
  }

  /** The same at every level where an old child may be patched into a new one. */
  ghost predicate Patchable(o: Mounted, v: VNode)
    decreases v
  {
    o.vnode.Element? && v.Element? && o.vnode.children.ChildArray? && v.children.ChildArray? ==>
      && KeysSafe(o.kids, v.children.list)
      && forall i, j :: 0 <= i < |o.kids| && 0 <= j < |v.children.list| && SameVNode(o.kids[i].vnode, v.children.list[j]) ==>
           Patchable(o.kids[i], v.children.list[j])
  }

  /** Safe keys are enough: every lookup is good. */
  lemma {:induction false} PatchableSurvives(o: Mounted, v: VNode)
    requires Patchable(o, v)
    ensures Survives(o, v)
    decreases v, 0
  {
    if o.vnode.Element? && v.Element? && o.vnode.children.ChildArray? && v.children.ChildArray? {
      var news := v.children.list;
      SafeRuns(o.kids, news, All(o.kids), 0, |o.kids| - 1, 0, |news| - 1, None);
    }
  }

  ghost predicate AllPatchable(olds: seq<Mounted>, news: seq<VNode>) {
    forall i, j :: 0 <= i < |olds| && 0 <= j < |news| && SameVNode(olds[i].vnode, news[j]) ==> Patchable(olds[i], news[j])
  }

  ghost predicate Live(r: Slots, f: int, e: int, i: int) {
    f <= i <= e && 0 <= i < |r| && r[i].Some?
  }

  /** Old children that share a name with an unfinished new child are still there, and the index knows them. */
  ghost predicate Pending(olds: seq<Mounted>, news: seq<VNode>, r: Slots, f: int, e: int, d: int, m: int,
                          index: Option<Index>)
  {
    && |r| == |olds|
    && (forall i :: 0 <= i < |r| && r[i].Some? ==> r[i] == Some(olds[i]))
    && (forall i, j :: 0 <= i < |olds| && 0 <= j < |news| && d <= j <= m && SameName(olds[i], news[j]) ==> Live(r, f, e, i))
    && (index.Some? ==> forall name :: name in index.value ==> Entry(olds, index.value, name))
    && (index.Some? ==> forall i :: Live(r, f, e, i) && KeyName(olds[i].vnode).Some? ==>
          KeyName(olds[i].vnode).value == PROTO || KeyName(olds[i].vnode).value in index.value)
  }

  predicate SameName(o: Mounted, v: VNode) {
    KeyName(v).Some? && KeyName(o.vnode) == KeyName(v)
  }

  ghost predicate Entry(olds: seq<Mounted>, index: Index, name: string) {
    name in index && index[name] < |olds| && KeyName(olds[index[name]].vnode) == Some(name)
  }

  /** Finishing a new child takes away at most the old child it matches, which no other new child may look up. */
  lemma PendingTake(olds: seq<Mounted>, news: seq<VNode>, r: Slots, f: int, e: int, d: int, m: int,
                    r': Slots, f': int, e': int, d': int, m': int, index: Option<Index>, i: int, j: int)
    requires KeysDistinct(news) && Pending(olds, news, r, f, e, d, m, index)
    requires 0 <= i < |olds| && 0 <= d <= j <= m < |news| && SameVNode(olds[i].vnode, news[j])
    requires d <= d' && m' <= m && !(d' <= j <= m')
    requires |r'| == |r| && forall k :: 0 <= k < |r| && r'[k].Some? ==> r'[k] == r[k]
    requires forall k :: Live(r', f', e', k) ==> Live(r, f, e, k)
    requires forall k :: Live(r, f, e, k) && k != i ==> Live(r', f', e', k)
    ensures Pending(olds, news, r', f', e', d', m', index)
  {}

  lemma PendingBuilt(olds: seq<Mounted>, news: seq<VNode>, r: Slots, f: nat, e: nat, d: int, m: int)
    requires Pending(olds, news, r, f, e, d, m, None) && f <= e < |r|
    ensures Pending(olds, news, r, f, e, d, m, Some(Built(r, f, e)))
  {
    var index := Built(r, f, e);
    forall name | name in index ensures Entry(olds, index, name) {
      BuiltMeaning(r, f, e, name);
    }
    forall i | Live(r, f, e, i) && KeyName(olds[i].vnode).Some?
      ensures KeyName(olds[i].vnode).value == PROTO || KeyName(olds[i].vnode).value in index
    {
      BuiltMeaning(r, f, e, KeyName(olds[i].vnode).value);
      assert Filed(r, i, KeyName(olds[i].vnode).value);
    }
  }

  lemma PendingLength(olds: seq<Mounted>, news: seq<VNode>, r: Slots, f: int, e: int, d: int, m: int, index: Option<Index>)
    requires Pending(olds, news, r, f, e, d, m, index)
    ensures |r| == |olds|
  {}

  lemma PendingSkip(olds: seq<Mounted>, news: seq<VNode>, r: Slots, f: int, e: int, d: int, m: int, index: Option<Index>)
    requires Pending(olds, news, r, f, e, d, m, index) && 0 <= f <= e < |r|
    ensures r[f].None? ==> Pending(olds, news, r, f + 1, e, d, m, index)
    ensures r[e].None? ==> Pending(olds, news, r, f, e - 1, d, m, index)
  {
    assert r[f].None? ==> forall k :: Live(r, f, e, k) ==> Live(r, f + 1, e, k);
    assert r[e].None? ==> forall k :: Live(r, f, e, k) ==> Live(r, f, e - 1, k);
  }

  lemma PendingCreate(olds: seq<Mounted>, news: seq<VNode>, r: Slots, f: int, e: int, d: int, m: int, index: Option<Index>)
    requires Pending(olds, news, r, f, e, d, m, index)
    ensures Pending(olds, news, r, f, e, d + 1, m, index)
  {}

  /** An inherited name of an unfinished new child is an own property of the index. */
  lemma InheritedIsLive(olds: seq<Mounted>, news: seq<VNode>, r: Slots, f: nat, e: nat, d: nat, m: int, index: Index)
    requires KeysSafe(olds, news) && Pending(olds, news, r, f, e, d, m, Some(index)) && d <= m < |news|
    requires KeyName(news[d]).Some? && KeyName(news[d]).value in INHERITED_NAMES
    ensures KeyName(news[d]).value in index
  {
    var i :| 0 <= i < |olds| && KeyName(olds[i].vnode) == KeyName(news[d]);
    assert SameName(olds[i], news[d]);
    assert Live(r, f, e, i);
  }

  lemma PendingGood(olds: seq<Mounted>, news: seq<VNode>, r: Slots, f: nat, e: nat, d: nat, m: int, index: Index)
    requires KeysSafe(olds, news) && Pending(olds, news, r, f, e, d, m, Some(index)) && f <= e < |r| && d <= m < |news|
    ensures Good(LookedUp(news[d], r, f, e, index), news[d], r, f, e)
    ensures var found := LookedUp(news[d], r, f, e, index);
            found.Slot? && SameVNode(r[found.u].value.vnode, news[d]) ==> f <= found.u <= e
  {
    var found := LookedUp(news[d], r, f, e, index);
    if KeyName(news[d]).Some? {
      var name := KeyName(news[d]).value;
      if name in index {
        assert Entry(olds, index, name) && SameName(olds[index[name]], news[d]);
      } else if name in INHERITED_NAMES {
        InheritedIsLive(olds, news, r, f, e, d, m, index);
      }
    }
  }

  lemma {:induction false} SafeRuns(olds: seq<Mounted>, news: seq<VNode>, r: Slots, f: nat, e: int, d: nat, m: int,
                                    index: Option<Index>)
    requires f <= e + 1 <= |r| && d <= m + 1 <= |news|
    requires KeysSafe(olds, news) && AllPatchable(olds, news)
    requires Pending(olds, news, r, f, e, d, m, index)
    ensures Runs(r, news, f, e, d, m, index)
    decreases news, 1, e - f + 1 + m - d + 1
  {
    hide SameVNode, KeysSafe, AllPatchable, Survives, Built, LookedUp, Good, Pending;
    PendingLength(olds, news, r, f, e, d, m, index);
    if f <= e {
      PendingSkip(olds, news, r, f, e, d, m, index);
    }
    if f > e || d > m {
    } else if r[f].None? {
      SafeRuns(olds, news, r, f + 1, e, d, m, index);
    } else if r[e].None? {
      SafeRuns(olds, news, r, f, e - 1, d, m, index);
    } else if SameVNode(r[f].value.vnode, news[d]) {
      SafeTake(olds, news, r, f, e, d, m, r, f + 1, e, d + 1, m, index, f, d);
      SafeRuns(olds, news, r, f + 1, e, d + 1, m, index);
    } else if SameVNode(r[e].value.vnode, news[m]) {
      SafeTake(olds, news, r, f, e, d, m, r, f, e - 1, d, m - 1, index, e, m);
      SafeRuns(olds, news, r, f, e - 1, d, m - 1, index);
    } else if SameVNode(r[f].value.vnode, news[m]) {
      SafeTake(olds, news, r, f, e, d, m, r, f + 1, e, d, m - 1, index, f, m);
      SafeRuns(olds, news, r, f + 1, e, d, m - 1, index);
    } else if SameVNode(r[e].value.vnode, news[d]) {
      SafeTake(olds, news, r, f, e, d, m, r, f, e - 1, d + 1, m, index, e, d);
      SafeRuns(olds, news, r, f, e - 1, d + 1, m, index);
    } else {
      SafeLookUp(olds, news, r, f, e, d, m, index);
    }
  }

  /** One finished pair: it can be patched, and the rest is pending as before. */
  lemma SafeTake(olds: seq<Mounted>, news: seq<VNode>, r: Slots, f: int, e: int, d: int, m: int,
                 r': Slots, f': int, e': int, d': int, m': int, index: Option<Index>, i: int, j: int)
    requires KeysSafe(olds, news) && AllPatchable(olds, news) && Pending(olds, news, r, f, e, d, m, index)
    requires 0 <= i < |r| && r[i].Some? && 0 <= d <= j <= m < |news| && SameVNode(r[i].value.vnode, news[j])
    requires d <= d' && m' <= m && !(d' <= j <= m')
    requires |r'| == |r| && forall k :: 0 <= k < |r| && r'[k].Some? ==> r'[k] == r[k]
    requires forall k :: Live(r', f', e', k) ==> Live(r, f, e, k)
    requires forall k :: Live(r, f, e, k) && k != i ==> Live(r', f', e', k)
    ensures Pending(olds, news, r', f', e', d', m', index)
    ensures Survives(r[i].value, news[j])
    decreases news, 0
  {
    PendingTake(olds, news, r, f, e, d, m, r', f', e', d', m', index, i, j);
    PatchableSurvives(olds[i], news[j]);
  }

  lemma SafeLookUp(olds: seq<Mounted>, news: seq<VNode>, r: Slots, f: nat, e: nat, d: nat, m: int, index: Option<Index>)
    requires f <= e < |r| && d <= m < |news|
    requires KeysSafe(olds, news) && AllPatchable(olds, news) && Pending(olds, news, r, f, e, d, m, index)
    requires r[f].Some? && r[e].Some?
    requires !SameVNode(r[f].value.vnode, news[d]) && !SameVNode(r[e].value.vnode, news[m])
    requires !SameVNode(r[f].value.vnode, news[m]) && !SameVNode(r[e].value.vnode, news[d])
    ensures Runs(r, news, f, e, d, m, index)
    decreases news, 1, e - f + 1 + m - d + 1, 0
  {
    hide SameVNode, KeysSafe, AllPatchable, Survives, Built, LookedUp, Pending;
    PendingLength(olds, news, r, f, e, d, m, index);
    if index.None? {
      PendingBuilt(olds, news, r, f, e, d, m);
    }
    var built := if index.Some? then index.value else Built(r, f, e);
    var found := LookedUp(news[d], r, f, e, built);
    PendingGood(olds, news, r, f, e, d, m, built);
    if found.Slot? && SameVNode(r[found.u].value.vnode, news[d]) {
      var r' := r[found.u := None];
      SafeTake(olds, news, r, f, e, d, m, r', f, e, d + 1, m, Some(built), found.u, d);
      SafeRuns(olds, news, r', f, e, d + 1, m, Some(built));
    } else {
      PendingCreate(olds, news, r, f, e, d, m, Some(built));
      SafeRuns(olds, news, r, f, e, d + 1, m, Some(built));
    }
  }

  // ----- keys that fail

  function Leaf(tag: string, key: Option<Key>): VNode {
    Element(key, tag, Some(Data(None, map[])), NoChildren)
  }

  function List(items: seq<VNode>): VNode {
    Element(None, "ul", None, ChildArray(items))
  }

  /** A mounted list; which elements it has does not matter to the lookups. */
  function Mount(items: seq<VNode>): Mounted {
    Mounted(List(items), 0, seq(|items|, i requires 0 <= i < |items| => Mounted(items[i], i + 1, [])))
  }

  /** The keyed old child stands between two others that match nothing. */
  function Before(k: Key): seq<VNode> {
    [Leaf("b", None), Leaf("i", Some(k)), Leaf("b", None)]
  }

  function After(k: Key, k': Key): seq<VNode> {
    [Leaf("i", Some(k)), Leaf("i", Some(k')), Leaf("p", None)]
  }

  /** When neither end matches, the loop goes by what it looks up. */
  lemma ByLookUp(r: Slots, news: seq<VNode>, f: nat, e: nat, d: nat, m: nat, index: Option<Index>)
    requires f <= e < |r| && d <= m < |news| && r[f].Some? && r[e].Some?
    requires !SameVNode(r[f].value.vnode, news[d]) && !SameVNode(r[e].value.vnode, news[m])
    requires !SameVNode(r[f].value.vnode, news[m]) && !SameVNode(r[e].value.vnode, news[d])
    ensures var built := if index.Some? then index.value else Built(r, f, e);
            var found := LookedUp(news[d], r, f, e, built);
            Runs(r, news, f, e, d, m, index) <==>
              && Good(found, news[d], r, f, e)
              && if found.Slot? && SameVNode(r[found.u].value.vnode, news[d]) then
                   Survives(r[found.u].value, news[d]) && Runs(r[found.u := None], news, f, e, d + 1, m, Some(built))
                 else Runs(r, news, f, e, d + 1, m, Some(built))
  {}

  lemma BeforeIndex(k: Key)
    ensures var r := All(Mount(Before(k)).kids);
            Built(r, 0, 2) == if PropertyName(k) == PROTO then map[] else map[PropertyName(k) := 1]
  {
    var r := All(Mount(Before(k)).kids);
    assert Built(r, 0, -1) == Built(r, 0, 0) == map[];
    assert Built(r, 0, 2) == Built(r, 0, 1);
  }

  /**
   * Any two different keys that name one property: the second new child looks up the slot that was emptied
   * for the first one, and the source reads a field of undefined.
   */
  lemma CollidingKeysFail(k: Key, k': Key)
    requires k != k' && PropertyName(k) == PropertyName(k')
    ensures !Survives(Mount(Before(k)), List(After(k, k')))
    ensures PropertyName(k) != PROTO ==>
              var r := All(Mount(Before(k)).kids)[1 := None];
              LookedUp(After(k, k')[1], r, 0, 2, Built(All(Mount(Before(k)).kids), 0, 2)) == Slot(1) && r[1].None?
  {
    hide Runs, Built, PropertyName;
    var r, news := All(Mount(Before(k)).kids), After(k, k');
    BeforeIndex(k);
    ByLookUp(r, news, 0, 2, 0, 2, None);
    if PropertyName(k) != PROTO {
      ByLookUp(r[1 := None], news, 0, 2, 1, 2, Some(Built(r, 0, 2)));
    }
  }

  /** The number and the string of its digits are such keys. */
  lemma NumberAndStringCollide(n: int)
    ensures var k, k' := NumberKey(n), StringKey(PropertyName(NumberKey(n))); k != k' && PropertyName(k) == PropertyName(k')
  {}

  /** An inherited name that no old child has: the source takes an inherited value for a slot number. */
  lemma InheritedKeyFails(name: string)
    requires name in {"constructor", "toString", "toLocaleString", "valueOf", "hasOwnProperty", "isPrototypeOf",
                      "propertyIsEnumerable", "__proto__", "__defineGetter__", "__defineSetter__", "__lookupGetter__",
                      "__lookupSetter__"}
    ensures !Survives(Mount([Leaf("b", None)]), List([Leaf("i", Some(StringKey(name)))]))
  {
    hide Runs;
    var r, news := All(Mount([Leaf("b", None)]).kids), [Leaf("i", Some(StringKey(name)))];
    assert Built(r, 0, -1) == Built(r, 0, 0) == map[];
    ByLookUp(r, news, 0, 0, 0, 0, None);
  }

  /** An inherited name that an old child has as well: only `__proto__` fails. */
  lemma SharedInheritedKey(name: string, other: Key)
    requires name in INHERITED_NAMES && PropertyName(other) !in INHERITED_NAMES
    ensures Survives(Mount(Before(StringKey(name))), List(After(StringKey(name), other))) <==> name != "__proto__"
  {
    hide Runs;
    var k := StringKey(name);
    var o, news := Mount(Before(k)), After(k, other);
    if name == PROTO {
      BeforeIndex(k);
      ByLookUp(All(o.kids), news, 0, 2, 0, 2, None);
    } else {
      assert KeyName(o.kids[1].vnode) == KeyName(news[0]) == Some(name);
      assert Patchable(o, List(news));
      PatchableSurvives(o, List(news));
    }
  }
}
