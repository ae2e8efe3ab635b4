/**
 * The key index of the diff and what a lookup in it may give: the index is an object literal, so that
 * names it inherits are found without being its own, and entries may name old children that are gone.
 */
module KeyIndex {
  import opened Options
  import opened VNodes

  /** The own properties of the index. */
  type Index = map<string, nat>

  /** The array of old children: a slot is emptied when its child was found through the index. */
  type Slots = seq<Option<Mounted>>

  /** Names every object literal inherits: reading one of them never gives undefined. */
  const INHERITED_NAMES: set<string> := {
    "constructor", "toString", "toLocaleString", "valueOf", "hasOwnProperty", "isPrototypeOf",
    "propertyIsEnumerable", PROTO, "__defineGetter__", "__defineSetter__", "__lookupGetter__", "__lookupSetter__"
  }

  /** Assigning a number to this property of an object literal does nothing. */
  const PROTO := "__proto__"

  predicate Filed(r: Slots, i: int, name: string) {
    0 <= i < |r| && r[i].Some? && KeyName(r[i].value.vnode) == Some(name)
  }

  /** `createKeyToOldIdx` on the slots from `f` to `e`: a later slot overwrites an earlier one. */
  function Built(r: Slots, f: nat, e: int): Index
    requires f <= e + 1 <= |r|
    decreases e - f + 1
  {
    if e < f then map[]
    else
      var index := Built(r, f, e - 1);
      var name := if r[e].Some? then KeyName(r[e].value.vnode) else None;
      if name.None? || name.value == PROTO then index else index[name.value := e]
  }

  /** The index has an own entry for a name exactly when a slot of the range is filed under it: the last such slot. */
  lemma {:induction false} BuiltMeaning(r: Slots, f: nat, e: int, name: string)
    requires f <= e + 1 <= |r|
    ensures name in Built(r, f, e) <==> name != PROTO && exists i :: f <= i <= e && Filed(r, i, name)
    ensures name in Built(r, f, e) ==> f <= Built(r, f, e)[name] <= e && Filed(r, Built(r, f, e)[name], name)
    ensures name in Built(r, f, e) ==> forall i :: Built(r, f, e)[name] < i <= e ==> !Filed(r, i, name)
    decreases e - f + 1
  {
    if e < f {
    } else {
      BuiltMeaning(r, f, e - 1, name);
      assert Filed(r, e, name) <==> r[e].Some? && KeyName(r[e].value.vnode) == Some(name);
    }
  }

  /** What reading a property of the index gives: a slot number, something inherited, or undefined. */
  datatype Found = Slot(u: nat) | Inherited | Missing

  function Get(index: Index, name: string): Found {
    if name in index then Slot(index[name]) else if name in INHERITED_NAMES then Inherited else Missing
  }

  /**
   * Something that is no slot is read exactly for an inherited name under which no old child of the
   * range is filed, and for `__proto__` in any case.
   */
  lemma InheritedExactly(r: Slots, f: nat, e: int, name: string)
    requires f <= e + 1 <= |r|
    ensures Get(Built(r, f, e), name).Inherited? <==>
              name == PROTO || (name in INHERITED_NAMES && forall i :: f <= i <= e ==> !Filed(r, i, name))
  {
    BuiltMeaning(r, f, e, name);
  }

  /** `findIdxInOld`: the first live slot of the half-open range that is the same kind of node. */
  function FirstSame(v: VNode, r: Slots, f: nat, e: nat): (found: Found)
    requires f <= e <= |r|
    ensures found.Slot? ==> f <= found.u < e && r[found.u].Some? && SameVNode(r[found.u].value.vnode, v)
    ensures !found.Inherited?
    ensures forall i :: f <= i < (if found.Slot? then found.u else e) && r[i].Some? ==> !SameVNode(r[i].value.vnode, v)
    decreases e - f
  {
    if f == e then Missing
    else if r[f].Some? && SameVNode(r[f].value.vnode, v) then Slot(f)
    else FirstSame(v, r, f + 1, e)
  }

  function LookedUp(v: VNode, r: Slots, f: nat, e: nat, index: Index): Found
    requires f <= e <= |r|
  {
    if KeyName(v).Some? then Get(index, KeyName(v).value) else FirstSame(v, r, f, e)
  }

  /**
   * The source can go on with what it found: it throws on something that is no slot or an emptied slot, and
   * it would use an element twice if it took a matching old child that is finished already.
   */
  predicate Good(found: Found, v: VNode, r: Slots, f: nat, e: nat) {
    match found
    case Missing => true
    case Inherited => false
    case Slot(u) => u < |r| && r[u].Some? && (SameVNode(r[u].value.vnode, v) ==> f <= u <= e)
  }

  // ----- runs without a bad lookup

  function All(ms: seq<Mounted>): (r: Slots)
    ensures |r| == |ms| && forall i :: 0 <= i < |ms| ==> r[i] == Some(ms[i])
  {
    seq(|ms|, i requires 0 <= i < |ms| => Some(ms[i]))
  }

  /** Patching `o` to show `v` makes no bad lookup, at any level. */
  ghost predicate Survives(o: Mounted, v: VNode)
    decreases v, 0
  {
    o.vnode.Element? && v.Element? && o.vnode.children.ChildArray? && v.children.ChildArray? ==>
      Runs(All(o.kids), v.children.list, 0, |o.kids| - 1, 0, |v.children.list| - 1, None)
  }

  /**
   * The comparison of the old children from `f` to `e` with the new ones from `d` to `m` makes no bad
   * lookup, and neither does any patch it leads to. It depends on the virtual nodes only.
   */
  ghost predicate Runs(r: Slots, news: seq<VNode>, f: nat, e: int, d: nat, m: int, index: Option<Index>)
    requires f <= e + 1 <= |r| && d <= m + 1 <= |news|
    decreases news, 1, e - f + 1 + m - d + 1
  {
    if f > e || d > m then true
    else if r[f].None? then Runs(r, news, f + 1, e, d, m, index)
    else if r[e].None? then Runs(r, news, f, e - 1, d, m, index)
    else if SameVNode(r[f].value.vnode, news[d]) then
      Survives(r[f].value, news[d]) && Runs(r, news, f + 1, e, d + 1, m, index)
    else if SameVNode(r[e].value.vnode, news[m]) then
      Survives(r[e].value, news[m]) && Runs(r, news, f, e - 1, d, m - 1, index)
    else if SameVNode(r[f].value.vnode, news[m]) then
      Survives(r[f].value, news[m]) && Runs(r, news, f + 1, e, d, m - 1, index)
    else if SameVNode(r[e].value.vnode, news[d]) then
      Survives(r[e].value, news[d]) && Runs(r, news, f, e - 1, d + 1, m, index)
    else
      var built := if index.Some? then index.value else Built(r, f, e);
      var found := LookedUp(news[d], r, f, e, built);
      && Good(found, news[d], r, f, e)
      && if found.Slot? && SameVNode(r[found.u].value.vnode, news[d]) then
           Survives(r[found.u].value, news[d]) && Runs(r[found.u := None], news, f, e, d + 1, m, Some(built))
         else Runs(r, news, f, e, d + 1, m, Some(built))
  }
}
