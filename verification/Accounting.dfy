/**
 * Which old child serves which new child during the reconciliation of two child lists: `taker[i]` is the
 * position of the new child that took over the old child `i`, or -1 while nobody did.
 */
module Accounting {
  import opened Options
  import opened VNodes
  import opened KeyIndex

  ghost predicate IsDone(j: int, front: seq<Mounted>, back: seq<Mounted>, n: nat) {
    0 <= j < |front| || n - |back| <= j < n
  }

  /** The mounted form of the new child `j`: new children are finished from both ends. */
  ghost function Result(j: int, front: seq<Mounted>, back: seq<Mounted>, n: nat): Mounted
    requires |front| + |back| <= n && IsDone(j, front, back, n)
  {
    if j < |front| then front[j] else back[j - (n - |back|)]
  }

  ghost predicate Waiting(r: seq<Option<Mounted>>, f: int, e: int, i: int) {
    f <= i <= e && 0 <= i < |r| && r[i].Some?
  }

  ghost predicate KeyedMatch(o: Mounted, v: VNode) {
    KeyOf(v).Some? && SameVNode(o.vnode, v)
  }

  function VNodesOf(ms: seq<Mounted>): (r: seq<VNode>)
    ensures |r| == |ms| && forall i :: 0 <= i < |ms| ==> r[i] == ms[i].vnode
  {
    seq(|ms|, i requires 0 <= i < |ms| => ms[i].vnode)
  }

  ghost predicate Accounted(olds: seq<Mounted>, news: seq<VNode>, r: seq<Option<Mounted>>, f: int, e: int,
                            front: seq<Mounted>, back: seq<Mounted>, taker: seq<int>)
  {
    && |r| == |olds| == |taker| && |front| + |back| <= |news|
    && (forall i :: 0 <= i < |r| && r[i].Some? ==> r[i] == Some(olds[i]))
    && (forall i :: 0 <= i < |taker| ==> (taker[i] == -1 <==> Waiting(r, f, e, i)))
    && (forall i :: 0 <= i < |taker| && taker[i] != -1 ==> Served(olds, news, front, back, i, taker[i]))
    && (forall j :: IsDone(j, front, back, |news|) ==> Result(j, front, back, |news|).vnode == news[j])
    && (KeysDistinct(VNodesOf(olds)) ==> Claimed(olds, news, front, back, taker))
    && Thrifty(olds, news, front, back, taker)
  }

  ghost predicate Served(olds: seq<Mounted>, news: seq<VNode>, front: seq<Mounted>, back: seq<Mounted>, i: int, j: int)
    requires 0 <= i < |olds| && |front| + |back| <= |news|
  {
    && IsDone(j, front, back, |news|)
    && SameVNode(olds[i].vnode, news[j])
    && Result(j, front, back, |news|).elm == olds[i].elm
  }

  /** No old child that a finished keyed new child matches is left over. */
  ghost predicate Claimed(olds: seq<Mounted>, news: seq<VNode>, front: seq<Mounted>, back: seq<Mounted>, taker: seq<int>)
    requires |taker| == |olds|
  {
    forall i, j :: 0 <= i < |olds| && 0 <= j < |news| && IsDone(j, front, back, |news|) && KeyedMatch(olds[i], news[j])
                   ==> taker[i] != -1
  }

  /** No old child that a finished new child without key matches is left over, unless another one serves it. */
  ghost predicate Thrifty(olds: seq<Mounted>, news: seq<VNode>, front: seq<Mounted>, back: seq<Mounted>, taker: seq<int>)
    requires |taker| == |olds|
  {
    forall i, j :: 0 <= i < |olds| && 0 <= j < |news| && IsDone(j, front, back, |news|)
                   && KeyOf(news[j]).None? && SameVNode(olds[i].vnode, news[j])
                   ==> taker[i] != -1 || j in taker
  }

  lemma SlotsAreOlds(olds: seq<Mounted>, news: seq<VNode>, r: Slots, f: int, e: int,
                     front: seq<Mounted>, back: seq<Mounted>, taker: seq<int>)
    requires Accounted(olds, news, r, f, e, front, back, taker)
    ensures |r| == |olds| == |taker| && forall i :: 0 <= i < |r| && r[i].Some? ==> r[i] == Some(olds[i])
    ensures forall i :: 0 <= i < |r| ==> (taker[i] == -1 <==> Waiting(r, f, e, i))
  {}

  lemma TakerGrows(taker: seq<int>, i: nat, j: nat)
    requires i < |taker| && taker[i] == -1
    ensures j in taker[i := j] && forall k: nat :: k in taker ==> k in taker[i := j]
  {
    assert taker[i := j][i] == j;
    forall k: nat | k in taker ensures k in taker[i := j] {
      var u :| 0 <= u < |taker| && taker[u] == k;
      assert taker[i := j][u] == k;
    }
  }

  /** The old child `i` serves the next new child from the left. */
  lemma TakeFront(olds: seq<Mounted>, news: seq<VNode>, r: seq<Option<Mounted>>, f: int, e: int,
                  front: seq<Mounted>, back: seq<Mounted>, taker: seq<int>,
                  i: int, y: Mounted, r': seq<Option<Mounted>>, f': int, e': int)
    requires Accounted(olds, news, r, f, e, front, back, taker) && |front| + |back| < |news|
    requires 0 <= i < |olds| && taker[i] == -1 && SameVNode(olds[i].vnode, news[|front|])
    requires y.vnode == news[|front|] && y.elm == olds[i].elm
    requires |r'| == |r| && forall k :: 0 <= k < |r| && k != i ==> r'[k] == r[k]
    requires r'[i].Some? ==> r'[i] == r[i]
    requires forall k :: 0 <= k < |r| ==> (Waiting(r', f', e', k) <==> Waiting(r, f, e, k) && k != i)
    ensures Accounted(olds, news, r', f', e', front + [y], back, taker[i := |front|])
  {
    TakerGrows(taker, i, |front|);
  }

  /** The old child `i` serves the next new child from the right. */
  lemma TakeBack(olds: seq<Mounted>, news: seq<VNode>, r: seq<Option<Mounted>>, f: int, e: int,
                 front: seq<Mounted>, back: seq<Mounted>, taker: seq<int>,
                 i: int, y: Mounted, f': int, e': int)
    requires Accounted(olds, news, r, f, e, front, back, taker) && |front| + |back| < |news|
    requires 0 <= i < |olds| && taker[i] == -1 && SameVNode(olds[i].vnode, news[|news| - 1 - |back|])
    requires y.vnode == news[|news| - 1 - |back|] && y.elm == olds[i].elm
    requires forall k :: 0 <= k < |r| ==> (Waiting(r, f', e', k) <==> Waiting(r, f, e, k) && k != i)
    ensures Accounted(olds, news, r, f', e', front, [y] + back, taker[i := |news| - 1 - |back|])
  {
    TakerGrows(taker, i, |news| - 1 - |back|);
  }

  /** New nodes serve the new children `xs` that no waiting old child matches. */
  lemma MakeNew(olds: seq<Mounted>, news: seq<VNode>, r: seq<Option<Mounted>>, f: int, e: int,
                front: seq<Mounted>, back: seq<Mounted>, taker: seq<int>, xs: seq<Mounted>)
    requires Accounted(olds, news, r, f, e, front, back, taker) && |front| + |back| + |xs| <= |news|
    requires forall j :: 0 <= j < |xs| ==> xs[j].vnode == news[|front| + j]
    requires KeysDistinct(VNodesOf(olds)) ==>
               forall i, j :: Waiting(r, f, e, i) && |front| <= j < |front| + |xs| ==> !KeyedMatch(olds[i], news[j])
    requires forall i, j :: Waiting(r, f, e, i) && |front| <= j < |front| + |xs| && KeyOf(news[j]).None? ==>
                              !SameVNode(olds[i].vnode, news[j])
    ensures Accounted(olds, news, r, f, e, front + xs, back, taker)
  {}

  /** The key index: it names keyed old children, and every keyed old child from `f` to `e` is in it. */
  ghost predicate Indexed(olds: seq<Mounted>, index: Index, f: int, e: int) {
    && (forall name :: name in index ==> index[name] < |olds| && KeyName(olds[index[name]].vnode) == Some(name))
    && (forall i :: f <= i <= e && 0 <= i < |olds| && KeyName(olds[i].vnode).Some? ==>
          KeyName(olds[i].vnode).value in index || KeyName(olds[i].vnode).value == PROTO)
  }

  lemma BuiltIsIndexed(olds: seq<Mounted>, r: Slots, f: nat, e: nat)
    requires f <= e < |r| == |olds| && forall i :: f <= i <= e ==> r[i] == Some(olds[i])
    ensures Indexed(olds, Built(r, f, e), f, e)
  {
    forall name | name in Built(r, f, e)
      ensures Built(r, f, e)[name] < |olds| && KeyName(olds[Built(r, f, e)[name]].vnode) == Some(name)
    {
      BuiltMeaning(r, f, e, name);
    }
    forall i | f <= i <= e && KeyName(olds[i].vnode).Some?
      ensures KeyName(olds[i].vnode).value in Built(r, f, e) || KeyName(olds[i].vnode).value == PROTO
    {
      BuiltMeaning(r, f, e, KeyName(olds[i].vnode).value);
      assert Filed(r, i, KeyName(olds[i].vnode).value);
    }
  }

  /**
   * Staleness, with nothing asked of the new keys: a keyed old child is gone exactly when a finished new
   * child matches it.
   */
  lemma StaleExactly(olds: seq<Mounted>, news: seq<VNode>, r: Slots, f: int, e: int,
                     front: seq<Mounted>, back: seq<Mounted>, taker: seq<int>, u: nat)
    requires Accounted(olds, news, r, f, e, front, back, taker) && KeysDistinct(VNodesOf(olds))
    requires u < |olds| && KeyOf(olds[u].vnode).Some?
    ensures !Waiting(r, f, e, u) <==>
              exists j :: 0 <= j < |news| && IsDone(j, front, back, |news|) && KeyedMatch(olds[u], news[j])
  {
    if taker[u] != -1 {
      assert Served(olds, news, front, back, u, taker[u]);
    }
  }

  /**
   * When a lookup is bad: it gives an inherited value, or the slot of an old child that
   * a finished new child matches, and the slot is empty or its node matches the new child too.
   */
  lemma BadLookUpExactly(olds: seq<Mounted>, news: seq<VNode>, r: Slots, f: nat, e: nat,
                         front: seq<Mounted>, back: seq<Mounted>, taker: seq<int>, index: Index, v: VNode)
    requires Accounted(olds, news, r, f, e, front, back, taker) && KeysDistinct(VNodesOf(olds))
    requires f <= e < |r| && Indexed(olds, index, f, e)
    ensures var found := LookedUp(v, r, f, e, index);
            !Good(found, v, r, f, e) <==>
              || found.Inherited?
              || (found.Slot? && (r[found.u].None? || SameVNode(olds[found.u].vnode, v)) &&
                  exists j :: 0 <= j < |news| && IsDone(j, front, back, |news|) && KeyedMatch(olds[found.u], news[j]))
  {
    var found := LookedUp(v, r, f, e, index);
    if found.Slot? && KeyName(v).Some? {
      StaleExactly(olds, news, r, f, e, front, back, taker, found.u);
    }
  }

  /** With new keys that name different properties the index is never stale: a slot it names still holds its node. */
  lemma IndexFresh(olds: seq<Mounted>, news: seq<VNode>, r: Slots, f: int, e: int,
                   front: seq<Mounted>, back: seq<Mounted>, taker: seq<int>, index: Index, j: int)
    requires Accounted(olds, news, r, f, e, front, back, taker) && Indexed(olds, index, f, e) && KeysDistinct(news)
    requires 0 <= j < |news| && !IsDone(j, front, back, |news|) && KeyName(news[j]).Some?
    requires KeyName(news[j]).value in index
    ensures var u := index[KeyName(news[j]).value]; taker[u] == -1 && r[u] == Some(olds[u])
  {
    var u := index[KeyName(news[j]).value];
    assert taker[u] != -1 ==> Served(olds, news, front, back, u, taker[u]);
  }

  /** When the index gives no matching old child, no old child that is left matches. */
  lemma NoMatch(olds: seq<Mounted>, r: Slots, f: int, e: int, index: Index, v: VNode)
    requires |r| == |olds| && Indexed(olds, index, f, e) && (KeyName(v) == Some(PROTO) ==> PROTO in index)
    requires KeyName(v).Some? && KeyName(v).value in index ==> !SameVNode(olds[index[KeyName(v).value]].vnode, v)
    ensures KeysDistinct(VNodesOf(olds)) ==> forall i :: Waiting(r, f, e, i) ==> !KeyedMatch(olds[i], v)
  {
    if KeysDistinct(VNodesOf(olds)) {
      var vs := VNodesOf(olds);
      forall i | Waiting(r, f, e, i) ensures !KeyedMatch(olds[i], v) {
        assert SameVNode(olds[i].vnode, v) ==> KeyName(vs[i]) == KeyName(v);
      }
    }
  }

  /** With old and new keys that name different properties, a finished keyed child has the old child it matches. */
  lemma ReusedExactly(olds: seq<Mounted>, news: seq<VNode>, r: Slots, f: int, e: int,
                      front: seq<Mounted>, back: seq<Mounted>, taker: seq<int>, i: int, j: int)
    requires Accounted(olds, news, r, f, e, front, back, taker)
    requires KeysDistinct(VNodesOf(olds)) && KeysDistinct(news)
    requires 0 <= i < |olds| && 0 <= j < |news| && IsDone(j, front, back, |news|) && KeyedMatch(olds[i], news[j])
    ensures taker[i] == j
  {
    assert Served(olds, news, front, back, i, taker[i]);
    assert KeyName(news[taker[i]]) == KeyName(olds[i].vnode) == KeyName(news[j]);
  }
}
