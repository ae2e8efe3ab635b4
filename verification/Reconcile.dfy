/** `patchVnode` and `updateChildren`: turning a mounted tree into another one in place. */
module Reconcile {
  import opened Sequences
  import opened Options
  import opened Dom
  import opened VNodes
  import opened KeyIndex
  import opened Forests
  import opened Accounting
  import opened Alignment
  import opened Patch

  lemma MoveRightSeq(s: seq<Elm>, a: seq<Elm>, x: Elm, b: seq<Elm>, c: seq<Elm>)
    requires s == a + [x] + b + c && NoDup(s)
    ensures x in s && (First(c).Some? ==> First(c).value in s && First(c).value != x)
    ensures InsertedBefore(Removed(s, x), x, First(c)) == a + b + [x] + c
  {
    assert s == a + [x] + (b + c);
    SplitNoDup(a, x, b + c);
    RemovedAt(a, x, b + c);
    assert a + (b + c) == (a + b) + c;
    FirstNotBefore(a + b, c);
    InsertedBeforeAt(a + b, x, c);
    assert c != [] ==> s[|a| + 1 + |b|] == c[0];
  }

  lemma MoveLeftSeq(s: seq<Elm>, a: seq<Elm>, b: seq<Elm>, x: Elm, c: seq<Elm>)
    requires s == a + b + [x] + c && NoDup(s) && b != []
    ensures x in s && b[0] in s && b[0] != x
    ensures InsertedBefore(Removed(s, x), x, Some(b[0])) == a + [x] + b + c
  {
    SplitNoDup(a + b, x, c);
    RemovedAt(a + b, x, c);
    assert a + b + c == a + (b + c);
    FirstNotBefore(a, b + c);
    InsertedBeforeAt(a, x, b + c);
    assert s[|a|] == b[0] && (a + b)[|a|] == b[0];
    assert a + [x] + (b + c) == a + [x] + b + c;
  }

  /** Moving `x` to the right of `b`, before the reference node `ref` that starts `c`. */
  method MoveRight(doc: Document, p: Elm, x: Elm, ref: Option<Elm>,
                   ghost a: seq<Mounted>, ghost m: Mounted, ghost b: seq<Mounted>, ghost c: seq<Mounted>)
    requires doc.Valid() && Displayed(doc.content, doc.kids, p, a + [m] + b + c) && x == m.elm
    requires ref == First(Roots(c))
    modifies doc
    ensures doc.Valid() && Displayed(doc.content, doc.kids, p, a + b + [m] + c)
    ensures Evolved(old(doc.content), old(doc.kids), doc.content, doc.kids, p, a + [m] + b + c, a + b + [m] + c)
  {
    RootsFour(a, [m], b, c);
    RootsFour(a, b, [m], c);
    ghost var c0, k0 := doc.content, doc.kids;
    assert NoDup(k0[p]);
    MoveRightSeq(k0[p], Roots(a), x, Roots(b), Roots(c));
    assert IsParent(doc.parent, x, p);
    doc.InsertBefore(p, x, ref);
    Moved(c0, k0, doc.content, doc.kids, p, a, [m], b, c);
  }

  /** Moving `x` to the left of `b`, before the reference node `ref` that starts `b`. */
  method MoveLeft(doc: Document, p: Elm, x: Elm, ref: Elm,
                  ghost a: seq<Mounted>, ghost b: seq<Mounted>, ghost m: Mounted, ghost c: seq<Mounted>)
    requires doc.Valid() && Displayed(doc.content, doc.kids, p, a + b + [m] + c) && x == m.elm
    requires b != [] && ref == b[0].elm
    modifies doc
    ensures doc.Valid() && Displayed(doc.content, doc.kids, p, a + [m] + b + c)
    ensures Evolved(old(doc.content), old(doc.kids), doc.content, doc.kids, p, a + b + [m] + c, a + [m] + b + c)
  {
    RootsFour(a, b, [m], c);
    RootsFour(a, [m], b, c);
    ghost var c0, k0 := doc.content, doc.kids;
    assert NoDup(k0[p]);
    MoveLeftSeq(k0[p], Roots(a), Roots(b), x, Roots(c));
    assert IsParent(doc.parent, x, p);
    doc.InsertBefore(p, x, Some(ref));
    Moved(c0, k0, doc.content, doc.kids, p, a, b, [m], c);
  }

  lemma RootsFour(a: seq<Mounted>, b: seq<Mounted>, c: seq<Mounted>, d: seq<Mounted>)
    ensures Roots(a + b + c + d) == Roots(a) + Roots(b) + Roots(c) + Roots(d)
    ensures |b| == 1 ==> Roots(b) == [b[0].elm]
    ensures |c| == 1 ==> Roots(c) == [c[0].elm]
  {}

  /** Only the child list of `p` changed, by exchanging the parts `b` and `c`. */
  lemma Moved(c0: Contents, k0: KidMap, c1: Contents, k1: KidMap, p: Elm,
              a: seq<Mounted>, b: seq<Mounted>, c: seq<Mounted>, d: seq<Mounted>)
    requires Displayed(c0, k0, p, a + b + c + d)
    requires c1 == c0 && p in k1 && k1 == k0[p := k1[p]] && k1[p] == Roots(a + c + b + d)
    ensures Displayed(c1, k1, p, a + c + b + d)
    ensures Evolved(c0, k0, c1, k1, p, a + b + c + d, a + c + b + d)
  {
    ForestSwap(c0, k0, a, b, c, d);
    ForestFrame(c0, k0, c1, k1, a + c + b + d);
  }

  /** Patching one child where it stands. */
  method PatchAt(doc: Document, p: Elm, x: Mounted, v: VNode, ghost a: seq<Mounted>, ghost b: seq<Mounted>)
    returns (y: Mounted)
    requires doc.Valid() && Displayed(doc.content, doc.kids, p, a + [x] + b)
    requires SameVNode(x.vnode, v) && Survives(x, v)
    modifies doc
    ensures doc.Valid() && Displayed(doc.content, doc.kids, p, a + [y] + b)
    ensures Evolved(old(doc.content), old(doc.kids), doc.content, doc.kids, p, a + [x] + b, a + [y] + b)
    ensures y.vnode == v && y.elm == x.elm
    decreases v, 2
  {
    ghost var c, k := doc.content, doc.kids;
    ForestThree(c, k, a, [x], b);
    ForestOne(c, k, x);
    ElmsOfThree(a, [x], b);
    y := PatchVnode(doc, x, v);
    ForestOne(doc.content, doc.kids, y);
    RootsThree(a, [x], b);
    RootsThree(a, [y], b);
    DisplayedReplace(c, k, doc.content, doc.kids, p, a, [x], b, [y]);
  }

  /** Creating a node for `v` in front of `b`. */
  method CreateAt(doc: Document, p: Elm, v: VNode, ref: Elm, ghost a: seq<Mounted>, ghost b: seq<Mounted>)
    returns (y: Mounted)
    requires doc.Valid() && Displayed(doc.content, doc.kids, p, a + b) && b != [] && ref == b[0].elm
    modifies doc
    ensures doc.Valid() && Displayed(doc.content, doc.kids, p, a + [y] + b)
    ensures Evolved(old(doc.content), old(doc.kids), doc.content, doc.kids, p, a + b, a + [y] + b)
    ensures y.vnode == v
  {
    hide Displayed, Evolved, Linked, IsParent, NoDup, InsertedBefore, Roots, Shows, Grown;
    ghost var c, k, par := doc.content, doc.kids, doc.parent;
    CreateRef(c, k, par, p, a, b);
    y := CreateElm(doc, v, p, Some(ref));
    CreateShown(c, k, par, doc.content, doc.kids, doc.parent, p, a, y, b);
  }

  lemma CreateRef(c: Contents, k: KidMap, par: map<Elm, Elm>, p: Elm, a: seq<Mounted>, b: seq<Mounted>)
    requires Linked(k, par) && k.Keys == c.Keys && Displayed(c, k, p, a + b) && b != []
    ensures p in c && p in k && NoDup(k[p]) && b[0].elm in k[p]
  {
    hide Forest, ElmsOf;
    RootsConcat(a, b);
    assert NoDup(k[p]) && k[p][|a|] == b[0].elm;
  }

  lemma CreateShown(c: Contents, k: KidMap, par: map<Elm, Elm>, c': Contents, k': KidMap, par': map<Elm, Elm>, p: Elm,
                    a: seq<Mounted>, y: Mounted, b: seq<Mounted>)
    requires Displayed(c, k, p, a + b) && b != [] && NoDup(k[p]) && k.Keys == c.Keys && k'.Keys == c'.Keys
    requires Grown(c, k, par, c', k', par', p) && Shows(c', k', y) && Elms(y) !! c.Keys
    requires k'[p] == InsertedBefore(k[p], y.elm, Some(b[0].elm))
    ensures Displayed(c', k', p, a + [y] + b) && Evolved(c, k, c', k', p, a + b, a + [y] + b)
  {
    hide Forest, ElmsOf, Roots, Shows, InsertedBefore, Evolved, NoDup;
    CreateShape(k[p], a, y, b);
    ForestOne(c', k', y);
    assert a + [] + b == a + b;
    ForestEmpty(c, k);
    DisplayedReplace(c, k, c', k', p, a, [], b, [y]);
  }

  lemma CreateShape(s: seq<Elm>, a: seq<Mounted>, y: Mounted, b: seq<Mounted>)
    requires s == Roots(a + b) && NoDup(s) && b != []
    ensures b[0].elm in s && InsertedBefore(s, y.elm, Some(b[0].elm)) == Roots(a + [y] + b)
  {
    RootsConcat(a, b);
    FirstNotBefore(Roots(a), Roots(b));
    InsertedBeforeAt(Roots(a), y.elm, Roots(b));
    RootsThree(a, [y], b);
    assert s[|a|] == b[0].elm;
  }

  /** `createKeyToOldIdx`: a later slot overwrites an earlier one with the same property name. */
  method CreateKeyToOldIdx(r: array<Option<Mounted>>, f: nat, e: nat) returns (index: Index)
    requires f <= e < r.Length && forall i :: f <= i <= e ==> r[i].Some?
    ensures index == Built(r[..], f, e)
  {
    index := map[];
    for i := f to e + 1
      invariant index == Built(r[..], f, i - 1)
    {
      var name := KeyName(r[i].value.vnode);
      if name.Some? && name.value != PROTO {
        index := index[name.value := i];
      }
    }
  }

  /** `findIdxInOld`: the first live slot of the half-open range that matches. */
  method FindIdxInOld(v: VNode, r: array<Option<Mounted>>, f: nat, e: nat) returns (found: Found)
    requires f <= e <= r.Length
    ensures found == FirstSame(v, r[..], f, e)
  {
    for i := f to e
      invariant FirstSame(v, r[..], f, e) == FirstSame(v, r[..], i, e)
    {
      if r[i].Some? && SameVNode(v, r[i].value.vnode) {
        return Slot(i);
      }
    }
    found := Missing;
  }

  /**
   * `patchVnode`: afterwards the element of the old node shows the new one. Nothing outside the old
   * subtree changes.
   */
  method PatchVnode(doc: Document, o: Mounted, v: VNode) returns (m: Mounted)
    requires doc.Valid() && Shows(doc.content, doc.kids, o) && SameVNode(o.vnode, v) && Survives(o, v)
    modifies doc
    ensures doc.Valid() && Shows(doc.content, doc.kids, m)
    ensures m.vnode == v && m.elm == o.elm
    ensures Untouched(old(doc.content), old(doc.kids), doc.content, doc.kids, Elms(o))
    ensures forall e :: e in Elms(m) ==> e in Elms(o) || e !in old(doc.content)
    decreases v, 1
  {
    if !v.Element? {
      if o.vnode.text != v.text {
        doc.SetContent(o.elm, ContentOf(v));
      }
      return Mounted(v, o.elm, []);
    }
    ghost var c, k := doc.content, doc.kids;
    if v.data.Some? {
      doc.SetContent(o.elm, ElementNode(o.vnode.tag, v.data));
    }
    ForestFrame(c, k, doc.content, doc.kids, o.kids);
    var kids := PatchChildren(doc, o, v);
    m := Mounted(v, o.elm, kids);
  }

  /** The child-list part of `patchVnode`, for an element. */
  method PatchChildren(doc: Document, o: Mounted, v: VNode) returns (ms: seq<Mounted>)
    requires doc.Valid() && Displayed(doc.content, doc.kids, o.elm, o.kids)
    requires o.vnode.Element? && v.Element? && Survives(o, v) && |o.kids| == |Children(o.vnode)|
    modifies doc
    ensures doc.Valid() && Displayed(doc.content, doc.kids, o.elm, ms)
    ensures Evolved(old(doc.content), old(doc.kids), doc.content, doc.kids, o.elm, o.kids, ms)
    ensures |ms| == |Children(v)| && forall i :: 0 <= i < |ms| ==> ms[i].vnode == Children(v)[i]
    decreases v, 0
  {
    hide Settled, Shows, Runs, Displayed, Evolved, Forest, Grown, Linked;
    ghost var c, k, par := doc.content, doc.kids, doc.parent;
    ms := [];
    var r := new Option<Mounted>[|o.kids|](i requires 0 <= i < |o.kids| => Some(o.kids[i]));
    if o.vnode.children.ChildArray? && v.children.ChildArray? {
      ghost var taker;
      assert r[..] == All(o.kids);
      ms, taker := UpdateChildren(doc, o.elm, r, v.children.list, o.kids);
    } else if v.children.ChildArray? {
      Childless(c, k, o.elm, o.kids);
      ms := AddVnodes(doc, o.elm, None, v.children.list, [], []);
      Filled(c, k, par, doc.content, doc.kids, doc.parent, o.elm, o.kids, ms);
    } else if o.vnode.children.ChildArray? {
      LiveAll(r[..], o.kids);
      assert r[0..|o.kids|] == r[..];
      assert [] + Live(r[0..|o.kids| - 1 + 1]) + [] == o.kids;
      assert [] + [] == ms;
      RemoveVnodes(doc, o.elm, r, 0, |o.kids| - 1, [], []);
    } else {
      EvolvedRefl(c, k, o.elm, o.kids);
    }
  }

  lemma Childless(c: Contents, k: KidMap, p: Elm, ms: seq<Mounted>)
    requires Displayed(c, k, p, ms) && ms == []
    ensures p in c && p in k && k[p] == [] + []
  {}

  lemma Filled(c: Contents, k: KidMap, par: map<Elm, Elm>, c': Contents, k': KidMap, par': map<Elm, Elm>, p: Elm,
               none: seq<Mounted>, ms: seq<Mounted>)
    requires Displayed(c, k, p, none) && none == [] && k'.Keys == c'.Keys && Grown(c, k, par, c', k', par', p)
    requires Forest(c', k', ms) && ElmsOf(ms) !! c.Keys && k'[p] == [] + Roots(ms) + []
    ensures Displayed(c', k', p, ms) && Evolved(c, k, c', k', p, none, ms)
  {
    hide Forest;
  }

  lemma SiblingOfLast(doc: Document, p: Elm, a: seq<Mounted>, h: Mounted, b: seq<Mounted>)
    requires doc.Valid() && Displayed(doc.content, doc.kids, p, a + [h] + b)
    ensures doc.NextSibling(h.elm) == First(Roots(b))
  {
    RootsThree(a, [h], b);
    assert NoDup(doc.kids[p]) && doc.kids[p][|a|] == h.elm && IsParent(doc.parent, h.elm, p);
    SplitNoDup(Roots(a), h.elm, Roots(b));
    SiblingAt(Roots(a), h.elm, Roots(b));
  }

  /** Patching `x` and moving it behind the last node of `b`, whose element is `h`. */
  method PatchAndMoveRight(doc: Document, p: Elm, x: Mounted, h: Elm, v: VNode,
                           ghost a: seq<Mounted>, ghost b: seq<Mounted>, ghost c: seq<Mounted>)
    returns (y: Mounted)
    requires doc.Valid() && Displayed(doc.content, doc.kids, p, a + [x] + b + c)
    requires b != [] && b[|b| - 1].elm == h
    requires SameVNode(x.vnode, v) && Survives(x, v)
    modifies doc
    ensures doc.Valid() && Displayed(doc.content, doc.kids, p, a + b + [y] + c)
    ensures Evolved(old(doc.content), old(doc.kids), doc.content, doc.kids, p, a + [x] + b + c, a + b + [y] + c)
    ensures y.vnode == v && y.elm == x.elm
    decreases v, 3
  {
    ghost var c0, k0 := doc.content, doc.kids;
    assert a + [x] + b + c == a + [x] + (b + c);
    y := PatchAt(doc, p, x, v, a, b + c);
    ghost var c1, k1 := doc.content, doc.kids;
    assert a + [y] + (b + c) == a + [y] + b + c;
    ghost var init := b[..|b| - 1];
    assert a + [y] + b + c == (a + [y] + init) + [b[|b| - 1]] + c;
    SiblingOfLast(doc, p, a + [y] + init, b[|b| - 1], c);
    MoveRight(doc, p, y.elm, doc.NextSibling(h), a, y, b, c);
    EvolvedTrans(c0, k0, c1, k1, doc.content, doc.kids, p, a + [x] + b + c, a + [y] + b + c, a + b + [y] + c);
  }

  /** Patching `x` and moving it in front of the first node of `b`, whose element is `ref`. */
  method PatchAndMoveLeft(doc: Document, p: Elm, x: Mounted, ref: Elm, v: VNode,
                          ghost a: seq<Mounted>, ghost b: seq<Mounted>, ghost c: seq<Mounted>)
    returns (y: Mounted)
    requires doc.Valid() && Displayed(doc.content, doc.kids, p, a + b + [x] + c)
    requires b != [] && b[0].elm == ref
    requires SameVNode(x.vnode, v) && Survives(x, v)
    modifies doc
    ensures doc.Valid() && Displayed(doc.content, doc.kids, p, a + [y] + b + c)
    ensures Evolved(old(doc.content), old(doc.kids), doc.content, doc.kids, p, a + b + [x] + c, a + [y] + b + c)
    ensures y.vnode == v && y.elm == x.elm
    decreases v, 3
  {
    ghost var c0, k0 := doc.content, doc.kids;
    y := PatchAt(doc, p, x, v, a + b, c);
    ghost var c1, k1 := doc.content, doc.kids;
    MoveLeft(doc, p, y.elm, ref, a, b, y, c);
    EvolvedTrans(c0, k0, c1, k1, doc.content, doc.kids, p, a + b + [x] + c, a + b + [y] + c, a + [y] + b + c);
  }

  /** The children of `p` while the lists are compared: finished ones at both ends, live old ones between. */
  function Current(front: seq<Mounted>, r: seq<Option<Mounted>>, f: int, e: int, back: seq<Mounted>): seq<Mounted>
    requires 0 <= f <= e + 1 <= |r|
  {
    front + Live(r[f..e + 1]) + back
  }

  /** First old child against first new child. */
  method StartStart(doc: Document, p: Elm, r: array<Option<Mounted>>, f: nat, e: nat, v: VNode,
                    ghost front: seq<Mounted>, ghost back: seq<Mounted>)
    returns (y: Mounted)
    requires doc.Valid() && f <= e < r.Length && Displayed(doc.content, doc.kids, p, Current(front, r[..], f, e, back))
    requires r[f].Some? && SameVNode(r[f].value.vnode, v) && Survives(r[f].value, v)
    modifies doc
    ensures doc.Valid() && Displayed(doc.content, doc.kids, p, Current(front + [y], r[..], f + 1, e, back))
    ensures Evolved(old(doc.content), old(doc.kids), doc.content, doc.kids, p,
                    Current(front, r[..], f, e, back), Current(front + [y], r[..], f + 1, e, back))
    ensures y.vnode == v && y.elm == r[f].value.elm
    decreases v, 3
  {
    hide *;
    ghost var rest := Live(r[..][f + 1..e + 1]);
    FirstShape(front, r[..], f, e, back);
    y := PatchAt(doc, p, r[f].value, v, front, rest + back);
    FirstTakenShape(front, r[..], f, e, back, y);
  }

  lemma FirstShape(front: seq<Mounted>, r: seq<Option<Mounted>>, f: int, e: int, back: seq<Mounted>)
    requires 0 <= f <= e < |r| && r[f].Some?
    ensures Current(front, r, f, e, back) == front + [r[f].value] + (Live(r[f + 1..e + 1]) + back)
  {
    LiveSplit(r, f, e, f);
  }

  lemma FirstTakenShape(front: seq<Mounted>, r: seq<Option<Mounted>>, f: int, e: int, back: seq<Mounted>, y: Mounted)
    requires 0 <= f <= e < |r|
    ensures Current(front + [y], r, f + 1, e, back) == front + [y] + (Live(r[f + 1..e + 1]) + back)
    ensures Current(front, r, f + 1, e, [y] + back) == front + Live(r[f + 1..e + 1]) + [y] + back
  {}

  lemma LastShape(front: seq<Mounted>, r: seq<Option<Mounted>>, f: int, e: int, back: seq<Mounted>, y: Mounted)
    requires 0 <= f <= e < |r| && r[e].Some?
    ensures Current(front, r, f, e, back) == (front + Live(r[f..e])) + [r[e].value] + back
    ensures Current(front, r, f, e - 1, [y] + back) == (front + Live(r[f..e])) + [y] + back
  {
    LiveSplit(r, f, e, e);
  }

  /** Last old child against last new child. */
  method EndEnd(doc: Document, p: Elm, r: array<Option<Mounted>>, f: nat, e: nat, v: VNode,
                ghost front: seq<Mounted>, ghost back: seq<Mounted>)
    returns (y: Mounted)
    requires doc.Valid() && f <= e < r.Length && Displayed(doc.content, doc.kids, p, Current(front, r[..], f, e, back))
    requires r[e].Some? && SameVNode(r[e].value.vnode, v) && Survives(r[e].value, v)
    modifies doc
    ensures doc.Valid() && Displayed(doc.content, doc.kids, p, Current(front, r[..], f, e - 1, [y] + back))
    ensures Evolved(old(doc.content), old(doc.kids), doc.content, doc.kids, p,
                    Current(front, r[..], f, e, back), Current(front, r[..], f, e - 1, [y] + back))
    ensures y.vnode == v && y.elm == r[e].value.elm
    decreases v, 3
  {
    hide *;
    ghost var rest := Live(r[..][f..e]);
    LastShape(front, r[..], f, e, back, r[e].value);
    y := PatchAt(doc, p, r[e].value, v, front + rest, back);
    LastShape(front, r[..], f, e, back, y);
  }

  lemma LastIsLast(r: seq<Option<Mounted>>, f: int, e: int)
    requires 0 <= f <= e < |r| && r[e].Some?
    ensures var rest := Live(r[f..e + 1]); rest != [] && rest[|rest| - 1] == r[e].value
  {
    LiveSplit(r, f, e, e);
  }

  /** First old child against last new child: the node moves behind the last old one. */
  method StartEnd(doc: Document, p: Elm, r: array<Option<Mounted>>, f: nat, e: nat, v: VNode,
                  ghost front: seq<Mounted>, ghost back: seq<Mounted>)
    returns (y: Mounted)
    requires doc.Valid() && f < e < r.Length && Displayed(doc.content, doc.kids, p, Current(front, r[..], f, e, back))
    requires r[f].Some? && r[e].Some? && SameVNode(r[f].value.vnode, v) && Survives(r[f].value, v)
    modifies doc
    ensures doc.Valid() && Displayed(doc.content, doc.kids, p, Current(front, r[..], f + 1, e, [y] + back))
    ensures Evolved(old(doc.content), old(doc.kids), doc.content, doc.kids, p,
                    Current(front, r[..], f, e, back), Current(front, r[..], f + 1, e, [y] + back))
    ensures y.vnode == v && y.elm == r[f].value.elm
    decreases v, 4
  {
    hide *;
    ghost var rest := Live(r[..][f + 1..e + 1]);
    FirstShape(front, r[..], f, e, back);
    LastIsLast(r[..], f + 1, e);
    assert front + [r[f].value] + (rest + back) == front + [r[f].value] + rest + back;
    y := PatchAndMoveRight(doc, p, r[f].value, r[e].value.elm, v, front, rest, back);
    FirstTakenShape(front, r[..], f, e, back, y);
  }

  /** An old child in the slot `u` serves the first new child: the node moves in front of the first old one. */
  method TakeSlot(doc: Document, p: Elm, r: array<Option<Mounted>>, f: nat, u: nat, e: nat, v: VNode,
                  ghost front: seq<Mounted>, ghost back: seq<Mounted>)
    returns (y: Mounted)
    requires doc.Valid() && f < u <= e < r.Length
    requires Displayed(doc.content, doc.kids, p, Current(front, r[..], f, e, back))
    requires r[f].Some? && r[u].Some? && SameVNode(r[u].value.vnode, v) && Survives(r[u].value, v)
    modifies doc
    ensures doc.Valid() && Displayed(doc.content, doc.kids, p, Current(front + [y], r[..][u := None], f, e, back))
    ensures Evolved(old(doc.content), old(doc.kids), doc.content, doc.kids, p,
                    Current(front, r[..], f, e, back), Current(front + [y], r[..][u := None], f, e, back))
    ensures y.vnode == v && y.elm == r[u].value.elm
    decreases v, 4
  {
    ghost var before, after := Live(r[..][f..u]), Live(r[..][u + 1..e + 1]);
    SlotShape(front, r[..], f, u, e, back);
    y := PatchAndMoveLeft(doc, p, r[u].value, r[f].value.elm, v, front, before, after + back);
    SlotTakenShape(front, y, r[..], f, u, e, back);
  }

  lemma SlotShape(front: seq<Mounted>, r: seq<Option<Mounted>>, f: int, u: int, e: int, back: seq<Mounted>)
    requires 0 <= f < u <= e < |r| && r[f].Some? && r[u].Some?
    ensures var before := Live(r[f..u]);
            && before != [] && before[0] == r[f].value
            && Current(front, r, f, e, back) == front + before + [r[u].value] + (Live(r[u + 1..e + 1]) + back)
  {
    LiveSplit(r, f, e, u);
    LiveSplit(r, f, u - 1, f);
  }

  lemma SlotTakenShape(front: seq<Mounted>, y: Mounted, r: seq<Option<Mounted>>, f: int, u: int, e: int,
                       back: seq<Mounted>)
    requires 0 <= f < u <= e < |r|
    ensures Current(front + [y], r[u := None], f, e, back) ==
            front + [y] + Live(r[f..u]) + (Live(r[u + 1..e + 1]) + back)
  {
    LiveSplit(r, f, e, u);
  }

  /** Last old child against first new child: the node moves in front of the first old one. */
  method EndStart(doc: Document, p: Elm, r: array<Option<Mounted>>, f: nat, e: nat, v: VNode,
                  ghost front: seq<Mounted>, ghost back: seq<Mounted>)
    returns (y: Mounted)
    requires doc.Valid() && f < e < r.Length && Displayed(doc.content, doc.kids, p, Current(front, r[..], f, e, back))
    requires r[f].Some? && r[e].Some? && SameVNode(r[e].value.vnode, v) && Survives(r[e].value, v)
    modifies doc
    ensures doc.Valid() && Displayed(doc.content, doc.kids, p, Current(front + [y], r[..], f, e - 1, back))
    ensures Evolved(old(doc.content), old(doc.kids), doc.content, doc.kids, p,
                    Current(front, r[..], f, e, back), Current(front + [y], r[..], f, e - 1, back))
    ensures y.vnode == v && y.elm == r[e].value.elm
    decreases v, 4
  {
    ghost var before := Live(r[..][f..e]);
    SlotShape(front, r[..], f, e, e, back);
    assert Live(r[..][e + 1..e + 1]) + back == back;
    y := PatchAndMoveLeft(doc, p, r[e].value, r[f].value.elm, v, front, before, back);
    assert Current(front + [y], r[..], f, e - 1, back) == front + [y] + before + back;
  }

  /** No old child serves the first new child: a node is created in front of the first old one. */
  method CreateFront(doc: Document, p: Elm, r: array<Option<Mounted>>, f: nat, e: nat, v: VNode,
                     ghost front: seq<Mounted>, ghost back: seq<Mounted>)
    returns (y: Mounted)
    requires doc.Valid() && f <= e < r.Length && Displayed(doc.content, doc.kids, p, Current(front, r[..], f, e, back))
    requires r[f].Some?
    modifies doc
    ensures doc.Valid() && Displayed(doc.content, doc.kids, p, Current(front + [y], r[..], f, e, back))
    ensures Evolved(old(doc.content), old(doc.kids), doc.content, doc.kids, p,
                    Current(front, r[..], f, e, back), Current(front + [y], r[..], f, e, back))
    ensures y.vnode == v
  {
    ghost var live := Live(r[..][f..e + 1]);
    LiveSplit(r[..], f, e, f);
    assert Current(front, r[..], f, e, back) == front + (live + back);
    y := CreateAt(doc, p, v, r[f].value.elm, front, live + back);
    assert Current(front + [y], r[..], f, e, back) == front + [y] + (live + back);
  }

  lemma SkipShape(front: seq<Mounted>, r: seq<Option<Mounted>>, f: int, e: int, back: seq<Mounted>)
    requires 0 <= f <= e < |r|
    ensures r[f].None? ==> Current(front, r, f + 1, e, back) == Current(front, r, f, e, back)
    ensures r[e].None? ==> Current(front, r, f, e - 1, back) == Current(front, r, f, e, back)
  {
    LiveSplit(r, f, e, f);
    LiveSplit(r, f, e, e);
    assert r[f].None? ==> Live(r[f..e + 1]) == Live(r[f + 1..e + 1]);
    assert r[e].None? ==> Live(r[f..e + 1]) == Live(r[f..e]);
  }

  /** What holds at every head of the comparison loop. */
  ghost predicate Reconciling(c0: Contents, k0: KidMap, c: Contents, k: KidMap, p: Elm, olds: seq<Mounted>,
                              news: seq<VNode>, r: seq<Option<Mounted>>, f: int, e: int,
                              front: seq<Mounted>, back: seq<Mounted>, taker: seq<int>)
  {
    && 0 <= f <= e + 1 <= |r|
    && Displayed(c, k, p, Current(front, r, f, e, back))
    && Evolved(c0, k0, c, k, p, olds, Current(front, r, f, e, back))
    && Accounted(olds, news, r, f, e, front, back, taker)
  }

  lemma Advanced(c0: Contents, k0: KidMap, c: Contents, k: KidMap, c': Contents, k': KidMap, p: Elm,
                 olds: seq<Mounted>, news: seq<VNode>,
                 r: seq<Option<Mounted>>, f: int, e: int, front: seq<Mounted>, back: seq<Mounted>, taker: seq<int>,
                 r': seq<Option<Mounted>>, f': int, e': int, front': seq<Mounted>, back': seq<Mounted>, taker': seq<int>)
    requires Reconciling(c0, k0, c, k, p, olds, news, r, f, e, front, back, taker)
    requires 0 <= f' <= e' + 1 <= |r'| && Accounted(olds, news, r', f', e', front', back', taker')
    requires Displayed(c', k', p, Current(front', r', f', e', back'))
    requires Evolved(c, k, c', k', p, Current(front, r, f, e, back), Current(front', r', f', e', back'))
    ensures Reconciling(c0, k0, c', k', p, olds, news, r', f', e', front', back', taker')
  {
    EvolvedTrans(c0, k0, c, k, c', k', p, olds, Current(front, r, f, e, back), Current(front', r', f', e', back'));
  }

  lemma Skip(c0: Contents, k0: KidMap, c: Contents, k: KidMap, p: Elm, olds: seq<Mounted>, news: seq<VNode>,
             r: seq<Option<Mounted>>, f: int, e: int, front: seq<Mounted>, back: seq<Mounted>, taker: seq<int>)
    requires Reconciling(c0, k0, c, k, p, olds, news, r, f, e, front, back, taker) && f <= e
    ensures r[f].None? ==> Reconciling(c0, k0, c, k, p, olds, news, r, f + 1, e, front, back, taker)
    ensures r[e].None? ==> Reconciling(c0, k0, c, k, p, olds, news, r, f, e - 1, front, back, taker)
  {
    SkipShape(front, r, f, e, back);
  }

  /** First old child against first new child: patched where it is. */
  method TakeStartStart(doc: Document, p: Elm, r: array<Option<Mounted>>, f: nat, e: nat, news: seq<VNode>,
                        front: seq<Mounted>, back: seq<Mounted>,
                        ghost olds: seq<Mounted>, ghost taker: seq<int>, ghost c0: Contents, ghost k0: KidMap)
    returns (y: Mounted)
    requires doc.Valid() && f <= e < r.Length
    requires Reconciling(c0, k0, doc.content, doc.kids, p, olds, news, r[..], f, e, front, back, taker)
    requires |front| + |back| < |news|
    requires r[f].Some? && SameVNode(r[f].value.vnode, news[|front|])
    requires Survives(r[f].value, news[|front|])
    modifies doc
    ensures doc.Valid()
    ensures Reconciling(c0, k0, doc.content, doc.kids, p, olds, news, r[..], f + 1, e, front + [y], back,
                        taker[f := |front|])
    decreases news, 0
  {
    hide Displayed;
    hide Evolved;
    ghost var c, k := doc.content, doc.kids;
    y := StartStart(doc, p, r, f, e, news[|front|], front, back);
    TakeFront(olds, news, r[..], f, e, front, back, taker, f, y, r[..], f + 1, e);
    Advanced(c0, k0, c, k, doc.content, doc.kids, p, olds, news, r[..], f, e, front, back, taker,
             r[..], f + 1, e, front + [y], back, taker[f := |front|]);
  }

  /** Last old child against last new child: patched where it is. */
  method TakeEndEnd(doc: Document, p: Elm, r: array<Option<Mounted>>, f: nat, e: nat, news: seq<VNode>,
                    front: seq<Mounted>, back: seq<Mounted>,
                    ghost olds: seq<Mounted>, ghost taker: seq<int>, ghost c0: Contents, ghost k0: KidMap)
    returns (y: Mounted)
    requires doc.Valid() && f <= e < r.Length
    requires Reconciling(c0, k0, doc.content, doc.kids, p, olds, news, r[..], f, e, front, back, taker)
    requires |front| + |back| < |news|
    requires r[e].Some? && SameVNode(r[e].value.vnode, news[|news| - 1 - |back|])
    requires Survives(r[e].value, news[|news| - 1 - |back|])
    modifies doc
    ensures doc.Valid()
    ensures Reconciling(c0, k0, doc.content, doc.kids, p, olds, news, r[..], f, e - 1, front, [y] + back,
                        taker[e := |news| - 1 - |back|])
    decreases news, 0
  {
    hide Displayed, Evolved, Accounted, Survives, SameVNode;
    SlotsAreOlds(olds, news, r[..], f, e, front, back, taker);
    ghost var c, k, m := doc.content, doc.kids, |news| - 1 - |back|;
    y := EndEnd(doc, p, r, f, e, news[|news| - 1 - |back|], front, back);
    TakeBack(olds, news, r[..], f, e, front, back, taker, e, y, f, e - 1);
    Advanced(c0, k0, c, k, doc.content, doc.kids, p, olds, news, r[..], f, e, front, back, taker,
             r[..], f, e - 1, front, [y] + back, taker[e := m]);
  }

  /** First old child against last new child: the node moves behind the last old one. */
  method TakeStartEnd(doc: Document, p: Elm, r: array<Option<Mounted>>, f: nat, e: nat, news: seq<VNode>,
                      front: seq<Mounted>, back: seq<Mounted>,
                      ghost olds: seq<Mounted>, ghost taker: seq<int>, ghost c0: Contents, ghost k0: KidMap)
    returns (y: Mounted)
    requires doc.Valid() && f < e < r.Length
    requires Reconciling(c0, k0, doc.content, doc.kids, p, olds, news, r[..], f, e, front, back, taker)
    requires |front| + |back| < |news|
    requires r[f].Some? && r[e].Some? && SameVNode(r[f].value.vnode, news[|news| - 1 - |back|])
    requires Survives(r[f].value, news[|news| - 1 - |back|])
    modifies doc
    ensures doc.Valid()
    ensures Reconciling(c0, k0, doc.content, doc.kids, p, olds, news, r[..], f + 1, e, front, [y] + back,
                        taker[f := |news| - 1 - |back|])
    decreases news, 0
  {
    hide Displayed;
    hide Evolved;
    ghost var c, k, m := doc.content, doc.kids, |news| - 1 - |back|;
    y := StartEnd(doc, p, r, f, e, news[|news| - 1 - |back|], front, back);
    TakeBack(olds, news, r[..], f, e, front, back, taker, f, y, f + 1, e);
    Advanced(c0, k0, c, k, doc.content, doc.kids, p, olds, news, r[..], f, e, front, back, taker,
             r[..], f + 1, e, front, [y] + back, taker[f := m]);
  }

  /** Last old child against first new child: the node moves in front of the first old one. */
  method TakeEndStart(doc: Document, p: Elm, r: array<Option<Mounted>>, f: nat, e: nat, news: seq<VNode>,
                      front: seq<Mounted>, back: seq<Mounted>,
                      ghost olds: seq<Mounted>, ghost taker: seq<int>, ghost c0: Contents, ghost k0: KidMap)
    returns (y: Mounted)
    requires doc.Valid() && f < e < r.Length
    requires Reconciling(c0, k0, doc.content, doc.kids, p, olds, news, r[..], f, e, front, back, taker)
    requires |front| + |back| < |news|
    requires r[f].Some? && r[e].Some? && SameVNode(r[e].value.vnode, news[|front|])
    requires Survives(r[e].value, news[|front|])
    modifies doc
    ensures doc.Valid()
    ensures Reconciling(c0, k0, doc.content, doc.kids, p, olds, news, r[..], f, e - 1, front + [y], back,
                        taker[e := |front|])
    decreases news, 0
  {
    hide Displayed;
    hide Evolved;
    ghost var c, k := doc.content, doc.kids;
    y := EndStart(doc, p, r, f, e, news[|front|], front, back);
    TakeFront(olds, news, r[..], f, e, front, back, taker, e, y, r[..], f, e - 1);
    Advanced(c0, k0, c, k, doc.content, doc.kids, p, olds, news, r[..], f, e, front, back, taker,
             r[..], f, e - 1, front + [y], back, taker[e := |front|]);
  }

  /** What serves the new child `v`: by the key index when `v` has a key, else by scanning all slots but the last. */
  method LookUp(r: array<Option<Mounted>>, f: nat, e: nat, v: VNode, index: Index) returns (found: Found)
    requires f <= e <= r.Length
    ensures found == LookedUp(v, r[..], f, e, index)
  {
    if KeyName(v).Some? {
      found := Get(index, KeyName(v).value);
    } else {
      found := FindIdxInOld(v, r, f, e);
    }
  }

  /**
   * After a good lookup, a slot with the same kind of node is a live one behind the first; otherwise no old
   * child that is left matches `v`: the scan of the half-open range misses nothing because the last slot did
   * not match.
   */
  lemma LookUpDecides(olds: seq<Mounted>, r: Slots, f: nat, e: nat, index: Index, v: VNode)
    requires |r| == |olds| && forall i :: 0 <= i < |r| && r[i].Some? ==> r[i] == Some(olds[i])
    requires Indexed(olds, index, f, e)
    requires f <= e < |r| && r[f].Some? && r[e].Some?
    requires !SameVNode(r[f].value.vnode, v) && !SameVNode(r[e].value.vnode, v)
    requires Good(LookedUp(v, r, f, e, index), v, r, f, e)
    ensures var found := LookedUp(v, r, f, e, index);
            && (found.Slot? ==> found.u < |r| && r[found.u].Some?)
            && if found.Slot? && SameVNode(r[found.u].value.vnode, v) then f < found.u <= e
               else
                 && (KeysDistinct(VNodesOf(olds)) ==> forall i :: Waiting(r, f, e, i) ==> !KeyedMatch(olds[i], v))
                 && (KeyOf(v).None? ==> forall i :: Waiting(r, f, e, i) ==> !SameVNode(olds[i].vnode, v))
  {
    hide SameVNode, SameKind, Indexed;
    var found := LookedUp(v, r, f, e, index);
    if !(found.Slot? && SameVNode(r[found.u].value.vnode, v)) {
      NoMatch(olds, r, f, e, index, v);
    }
  }

  /** The old child in the slot `u` is patched, taken out of its slot and moved to the front. */
  method TakeInside(doc: Document, p: Elm, r: array<Option<Mounted>>, f: nat, u: nat, e: nat, news: seq<VNode>,
                    front: seq<Mounted>, back: seq<Mounted>,
                    ghost olds: seq<Mounted>, ghost taker: seq<int>, ghost c0: Contents, ghost k0: KidMap)
    returns (y: Mounted)
    requires doc.Valid() && f < u <= e < r.Length
    requires Reconciling(c0, k0, doc.content, doc.kids, p, olds, news, r[..], f, e, front, back, taker)
    requires |front| + |back| < |news|
    requires r[f].Some? && r[u].Some? && SameVNode(r[u].value.vnode, news[|front|])
    requires Survives(r[u].value, news[|front|])
    modifies doc, r
    ensures doc.Valid() && r[..] == old(r[..])[u := None]
    ensures u < |taker| && Reconciling(c0, k0, doc.content, doc.kids, p, olds, news, r[..], f, e, front + [y], back,
                                       taker[u := |front|])
    decreases news, 0
  {
    hide Displayed;
    hide Evolved;
    ghost var c, k, slots := doc.content, doc.kids, r[..];
    assert slots[u] == Some(olds[u]) && Waiting(slots, f, e, u);
    y := TakeSlot(doc, p, r, f, u, e, news[|front|], front, back);
    r[u] := None;
    TakeFront(olds, news, slots, f, e, front, back, taker, u, y, r[..], f, e);
    Advanced(c0, k0, c, k, doc.content, doc.kids, p, olds, news, slots, f, e, front, back, taker,
             r[..], f, e, front + [y], back, taker[u := |front|]);
  }

  /** A node is created for the first new child. */
  method TakeNothing(doc: Document, p: Elm, r: array<Option<Mounted>>, f: nat, e: nat, news: seq<VNode>,
                     front: seq<Mounted>, back: seq<Mounted>,
                     ghost olds: seq<Mounted>, ghost taker: seq<int>, ghost c0: Contents, ghost k0: KidMap)
    returns (y: Mounted)
    requires doc.Valid() && f <= e < r.Length && r[f].Some?
    requires Reconciling(c0, k0, doc.content, doc.kids, p, olds, news, r[..], f, e, front, back, taker)
    requires |front| + |back| < |news|
    requires KeysDistinct(VNodesOf(olds)) ==> forall i :: Waiting(r[..], f, e, i) ==> !KeyedMatch(olds[i], news[|front|])
    requires KeyOf(news[|front|]).None? ==>
               forall i :: Waiting(r[..], f, e, i) ==> !SameVNode(olds[i].vnode, news[|front|])
    modifies doc
    ensures doc.Valid()
    ensures Reconciling(c0, k0, doc.content, doc.kids, p, olds, news, r[..], f, e, front + [y], back, taker)
  {
    hide Displayed;
    hide Evolved;
    ghost var c, k := doc.content, doc.kids;
    y := CreateFront(doc, p, r, f, e, news[|front|], front, back);
    MakeNew(olds, news, r[..], f, e, front, back, taker, [y]);
    Advanced(c0, k0, c, k, doc.content, doc.kids, p, olds, news, r[..], f, e, front, back, taker,
             r[..], f, e, front + [y], back, taker);
  }

  lemma IndexedShrinks(olds: seq<Mounted>, index: Option<Index>, f: int, e: int)
    ensures index.Some? && Indexed(olds, index.value, f, e) ==>
              Indexed(olds, index.value, f + 1, e) && Indexed(olds, index.value, f, e - 1)
  {}

  /**
   * The outcome of comparing two child lists. Every old child was taken over by one new child, which is
   * the same kind of node and keeps its element, or its element has no parent any more. A new child without
   * key gets a new element only when all old children of its kind are taken. With distinct old and new keys,
   * a keyed new child keeps the element of the old child it matches.
   */
  ghost predicate Settled(olds: seq<Mounted>, news: seq<VNode>, ms: seq<Mounted>, taker: seq<int>,
                          parent: map<Elm, Elm>)
    requires |ms| == |news|
  {
    && |taker| == |olds|
    && (forall i :: 0 <= i < |olds| && taker[i] != -1 ==>
          0 <= taker[i] < |ms| && SameKind(olds[i].vnode, news[taker[i]]) && ms[taker[i]].elm == olds[i].elm)
    && (forall i :: 0 <= i < |olds| && taker[i] == -1 ==> olds[i].elm !in parent)
    && (forall i, j :: 0 <= i < |olds| && taker[i] == -1 && 0 <= j < |news| && KeyOf(news[j]).None?
                       && SameKind(olds[i].vnode, news[j])
                       ==> j in taker)
    && (KeysDistinct(VNodesOf(olds)) && KeysDistinct(news) ==>
          forall i, j :: 0 <= i < |olds| && 0 <= j < |news| && KeyedMatch(olds[i], news[j]) ==> taker[i] == j)
  }

  lemma SettledFrom(olds: seq<Mounted>, news: seq<VNode>, r: seq<Option<Mounted>>, f: int, e: int,
                    front: seq<Mounted>, back: seq<Mounted>, taker: seq<int>, parent: map<Elm, Elm>)
    requires Accounted(olds, news, r, f, e, front, back, taker) && |front| + |back| == |news|
    requires forall i :: 0 <= i < |olds| && Waiting(r, f, e, i) ==> olds[i].elm !in parent
    ensures forall j :: 0 <= j < |news| ==> (front + back)[j].vnode == news[j]
    ensures Settled(olds, news, front + back, taker, parent)
  {
    forall o, v ensures SameVNode(o, v) <==> SameKind(o, v) {
      SameKindExactly(o, v);
    }
  }

  /** All old children are used up: the remaining new ones are created in front of the finished tail. */
  method AddRest(doc: Document, p: Elm, r: array<Option<Mounted>>, f: nat, e: int, news: seq<VNode>,
                 front: seq<Mounted>, back: seq<Mounted>,
                 ghost olds: seq<Mounted>, ghost taker: seq<int>, ghost c0: Contents, ghost k0: KidMap)
    returns (ms: seq<Mounted>)
    requires doc.Valid() && f == e + 1 <= r.Length && |front| + |back| <= |news|
    requires Reconciling(c0, k0, doc.content, doc.kids, p, olds, news, r[..], f, e, front, back, taker)
    modifies doc
    ensures doc.Valid() && Displayed(doc.content, doc.kids, p, ms)
    ensures Evolved(c0, k0, doc.content, doc.kids, p, olds, ms)
    ensures |ms| == |news| && forall j :: 0 <= j < |news| ==> ms[j].vnode == news[j]
    ensures Settled(olds, news, ms, taker, doc.parent)
  {
    hide Forest;
    hide Evolved;
    hide Accounted;
    hide Settled;
    ghost var c, k := doc.content, doc.kids;
    RootsThree(front, [], back);
    assert Current(front, r[..], f, e, back) == front + [] + back;
    var ref := if back == [] then None else Some(back[0].elm);
    var vs := news[|front|..|news| - |back|];
    var xs := AddVnodes(doc, p, ref, vs, Roots(front), Roots(back));
    RootsThree(front, xs, back);
    ForestEmpty(c, k);
    DisplayedReplace(c, k, doc.content, doc.kids, p, front, [], back, xs);
    EvolvedTrans(c0, k0, c, k, doc.content, doc.kids, p, olds, front + [] + back, front + xs + back);
    MakeNew(olds, news, r[..], f, e, front, back, taker, xs);
    SettledFrom(olds, news, r[..], f, e, front + xs, back, taker, doc.parent);
    ms := front + xs + back;
  }

  /** All new children are finished: the old ones still waiting are removed. */
  method RemoveRest(doc: Document, p: Elm, r: array<Option<Mounted>>, f: nat, e: nat, news: seq<VNode>,
                    front: seq<Mounted>, back: seq<Mounted>,
                    ghost olds: seq<Mounted>, ghost taker: seq<int>, ghost c0: Contents, ghost k0: KidMap)
    returns (ms: seq<Mounted>)
    requires doc.Valid() && f <= e < r.Length && |front| + |back| == |news|
    requires Reconciling(c0, k0, doc.content, doc.kids, p, olds, news, r[..], f, e, front, back, taker)
    modifies doc
    ensures doc.Valid() && Displayed(doc.content, doc.kids, p, ms)
    ensures Evolved(c0, k0, doc.content, doc.kids, p, olds, ms)
    ensures |ms| == |news| && forall j :: 0 <= j < |news| ==> ms[j].vnode == news[j]
    ensures Settled(olds, news, ms, taker, doc.parent)
  {
    ghost var c, k := doc.content, doc.kids;
    assert r[..][f..e + 1] == r[f..e + 1];
    RemoveVnodes(doc, p, r, f, e, front, back);
    EvolvedTrans(c0, k0, c, k, doc.content, doc.kids, p, olds, Current(front, r[..], f, e, back), front + back);
    SettledFrom(olds, news, r[..], f, e, front, back, taker, doc.parent);
    ms := front + back;
  }

  ghost function Untaken(n: nat): (t: seq<int>)
    ensures |t| == n && forall i :: 0 <= i < n ==> t[i] == -1
  {
    seq(n, _ => -1)
  }

  lemma Starting(doc: Document, p: Elm, r: seq<Option<Mounted>>, olds: seq<Mounted>, news: seq<VNode>)
    requires Displayed(doc.content, doc.kids, p, olds)
    requires |r| == |olds| && forall i :: 0 <= i < |olds| ==> r[i] == Some(olds[i])
    ensures Reconciling(doc.content, doc.kids, doc.content, doc.kids, p, olds, news, r, 0, |r| - 1, [], [],
                        Untaken(|olds|))
  {
    LiveAll(r, olds);
    assert r[0..|r|] == r;
    assert Current([], r, 0, |r| - 1, []) == olds;
  }

  /** One turn of a run without bad lookups. */
  lemma RunsOn(r: Slots, news: seq<VNode>, f: nat, e: nat, d: nat, m: nat, index: Option<Index>)
    requires f <= e < |r| && d <= m < |news| && Runs(r, news, f, e, d, m, index)
    ensures r[f].None? ==> Runs(r, news, f + 1, e, d, m, index)
    ensures r[f].Some? && r[e].None? ==> Runs(r, news, f, e - 1, d, m, index)
    ensures r[f].Some? && r[e].Some? ==>
              if SameVNode(r[f].value.vnode, news[d]) then
                Survives(r[f].value, news[d]) && Runs(r, news, f + 1, e, d + 1, m, index)
              else if SameVNode(r[e].value.vnode, news[m]) then
                Survives(r[e].value, news[m]) && Runs(r, news, f, e - 1, d, m - 1, index)
              else if SameVNode(r[f].value.vnode, news[m]) then
                Survives(r[f].value, news[m]) && Runs(r, news, f + 1, e, d, m - 1, index)
              else if SameVNode(r[e].value.vnode, news[d]) then
                Survives(r[e].value, news[d]) && Runs(r, news, f, e - 1, d + 1, m, index)
              else
                RunsByLookUp(r, news, f, e, d, m, if index.Some? then index.value else Built(r, f, e))
  {}

  ghost predicate RunsByLookUp(r: Slots, news: seq<VNode>, f: nat, e: nat, d: nat, m: nat, index: Index)
    requires f <= e < |r| && d <= m < |news|
  {
    var found := LookedUp(news[d], r, f, e, index);
    && Good(found, news[d], r, f, e)
    && if found.Slot? && SameVNode(r[found.u].value.vnode, news[d]) then
         Survives(r[found.u].value, news[d]) && Runs(r[found.u := None], news, f, e, d + 1, m, Some(index))
       else Runs(r, news, f, e, d + 1, m, Some(index))
  }

  lemma LookUpGood(c0: Contents, k0: KidMap, c: Contents, k: KidMap, p: Elm, olds: seq<Mounted>,
                   news: seq<VNode>, r: Slots, f: nat, e: nat,
                   front: seq<Mounted>, back: seq<Mounted>, taker: seq<int>, index: Index)
    requires Reconciling(c0, k0, c, k, p, olds, news, r, f, e, front, back, taker) && Indexed(olds, index, f, e)
    requires f <= e < |r| && |front| + |back| < |news| && r[f].Some? && r[e].Some?
    requires !SameVNode(r[f].value.vnode, news[|front|]) && !SameVNode(r[e].value.vnode, news[|front|])
    requires RunsByLookUp(r, news, f, e, |front|, |news| - 1 - |back|, index)
    ensures var found := LookedUp(news[|front|], r, f, e, index);
            && (found.Slot? ==> found.u < |r| && r[found.u].Some?)
            && if found.Slot? && SameVNode(r[found.u].value.vnode, news[|front|]) then
                 && f < found.u <= e && Survives(r[found.u].value, news[|front|])
                 && Runs(r[found.u := None], news, f, e, |front| + 1, |news| - 1 - |back|, Some(index))
               else
                 && Runs(r, news, f, e, |front| + 1, |news| - 1 - |back|, Some(index))
                 && (KeysDistinct(VNodesOf(olds)) ==>
                       forall i :: Waiting(r, f, e, i) ==> !KeyedMatch(olds[i], news[|front|]))
                 && (KeyOf(news[|front|]).None? ==>
                       forall i :: Waiting(r, f, e, i) ==> !SameVNode(olds[i].vnode, news[|front|]))
  {
    hide Accounted, Displayed, Evolved, Indexed, Runs, Survives, SameVNode;
    SlotsAreOlds(olds, news, r, f, e, front, back, taker);
    LookUpDecides(olds, r, f, e, index, news[|front|]);
  }

  /** Neither end matches: the first new child is served by what is looked up, or gets a new element. */
  method TakeByLookUp(doc: Document, p: Elm, r: array<Option<Mounted>>, f: nat, e: nat, news: seq<VNode>, index: Index,
                      front: seq<Mounted>, back: seq<Mounted>,
                      ghost olds: seq<Mounted>, ghost taker: seq<int>, ghost c0: Contents, ghost k0: KidMap)
    returns (y: Mounted, ghost taker': seq<int>)
    requires doc.Valid() && f <= e < r.Length && |front| + |back| < |news| && |taker| == |olds| == r.Length
    requires Reconciling(c0, k0, doc.content, doc.kids, p, olds, news, r[..], f, e, front, back, taker)
    requires Indexed(olds, index, f, e) && RunsByLookUp(r[..], news, f, e, |front|, |news| - 1 - |back|, index)
    requires r[f].Some? && r[e].Some?
    requires !SameVNode(r[f].value.vnode, news[|front|]) && !SameVNode(r[e].value.vnode, news[|front|])
    modifies doc, r
    ensures doc.Valid() && |taker'| == |olds|
    ensures Reconciling(c0, k0, doc.content, doc.kids, p, olds, news, r[..], f, e, front + [y], back, taker')
    ensures Runs(r[..], news, f, e, |front| + 1, |news| - 1 - |back|, Some(index))
    ensures forall i :: 0 <= i < |olds| && !(f <= i <= e) ==> taker'[i] == taker[i]
    decreases news, 1
  {
    hide *;
    var d := |front|;
    var found := LookUp(r, f, e, news[d], index);
    LookUpGood(c0, k0, doc.content, doc.kids, p, olds, news, r[..], f, e, front, back, taker, index);
    if found.Slot? && SameVNode(r[found.u].value.vnode, news[d]) {
      y := TakeInside(doc, p, r, f, found.u, e, news, front, back, olds, taker, c0, k0);
      taker' := taker[found.u := d];
    } else {
      y := TakeNothing(doc, p, r, f, e, news, front, back, olds, taker, c0, k0);
      taker' := taker;
    }
  }

  /** The state of the main loop of `updateChildren`. */
  ghost predicate Comparing(c0: Contents, k0: KidMap, c: Contents, k: KidMap, p: Elm, olds: seq<Mounted>,
                            news: seq<VNode>, r: Slots, f: int, e: int, front: seq<Mounted>, back: seq<Mounted>,
                            taker: seq<int>, index: Option<Index>)
  {
    && 0 <= f <= e + 1 <= |r| == |olds| == |taker| && |front| + |back| <= |news|
    && Reconciling(c0, k0, c, k, p, olds, news, r, f, e, front, back, taker)
    && (if index.Some? then Indexed(olds, index.value, f, e) else forall i :: 0 <= i < |olds| ==> r[i] == Some(olds[i]))
    && Runs(r, news, f, e, |front|, |news| - 1 - |back|, index)
    && Aligned(olds, news, Progress(f, e, |front|, |back|, taker, index.None?))
  }

  lemma ComparingStart(doc: Document, p: Elm, r: Slots, olds: seq<Mounted>, news: seq<VNode>)
    requires Displayed(doc.content, doc.kids, p, olds)
    requires |r| == |olds| && forall i :: 0 <= i < |olds| ==> r[i] == Some(olds[i])
    requires Runs(r, news, 0, |olds| - 1, 0, |news| - 1, None)
    ensures Comparing(doc.content, doc.kids, doc.content, doc.kids, p, olds, news, r, 0, |r| - 1, [], [],
                      Untaken(|olds|), None)
  {
    hide Displayed, Evolved, Accounted, Runs, Aligned, Reconciling, Indexed, Untaken;
    hide Forest, Shows, Linked, IsParent, NoDup;
    Starting(doc, p, r, olds, news);
    AlignedStart(olds, news, Untaken(|olds|));
  }

  /** What the comparison of both ends says about the old children themselves. */
  lemma EndsCompared(c0: Contents, k0: KidMap, c: Contents, k: KidMap, p: Elm, olds: seq<Mounted>, news: seq<VNode>,
                     r: Slots, f: int, e: int, front: seq<Mounted>, back: seq<Mounted>, taker: seq<int>,
                     index: Option<Index>)
    requires Comparing(c0, k0, c, k, p, olds, news, r, f, e, front, back, taker, index)
    requires f <= e && |front| + |back| < |news|
    ensures Underway(olds, news, Progress(f, e, |front|, |back|, taker, index.None?))
    ensures index.None? ==> r[f].Some? && r[e].Some?
    ensures r[f].Some? ==> (SameVNode(r[f].value.vnode, news[|front|]) <==> SameKind(olds[f].vnode, news[|front|]))
    ensures r[e].Some? ==> var v := news[|news| - 1 - |back|];
                           SameVNode(r[e].value.vnode, v) <==> SameKind(olds[e].vnode, v)
  {
    hide Accounted, Displayed, Evolved, SameVNode, SameKind, Runs, Indexed, Aligned;
    SlotsAreOlds(olds, news, r, f, e, front, back, taker);
    SameKindExactly(olds[f].vnode, news[|front|]);
    SameKindExactly(olds[e].vnode, news[|news| - 1 - |back|]);
  }

  lemma ComparingSkip(c0: Contents, k0: KidMap, c: Contents, k: KidMap, p: Elm, olds: seq<Mounted>, news: seq<VNode>,
                      r: Slots, f: int, e: int, front: seq<Mounted>, back: seq<Mounted>, taker: seq<int>,
                      index: Option<Index>)
    requires Comparing(c0, k0, c, k, p, olds, news, r, f, e, front, back, taker, index)
    requires f <= e && |front| + |back| < |news|
    ensures r[f].None? ==> Comparing(c0, k0, c, k, p, olds, news, r, f + 1, e, front, back, taker, index)
    ensures r[f].Some? && r[e].None? ==> Comparing(c0, k0, c, k, p, olds, news, r, f, e - 1, front, back, taker, index)
  {
    hide Reconciling, Runs, Indexed, Aligned, Underway, SameKind, SameVNode;
    EndsCompared(c0, k0, c, k, p, olds, news, r, f, e, front, back, taker, index);
    Skip(c0, k0, c, k, p, olds, news, r, f, e, front, back, taker);
    IndexedShrinks(olds, index, f, e);
    RunsOn(r, news, f, e, |front|, |news| - 1 - |back|, index);
    SkipAligned(olds, news, Progress(f, e, |front|, |back|, taker, index.None?), r[f].None? || r[e].None?);
  }

  lemma SkipAligned(olds: seq<Mounted>, news: seq<VNode>, now: Progress, skips: bool)
    requires Aligned(olds, news, now) && Underway(olds, news, now) && (now.intact ==> !skips)
    ensures skips ==> Aligned(olds, news, now.(f := now.f + 1)) && Aligned(olds, news, now.(e := now.e - 1))
  {
    hide Aligned, SameKind;
    if skips {
      AlignedOther(olds, news, now, now.(f := now.f + 1));
      AlignedOther(olds, news, now, now.(e := now.e - 1));
    }
  }

  /** After a match: the new state goes on from the old one. */
  lemma ComparingOn(c0: Contents, k0: KidMap, c: Contents, k: KidMap, c': Contents, k': KidMap, p: Elm,
                    olds: seq<Mounted>, news: seq<VNode>, r: Slots, f: nat, e: nat,
                    front: seq<Mounted>, back: seq<Mounted>, taker: seq<int>, index: Option<Index>, y: Mounted,
                    inFront: bool, byFirst: bool)
    requires Comparing(c0, k0, c, k, p, olds, news, r, f, e, front, back, taker, index)
    requires f <= e && |front| + |back| < |news| && r[f].Some? && r[e].Some?
    requires var o, v := r[if byFirst then f else e].value.vnode, news[if inFront then |front| else |news| - 1 - |back|];
             SameVNode(o, v)
    requires !(inFront && byFirst) ==> !SameVNode(r[f].value.vnode, news[|front|])
    requires inFront != byFirst ==> !SameVNode(r[e].value.vnode, news[|news| - 1 - |back|])
    requires inFront && !byFirst ==> !SameVNode(r[f].value.vnode, news[|news| - 1 - |back|])
    requires var f', e' := if byFirst then f + 1 else f, if byFirst then e as int else e - 1;
             var front', back' := if inFront then front + [y] else front, if inFront then back else [y] + back;
             Reconciling(c0, k0, c', k', p, olds, news, r, f', e', front', back',
                         taker[(if byFirst then f else e) := if inFront then |front| else |news| - 1 - |back|])
    ensures var f', e' := if byFirst then f + 1 else f, if byFirst then e as int else e - 1;
            var front', back' := if inFront then front + [y] else front, if inFront then back else [y] + back;
            Comparing(c0, k0, c', k', p, olds, news, r, f', e', front', back',
                      taker[(if byFirst then f else e) := if inFront then |front| else |news| - 1 - |back|], index)
  {
    hide Reconciling, Runs, Indexed, Aligned, Underway, SameKind, SameVNode;
    EndsCompared(c0, k0, c, k, p, olds, news, r, f, e, front, back, taker, index);
    IndexedShrinks(olds, index, f, e);
    RunsOn(r, news, f, e, |front|, |news| - 1 - |back|, index);
    var now := Progress(f, e, |front|, |back|, taker, index.None?);
    if inFront && byFirst {
      AlignedFront(olds, news, now);
    } else if inFront {
      AlignedOther(olds, news, now, now.(e := e - 1, d := |front| + 1, taker := taker[e := |front|]));
    } else if byFirst {
      AlignedOther(olds, news, now, now.(f := f + 1, b := |back| + 1, taker := taker[f := |news| - 1 - |back|]));
    } else {
      AlignedBack(olds, news, now);
    }
  }

  /** The same with the index built first if there is none yet. */
  method TakeElsewhere(doc: Document, p: Elm, r: array<Option<Mounted>>, f: nat, e: nat, news: seq<VNode>,
                       index: Option<Index>, front: seq<Mounted>, back: seq<Mounted>,
                       ghost olds: seq<Mounted>, ghost taker: seq<int>, ghost c0: Contents, ghost k0: KidMap)
    returns (y: Mounted, index': Option<Index>, ghost taker': seq<int>)
    requires doc.Valid() && f <= e < r.Length && |front| + |back| < |news|
    requires Comparing(c0, k0, doc.content, doc.kids, p, olds, news, r[..], f, e, front, back, taker, index)
    requires r[f].Some? && r[e].Some?
    requires !SameVNode(r[f].value.vnode, news[|front|]) && !SameVNode(r[e].value.vnode, news[|news| - 1 - |back|])
    requires !SameVNode(r[f].value.vnode, news[|news| - 1 - |back|]) && !SameVNode(r[e].value.vnode, news[|front|])
    modifies doc, r
    ensures doc.Valid()
    ensures Comparing(c0, k0, doc.content, doc.kids, p, olds, news, r[..], f, e, front + [y], back, taker', index')
    decreases news, 2
  {
    hide Reconciling, Runs, RunsByLookUp, Indexed, Aligned, Underway, SameKind, SameVNode, Built;
    EndsCompared(c0, k0, doc.content, doc.kids, p, olds, news, r[..], f, e, front, back, taker, index);
    RunsOn(r[..], news, f, e, |front|, |news| - 1 - |back|, index);
    index' := index;
    if index.None? {
      var built := CreateKeyToOldIdx(r, f, e);
      BuiltIsIndexed(olds, r[..], f, e);
      index' := Some(built);
    }
    ghost var now := Progress(f, e, |front|, |back|, taker, index.None?);
    y, taker' := TakeByLookUp(doc, p, r, f, e, news, index'.value, front, back, olds, taker, c0, k0);
    AlignedOther(olds, news, now, now.(d := |front| + 1, taker := taker', intact := false));
  }

  /** One turn of the main loop when there is an old child at both ends. */
  method CompareEnds(doc: Document, p: Elm, r: array<Option<Mounted>>, f: nat, e: nat, news: seq<VNode>,
                     index: Option<Index>, front: seq<Mounted>, back: seq<Mounted>,
                     ghost olds: seq<Mounted>, ghost taker: seq<int>, ghost c0: Contents, ghost k0: KidMap)
    returns (f': nat, e': int, front': seq<Mounted>, back': seq<Mounted>, index': Option<Index>, ghost taker': seq<int>)
    requires doc.Valid() && f <= e < r.Length && |front| + |back| < |news|
    requires Comparing(c0, k0, doc.content, doc.kids, p, olds, news, r[..], f, e, front, back, taker, index)
    requires r[f].Some? && r[e].Some?
    modifies doc, r
    ensures doc.Valid()
    ensures Comparing(c0, k0, doc.content, doc.kids, p, olds, news, r[..], f', e', front', back', taker', index')
    ensures f <= f' && e' <= e && |front'| + |back'| == |front| + |back| + 1
    decreases news, 3
  {
    hide *;
    ghost var c, k := doc.content, doc.kids;
    var d, m := |front|, |news| - 1 - |back|;
    TurnReady(c0, k0, c, k, p, olds, news, r[..], f, e, front, back, taker, index);
    f', e', front', back', index', taker' := f, e, front, back, index, taker;
    if SameVNode(r[f].value.vnode, news[d]) {
      var y := TakeStartStart(doc, p, r, f, e, news, front, back, olds, taker, c0, k0);
      ComparingOn(c0, k0, c, k, doc.content, doc.kids, p, olds, news, r[..], f, e, front, back, taker, index, y,
                  true, true);
      f', front', taker' := f + 1, front + [y], taker[f := d];
    } else if SameVNode(r[e].value.vnode, news[m]) {
      var y := TakeEndEnd(doc, p, r, f, e, news, front, back, olds, taker, c0, k0);
      ComparingOn(c0, k0, c, k, doc.content, doc.kids, p, olds, news, r[..], f, e, front, back, taker, index, y,
                  false, false);
      e', back', taker' := e - 1, [y] + back, taker[e := m];
    } else if SameVNode(r[f].value.vnode, news[m]) {
      var y := TakeStartEnd(doc, p, r, f, e, news, front, back, olds, taker, c0, k0);
      ComparingOn(c0, k0, c, k, doc.content, doc.kids, p, olds, news, r[..], f, e, front, back, taker, index, y,
                  false, true);
      f', back', taker' := f + 1, [y] + back, taker[f := m];
    } else if SameVNode(r[e].value.vnode, news[d]) {
      var y := TakeEndStart(doc, p, r, f, e, news, front, back, olds, taker, c0, k0);
      ComparingOn(c0, k0, c, k, doc.content, doc.kids, p, olds, news, r[..], f, e, front, back, taker, index, y,
                  true, false);
      e', front', taker' := e - 1, front + [y], taker[e := d];
    } else {
      var y;
      y, index', taker' := TakeElsewhere(doc, p, r, f, e, news, index, front, back, olds, taker, c0, k0);
      front' := front + [y];
    }
  }

  lemma TurnReady(c0: Contents, k0: KidMap, c: Contents, k: KidMap, p: Elm, olds: seq<Mounted>, news: seq<VNode>,
                  r: Slots, f: nat, e: nat, front: seq<Mounted>, back: seq<Mounted>, taker: seq<int>,
                  index: Option<Index>)
    requires Comparing(c0, k0, c, k, p, olds, news, r, f, e, front, back, taker, index)
    requires f <= e && |front| + |back| < |news| && r[f].Some? && r[e].Some?
    ensures Reconciling(c0, k0, c, k, p, olds, news, r, f, e, front, back, taker) && |taker| == |olds| == |r|
    ensures var o, o', v, v' := r[f].value, r[e].value, news[|front|], news[|news| - 1 - |back|];
            if SameVNode(o.vnode, v) then Survives(o, v)
            else if SameVNode(o'.vnode, v') then Survives(o', v')
            else if SameVNode(o.vnode, v') then Survives(o, v') && f < e
            else SameVNode(o'.vnode, v) ==> Survives(o', v) && f < e
  {
    hide Reconciling, Runs, Indexed, Aligned, SameVNode, Survives;
    RunsOn(r, news, f, e, |front|, |news| - 1 - |back|, index);
  }

  lemma ComparingEnd(c0: Contents, k0: KidMap, c: Contents, k: KidMap, p: Elm, olds: seq<Mounted>, news: seq<VNode>,
                     r: Slots, f: int, e: int, front: seq<Mounted>, back: seq<Mounted>, taker: seq<int>,
                     index: Option<Index>)
    requires Comparing(c0, k0, c, k, p, olds, news, r, f, e, front, back, taker, index)
    ensures 0 <= f <= e + 1 <= |r| == |olds| == |taker| && |front| + |back| <= |news|
    ensures Reconciling(c0, k0, c, k, p, olds, news, r, f, e, front, back, taker)
    ensures f > e || |front| + |back| == |news| ==> InPlace(olds, news, taker)
  {
    hide Reconciling, Runs, Indexed, Aligned, InPlace;
    if f > e || |front| + |back| == |news| {
      AlignedDone(olds, news, Progress(f, e, |front|, |back|, taker, index.None?));
    }
  }

  /**
   * `updateChildren`. The slots of the old list are compared from both ends with the new list; `taker`
   * tells which new child took over each old one.
   */
  method UpdateChildren(doc: Document, p: Elm, r: array<Option<Mounted>>, news: seq<VNode>, ghost olds: seq<Mounted>)
    returns (ms: seq<Mounted>, ghost taker: seq<int>)
    requires doc.Valid() && Displayed(doc.content, doc.kids, p, olds)
    requires r.Length == |olds| && forall i :: 0 <= i < |olds| ==> r[i] == Some(olds[i])
    requires Runs(r[..], news, 0, |olds| - 1, 0, |news| - 1, None)
    modifies doc, r
    ensures doc.Valid() && Displayed(doc.content, doc.kids, p, ms)
    ensures Evolved(old(doc.content), old(doc.kids), doc.content, doc.kids, p, olds, ms)
    ensures |ms| == |news| && forall j :: 0 <= j < |news| ==> ms[j].vnode == news[j]
    ensures Settled(olds, news, ms, taker, doc.parent)
    ensures |taker| == |olds| && InPlace(olds, news, taker)
    decreases news, 4
  {
    hide *;
    var f, e: int := 0, r.Length - 1;
    var front, back: seq<Mounted> := [], [];
    var index: Option<Index> := None;
    ghost var c0, k0 := doc.content, doc.kids;
    taker := Untaken(|olds|);
    ComparingStart(doc, p, r[..], olds, news);
    while f <= e && |front| + |back| < |news|
      invariant doc.Valid() && 0 <= f <= e + 1 <= r.Length && |front| + |back| <= |news|
      invariant Comparing(c0, k0, doc.content, doc.kids, p, olds, news, r[..], f, e, front, back, taker, index)
      decreases e - f + |news| - |front| - |back|
    {
      ComparingSkip(c0, k0, doc.content, doc.kids, p, olds, news, r[..], f, e, front, back, taker, index);
      if r[f].None? {
        f := f + 1;
      } else if r[e].None? {
        e := e - 1;
      } else {
        f, e, front, back, index, taker := CompareEnds(doc, p, r, f, e, news, index, front, back, olds, taker, c0, k0);
        ComparingEnd(c0, k0, doc.content, doc.kids, p, olds, news, r[..], f, e, front, back, taker, index);
      }
    }
    ComparingEnd(c0, k0, doc.content, doc.kids, p, olds, news, r[..], f, e, front, back, taker, index);
    if f > e {
      ms := AddRest(doc, p, r, f, e, news, front, back, olds, taker, c0, k0);
    } else {
      ms := RemoveRest(doc, p, r, f, e, news, front, back, olds, taker, c0, k0);
    }
  }

  /**
   * Conservation: the new child `j` shows the element of the old child `i` exactly when it took it over,
   * so every old element is used by one new child and kept, or by none and removed.
   */
  lemma TakenExactlyOnce(doc: Document, p: Elm, olds: seq<Mounted>, news: seq<VNode>, ms: seq<Mounted>, taker: seq<int>)
    requires doc.Valid() && Displayed(doc.content, doc.kids, p, ms)
    requires |ms| == |news| && Settled(olds, news, ms, taker, doc.parent)
    ensures forall i, j :: 0 <= i < |olds| && 0 <= j < |ms| ==> (ms[j].elm == olds[i].elm <==> taker[i] == j)
  {
    assert NoDup(doc.kids[p]);
    forall i, j | 0 <= i < |olds| && 0 <= j < |ms| && ms[j].elm == olds[i].elm ensures taker[i] == j {
      assert doc.kids[p][j] == ms[j].elm && IsParent(doc.parent, ms[j].elm, p);
      assert doc.kids[p][taker[i]] == ms[taker[i]].elm;
    }
  }

  /**
   * `patch` with an old and a new virtual node: afterwards the document shows the new tree exactly as
   * rendering it from scratch would, in the place of the old one. The old element is kept exactly for
   * a node of the same kind.
   */
  method PatchRoot(doc: Document, o: Mounted, v: VNode) returns (m: Mounted)
    requires doc.Valid() && Shows(doc.content, doc.kids, o) && (SameVNode(o.vnode, v) ==> Survives(o, v))
    requires o.elm in doc.parent ==> doc.parent[o.elm] !in Elms(o)
    modifies doc
    ensures doc.Valid() && m.vnode == v && Shows(doc.content, doc.kids, m)
    ensures Depicts(doc.content, doc.kids, m.elm, Render(v))
    ensures m.elm == o.elm <==> SameKind(o.vnode, v)
    ensures SameKind(o.vnode, v) ==> Untouched(old(doc.content), old(doc.kids), doc.content, doc.kids, Elms(o))
    ensures !SameKind(o.vnode, v) ==> m.elm !in old(doc.content) && o.elm !in doc.parent
    ensures !SameKind(o.vnode, v) && o.elm in old(doc.parent) ==>
              var p := old(doc.parent)[o.elm];
              && p in old(doc.kids) && p in doc.kids
              && Untouched(old(doc.content), old(doc.kids), doc.content, doc.kids, {p})
              && exists a, b :: old(doc.kids)[p] == a + [o.elm] + b && doc.kids[p] == a + [m.elm] + b
  {
    SameKindExactly(o.vnode, v);
    if SameVNode(o.vnode, v) {
      m := PatchVnode(doc, o, v);
    } else if o.elm in doc.parent {
      m := Replace(doc, o, v);
    } else {
      m := CreateTree(doc, v);
      assert o.elm !in doc.parent by {
        assert Grown(old(doc.content), old(doc.kids), old(doc.parent), doc.content, doc.kids, doc.parent, o.elm);
      }
    }
    ShowsDepicts(doc.content, doc.kids, m);
  }

  /** The branch of `patch` for a different kind of node below a parent: create behind the old one, then remove it. */
  method Replace(doc: Document, o: Mounted, v: VNode) returns (m: Mounted)
    requires doc.Valid() && Shows(doc.content, doc.kids, o) && o.elm in doc.parent
    modifies doc
    ensures doc.Valid() && m.vnode == v && Shows(doc.content, doc.kids, m)
    ensures m.elm !in old(doc.content) && o.elm !in doc.parent
    ensures var p := old(doc.parent)[o.elm];
            && p in old(doc.kids) && p in doc.kids
            && Untouched(old(doc.content), old(doc.kids), doc.content, doc.kids, {p})
            && exists a, b :: old(doc.kids)[p] == a + [o.elm] + b && doc.kids[p] == a + [m.elm] + b
  {
    hide Shows;
    var p := doc.parent[o.elm];
    assert IsParent(doc.parent, o.elm, p) && NoDup(doc.kids[p]);
    ghost var a, b := ReplaceSplit(doc.kids[p], o.elm);
    ReplaceShape(doc.kids[p], a, o.elm, b);
    m := CreateElm(doc, v, p, doc.NextSibling(o.elm));
    ReplacedShape(a, o.elm, m.elm, b);
    ghost var c, k := doc.content, doc.kids;
    assert IsParent(doc.parent, o.elm, p);
    doc.RemoveNode(o.elm);
    ShowsFrame(c, k, doc.content, doc.kids, m);
  }

  lemma ReplaceSplit(s: seq<Elm>, x: Elm) returns (a: seq<Elm>, b: seq<Elm>)
    requires x in s
    ensures s == a + [x] + b
  {
    var i :| 0 <= i < |s| && s[i] == x;
    a, b := s[..i], s[i + 1..];
  }

  lemma ReplaceShape(s: seq<Elm>, a: seq<Elm>, x: Elm, b: seq<Elm>)
    requires s == a + [x] + b && NoDup(s)
    ensures Sibling(s, x) == First(b) && x !in a && x !in b
    ensures First(b).Some? ==> First(b).value in s
    ensures forall y :: InsertedBefore(s, y, First(b)) == a + [x] + [y] + b
  {
    SplitNoDup(a, x, b);
    SiblingAt(a, x, b);
    FirstNotBefore(a + [x], b);
    forall y ensures InsertedBefore(s, y, First(b)) == a + [x] + [y] + b {
      InsertedBeforeAt(a + [x], y, b);
    }
  }

  lemma ReplacedShape(a: seq<Elm>, x: Elm, y: Elm, b: seq<Elm>)
    requires x !in a && x !in b && x != y
    ensures Removed(a + [x] + [y] + b, x) == a + [y] + b
  {
    hide Removed;
    RemovedAt(a, x, [y] + b);
    assert a + [x] + ([y] + b) == a + [x] + [y] + b && a + ([y] + b) == a + [y] + b;
  }
}
