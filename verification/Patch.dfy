/** The virtual-DOM patch: creating, patching and reconciling the children of a document node. */
module Patch {
  import opened Sequences
  import opened Options
  import opened Dom
  import opened VNodes
  import opened Forests

  /** Only the child list of `p` and new nodes differ; nodes that existed have the parents they had. */
  ghost predicate Grown(c0: Contents, k0: KidMap, par0: map<Elm, Elm>, c1: Contents, k1: KidMap, par1: map<Elm, Elm>,
                        p: Elm)
  {
    && Untouched(c0, k0, c1, k1, {p})
    && p in c0 && c1[p] == c0[p]
    && forall e :: e in c0 ==> (e in par0 <==> e in par1) && (e in par0 ==> par1[e] == par0[e])
  }

  lemma GrownRefl(c: Contents, k: KidMap, par: map<Elm, Elm>, p: Elm)
    requires p in c && c.Keys == k.Keys
    ensures Grown(c, k, par, c, k, par, p)
  {}

  lemma GrownTrans(c0: Contents, k0: KidMap, par0: map<Elm, Elm>, c1: Contents, k1: KidMap, par1: map<Elm, Elm>,
                   c2: Contents, k2: KidMap, par2: map<Elm, Elm>, p: Elm)
    requires Grown(c0, k0, par0, c1, k1, par1, p) && Grown(c1, k1, par1, c2, k2, par2, p)
    ensures Grown(c0, k0, par0, c2, k2, par2, p)
    ensures p in c2 && c0.Keys <= c1.Keys <= c2.Keys
  {}

  /** `createElm`: the subtree is complete before its root is inserted below `p`. */
  method CreateElm(doc: Document, v: VNode, p: Elm, ref: Option<Elm>) returns (m: Mounted)
    requires doc.Valid() && p in doc.content
    modifies doc
    ensures doc.Valid() && m.vnode == v && Shows(doc.content, doc.kids, m)
    ensures Elms(m) !! old(doc.content).Keys
    ensures Grown(old(doc.content), old(doc.kids), old(doc.parent), doc.content, doc.kids, doc.parent, p)
    ensures doc.kids[p] == if ref.Some? && ref.value !in old(doc.kids)[p] then old(doc.kids)[p]
                           else InsertedBefore(old(doc.kids)[p], m.elm, ref)
    decreases v, 1
  {
    hide Grown, Linked, IsParent, NoDup, Shows, Elms, Removed, InsertedBefore, Untouched;
    ghost var c0, k0, par0 := doc.content, doc.kids, doc.parent;
    m := CreateTree(doc, v);
    assert k0[p] == doc.kids[p];
    if ref.Some? {
      ParentIsMirrored(doc.kids, doc.parent, ref.value, p);
    }
    if ref.None? || (ref.value in doc.parent && doc.parent[ref.value] == p) {
      ghost var c, k, par := doc.content, doc.kids, doc.parent;
      NotAChild(k, par, m.elm, p);
      RootShown(m);
      doc.InsertBefore(p, m.elm, ref);
      GrownInsert(c0, k0, par0, c, k, par, p, m.elm, doc.kids[p]);
      ShownAfterInsert(c, k, p, m, doc.kids[p]);
    }
  }

  lemma ParentIsMirrored(k: KidMap, par: map<Elm, Elm>, e: Elm, p: Elm)
    requires Linked(k, par) && p in k
    ensures (e in par && par[e] == p) <==> e in k[p]
  {
    assert IsParent(par, e, p) <==> e in k[p];
  }

  lemma NotAChild(k: KidMap, par: map<Elm, Elm>, e: Elm, p: Elm)
    requires Linked(k, par) && p in k && e !in par
    ensures Removed(k[p], e) == k[p]
  {
    assert !IsParent(par, e, p);
    RemovedAbsent(k[p], e);
  }

  lemma RootShown(m: Mounted)
    ensures m.elm in Elms(m)
  {}

  lemma GrownInsert(c0: Contents, k0: KidMap, par0: map<Elm, Elm>, c: Contents, k: KidMap, par: map<Elm, Elm>,
                    p: Elm, e: Elm, es: seq<Elm>)
    requires Grown(c0, k0, par0, c, k, par, p) && e !in c0
    ensures Grown(c0, k0, par0, c, k[p := es], par[e := p], p)
  {}

  lemma ShownAfterInsert(c: Contents, k: KidMap, p: Elm, m: Mounted, es: seq<Elm>)
    requires Shows(c, k, m) && p !in Elms(m)
    ensures Shows(c, k[p := es], m)
  {
    hide Shows;
    ShownElmsExist(c, k, m);
    ShowsFrame(c, k, c, k[p := es], m);
  }

  /** The first half of `createElm`: the node and its children, not yet inserted anywhere. */
  method CreateTree(doc: Document, v: VNode) returns (m: Mounted)
    requires doc.Valid()
    modifies doc
    ensures doc.Valid() && m.vnode == v && Shows(doc.content, doc.kids, m)
    ensures Elms(m) !! old(doc.content).Keys && m.elm !in doc.parent
    ensures forall p :: p in old(doc.content) ==>
                          Grown(old(doc.content), old(doc.kids), old(doc.parent), doc.content, doc.kids, doc.parent, p)
    ensures forall p :: p in old(doc.kids) ==> p in doc.kids && doc.kids[p] == old(doc.kids)[p]
    decreases v, 0
  {
    var elm := doc.CreateNode(ContentOf(v));
    var kids := [];
    if v.Element? && v.children.ChildArray? {
      kids := AddVnodes(doc, elm, None, v.children.list, [], []);
    }
    m := Mounted(v, elm, kids);
  }

  /** `addVnodes` (and `createChildren`): the nodes for `vs` appear, in order, before `ref`. */
  method AddVnodes(doc: Document, p: Elm, ref: Option<Elm>, vs: seq<VNode>, ghost a: seq<Elm>, ghost b: seq<Elm>)
    returns (ms: seq<Mounted>)
    requires doc.Valid() && p in doc.content && doc.kids[p] == a + b && ref == First(b)
    modifies doc
    ensures doc.Valid() && Forest(doc.content, doc.kids, ms)
    ensures |ms| == |vs| && forall i :: 0 <= i < |vs| ==> ms[i].vnode == vs[i]
    ensures ElmsOf(ms) !! old(doc.content).Keys
    ensures Grown(old(doc.content), old(doc.kids), old(doc.parent), doc.content, doc.kids, doc.parent, p)
    ensures doc.kids[p] == a + Roots(ms) + b
    decreases vs
  {
    hide Grown, Shows, Linked, Untouched, InsertedBefore, Forest;
    ms := [];
    GrownRefl(doc.content, doc.kids, doc.parent, p);
    ForestEmpty(doc.content, doc.kids);
    for i := 0 to |vs|
      invariant p in doc.content && doc.Valid() && Forest(doc.content, doc.kids, ms)
      invariant |ms| == i && forall j :: 0 <= j < i ==> ms[j].vnode == vs[j]
      invariant ElmsOf(ms) !! old(doc.content).Keys
      invariant Grown(old(doc.content), old(doc.kids), old(doc.parent), doc.content, doc.kids, doc.parent, p)
      invariant doc.kids[p] == a + Roots(ms) + b
    {
      ghost var c, k, par := doc.content, doc.kids, doc.parent;
      ChildrenDistinct(k, par, p);
      var m := CreateElm(doc, vs[i], p, ref);
      InsertedAtEnd(k[p], a, Roots(ms), m.elm, b);
      GrownUntouched(c, k, par, doc.content, doc.kids, doc.parent, p);
      ForestAppend(c, k, doc.content, doc.kids, p, ms, m);
      GrownTrans(old(doc.content), old(doc.kids), old(doc.parent), c, k, par, doc.content, doc.kids, doc.parent, p);
      ms := ms + [m];
    }
  }

  lemma ChildrenDistinct(k: KidMap, par: map<Elm, Elm>, p: Elm)
    requires Linked(k, par) && p in k
    ensures NoDup(k[p])
  {}

  lemma GrownUntouched(c: Contents, k: KidMap, par: map<Elm, Elm>, c': Contents, k': KidMap, par': map<Elm, Elm>, p: Elm)
    requires Grown(c, k, par, c', k', par', p)
    ensures Untouched(c, k, c', k', {p}) && p in c && c.Keys <= c'.Keys
  {}

  lemma InsertedAtEnd(s: seq<Elm>, a: seq<Elm>, rs: seq<Elm>, e: Elm, b: seq<Elm>)
    requires s == a + rs + b && NoDup(s)
    ensures First(b).Some? ==> First(b).value in s
    ensures InsertedBefore(s, e, First(b)) == a + (rs + [e]) + b
  {
    FirstNotBefore(a + rs, b);
    InsertedBeforeAt(a + rs, e, b);
    assert a + rs + [e] + b == a + (rs + [e]) + b;
  }

  lemma FirstNotBefore(a: seq<Elm>, b: seq<Elm>)
    requires NoDup(a + b)
    ensures b != [] ==> b[0] !in a
    ensures forall x :: x in a ==> x !in b
  {
    assert b != [] ==> (a + b)[|a|] == b[0];
    forall x | x in a ensures x !in b {
      var i :| 0 <= i < |a| && a[i] == x;
      forall j | 0 <= j < |b| ensures b[j] != x {
        assert (a + b)[i] == x && (a + b)[|a| + j] == b[j];
      }
    }
  }

  /** `removeVnodes` on the slots from `lo` to `hi`: empty slots are skipped. */
  method RemoveVnodes(doc: Document, p: Elm, r: array<Option<Mounted>>, lo: nat, hi: int,
                      ghost a: seq<Mounted>, ghost b: seq<Mounted>)
    requires doc.Valid() && lo <= hi + 1 <= r.Length
    requires Displayed(doc.content, doc.kids, p, a + Live(r[lo..hi + 1]) + b)
    modifies doc
    ensures doc.Valid() && Displayed(doc.content, doc.kids, p, a + b)
    ensures Evolved(old(doc.content), old(doc.kids), doc.content, doc.kids, p, a + Live(r[lo..hi + 1]) + b, a + b)
    ensures forall i :: lo <= i <= hi && r[i].Some? ==> r[i].value.elm !in doc.parent
  {
    hide Displayed, Evolved, Linked, Forest, Roots;
    var i: int := lo;
    ghost var all := a + Live(r[lo..hi + 1]) + b;
    EvolvedRefl(doc.content, doc.kids, p, all);
    while i <= hi
      invariant lo <= i <= hi + 1
      invariant doc.Valid() && Displayed(doc.content, doc.kids, p, a + Live(r[i..hi + 1]) + b)
      invariant Evolved(old(doc.content), old(doc.kids), doc.content, doc.kids, p, all, a + Live(r[i..hi + 1]) + b)
      invariant forall j :: lo <= j < i && r[j].Some? ==> r[j].value.elm !in doc.parent
    {
      assert r[i..hi + 1] == [r[i]] + r[i + 1..hi + 1];
      LiveConcat([r[i]], r[i + 1..hi + 1]);
      LiveOne(r[i]);
      ghost var rest := Live(r[i + 1..hi + 1]) + b;
      if r[i].Some? {
        ghost var c, k := doc.content, doc.kids;
        assert a + Live(r[i..hi + 1]) + b == a + [r[i].value] + rest;
        RemoveAt(doc, p, r[i].value, a, rest);
        assert a + rest == a + Live(r[i + 1..hi + 1]) + b;
        EvolvedTrans(old(doc.content), old(doc.kids), c, k, doc.content, doc.kids, p, all,
                     a + Live(r[i..hi + 1]) + b, a + Live(r[i + 1..hi + 1]) + b);
      } else {
        assert a + Live(r[i..hi + 1]) + b == a + Live(r[i + 1..hi + 1]) + b;
      }
      i := i + 1;
    }
    assert a + Live(r[i..hi + 1]) + b == a + b;
  }

  method RemoveAt(doc: Document, p: Elm, x: Mounted, ghost a: seq<Mounted>, ghost b: seq<Mounted>)
    requires doc.Valid() && Displayed(doc.content, doc.kids, p, a + [x] + b)
    modifies doc
    ensures doc.Valid() && Displayed(doc.content, doc.kids, p, a + b)
    ensures Evolved(old(doc.content), old(doc.kids), doc.content, doc.kids, p, a + [x] + b, a + b)
    ensures doc.parent == old(doc.parent) - {x.elm}
  {
    hide Displayed, Evolved, Linked, IsParent, NoDup, Removed, Roots;
    ghost var c, k := doc.content, doc.kids;
    RemoveShape(c, k, doc.parent, p, a, x, b);
    doc.RemoveNode(x.elm);
    RemoveShown(c, k, doc.kids, p, a, x, b);
  }

  lemma RemoveShape(c: Contents, k: KidMap, par: map<Elm, Elm>, p: Elm, a: seq<Mounted>, x: Mounted, b: seq<Mounted>)
    requires Linked(k, par) && k.Keys == c.Keys && Displayed(c, k, p, a + [x] + b) && par.Keys <= c.Keys
    ensures x.elm in c && x.elm in par && par[x.elm] == p && p in k
    ensures Removed(k[p], x.elm) == Roots(a + b)
  {
    hide Forest, ElmsOf;
    RootsThree(a, [x], b);
    RootsConcat(a, b);
    assert k[p][|a|] == x.elm;
    assert IsParent(par, x.elm, p) && NoDup(k[p]);
    SplitNoDup(Roots(a), x.elm, Roots(b));
    RemovedAt(Roots(a), x.elm, Roots(b));
  }

  lemma RemoveShown(c: Contents, k: KidMap, k': KidMap, p: Elm, a: seq<Mounted>, x: Mounted, b: seq<Mounted>)
    requires Displayed(c, k, p, a + [x] + b) && k.Keys == c.Keys && k' == k[p := Roots(a + b)]
    ensures Displayed(c, k', p, a + b) && Evolved(c, k, c, k', p, a + [x] + b, a + b)
  {
    hide Forest, ElmsOf, Roots;
    assert a + [] + b == a + b;
    ForestEmpty(c, k');
    DisplayedReplace(c, k, c, k', p, a, [x], b, []);
  }

  lemma RootsThree(a: seq<Mounted>, x: seq<Mounted>, b: seq<Mounted>)
    ensures Roots(a + x + b) == Roots(a) + Roots(x) + Roots(b)
    ensures |x| == 1 ==> Roots(x) == [x[0].elm]
  {}

  lemma SplitNoDup(a: seq<Elm>, e: Elm, b: seq<Elm>)
    requires NoDup(a + [e] + b)
    ensures e !in a && e !in b
    ensures NoDup(a + b)
    ensures forall x :: x in a ==> x !in b
  {
    assert a + [e] + b == a + ([e] + b);
    FirstNotBefore(a, [e] + b);
    FirstNotBefore(a + [e], b);
    assert e in a + [e];
    RemovedAt(a, e, b);
    RemovedOnce(a + [e] + b, e);
  }
}
