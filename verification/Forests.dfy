/** Facts about lists of mounted nodes, and how one edit of a child list changes the shown forest. */
module Forests {
  import opened Options
  import opened Dom
  import opened VNodes

  /** Nodes outside `es` are left as they were; nodes are never deallocated. */
  ghost predicate Untouched(content: Contents, kids: KidMap, content': Contents, kids': KidMap, es: set<Elm>) {
    && content.Keys <= content'.Keys
    && (forall e :: e in content && e in kids && e !in es ==>
                      e in kids' && content'[e] == content[e] && kids'[e] == kids[e])
  }

  /** The children of `p` are exactly the roots of `ms`, and the document shows each of them. */
  ghost predicate Displayed(content: Contents, kids: KidMap, p: Elm, ms: seq<Mounted>) {
    && p in content && p in kids
    && kids[p] == Roots(ms)
    && Forest(content, kids, ms)
    && p !in ElmsOf(ms)
  }

  /** One edit below `p`: other nodes are untouched and only nodes of the old list or new nodes are used. */
  ghost predicate Evolved(content: Contents, kids: KidMap, content': Contents, kids': KidMap, p: Elm,
                          ms: seq<Mounted>, ms': seq<Mounted>)
  {
    && Untouched(content, kids, content', kids', ElmsOf(ms) + {p})
    && p in content && content'[p] == content[p]
    && (forall e :: e in ElmsOf(ms') ==> e in ElmsOf(ms) || e !in content)
  }

  /** An element that serves two children cannot be displayed. */
  lemma SharedIsNotDisplayed(content: Contents, kids: KidMap, p: Elm, ms: seq<Mounted>, i: nat, j: nat)
    requires i < j < |ms| && ms[i].elm == ms[j].elm
    ensures !Displayed(content, kids, p, ms)
  {
    assert ms[i].elm in Elms(ms[i]) && ms[i].elm in Elms(ms[j]);
  }

  lemma EvolvedRefl(c: Contents, k: KidMap, p: Elm, ms: seq<Mounted>)
    requires Displayed(c, k, p, ms)
    ensures Evolved(c, k, c, k, p, ms, ms)
  {}

  lemma EvolvedTrans(c0: Contents, k0: KidMap, c1: Contents, k1: KidMap, c2: Contents, k2: KidMap, p: Elm,
                     ms0: seq<Mounted>, ms1: seq<Mounted>, ms2: seq<Mounted>)
    requires Evolved(c0, k0, c1, k1, p, ms0, ms1)
    requires Evolved(c1, k1, c2, k2, p, ms1, ms2)
    ensures Evolved(c0, k0, c2, k2, p, ms0, ms2)
  {}

  lemma ElmsOfConcat(a: seq<Mounted>, b: seq<Mounted>)
    ensures ElmsOf(a + b) == ElmsOf(a) + ElmsOf(b)
  {
    forall e | e in ElmsOf(a) ensures e in ElmsOf(a + b) {
      var i :| 0 <= i < |a| && e in Elms(a[i]);
      assert (a + b)[i] == a[i];
    }
    forall e | e in ElmsOf(b) ensures e in ElmsOf(a + b) {
      var i :| 0 <= i < |b| && e in Elms(b[i]);
      assert (a + b)[|a| + i] == b[i];
    }
  }

  lemma ForestOne(content: Contents, kids: KidMap, m: Mounted)
    ensures Forest(content, kids, [m]) <==> Shows(content, kids, m)
    ensures ElmsOf([m]) == Elms(m)
  {
    assert [m][0] == m;
  }

  lemma ForestEmpty(content: Contents, kids: KidMap)
    ensures Forest(content, kids, []) && ElmsOf([]) == {}
  {}

  lemma RootsConcat(a: seq<Mounted>, b: seq<Mounted>)
    ensures Roots(a + b) == Roots(a) + Roots(b)
  {}

  lemma ForestConcat(content: Contents, kids: KidMap, a: seq<Mounted>, b: seq<Mounted>)
    ensures Forest(content, kids, a + b) <==>
            Forest(content, kids, a) && Forest(content, kids, b) && ElmsOf(a) !! ElmsOf(b)
  {
    var ab := a + b;
    if Forest(content, kids, ab) {
      forall i | 0 <= i < |a| ensures Shows(content, kids, a[i]) { assert ab[i] == a[i]; }
      forall i | 0 <= i < |b| ensures Shows(content, kids, b[i]) { assert ab[|a| + i] == b[i]; }
      forall i, j | 0 <= i < j < |a| ensures Elms(a[i]) !! Elms(a[j]) { assert ab[i] == a[i] && ab[j] == a[j]; }
      forall i, j | 0 <= i < j < |b| ensures Elms(b[i]) !! Elms(b[j]) {
        assert ab[|a| + i] == b[i] && ab[|a| + j] == b[j];
      }
      forall i, j | 0 <= i < |a| && 0 <= j < |b| ensures Elms(a[i]) !! Elms(b[j]) {
        assert ab[i] == a[i] && ab[|a| + j] == b[j];
      }
    }
    if Forest(content, kids, a) && Forest(content, kids, b) && ElmsOf(a) !! ElmsOf(b) {
      forall i | 0 <= i < |ab| ensures Shows(content, kids, ab[i]) {
        assert ab[i] == if i < |a| then a[i] else b[i - |a|];
      }
      forall i, j | 0 <= i < j < |ab| ensures Elms(ab[i]) !! Elms(ab[j]) {
        if j < |a| {
        } else if i >= |a| {
          assert ab[i] == b[i - |a|] && ab[j] == b[j - |a|];
        } else {
          assert Elms(a[i]) <= ElmsOf(a) && Elms(b[j - |a|]) <= ElmsOf(b);
        }
      }
    }
  }

  /** Exchanging two adjacent parts of a shown list. */
  lemma ForestSwap(content: Contents, kids: KidMap, a: seq<Mounted>, b: seq<Mounted>, c: seq<Mounted>, d: seq<Mounted>)
    ensures Forest(content, kids, a + b + c + d) ==> Forest(content, kids, a + c + b + d)
    ensures ElmsOf(a + b + c + d) == ElmsOf(a + c + b + d)
  {
    ForestConcat(content, kids, a + b + c, d);
    ForestConcat(content, kids, a + b, c);
    ForestConcat(content, kids, a, b);
    ForestConcat(content, kids, a + c + b, d);
    ForestConcat(content, kids, a + c, b);
    ForestConcat(content, kids, a, c);
    ElmsOfConcat(a + b + c, d);
    ElmsOfConcat(a + b, c);
    ElmsOfConcat(a, b);
    ElmsOfConcat(a + c + b, d);
    ElmsOfConcat(a + c, b);
    ElmsOfConcat(a, c);
  }

  lemma ElmsOfThree(a: seq<Mounted>, x: seq<Mounted>, b: seq<Mounted>)
    ensures ElmsOf(a + x + b) == ElmsOf(a) + ElmsOf(x) + ElmsOf(b)
  {
    ElmsOfConcat(a + x, b);
    ElmsOfConcat(a, x);
  }

  lemma ForestThree(content: Contents, kids: KidMap, a: seq<Mounted>, x: seq<Mounted>, b: seq<Mounted>)
    ensures Forest(content, kids, a + x + b) <==>
            && Forest(content, kids, a) && Forest(content, kids, x) && Forest(content, kids, b)
            && ElmsOf(a) !! ElmsOf(x) && ElmsOf(a) !! ElmsOf(b) && ElmsOf(x) !! ElmsOf(b)
  {
    ForestConcat(content, kids, a + x, b);
    ForestConcat(content, kids, a, x);
    ElmsOfConcat(a, x);
  }

  lemma ForestElmsExist(content: Contents, kids: KidMap, ms: seq<Mounted>)
    requires Forest(content, kids, ms)
    ensures ElmsOf(ms) <= content.Keys
  {
    forall e | e in ElmsOf(ms) ensures e in content {
      var i :| 0 <= i < |ms| && e in Elms(ms[i]);
      ShownElmsExist(content, kids, ms[i]);
    }
  }

  /**
   * Replacing the part `x` of the list by `y`, when only nodes of `x` (and the child list of `p`) were
   * touched and `y` uses nodes of `x` or new ones.
   */
  lemma DisplayedReplace(c0: Contents, k0: KidMap, c1: Contents, k1: KidMap, p: Elm,
                         a: seq<Mounted>, x: seq<Mounted>, b: seq<Mounted>, y: seq<Mounted>)
    requires Displayed(c0, k0, p, a + x + b)
    requires Untouched(c0, k0, c1, k1, ElmsOf(x) + {p}) && c1.Keys == k1.Keys
    requires c1[p] == c0[p]
    requires Forest(c1, k1, y)
    requires forall e :: e in ElmsOf(y) ==> e in ElmsOf(x) || e !in c0
    requires p in k1 && k1[p] == Roots(a + y + b)
    ensures Displayed(c1, k1, p, a + y + b)
    ensures Evolved(c0, k0, c1, k1, p, a + x + b, a + y + b)
  {
    ForestThree(c0, k0, a, x, b);
    ElmsOfThree(a, x, b);
    ElmsOfThree(a, y, b);
    ForestElmsExist(c0, k0, a);
    ForestElmsExist(c0, k0, b);
    ForestFrame(c0, k0, c1, k1, a);
    ForestFrame(c0, k0, c1, k1, b);
    ForestThree(c1, k1, a, y, b);
  }

  /** A new subtree joins a shown list. */
  lemma ForestAppend(c0: Contents, k0: KidMap, c1: Contents, k1: KidMap, p: Elm, ms: seq<Mounted>, m: Mounted)
    requires Forest(c0, k0, ms) && p !in ElmsOf(ms) && Untouched(c0, k0, c1, k1, {p})
    requires Shows(c1, k1, m) && Elms(m) !! c0.Keys
    ensures Forest(c1, k1, ms + [m])
    ensures ElmsOf(ms + [m]) == ElmsOf(ms) + Elms(m)
    ensures Roots(ms + [m]) == Roots(ms) + [m.elm]
  {
    hide Shows, Forest, Elms, ElmsOf;
    ForestElmsExist(c0, k0, ms);
    ForestFrame(c0, k0, c1, k1, ms);
    ForestOne(c1, k1, m);
    ElmsOfConcat(ms, [m]);
    ForestConcat(c1, k1, ms, [m]);
  }

  /** Slots of the old list that still hold a node. */
  function Live(r: seq<Option<Mounted>>): seq<Mounted> {
    if r == [] then [] else (if r[0].Some? then [r[0].value] else []) + Live(r[1..])
  }

  lemma {:induction false} LiveConcat(a: seq<Option<Mounted>>, b: seq<Option<Mounted>>)
    ensures Live(a + b) == Live(a) + Live(b)
  {
    if a == [] {
      assert a + b == b;
    } else {
      var first := if a[0].Some? then [a[0].value] else [];
      assert (a + b)[1..] == a[1..] + b;
      LiveConcat(a[1..], b);
      assert Live(a + b) == first + (Live(a[1..]) + Live(b)) == first + Live(a[1..]) + Live(b);
    }
  }

  lemma LiveOne(x: Option<Mounted>)
    ensures Live([x]) == if x.Some? then [x.value] else []
  {}

  lemma {:induction false} LiveAll(r: seq<Option<Mounted>>, ms: seq<Mounted>)
    requires |r| == |ms| && forall i :: 0 <= i < |r| ==> r[i] == Some(ms[i])
    ensures Live(r) == ms
  {
    if r == [] {
    } else {
      LiveAll(r[1..], ms[1..]);
      assert ms == [ms[0]] + ms[1..];
    }
  }

  /** What is alive between the slots `f` and `e`, seen from the slot `u`. */
  lemma LiveSplit(r: seq<Option<Mounted>>, f: int, e: int, u: int)
    requires 0 <= f <= u <= e < |r|
    ensures Live(r[f..e + 1]) == Live(r[f..u]) + (if r[u].Some? then [r[u].value] else []) + Live(r[u + 1..e + 1])
    ensures u == f ==> Live(r[f..u]) == []
    ensures u == e ==> Live(r[u + 1..e + 1]) == []
    ensures Live(r[u := None][f..e + 1]) == Live(r[f..u]) + Live(r[u + 1..e + 1])
  {
    assert r[f..e + 1] == r[f..u] + [r[u]] + r[u + 1..e + 1];
    assert r[u := None][f..e + 1] == r[f..u] + [None] + r[u + 1..e + 1];
    LiveThree(r[f..u], r[u], r[u + 1..e + 1]);
    LiveThree(r[f..u], None, r[u + 1..e + 1]);
  }

  lemma LiveThree(a: seq<Option<Mounted>>, x: Option<Mounted>, b: seq<Option<Mounted>>)
    ensures Live(a + [x] + b) == Live(a) + (if x.Some? then [x.value] else []) + Live(b)
  {
    LiveConcat(a + [x], b);
    LiveConcat(a, [x]);
    LiveOne(x);
  }
}
