/** `traverse`: touching every property below a value, on graphs that may have cycles. */
module Traversals {
  import opened Options

  type Id = nat

  datatype Val = Scalar | Ref(id: Id)

  /** An object or array: its observer's dep id when it is observed, and its values in key order. */
  datatype Obj = Obj(frozen: bool, ob: Option<nat>, kids: seq<Val>)

  type Graph = map<Id, Obj>

  /** There are no dangling references, and every observer has its own dep. */
  ghost predicate WellFormed(g: Graph) {
    && (forall x, k :: x in g && !g[x].frozen && 0 <= k < |g[x].kids| && g[x].kids[k].Ref? ==> g[x].kids[k].id in g)
    && (forall x, y :: x in g && y in g && g[x].ob.Some? && g[x].ob == g[y].ob ==> x == y)
  }

  /** Objects without an observer do not form cycles on their own; nothing would stop the walk there. */
  ghost predicate Tame(g: Graph, rank: Id -> nat) {
    forall x, k :: Plain(g, Ref(x)) && 0 <= k < |g[x].kids| && Plain(g, g[x].kids[k]) ==>
      rank(g[x].kids[k].id) < rank(x)
  }

  /** An object that is walked into without being remembered. */
  predicate Plain(g: Graph, v: Val) {
    v.Ref? && v.id in g && !g[v.id].frozen && g[v.id].ob.None?
  }

  predicate Known(g: Graph, v: Val) {
    v.Ref? ==> v.id in g
  }

  // ----- reachability

  /** The walk enters x: it is not frozen and its id is not among those to stop at. */
  predicate Open(g: Graph, stop: set<nat>, x: Id) {
    x in g && !g[x].frozen && (g[x].ob.Some? ==> g[x].ob.value !in stop)
  }

  ghost predicate Walk(g: Graph, stop: set<nat>, p: seq<Id>) {
    && p != []
    && (forall i :: 0 <= i < |p| ==> Open(g, stop, p[i]))
    && (forall i :: 0 <= i < |p| - 1 ==> Ref(p[i + 1]) in g[p[i]].kids)
  }

  ghost predicate Joins(g: Graph, stop: set<nat>, p: seq<Id>, v: Val, x: Id) {
    Walk(g, stop, p) && v == Ref(p[0]) && p[|p| - 1] == x
  }

  ghost predicate Reaches(g: Graph, stop: set<nat>, v: Val, x: Id) {
    exists p :: Joins(g, stop, p, v, x)
  }

  ghost function ReachedIds(g: Graph, stop: set<nat>, v: Val): set<nat> {
    set x | x in g && g[x].ob.Some? && Reaches(g, stop, v, x) :: g[x].ob.value
  }

  /** One property of an object: a key position in it. */
  type Property = (Id, nat)

  predicate IsProperty(g: Graph, q: Property) {
    q.0 in g && q.1 < |g[q.0].kids|
  }

  lemma ReachesSelf(g: Graph, stop: set<nat>, x: Id)
    requires Open(g, stop, x)
    ensures Reaches(g, stop, Ref(x), x)
  {
    assert Joins(g, stop, [x], Ref(x), x);
  }

  /** What is reached from a child is reached from the object, and stopping at less reaches no less. */
  lemma ReachesThrough(g: Graph, stop: set<nat>, stop': set<nat>, x: Id, k: nat, y: Id)
    requires Open(g, stop, x) && k < |g[x].kids| && stop <= stop'
    requires Reaches(g, stop', g[x].kids[k], y)
    ensures Reaches(g, stop, Ref(x), y)
  {
    var p :| Joins(g, stop', p, g[x].kids[k], y);
    var q := [x] + p;
    forall i | 0 <= i < |q| - 1 ensures Ref(q[i + 1]) in g[q[i]].kids {
      if i > 0 {
        assert q[i] == p[i - 1] && q[i + 1] == p[i];
      }
    }
    assert Joins(g, stop, q, Ref(x), y);
  }

  // ----- the part of a graph that a value can reach

  ghost predicate Part(h: Graph, g: Graph) {
    forall x :: x in h ==> x in g && g[x] == h[x]
  }

  /** The value itself, reached objects, and what they refer to. */
  ghost predicate Near(g: Graph, v: Val, x: Id) {
    v == Ref(x) || exists y :: y in g && Reaches(g, {}, v, y) && Ref(x) in g[y].kids
  }

  ghost function Below(g: Graph, v: Val): Graph {
    map x | x in g && Near(g, v, x) :: g[x]
  }

  lemma ReachesKid(g: Graph, v: Val, y: Id, x: Id)
    requires Reaches(g, {}, v, y) && y in g && Ref(x) in g[y].kids && Open(g, {}, x)
    ensures Reaches(g, {}, v, x)
  {
    var p :| Joins(g, {}, p, v, y);
    var q := p + [x];
    forall i | 0 <= i < |q| - 1 ensures Ref(q[i + 1]) in g[q[i]].kids {
      if i == |p| - 1 {
        assert q[i] == y && q[i + 1] == x;
      }
    }
    assert Joins(g, {}, q, v, x);
  }

  lemma BelowIsWellFormed(g: Graph, v: Val)
    requires WellFormed(g) && Known(g, v)
    ensures Part(Below(g, v), g) && WellFormed(Below(g, v)) && Known(Below(g, v), v)
  {
    var h := Below(g, v);
    forall x, k | x in h && !h[x].frozen && 0 <= k < |h[x].kids| && h[x].kids[k].Ref? ensures h[x].kids[k].id in h {
      if v == Ref(x) {
        ReachesSelf(g, {}, x);
      } else {
        var y :| y in g && Reaches(g, {}, v, y) && Ref(x) in g[y].kids;
        ReachesKid(g, v, y, x);
      }
      assert Ref(h[x].kids[k].id) in g[x].kids;
    }
  }

  /** A walk stays in the part that is reached. */
  lemma BelowReaches(g: Graph, v: Val, x: Id)
    ensures Reaches(Below(g, v), {}, v, x) <==> Reaches(g, {}, v, x)
  {
    var h := Below(g, v);
    if Reaches(h, {}, v, x) {
      var p :| Joins(h, {}, p, v, x);
      assert Joins(g, {}, p, v, x);
    }
    if Reaches(g, {}, v, x) {
      var p :| Joins(g, {}, p, v, x);
      forall i | 0 <= i < |p| ensures p[i] in h {
        if i > 0 {
          var q := p[..i];
          assert Joins(g, {}, q, v, p[i - 1]);
          assert Ref(p[i - 1 + 1]) in g[p[i - 1]].kids;
        }
      }
      assert Joins(h, {}, p, v, x);
    }
  }

  // ----- what one call has established

  /** Everything below the value has been walked: a remembered object counts as walked. */
  ghost predicate Covered(g: Graph, rank: Id -> nat, seen: set<nat>, touched: set<Property>, v: Val)
    requires Tame(g, rank)
    decreases if v.Ref? then rank(v.id) else 0
  {
    if Plain(g, v) then
      forall k :: 0 <= k < |g[v.id].kids| ==>
        && (v.id, k) in touched
        && (Plain(g, g[v.id].kids[k]) ==> Covered(g, rank, seen, touched, g[v.id].kids[k]))
        && Remembered(g, seen, g[v.id].kids[k])
    else Remembered(g, seen, v)
  }

  predicate Remembered(g: Graph, seen: set<nat>, v: Val) {
    v.Ref? && v.id in g && !g[v.id].frozen && g[v.id].ob.Some? ==> g[v.id].ob.value in seen
  }

  ghost predicate KidCovered(g: Graph, rank: Id -> nat, seen: set<nat>, touched: set<Property>, x: Id, k: nat)
    requires Tame(g, rank) && IsProperty(g, (x, k))
  {
    (x, k) in touched && Covered(g, rank, seen, touched, g[x].kids[k])
  }

  lemma {:induction false} CoveredGrows(g: Graph, rank: Id -> nat, s: set<nat>, t: set<Property>,
                                        s': set<nat>, t': set<Property>, v: Val)
    requires Tame(g, rank) && s <= s' && t <= t' && Covered(g, rank, s, t, v)
    ensures Covered(g, rank, s', t', v)
    decreases if v.Ref? then rank(v.id) else 0
  {
    if Plain(g, v) {
      forall k | 0 <= k < |g[v.id].kids| && Plain(g, g[v.id].kids[k])
        ensures Covered(g, rank, s', t', g[v.id].kids[k])
      {
        CoveredGrows(g, rank, s, t, s', t', g[v.id].kids[k]);
      }
    }
  }

  lemma PlainCovered(g: Graph, rank: Id -> nat, seen: set<nat>, touched: set<Property>, x: Id)
    requires Tame(g, rank) && Plain(g, Ref(x))
    ensures Covered(g, rank, seen, touched, Ref(x)) <==>
              forall k :: 0 <= k < |g[x].kids| ==> KidCovered(g, rank, seen, touched, x, k)
  {
    forall k | 0 <= k < |g[x].kids|
      ensures KidCovered(g, rank, seen, touched, x, k) <==>
                && (x, k) in touched
                && (Plain(g, g[x].kids[k]) ==> Covered(g, rank, seen, touched, g[x].kids[k]))
                && Remembered(g, seen, g[x].kids[k])
    {}
  }

  /** New ids and touched properties are reached ones. */
  ghost predicate OnlyReached(g: Graph, s: set<nat>, t: set<Property>, v: Val, seen: set<nat>, touched: set<Property>) {
    && s <= seen && t <= touched
    && (forall i :: i in seen && i !in s ==> i in ReachedIds(g, s, v))
    && (forall q :: q in touched && q !in t ==> IsProperty(g, q) && Reaches(g, s, v, q.0))
  }

  /** All children of the objects remembered since s are covered. */
  ghost predicate NewCovered(g: Graph, rank: Id -> nat, s: set<nat>, seen: set<nat>, touched: set<Property>)
    requires Tame(g, rank)
  {
    forall x, k :: x in g && g[x].ob.Some? && g[x].ob.value in seen && g[x].ob.value !in s && 0 <= k < |g[x].kids| ==>
      KidCovered(g, rank, seen, touched, x, k)
  }

  ghost predicate Explored(g: Graph, rank: Id -> nat, s: set<nat>, t: set<Property>, v: Val,
                           seen: set<nat>, touched: set<Property>)
    requires Tame(g, rank)
  {
    && OnlyReached(g, s, t, v, seen, touched)
    && NewCovered(g, rank, s, seen, touched)
    && Covered(g, rank, seen, touched, v)
  }

  /** In the middle of an object: its children from n on are done. `s0` is what was remembered when they were started. */
  ghost predicate Exploring(g: Graph, rank: Id -> nat, s: set<nat>, t: set<Property>, s0: set<nat>, x: Id, n: nat,
                            seen: set<nat>, touched: set<Property>)
    requires Tame(g, rank) && x in g && n <= |g[x].kids|
  {
    && s <= s0 <= seen
    && OnlyReached(g, s, t, Ref(x), seen, touched)
    && NewCovered(g, rank, s0, seen, touched)
    && forall k :: n <= k < |g[x].kids| ==> KidCovered(g, rank, seen, touched, x, k)
  }

  lemma ExploreStart(g: Graph, rank: Id -> nat, s: set<nat>, t: set<Property>, s0: set<nat>, x: Id)
    requires Tame(g, rank) && Open(g, s, x)
    requires s0 == if g[x].ob.Some? then s + {g[x].ob.value} else s
    ensures Exploring(g, rank, s, t, s0, x, |g[x].kids|, s0, t)
  {
    ReachesSelf(g, s, x);
  }

  lemma NewCoveredGrows(g: Graph, rank: Id -> nat, s: set<nat>, s1: set<nat>, t1: set<Property>,
                        s2: set<nat>, t2: set<Property>)
    requires Tame(g, rank) && s <= s1 <= s2 && t1 <= t2
    requires NewCovered(g, rank, s, s1, t1) && NewCovered(g, rank, s1, s2, t2)
    ensures NewCovered(g, rank, s, s2, t2)
  {
    forall x, k | x in g && g[x].ob.Some? && g[x].ob.value in s2 && g[x].ob.value !in s && 0 <= k < |g[x].kids|
      ensures KidCovered(g, rank, s2, t2, x, k)
    {
      if g[x].ob.value in s1 {
        assert KidCovered(g, rank, s1, t1, x, k);
        CoveredGrows(g, rank, s1, t1, s2, t2, g[x].kids[k]);
      }
    }
  }

  /** Reading property n of x and exploring its value. */
  lemma ExploreStep(g: Graph, rank: Id -> nat, s: set<nat>, t: set<Property>, s0: set<nat>, x: Id, n: nat,
                    s1: set<nat>, t1: set<Property>, s2: set<nat>, t2: set<Property>)
    requires Tame(g, rank) && Open(g, s, x) && n < |g[x].kids|
    requires Exploring(g, rank, s, t, s0, x, n + 1, s1, t1)
    requires Explored(g, rank, s1, t1 + {(x, n)}, g[x].kids[n], s2, t2)
    ensures Exploring(g, rank, s, t, s0, x, n, s2, t2)
  {
    NewCoveredGrows(g, rank, s0, s1, t1, s1, t1 + {(x, n)}) by {
      assert NewCovered(g, rank, s1, s1, t1 + {(x, n)});
    }
    NewCoveredGrows(g, rank, s0, s1, t1 + {(x, n)}, s2, t2);
    forall k | n <= k < |g[x].kids| ensures KidCovered(g, rank, s2, t2, x, k) {
      if k > n {
        assert KidCovered(g, rank, s1, t1, x, k);
        CoveredGrows(g, rank, s1, t1, s2, t2, g[x].kids[k]);
      }
    }
    ReachesSelf(g, s, x);
    forall y | Reaches(g, s1, g[x].kids[n], y) ensures Reaches(g, s, Ref(x), y) {
      ReachesThrough(g, s, s1, x, n, y);
    }
    OnlyReachedStep(g, s, t, s1, t1, x, n, s2, t2);
  }

  lemma OnlyReachedStep(g: Graph, s: set<nat>, t: set<Property>, s1: set<nat>, t1: set<Property>, x: Id, n: nat,
                        s2: set<nat>, t2: set<Property>)
    requires x in g && n < |g[x].kids| && Reaches(g, s, Ref(x), x)
    requires forall y :: Reaches(g, s1, g[x].kids[n], y) ==> Reaches(g, s, Ref(x), y)
    requires OnlyReached(g, s, t, Ref(x), s1, t1)
    requires OnlyReached(g, s1, t1 + {(x, n)}, g[x].kids[n], s2, t2)
    ensures OnlyReached(g, s, t, Ref(x), s2, t2)
  {}

  lemma ExploreEnd(g: Graph, rank: Id -> nat, s: set<nat>, t: set<Property>, s0: set<nat>, x: Id,
                   seen: set<nat>, touched: set<Property>)
    requires WellFormed(g) && Tame(g, rank) && Open(g, s, x)
    requires s0 == if g[x].ob.Some? then s + {g[x].ob.value} else s
    requires Exploring(g, rank, s, t, s0, x, 0, seen, touched)
    ensures Explored(g, rank, s, t, Ref(x), seen, touched)
  {
    if Plain(g, Ref(x)) {
      PlainCovered(g, rank, seen, touched, x);
    }
  }

  /** A value the walk does not enter. */
  lemma ExploreNothing(g: Graph, rank: Id -> nat, s: set<nat>, t: set<Property>, v: Val)
    requires Tame(g, rank) && (v.Ref? ==> !Open(g, s, v.id))
    ensures Explored(g, rank, s, t, v, s, t)
  {}

  // ----- explored is reached

  /** Along a walk that avoids what was remembered before, everything is covered. */
  lemma {:induction false} WalkCovered(g: Graph, rank: Id -> nat, s: set<nat>, t: set<Property>, v: Val,
                                       seen: set<nat>, touched: set<Property>, p: seq<Id>, x: Id)
    requires WellFormed(g) && Tame(g, rank) && Joins(g, s, p, v, x)
    requires NewCovered(g, rank, s, seen, touched) && Covered(g, rank, seen, touched, v)
    ensures g[x].ob.Some? ==> g[x].ob.value in seen
    ensures forall k :: 0 <= k < |g[x].kids| ==> (x, k) in touched
    decreases |p|
  {
    assert Open(g, s, p[0]);
    KidsCovered(g, rank, s, seen, touched, p[0]);
    if |p| == 1 {
      forall k | 0 <= k < |g[x].kids| ensures (x, k) in touched {
        assert KidCovered(g, rank, seen, touched, x, k);
      }
    } else {
      var k :| 0 <= k < |g[p[0]].kids| && g[p[0]].kids[k] == Ref(p[1]);
      assert KidCovered(g, rank, seen, touched, p[0], k);
      assert Joins(g, s, p[1..], Ref(p[1]), x);
      WalkCovered(g, rank, s, t, Ref(p[1]), seen, touched, p[1..], x);
    }
  }

  lemma KidsCovered(g: Graph, rank: Id -> nat, s: set<nat>, seen: set<nat>, touched: set<Property>, x: Id)
    requires Tame(g, rank) && Open(g, s, x)
    requires NewCovered(g, rank, s, seen, touched) && Covered(g, rank, seen, touched, Ref(x))
    ensures forall k :: 0 <= k < |g[x].kids| ==> KidCovered(g, rank, seen, touched, x, k)
    ensures g[x].ob.Some? ==> g[x].ob.value in seen
  {}

  /** The properties of reached objects. */
  ghost predicate Reads(g: Graph, stop: set<nat>, v: Val, q: Property) {
    IsProperty(g, q) && Reaches(g, stop, v, q.0)
  }

  lemma BelowReads(g: Graph, v: Val, q: Property)
    ensures Reads(Below(g, v), {}, v, q) <==> Reads(g, {}, v, q)
  {
    BelowReaches(g, v, q.0);
    if Reaches(Below(g, v), {}, v, q.0) {
      var p :| Joins(Below(g, v), {}, p, v, q.0);
      assert Open(Below(g, v), {}, p[|p| - 1]);
    }
  }

  lemma ExploredIsReached(g: Graph, rank: Id -> nat, s: set<nat>, t: set<Property>, v: Val,
                          seen: set<nat>, touched: set<Property>)
    requires WellFormed(g) && Tame(g, rank) && Explored(g, rank, s, t, v, seen, touched)
    ensures seen == s + ReachedIds(g, s, v)
    ensures forall q :: q in touched <==> q in t || Reads(g, s, v, q)
  {
    forall x | x in g && Reaches(g, s, v, x)
      ensures g[x].ob.Some? ==> g[x].ob.value in seen
      ensures forall k :: 0 <= k < |g[x].kids| ==> (x, k) in touched
    {
      var p :| Joins(g, s, p, v, x);
      WalkCovered(g, rank, s, t, v, seen, touched, p, x);
    }
    forall q | Reads(g, s, v, q) ensures q in touched {
      assert (q.0, q.1) in touched;
    }
  }

  // ----- the walk

  ghost function AllIds(g: Graph): set<nat> {
    set x | x in g && g[x].ob.Some? :: g[x].ob.value
  }

  ghost function Unseen(g: Graph, seen: set<nat>): nat {
    |AllIds(g) - seen|
  }

  lemma UnseenShrinks(g: Graph, s: set<nat>, s': set<nat>)
    requires s <= s'
    ensures Unseen(g, s') <= Unseen(g, s)
    ensures forall i :: i in AllIds(g) && i !in s && i in s' ==> Unseen(g, s') < Unseen(g, s)
  {
    var a, b := AllIds(g) - s', AllIds(g) - s;
    SubsetSize(a, b);
    forall i | i in AllIds(g) && i !in s && i in s' ensures |a| < |b| {
      SubsetSize(a, b - {i});
    }
  }

  lemma {:induction false} SubsetSize(a: set<nat>, b: set<nat>)
    requires a <= b
    ensures |a| <= |b|
  {
    if a == {} {
    } else {
      var i :| i in a;
      SubsetSize(a - {i}, b - {i});
    }
  }

  /** The next child is walked with a smaller measure: fewer ids are unseen, or it ranks lower. */
  lemma Smaller(g: Graph, rank: Id -> nat, s: set<nat>, t: set<Property>, s0: set<nat>, x: Id, n: nat,
                s1: set<nat>, t1: set<Property>)
    requires WellFormed(g) && Tame(g, rank) && Open(g, s, x) && 0 < n <= |g[x].kids|
    requires s0 == if g[x].ob.Some? then s + {g[x].ob.value} else s
    requires Exploring(g, rank, s, t, s0, x, n, s1, t1)
    ensures Known(g, g[x].kids[n - 1])
    ensures Unseen(g, s1) <= Unseen(g, s)
    ensures g[x].ob.Some? ==> Unseen(g, s1) < Unseen(g, s)
    ensures g[x].ob.None? && Plain(g, g[x].kids[n - 1]) ==> rank(g[x].kids[n - 1].id) < rank(x)
  {
    UnseenShrinks(g, s, s0);
    UnseenShrinks(g, s0, s1);
  }

  class Traversal {
    /** The dep ids remembered by the traversal under way. */
    var seen: set<nat>
    /** The properties whose getters ran. */
    var touched: set<Property>

    constructor ()
      ensures seen == {} && touched == {}
    {
      seen, touched := {}, {};
    }

    /**
     * `_traverse`: children are walked from the last to the first. Only the part `h` of the graph matters, as
     * long as it holds everything that its objects refer to.
     */
    method Collect(g: Graph, v: Val, ghost h: Graph, ghost rank: Id -> nat)
      requires Part(h, g) && WellFormed(h) && Tame(h, rank) && Known(h, v)
      modifies this
      ensures Explored(h, rank, old(seen), old(touched), v, seen, touched)
      decreases Unseen(h, seen), if Plain(h, v) then rank(v.id) + 1 else 0
    {
      hide Explored, Exploring, Covered, NewCovered, OnlyReached, Reaches, Unseen, AllIds, WellFormed, Tame;
      ghost var s, t := seen, touched;
      if v.Scalar? || g[v.id].frozen {
        ExploreNothing(h, rank, s, t, v);
        return;
      }
      var x := v.id;
      if g[x].ob.Some? {
        if g[x].ob.value in seen {
          ExploreNothing(h, rank, s, t, v);
          return;
        }
        seen := seen + {g[x].ob.value};
      }
      ghost var s0 := seen;
      ExploreStart(h, rank, s, t, s0, x);
      var n: nat := |g[x].kids|;
      while n > 0
        invariant x in h && n <= |h[x].kids|
        invariant Exploring(h, rank, s, t, s0, x, n, seen, touched)
      {
        ghost var s1, t1 := seen, touched;
        Smaller(h, rank, s, t, s0, x, n, s1, t1);
        n := n - 1;
        touched := touched + {(x, n)};
        Collect(g, g[x].kids[n], h, rank);
        ExploreStep(h, rank, s, t, s0, x, n, s1, t1, seen, touched);
      }
      ExploreEnd(h, rank, s, t, s0, x, seen, touched);
    }

    /**
     * `traverse`: on any graph, cyclic or not, the getters that run are exactly those of the properties
     * of reachable objects, and nothing is remembered afterwards.
     */
    method Traverse(g: Graph, v: Val, ghost rank: Id -> nat)
      requires WellFormed(g) && Known(g, v) && Tame(Below(g, v), rank)
      requires seen == {}
      modifies this
      ensures seen == {}
      ensures forall q :: q in touched <==> q in old(touched) || Reads(g, {}, v, q)
    {
      ghost var h := Below(g, v);
      BelowIsWellFormed(g, v);
      Collect(g, v, h, rank);
      ExploredIsReached(h, rank, {}, old(touched), v, seen, touched);
      forall q: Property ensures Reads(h, {}, v, q) <==> Reads(g, {}, v, q) {
        BelowReads(g, v, q);
      }
      seen := {};
    }
  }
}
