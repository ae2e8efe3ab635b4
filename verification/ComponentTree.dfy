/** A fixed tree of components, their `_inactive` flags, and the hooks that ran. */
module ComponentTrees {
  import opened Options

  type Id = nat

  /** `_inactive`: null until the component is first activated or deactivated. */
  datatype Flag = Never | Active | Inactive

  datatype Hook = Hook(id: Id, flag: Flag)

  /** `$parent` and `$children`, and how deep each component is. */
  datatype Shape = Shape(parent: map<Id, Option<Id>>, kids: map<Id, seq<Id>>, ghost depth: Id -> nat, ghost height: nat)

  /** A forest: depth grows by one from parent to child and stays below the height. */
  ghost predicate WellShaped(t: Shape) {
    && t.kids.Keys == t.parent.Keys
    && (forall x :: x in t.parent ==> t.depth(x) < t.height)
    && (forall x :: x in t.parent && t.parent[x].Some? ==>
          t.parent[x].value in t.parent && t.depth(x) == t.depth(t.parent[x].value) + 1)
    && (forall x, i :: x in t.kids && 0 <= i < |t.kids[x]| ==>
          t.kids[x][i] in t.parent && t.parent[t.kids[x][i]] == Some(x))
    && (forall x, i, j :: x in t.kids && 0 <= i < j < |t.kids[x]| ==> t.kids[x][i] != t.kids[x][j])
    && (forall x :: x in t.parent && t.parent[x].Some? ==> x in t.kids[t.parent[x].value])
  }

  // ----- the tree

  ghost predicate Under(t: Shape, a: Id, x: Id)
    requires WellShaped(t) && x in t.parent
    decreases t.depth(x)
  {
    x == a || (t.parent[x].Some? && Under(t, a, t.parent[x].value))
  }

  /** The component or one of its ancestors was deactivated directly. */
  ghost predicate Dead(t: Shape, direct: set<Id>, x: Id)
    requires WellShaped(t) && x in t.parent
    decreases t.depth(x)
  {
    x in direct || (t.parent[x].Some? && Dead(t, direct, t.parent[x].value))
  }

  ghost predicate DeadAbove(t: Shape, direct: set<Id>, x: Id)
    requires WellShaped(t) && x in t.parent
  {
    t.parent[x].Some? && Dead(t, direct, t.parent[x].value)
  }

  lemma {:induction false} UnderDeeper(t: Shape, a: Id, x: Id)
    requires WellShaped(t) && x in t.parent && Under(t, a, x)
    ensures a in t.parent && t.depth(a) <= t.depth(x) && (t.depth(a) == t.depth(x) ==> a == x)
    decreases t.depth(x)
  {
    if x != a {
      UnderDeeper(t, a, t.parent[x].value);
    }
  }

  /** Two subtrees at the same depth do not overlap. */
  lemma {:induction false} UnderOne(t: Shape, a: Id, b: Id, x: Id)
    requires WellShaped(t) && x in t.parent && a in t.parent && b in t.parent && t.depth(a) == t.depth(b)
    requires Under(t, a, x) && Under(t, b, x)
    ensures a == b
    decreases t.depth(x)
  {
    UnderDeeper(t, a, x);
    UnderDeeper(t, b, x);
    if x != a && x != b {
      UnderOne(t, a, b, t.parent[x].value);
    }
  }

  /** Below a component: the component itself, or below one of its children. */
  lemma {:induction false} UnderKid(t: Shape, a: Id, x: Id)
    requires WellShaped(t) && x in t.parent && a in t.parent
    ensures Under(t, a, x) <==>
              x == a || exists i :: 0 <= i < |t.kids[a]| && Under(t, t.kids[a][i], x)
    decreases t.depth(x)
  {
    if x != a {
      if t.parent[x].Some? {
        UnderKid(t, a, t.parent[x].value);
        if t.parent[x] == Some(a) {
          var i :| 0 <= i < |t.kids[a]| && t.kids[a][i] == x;
          assert Under(t, t.kids[a][i], x);
        }
      }
      forall i | 0 <= i < |t.kids[a]| && Under(t, t.kids[a][i], x) ensures Under(t, a, x) {
        if t.kids[a][i] == x {
          assert Under(t, a, a);
        }
      }
    }
  }

  lemma {:induction false} DeadBelow(t: Shape, direct: set<Id>, a: Id, x: Id)
    requires WellShaped(t) && x in t.parent && a in t.parent
    requires Under(t, a, x) && Dead(t, direct, a)
    ensures Dead(t, direct, x)
    decreases t.depth(x)
  {
    if x != a {
      DeadBelow(t, direct, a, t.parent[x].value);
    }
  }

  /** A direct call on a changes nothing outside the tree of a, and nothing at all when a is dead anyway. */
  lemma {:induction false} DeadElsewhere(t: Shape, d: set<Id>, d': set<Id>, a: Id, x: Id)
    requires WellShaped(t) && x in t.parent && a in t.parent
    requires d - {a} == d' - {a}
    requires !Under(t, a, x) || (Dead(t, d, a) && Dead(t, d', a))
    ensures Dead(t, d, x) == Dead(t, d', x)
    decreases t.depth(x)
  {
    if Under(t, a, x) {
      DeadBelow(t, d, a, x);
      DeadBelow(t, d', a, x);
    } else {
      assert x in d <==> x in d' by {
        assert x in d <==> x in d - {a};
        assert x in d' <==> x in d' - {a};
      }
      if t.parent[x].Some? {
        DeadElsewhere(t, d, d', a, t.parent[x].value);
      }
    }
  }

  // ----- hooks

  /** What the hooks that ran so far say about a component. */
  function Status(hooks: seq<Hook>, x: Id): Flag {
    if hooks == [] then Never
    else if hooks[|hooks| - 1].id == x then hooks[|hooks| - 1].flag
    else Status(hooks[..|hooks| - 1], x)
  }

  /** Every hook announces a change. */
  ghost predicate Changes(hooks: seq<Hook>) {
    forall i :: 0 <= i < |hooks| ==> hooks[i].flag != Never && Status(hooks[..i], hooks[i].id) != hooks[i].flag
  }

  lemma Fired(hooks: seq<Hook>, h: Hook)
    requires Changes(hooks) && h.flag != Never && Status(hooks, h.id) != h.flag
    ensures Changes(hooks + [h])
    ensures forall x :: Status(hooks + [h], x) == if x == h.id then h.flag else Status(hooks, x)
  {
    var after := hooks + [h];
    assert after[..|after| - 1] == hooks;
    forall i | 0 <= i < |after| ensures after[i].flag != Never && Status(after[..i], after[i].id) != after[i].flag {
      assert i < |hooks| ==> after[..i] == hooks[..i];
    }
  }

  type Flags = map<Id, Flag>

  datatype State = State(flags: Flags, hooks: seq<Hook>)

  /** The components of a tree, children before their parent and from left to right. */
  ghost function PostOrder(t: Shape, a: Id): seq<Id>
    requires WellShaped(t) && a in t.parent
    decreases t.height - t.depth(a), |t.kids[a]| + 1
  {
    PostKids(t, a, |t.kids[a]|) + [a]
  }

  ghost function PostKids(t: Shape, a: Id, n: nat): seq<Id>
    requires WellShaped(t) && a in t.parent && n <= |t.kids[a]|
    decreases t.height - t.depth(a), n
  {
    if n == 0 then [] else PostKids(t, a, n - 1) + PostOrder(t, t.kids[a][n - 1])
  }

  lemma {:induction false} PostOrderIds(t: Shape, a: Id, x: Id)
    requires WellShaped(t) && a in t.parent && x in PostOrder(t, a)
    ensures x in t.parent && Under(t, a, x)
    decreases t.height - t.depth(a), |t.kids[a]| + 1
  {
    if x != a {
      PostKidsIds(t, a, |t.kids[a]|, x);
      UnderKid(t, a, x);
    }
  }

  lemma {:induction false} PostKidsIds(t: Shape, a: Id, n: nat, x: Id)
    requires WellShaped(t) && a in t.parent && n <= |t.kids[a]| && x in PostKids(t, a, n)
    ensures x in t.parent && exists j :: 0 <= j < n && Under(t, t.kids[a][j], x)
    decreases t.height - t.depth(a), n
  {
    if x in PostOrder(t, t.kids[a][n - 1]) {
      PostOrderIds(t, t.kids[a][n - 1], x);
    } else {
      PostKidsIds(t, a, n - 1, x);
    }
  }

  /** One hook for each component of the list whose flag is new, in the order of the list. */
  ghost function Announced(order: seq<Id>, was: Flags, now: Flags): seq<Hook> {
    if order == [] then []
    else
      var x := order[|order| - 1];
      Announced(order[..|order| - 1], was, now) +
      if x in was && x in now && was[x] != now[x] then [Hook(x, now[x])] else []
  }

  lemma {:induction false} AnnouncedSame(order: seq<Id>, was: Flags, now: Flags, was': Flags, now': Flags)
    requires was.Keys == now.Keys == was'.Keys == now'.Keys
    requires forall x :: x in order && x in was ==> was[x] == was'[x] && now[x] == now'[x]
    ensures Announced(order, was, now) == Announced(order, was', now')
  {
    if order == [] {
    } else {
      AnnouncedSame(order[..|order| - 1], was, now, was', now');
    }
  }

  lemma {:induction false} AnnouncedConcat(a: seq<Id>, b: seq<Id>, was: Flags, now: Flags)
    ensures Announced(a + b, was, now) == Announced(a, was, now) + Announced(b, was, now)
  {
    if b == [] {
      assert a + b == a;
    } else {
      assert (a + b)[..|a + b| - 1] == a + b[..|b| - 1];
      AnnouncedConcat(a, b[..|b| - 1], was, now);
    }
  }

  lemma {:induction false} NothingAnnounced(order: seq<Id>, flags: Flags)
    ensures Announced(order, flags, flags) == []
  {
    if order == [] {
    } else {
      NothingAnnounced(order[..|order| - 1], flags);
    }
  }

  ghost predicate Complete(t: Shape, s: State) {
    s.flags.Keys == t.parent.Keys && Changes(s.hooks)
  }

  ghost predicate Told(t: Shape, s: State, x: Id)
    requires x in s.flags
  {
    Status(s.hooks, x) == s.flags[x]
  }

  ghost predicate Same(s: State, s': State, x: Id) {
    x in s.flags && x in s'.flags && s.flags[x] == s'.flags[x] && Status(s.hooks, x) == Status(s'.hooks, x)
  }
}
