/** `activateChildComponent` and `deactivateChildComponent` on a fixed tree of components. */
module Activation {
  import opened Options
  import opened ComponentTrees

  // ----- what a call finds and leaves below a component

  ghost predicate AllTold(t: Shape, s: State, a: Id)
    requires WellShaped(t) && Complete(t, s)
  {
    forall x :: x in t.parent && Under(t, a, x) ==> Told(t, s, x)
  }

  ghost predicate AllInactive(t: Shape, s: State, a: Id)
    requires WellShaped(t) && Complete(t, s)
  {
    forall x :: x in t.parent && Under(t, a, x) ==> s.flags[x] == Inactive
  }

  /** `_inactive` says whether the component is dead. */
  ghost predicate Consistent(t: Shape, direct: set<Id>, s: State, a: Id)
    requires WellShaped(t) && Complete(t, s)
  {
    forall x :: x in t.parent && Under(t, a, x) ==>
      (s.flags[x] == Inactive <==> Dead(t, direct, x))
  }

  /** Below an inactive component everything is inactive. */
  ghost predicate Downward(t: Shape, s: State, a: Id)
    requires WellShaped(t) && Complete(t, s)
  {
    forall x, i :: x in t.parent && Under(t, a, x) && 0 <= i < |t.kids[x]| && s.flags[x] == Inactive ==>
      s.flags[t.kids[x][i]] == Inactive
  }

  /** No child of an active component was never activated. */
  ghost predicate Lively(t: Shape, s: State, a: Id)
    requires WellShaped(t) && Complete(t, s)
  {
    forall x, i :: x in t.parent && Under(t, a, x) && 0 <= i < |t.kids[x]| && s.flags[x] == Active ==>
      s.flags[t.kids[x][i]] != Never
  }

  /** Everything is inactive where it is dead, and active elsewhere. */
  ghost predicate Awake(t: Shape, direct: set<Id>, s: State, a: Id)
    requires WellShaped(t) && Complete(t, s)
  {
    forall x :: x in t.parent && Under(t, a, x) ==>
      s.flags[x] == if Dead(t, direct, x) then Inactive else Active
  }

  ghost predicate SameOutside(t: Shape, s: State, s': State, a: Id)
    requires WellShaped(t)
  {
    forall x :: x in t.parent && !Under(t, a, x) ==> Same(s, s', x)
  }

  /** A tree that can be woken: all asleep, or already as it should be. */
  ghost predicate Ready(t: Shape, direct: set<Id>, s: State, a: Id)
    requires WellShaped(t) && Complete(t, s) && a in t.parent
  {
    && !DeadAbove(t, direct, a)
    && (AllInactive(t, s, a) || (Consistent(t, direct, s, a) && Lively(t, s, a)))
  }

  /** What waking (up) or putting to sleep the tree of a needs, and what it establishes there. */
  ghost predicate Prepared(t: Shape, direct: set<Id>, s: State, a: Id, up: bool)
    requires WellShaped(t) && Complete(t, s) && a in t.parent
  {
    AllTold(t, s, a) && if up then Ready(t, direct, s, a) else Downward(t, s, a)
  }

  ghost predicate Settled(t: Shape, direct: set<Id>, s: State, a: Id, up: bool)
    requires WellShaped(t) && Complete(t, s)
  {
    AllTold(t, s, a) && if up then Awake(t, direct, s, a) else AllInactive(t, s, a)
  }

  ghost predicate Changed(t: Shape, direct: set<Id>, s: State, s': State, a: Id, up: bool)
    requires WellShaped(t)
  {
    && Complete(t, s) && Complete(t, s') && SameOutside(t, s, s', a) && Settled(t, direct, s', a, up)
    && a in t.parent && s'.hooks == s.hooks + Announced(PostOrder(t, a), s.flags, s'.flags)
  }

  // ----- touring the children

  function Flipped(s: State, a: Id, up: bool): State {
    s.(flags := s.flags[a := if up then Active else Inactive])
  }

  ghost predicate UnderFirst(t: Shape, a: Id, n: nat, x: Id)
    requires WellShaped(t) && x in t.parent && a in t.parent && n <= |t.kids[a]|
  {
    exists j :: 0 <= j < n && Under(t, t.kids[a][j], x)
  }

  /** The first n children are settled, and nothing else changed. */
  ghost predicate Touring(t: Shape, direct: set<Id>, s: State, s': State, a: Id, n: nat, up: bool)
    requires WellShaped(t) && a in t.parent && n <= |t.kids[a]|
  {
    && Complete(t, s) && Complete(t, s')
    && (forall x :: x in t.parent && !UnderFirst(t, a, n, x) ==> Same(s, s', x))
    && (forall j :: 0 <= j < n ==> Settled(t, direct, s', t.kids[a][j], up))
    && s'.hooks == s.hooks + Announced(PostKids(t, a, n), s.flags, s'.flags)
  }

  lemma KidPrepared(t: Shape, direct: set<Id>, s: State, a: Id, i: nat, up: bool)
    requires WellShaped(t) && Complete(t, s) && a in t.parent && i < |t.kids[a]|
    requires Prepared(t, direct, s, a, up) && (up ==> a !in direct)
    ensures Prepared(t, direct, Flipped(s, a, up), t.kids[a][i], up)
  {
    hide Under, Dead, Status, Changes;
    var c := t.kids[a][i];
    KidAlive(t, direct, a, c);
    forall x | x in t.parent && Under(t, c, x) ensures Under(t, a, x) && x != a {
      UnderKid(t, a, x);
      UnderDeeper(t, c, x);
    }
    forall x, k | x in t.parent && Under(t, c, x) && 0 <= k < |t.kids[x]| ensures t.kids[x][k] != a {
      UnderDeeper(t, c, x);
    }
  }

  lemma KidAlive(t: Shape, direct: set<Id>, a: Id, c: Id)
    requires WellShaped(t) && a in t.parent && c in t.parent && t.parent[c] == Some(a)
    ensures DeadAbove(t, direct, c) <==> a in direct || DeadAbove(t, direct, a)
  {}

  /** The tours of earlier children do not reach into the tree of a later one. */
  lemma KidUntouched(t: Shape, a: Id, i: nat, x: Id)
    requires WellShaped(t) && a in t.parent && i < |t.kids[a]| && x in t.parent && Under(t, t.kids[a][i], x)
    ensures !UnderFirst(t, a, i, x)
  {
    forall j | 0 <= j < i && Under(t, t.kids[a][j], x) ensures false {
      UnderOne(t, t.kids[a][j], t.kids[a][i], x);
    }
  }

  /** What a call needs below a component depends on the flags and hooks there only. */
  lemma PreparedSame(t: Shape, direct: set<Id>, s: State, s': State, a: Id, up: bool)
    requires WellShaped(t) && Complete(t, s) && Complete(t, s') && a in t.parent && Prepared(t, direct, s, a, up)
    requires forall x :: x in t.parent && Under(t, a, x) ==> Same(s, s', x)
    ensures Prepared(t, direct, s', a, up)
  {
    hide Under, Dead, Status, Changes, WellShaped, Complete, DeadAbove;
    forall x | x in t.parent && Under(t, a, x) ensures Told(t, s', x) && s.flags[x] == s'.flags[x] {
      assert Same(s, s', x) && Told(t, s, x);
    }
    if up {
      if AllInactive(t, s, a) {
        assert AllInactive(t, s', a);
      } else {
        LivelySame(t, s, s', a);
        assert Consistent(t, direct, s', a);
      }
    } else {
      DownwardSame(t, s, s', a);
    }
  }

  lemma LivelySame(t: Shape, s: State, s': State, a: Id)
    requires WellShaped(t) && Complete(t, s) && Complete(t, s') && Lively(t, s, a)
    requires forall x :: x in t.parent && Under(t, a, x) ==> Same(s, s', x)
    ensures Lively(t, s', a)
  {
    hide Under, Status, Changes;
    forall x, i | x in t.parent && Under(t, a, x) && 0 <= i < |t.kids[x]| && s'.flags[x] == Active
      ensures s'.flags[t.kids[x][i]] != Never
    {
      UnderParent(t, a, x, i);
      assert Same(s, s', x) && Same(s, s', t.kids[x][i]);
    }
  }

  lemma DownwardSame(t: Shape, s: State, s': State, a: Id)
    requires WellShaped(t) && Complete(t, s) && Complete(t, s') && Downward(t, s, a)
    requires forall x :: x in t.parent && Under(t, a, x) ==> Same(s, s', x)
    ensures Downward(t, s', a)
  {
    hide Under, Status, Changes;
    forall x, i | x in t.parent && Under(t, a, x) && 0 <= i < |t.kids[x]| && s'.flags[x] == Inactive
      ensures s'.flags[t.kids[x][i]] == Inactive
    {
      UnderParent(t, a, x, i);
      assert Same(s, s', x) && Same(s, s', t.kids[x][i]);
    }
  }

  lemma KidStillPrepared(t: Shape, direct: set<Id>, s: State, s': State, a: Id, i: nat, up: bool)
    requires WellShaped(t) && Complete(t, s) && a in t.parent && i < |t.kids[a]|
    requires Touring(t, direct, s, s', a, i, up) && Prepared(t, direct, s, t.kids[a][i], up)
    ensures Prepared(t, direct, s', t.kids[a][i], up)
  {
    hide Under, Dead, Status, Changes, Prepared, UnderFirst;
    forall x | x in t.parent && Under(t, t.kids[a][i], x) ensures Same(s, s', x) {
      KidUntouched(t, a, i, x);
    }
    PreparedSame(t, direct, s, s', t.kids[a][i], up);
  }

  lemma UnderParent(t: Shape, a: Id, x: Id, k: nat)
    requires WellShaped(t) && x in t.parent && Under(t, a, x) && k < |t.kids[x]|
    ensures Under(t, a, t.kids[x][k])
  {}

  /** The next child can be visited. */
  lemma NextKid(t: Shape, direct: set<Id>, s: State, s': State, a: Id, i: nat, up: bool)
    requires WellShaped(t) && Complete(t, s) && a in t.parent && i < |t.kids[a]|
    requires Prepared(t, direct, s, a, up) && (up ==> a !in direct)
    requires Touring(t, direct, Flipped(s, a, up), s', a, i, up)
    ensures Complete(t, s') && Prepared(t, direct, s', t.kids[a][i], up)
  {
    hide Prepared, Under, Dead, Status, Changes;
    KidPrepared(t, direct, s, a, i, up);
    KidStillPrepared(t, direct, Flipped(s, a, up), s', a, i, up);
  }

  lemma TourStart(t: Shape, direct: set<Id>, s: State, a: Id, up: bool)
    requires WellShaped(t) && Complete(t, s) && a in t.parent
    ensures Touring(t, direct, Flipped(s, a, up), Flipped(s, a, up), a, 0, up)
  {}

  /** The hooks of the next child follow those of the earlier children. */
  lemma TourHooks(t: Shape, s: State, s1: State, s2: State, a: Id, i: nat)
    requires WellShaped(t) && Complete(t, s) && Complete(t, s1) && Complete(t, s2) && a in t.parent && i < |t.kids[a]|
    requires forall x :: x in t.parent && !UnderFirst(t, a, i, x) ==> Same(s, s1, x)
    requires SameOutside(t, s1, s2, t.kids[a][i])
    requires s1.hooks == s.hooks + Announced(PostKids(t, a, i), s.flags, s1.flags)
    requires s2.hooks == s1.hooks + Announced(PostOrder(t, t.kids[a][i]), s1.flags, s2.flags)
    ensures s2.hooks == s.hooks + Announced(PostKids(t, a, i + 1), s.flags, s2.flags)
  {
    hide Under, Status, Changes, PostOrder, Announced, UnderFirst;
    var c := t.kids[a][i];
    forall x | x in PostKids(t, a, i) ensures x in t.parent && Same(s1, s2, x) {
      PostKidsIds(t, a, i, x);
      var j :| 0 <= j < i && Under(t, t.kids[a][j], x);
      if Under(t, c, x) {
        UnderOne(t, t.kids[a][j], c, x);
      }
    }
    forall x | x in PostOrder(t, c) ensures x in t.parent && Same(s, s1, x) {
      PostOrderIds(t, c, x);
      KidUntouched(t, a, i, x);
    }
    AnnouncedSame(PostKids(t, a, i), s.flags, s1.flags, s.flags, s2.flags);
    AnnouncedSame(PostOrder(t, c), s1.flags, s2.flags, s.flags, s2.flags);
    AnnouncedConcat(PostKids(t, a, i), PostOrder(t, c), s.flags, s2.flags);
  }

  /** The hook of the parent comes last. */
  lemma TourHooksEnd(t: Shape, s: State, s1: State, a: Id, up: bool)
    requires WellShaped(t) && Complete(t, s) && Complete(t, s1) && a in t.parent
    requires s.flags[a] != (if up then Active else Inactive)
    requires Same(Flipped(s, a, up), s1, a)
    requires s1.hooks == s.hooks + Announced(PostKids(t, a, |t.kids[a]|), Flipped(s, a, up).flags, s1.flags)
    ensures s1.hooks + [Hook(a, if up then Active else Inactive)] ==
            s.hooks + Announced(PostOrder(t, a), s.flags, s1.flags)
  {
    hide Under, Status, Changes, PostKids;
    var order, f := PostKids(t, a, |t.kids[a]|), Flipped(s, a, up);
    forall x | x in order ensures x != a {
      PostKidsIds(t, a, |t.kids[a]|, x);
      var j :| 0 <= j < |t.kids[a]| && Under(t, t.kids[a][j], x);
      UnderDeeper(t, t.kids[a][j], x);
    }
    AnnouncedSame(order, f.flags, s1.flags, s.flags, s1.flags);
    assert (order + [a])[..|order|] == order;
  }

  lemma TourStep(t: Shape, direct: set<Id>, s: State, s1: State, s2: State, a: Id, i: nat, up: bool)
    requires WellShaped(t) && Complete(t, s) && a in t.parent && i < |t.kids[a]|
    requires Touring(t, direct, s, s1, a, i, up) && Changed(t, direct, s1, s2, t.kids[a][i], up)
    ensures Touring(t, direct, s, s2, a, i + 1, up)
  {
    hide Under, Dead, Status, Settled, Changes, PostKids, PostOrder, Announced;
    var c := t.kids[a][i];
    TourHooks(t, s, s1, s2, a, i);
    forall x | x in t.parent && !UnderFirst(t, a, i + 1, x) ensures Same(s, s2, x) {
      assert !Under(t, c, x) && !UnderFirst(t, a, i, x);
      assert Same(s, s1, x) && Same(s1, s2, x);
    }
    forall j | 0 <= j < i ensures Settled(t, direct, s2, t.kids[a][j], up) {
      forall x | x in t.parent && Under(t, t.kids[a][j], x) ensures Same(s1, s2, x) {
        if Under(t, c, x) {
          UnderOne(t, t.kids[a][j], c, x);
        }
      }
      SettledSame(t, direct, s1, s2, t.kids[a][j], up);
    }
  }

  lemma SettledSame(t: Shape, direct: set<Id>, s: State, s': State, a: Id, up: bool)
    requires WellShaped(t) && Complete(t, s) && Complete(t, s') && Settled(t, direct, s, a, up)
    requires forall x :: x in t.parent && Under(t, a, x) ==> Same(s, s', x)
    ensures Settled(t, direct, s', a, up)
  {}

  /** After the tour the hook runs. */
  lemma TourEnd(t: Shape, direct: set<Id>, s: State, s1: State, a: Id, up: bool)
    requires WellShaped(t) && Complete(t, s) && a in t.parent && Prepared(t, direct, s, a, up)
    requires s.flags[a] != (if up then Active else Inactive)
    requires up ==> a !in direct
    requires Touring(t, direct, Flipped(s, a, up), s1, a, |t.kids[a]|, up)
    ensures var s2 := s1.(hooks := s1.hooks + [Hook(a, if up then Active else Inactive)]);
            Changed(t, direct, s, s2, a, up) && s2.flags[a] == (if up then Active else Inactive)
  {
    hide Under, Dead, Status, Changes, Touring, Prepared, PostKids, PostOrder, Announced;
    var flag := if up then Active else Inactive;
    var f, s2 := Flipped(s, a, up), s1.(hooks := s1.hooks + [Hook(a, flag)]);
    TourSelf(t, direct, s, s1, a, up);
    Fired(s1.hooks, Hook(a, flag));
    TourHooksEnd(t, s, s1, a, up);
    forall x | x in t.parent && !Under(t, a, x) ensures Same(s, s2, x) {
      TourOutside(t, direct, f, s1, a, up, x);
    }
    forall x | x in t.parent && Under(t, a, x)
      ensures Told(t, s2, x)
      ensures s2.flags[x] == if up && !Dead(t, direct, x) then Active else Inactive
    {
      if x != a {
        TourInside(t, direct, f, s1, a, up, x);
      }
    }
  }

  lemma TourSelf(t: Shape, direct: set<Id>, s: State, s1: State, a: Id, up: bool)
    requires WellShaped(t) && Complete(t, s) && a in t.parent && Prepared(t, direct, s, a, up)
    requires up ==> a !in direct
    requires Touring(t, direct, Flipped(s, a, up), s1, a, |t.kids[a]|, up)
    ensures Complete(t, s1) && Same(Flipped(s, a, up), s1, a) && Told(t, s, a)
    ensures s1.hooks == s.hooks + Announced(PostKids(t, a, |t.kids[a]|), Flipped(s, a, up).flags, s1.flags)
    ensures up ==> !Dead(t, direct, a)
  {
    forall i | 0 <= i < |t.kids[a]| ensures !Under(t, t.kids[a][i], a) {
      if Under(t, t.kids[a][i], a) {
        UnderDeeper(t, t.kids[a][i], a);
      }
    }
    assert Under(t, a, a);
  }

  lemma TourOutside(t: Shape, direct: set<Id>, s: State, s1: State, a: Id, up: bool, x: Id)
    requires WellShaped(t) && a in t.parent && x in t.parent && !Under(t, a, x)
    requires Touring(t, direct, s, s1, a, |t.kids[a]|, up)
    ensures x != a && Same(s, s1, x)
  {
    UnderKid(t, a, x);
  }

  lemma TourInside(t: Shape, direct: set<Id>, s: State, s1: State, a: Id, up: bool, x: Id)
    requires WellShaped(t) && a in t.parent && x in t.parent && Under(t, a, x) && x != a
    requires Touring(t, direct, s, s1, a, |t.kids[a]|, up)
    ensures Complete(t, s1) && Told(t, s1, x)
    ensures s1.flags[x] == if up && !Dead(t, direct, x) then Active else Inactive
  {
    UnderKid(t, a, x);
    var i :| 0 <= i < |t.kids[a]| && Under(t, t.kids[a][i], x);
    assert Settled(t, direct, s1, t.kids[a][i], up);
  }

  /** A component that is in the wanted state has nothing to change below it either. */
  lemma NothingToDo(t: Shape, direct: set<Id>, s: State, a: Id, up: bool)
    requires WellShaped(t) && Complete(t, s) && a in t.parent && Prepared(t, direct, s, a, up)
    requires up ==> s.flags[a] == Active || a in direct
    requires !up ==> s.flags[a] == Inactive
    ensures Changed(t, direct, s, s, a, up)
  {
    hide Status, Changes, Announced, PostOrder;
    NothingAnnounced(PostOrder(t, a), s.flags);
    if up {
      forall x | x in t.parent && Under(t, a, x)
        ensures s.flags[x] == if Dead(t, direct, x) then Inactive else Active
      {
        AwakeBelow(t, direct, s, a, x);
      }
    } else {
      forall x | x in t.parent && Under(t, a, x) ensures s.flags[x] == Inactive {
        InactiveBelow(t, s, a, x);
      }
    }
  }

  lemma {:induction false} AwakeBelow(t: Shape, direct: set<Id>, s: State, a: Id, x: Id)
    requires WellShaped(t) && Complete(t, s) && a in t.parent && x in t.parent && Under(t, a, x)
    requires Ready(t, direct, s, a) && (s.flags[a] == Active || a in direct)
    ensures s.flags[x] == if Dead(t, direct, x) then Inactive else Active
    decreases t.depth(x)
  {
    hide Status, Changes;
    if a in direct {
      DeadBelow(t, direct, a, x);
    } else if x != a {
      var p := t.parent[x].value;
      AwakeBelow(t, direct, s, a, p);
      var i :| 0 <= i < |t.kids[p]| && t.kids[p][i] == x;
      if Dead(t, direct, p) {
        DeadBelow(t, direct, p, x);
      }
    }
  }

  lemma {:induction false} InactiveBelow(t: Shape, s: State, a: Id, x: Id)
    requires WellShaped(t) && Complete(t, s) && a in t.parent && x in t.parent && Under(t, a, x)
    requires Downward(t, s, a) && s.flags[a] == Inactive
    ensures s.flags[x] == Inactive
    decreases t.depth(x)
  {
    if x != a {
      var p := t.parent[x].value;
      InactiveBelow(t, s, a, p);
      var i :| 0 <= i < |t.kids[p]| && t.kids[p][i] == x;
    }
  }

  // ----- the whole tree

  /**
   * `_inactive` holds exactly at dead components, the children of active components were activated or
   * deactivated before, and the hooks told every change.
   */
  ghost predicate AllRight(t: Shape, direct: set<Id>, s: State)
    requires WellShaped(t)
  {
    && Complete(t, s)
    && (forall x :: x in t.parent ==> Told(t, s, x) && (s.flags[x] == Inactive <==> Dead(t, direct, x)))
    && forall x, i :: x in t.parent && 0 <= i < |t.kids[x]| && s.flags[x] == Active ==> s.flags[t.kids[x][i]] != Never
  }

  ghost predicate InactiveAbove(t: Shape, flags: Flags, x: Id)
    requires WellShaped(t) && flags.Keys == t.parent.Keys && x in t.parent
    decreases t.depth(x)
  {
    t.parent[x].Some? && (flags[t.parent[x].value] == Inactive || InactiveAbove(t, flags, t.parent[x].value))
  }

  lemma {:induction false} InactiveAboveIsDeadAbove(t: Shape, direct: set<Id>, s: State, x: Id)
    requires WellShaped(t) && AllRight(t, direct, s) && x in t.parent
    ensures InactiveAbove(t, s.flags, x) <==> DeadAbove(t, direct, x)
    decreases t.depth(x)
  {
    if t.parent[x].Some? {
      InactiveAboveIsDeadAbove(t, direct, s, t.parent[x].value);
    }
  }

  /** What the direct flag leaves to do: nothing if the component is below a dead one, else its own tree. */
  lemma DirectChange(t: Shape, d: set<Id>, d': set<Id>, s: State, a: Id, up: bool)
    requires WellShaped(t) && AllRight(t, d, s) && a in t.parent
    requires d' == if up then d - {a} else d + {a}
    ensures DeadAbove(t, d', a) == DeadAbove(t, d, a)
    ensures DeadAbove(t, d, a) ==> AllRight(t, d', s)
    ensures !DeadAbove(t, d, a) ==> Prepared(t, d', s, a, up)
  {
    if t.parent[a].Some? {
      ParentNotUnder(t, a);
      DeadElsewhere(t, d, d', a, t.parent[a].value);
    }
    if DeadAbove(t, d, a) {
      forall x | x in t.parent ensures Dead(t, d, x) == Dead(t, d', x) {
        DeadElsewhere(t, d, d', a, x);
      }
    } else if up {
      if a in d {
        forall x | x in t.parent && Under(t, a, x) ensures s.flags[x] == Inactive {
          DeadBelow(t, d, a, x);
        }
      } else {
        assert d == d';
      }
    }
  }

  lemma ParentNotUnder(t: Shape, a: Id)
    requires WellShaped(t) && a in t.parent && t.parent[a].Some?
    ensures !Under(t, a, t.parent[a].value)
  {
    if Under(t, a, t.parent[a].value) {
      UnderDeeper(t, a, t.parent[a].value);
    }
  }

  /** Once the tree of a is settled, everything is right. */
  lemma RightAgain(t: Shape, d: set<Id>, d': set<Id>, s: State, s': State, a: Id, up: bool)
    requires WellShaped(t) && AllRight(t, d, s) && a in t.parent
    requires d' == if up then d - {a} else d + {a}
    requires Changed(t, d', s, s', a, up)
    ensures AllRight(t, d', s')
  {
    forall x | x in t.parent ensures Told(t, s', x) && (s'.flags[x] == Inactive <==> Dead(t, d', x)) {
      if Under(t, a, x) {
        if !up {
          DeadBelow(t, d', a, x);
        }
      } else {
        DeadElsewhere(t, d, d', a, x);
        assert Same(s, s', x);
      }
    }
  }

  lemma {:induction false} NoneDead(t: Shape, x: Id)
    requires WellShaped(t) && x in t.parent
    ensures !Dead(t, {}, x)
    decreases t.depth(x)
  {
    if t.parent[x].Some? {
      NoneDead(t, t.parent[x].value);
    }
  }

  // ----- the calls

  datatype Call = ActivateChild(id: Id) | DeactivateChild(id: Id)

  /** The direct flags after a run of calls from outside. */
  function Directs(direct: set<Id>, calls: seq<Call>): set<Id>
    decreases |calls|
  {
    if calls == [] then direct else Directs(Directed(direct, calls[0]), calls[1..])
  }

  function Directed(direct: set<Id>, call: Call): set<Id> {
    match call
    case ActivateChild(x) => direct - {x}
    case DeactivateChild(x) => direct + {x}
  }

  /** What one call leaves: below a dead component nothing changes, else the whole tree is as the direct flags say. */
  ghost function After(t: Shape, direct: set<Id>, s: State, call: Call): (s': State)
    requires WellShaped(t) && s.flags.Keys == t.parent.Keys && call.id in t.parent
    ensures s'.flags.Keys == t.parent.Keys
  {
    var direct', x := Directed(direct, call), call.id;
    var flags := map y | y in t.parent ::
      if DeadAbove(t, direct', x) || !Under(t, x, y) then s.flags[y] else if Dead(t, direct', y) then Inactive else Active;
    State(flags, s.hooks + Announced(PostOrder(t, x), s.flags, flags))
  }

  ghost function AfterAll(t: Shape, direct: set<Id>, s: State, calls: seq<Call>): State
    requires WellShaped(t) && s.flags.Keys == t.parent.Keys && forall i :: 0 <= i < |calls| ==> calls[i].id in t.parent
    decreases |calls|
  {
    if calls == [] then s
    else AfterAll(t, Directed(direct, calls[0]), After(t, direct, s, calls[0]), calls[1..])
  }

  lemma IsAfter(t: Shape, direct: set<Id>, s: State, s': State, call: Call)
    requires WellShaped(t) && Complete(t, s) && Complete(t, s') && call.id in t.parent
    requires var direct', x := Directed(direct, call), call.id;
             && SameOutside(t, s, s', x)
             && (DeadAbove(t, direct', x) ==> s' == s)
             && (!DeadAbove(t, direct', x) ==> Awake(t, direct', s', x))
             && s'.hooks == s.hooks + Announced(PostOrder(t, x), s.flags, s'.flags)
    ensures s' == After(t, direct, s, call)
  {
    hide Under, Dead, Status, Changes, PostOrder, Announced;
    assert s'.flags == After(t, direct, s, call).flags by {
      forall y | y in t.parent ensures s'.flags[y] == After(t, direct, s, call).flags[y] {
        assert !Under(t, call.id, y) ==> Same(s, s', y);
      }
    }
  }

  /** What is put to sleep is dead, so that it is as it should be. */
  lemma AsleepIsAwake(t: Shape, direct: set<Id>, s: State, a: Id)
    requires WellShaped(t) && Complete(t, s) && a in direct && a in t.parent && AllInactive(t, s, a)
    ensures Awake(t, direct, s, a)
  {
    forall x | x in t.parent && Under(t, a, x) ensures Dead(t, direct, x) {
      DeadBelow(t, direct, a, x);
    }
  }

  class Components {
    const shape: Shape
    var inactive: Flags
    var direct: set<Id>
    var hooks: seq<Hook>

    ghost predicate Valid()
      reads this
    {
      WellShaped(shape) && AllRight(shape, direct, Now())
    }

    ghost function Now(): State
      reads this
    {
      State(inactive, hooks)
    }

    constructor (shape: Shape)
      requires WellShaped(shape)
      ensures Valid() && this.shape == shape && direct == {} && hooks == []
    {
      this.shape := shape;
      inactive := map x | x in shape.parent :: Never;
      direct, hooks := {}, [];
      new;
      forall x | x in shape.parent ensures !Dead(shape, {}, x) {
        NoneDead(shape, x);
      }
    }

    /** `isInInactiveTree`. */
    method IsInInactiveTree(x: Id) returns (r: bool)
      requires WellShaped(shape) && inactive.Keys == shape.parent.Keys && x in shape.parent
      ensures r <==> InactiveAbove(shape, inactive, x)
    {
      var e := x;
      while shape.parent[e].Some?
        invariant e in shape.parent
        invariant InactiveAbove(shape, inactive, x) <==> InactiveAbove(shape, inactive, e)
        decreases shape.depth(e)
      {
        e := shape.parent[e].value;
        if inactive[e] == Inactive {
          return true;
        }
      }
      return false;
    }

    /** `activateChildComponent` from outside. */
    method Activate(x: Id)
      requires Valid() && x in shape.parent
      modifies this
      ensures Valid() && direct == old(direct) - {x}
      ensures SameOutside(shape, old(Now()), Now(), x)
      ensures DeadAbove(shape, direct, x) ==> Now() == old(Now())
      ensures !DeadAbove(shape, direct, x) ==>
                forall y :: y in shape.parent && Under(shape, x, y) ==>
                  inactive[y] == if Dead(shape, direct, y) then Inactive else Active
      ensures hooks == old(hooks) + Announced(PostOrder(shape, x), old(inactive), inactive)
    {
      hide Announced, PostOrder, Status, Changes;
      ghost var s, d := Now(), direct;
      direct := direct - {x};
      DirectChange(shape, d, direct, s, x, true);
      InactiveAboveIsDeadAbove(shape, d, s, x);
      var under := IsInInactiveTree(x);
      if !under {
        Wake(x);
        RightAgain(shape, d, direct, s, Now(), x, true);
      } else {
        NothingAnnounced(PostOrder(shape, x), inactive);
      }
    }

    /** The same from the component's own parent. */
    method ActivateBelow(x: Id)
      requires WellShaped(shape) && Complete(shape, Now()) && x in shape.parent
      requires Prepared(shape, direct, Now(), x, true)
      modifies this
      ensures direct == old(direct) && Changed(shape, direct, old(Now()), Now(), x, true)
      decreases shape.height - shape.depth(x), 1
    {
      if x in direct {
        NothingToDo(shape, direct, Now(), x, true);
        return;
      }
      Wake(x);
    }

    method Wake(x: Id)
      requires WellShaped(shape) && Complete(shape, Now()) && x in shape.parent
      requires Prepared(shape, direct, Now(), x, true) && x !in direct
      modifies this
      ensures direct == old(direct) && Changed(shape, direct, old(Now()), Now(), x, true) && inactive[x] == Active
      decreases shape.height - shape.depth(x), 0
    {
      hide Touring, Changed, Prepared, Changes;
      ghost var s := Now();
      if inactive[x] == Active {
        NothingToDo(shape, direct, s, x, true);
        return;
      }
      inactive := inactive[x := Active];
      TourStart(shape, direct, s, x, true);
      var n := 0;
      while n < |shape.kids[x]|
        invariant n <= |shape.kids[x]| && direct == old(direct)
        invariant Touring(shape, direct, Flipped(s, x, true), Now(), x, n, true)
      {
        ghost var s1 := Now();
        NextKid(shape, direct, s, s1, x, n, true);
        ActivateBelow(shape.kids[x][n]);
        TourStep(shape, direct, Flipped(s, x, true), s1, Now(), x, n, true);
        n := n + 1;
      }
      TourEnd(shape, direct, s, Now(), x, true);
      hooks := hooks + [Hook(x, Active)];
    }

    /** `deactivateChildComponent` from outside. */
    method Deactivate(x: Id)
      requires Valid() && x in shape.parent
      modifies this
      ensures Valid() && direct == old(direct) + {x}
      ensures SameOutside(shape, old(Now()), Now(), x)
      ensures DeadAbove(shape, direct, x) ==> Now() == old(Now())
      ensures !DeadAbove(shape, direct, x) ==>
                forall y :: y in shape.parent && Under(shape, x, y) ==> inactive[y] == Inactive
      ensures hooks == old(hooks) + Announced(PostOrder(shape, x), old(inactive), inactive)
    {
      hide Announced, PostOrder, Status, Changes;
      ghost var s, d := Now(), direct;
      direct := direct + {x};
      DirectChange(shape, d, direct, s, x, false);
      InactiveAboveIsDeadAbove(shape, d, s, x);
      var under := IsInInactiveTree(x);
      if !under {
        Sleep(x);
        RightAgain(shape, d, direct, s, Now(), x, false);
      } else {
        NothingAnnounced(PostOrder(shape, x), inactive);
      }
    }

    /** The same from the component's own parent. */
    method Sleep(x: Id)
      requires WellShaped(shape) && Complete(shape, Now()) && x in shape.parent
      requires Prepared(shape, direct, Now(), x, false)
      modifies this
      ensures direct == old(direct) && Changed(shape, direct, old(Now()), Now(), x, false)
      decreases shape.height - shape.depth(x)
    {
      hide Touring, Changed, Prepared, Changes;
      ghost var s := Now();
      if inactive[x] == Inactive {
        NothingToDo(shape, direct, s, x, false);
        return;
      }
      inactive := inactive[x := Inactive];
      TourStart(shape, direct, s, x, false);
      var n := 0;
      while n < |shape.kids[x]|
        invariant n <= |shape.kids[x]| && direct == old(direct)
        invariant Touring(shape, direct, Flipped(s, x, false), Now(), x, n, false)
      {
        ghost var s1 := Now();
        NextKid(shape, direct, s, s1, x, n, false);
        Sleep(shape.kids[x][n]);
        TourStep(shape, direct, Flipped(s, x, false), s1, Now(), x, n, false);
        n := n + 1;
      }
      TourEnd(shape, direct, s, Now(), x, false);
      hooks := hooks + [Hook(x, Inactive)];
    }

    /** One call from outside. */
    method Step(call: Call)
      requires Valid() && call.id in shape.parent
      modifies this
      ensures Valid() && direct == Directed(old(direct), call)
      ensures Now() == After(shape, old(direct), old(Now()), call)
    {
      hide Announced, PostOrder, Status, Changes, Under, Dead;
      match call {
        case ActivateChild(x) => Activate(x);
        case DeactivateChild(x) =>
          Deactivate(x);
          if !DeadAbove(shape, direct, x) {
            AsleepIsAwake(shape, direct, Now(), x);
          }
      }
      IsAfter(shape, old(direct), old(Now()), Now(), call);
    }

    /** Any run of calls: the flags and hooks are at the end what the calls one by one leave. */
    method Run(calls: seq<Call>)
      requires Valid() && forall i :: 0 <= i < |calls| ==> calls[i].id in shape.parent
      modifies this
      ensures Valid() && direct == Directs(old(direct), calls)
      ensures Now() == AfterAll(shape, old(direct), old(Now()), calls)
    {
      hide After, Directed, Told, Dead, Changes;
      var n := 0;
      while n < |calls|
        invariant n <= |calls| && Valid() && inactive.Keys == shape.parent.Keys
        invariant Directs(old(direct), calls) == Directs(direct, calls[n..])
        invariant AfterAll(shape, old(direct), old(Now()), calls) == AfterAll(shape, direct, Now(), calls[n..])
      {
        Step(calls[n]);
        assert calls[n..][1..] == calls[n + 1..];
        n := n + 1;
      }
    }
  }
}
