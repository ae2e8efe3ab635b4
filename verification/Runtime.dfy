/** The reactive runtime: one evaluation stack, the dependency lists and the watchers. */
module Runtimes {
  import opened Sequences
  import opened Options
  import opened Getters
  import opened NaiveRuntimes
  import opened Reactivity

  /** Only the watcher on top of the stack and watchers ranked below `bound` may differ. */
  ghost predicate KeptAbove(ws: seq<Watcher>, ws': seq<Watcher>, bound: nat, target: Option<nat>) {
    |ws'| == |ws| && forall i :: bound <= i < |ws| && target != Some(i) ==> ws'[i] == ws[i]
  }

  /** The watcher on top of the stack has collected the dependencies `leaves`, and nothing else changed in it. */
  ghost predicate Tracked(ws: seq<Watcher>, ws': seq<Watcher>, target: Option<nat>, leaves: set<nat>) {
    target.Some? && target.value < |ws| == |ws'| ==>
      ws'[target.value] == ws[target.value].(newDeps := ws'[target.value].newDeps,
                                             newDepIds := ws[target.value].newDepIds + leaves)
  }

  ghost function BusyIds(target: Option<nat>, stack: seq<nat>): set<nat> {
    (if target.Some? then {target.value} else {}) + Elements(stack)
  }

  class Runtime {
    const defs: seq<Getter>
    var store: seq<Value>
    var subs: seq<seq<nat>>
    var watchers: seq<Watcher>
    var queued: set<nat>
    var target: Option<nat>
    var stack: seq<nat>

    constructor (defs: seq<Getter>, store: seq<Value>)
      requires Acyclic(defs, |store|)
      ensures Valid() && this.defs == defs && this.store == store && target.None? && queued == {}
      ensures |watchers| == |defs|
    {
      this.defs, this.store := defs, store;
      subs := seq(|store|, _ => []);
      watchers := seq(|defs|, i requires 0 <= i < |defs| => Watcher(true, defs[i], i, true, true, 0, [], [], {}, {}));
      queued, target, stack := {}, None, [];
    }

    /** The watchers being evaluated. */
    ghost function Busy(): set<nat>
      reads this
    {
      BusyIds(target, stack)
    }

    ghost predicate Valid()
      reads this
    {
      && Consistent(store, defs, subs, watchers, queued, Busy())
      && (target.None? ==> stack == [])
      && (forall b :: b in Busy() ==> b < |watchers| && watchers[b].active)
      && (target.Some? ==> target.value !in Elements(stack)) && NoDup(stack)
      && (forall q :: q in queued ==> |defs| <= q < |watchers|)
    }

    /** The runtime as a program sees it. */
    ghost function Seen(): (w: World)
      reads this
      requires Valid()
      ensures Sane(w, defs) && w.store == store
    {
      WorldIsSane(store, defs, subs, watchers, queued, Busy());
      WorldOf(store, watchers, |defs|, queued)
    }

    /** All watchers being evaluated rank at or above `bound`. */
    ghost predicate BusyAbove(bound: nat)
      reads this
    {
      forall b :: b in Busy() ==> b >= bound
    }

    /** `addDep`, reached through `Dep.depend`: the dependency list is appended to at most once. */
    method AddDep(t: nat, c: nat)
      requires Valid() && target == Some(t) && c < |store|
      modifies `subs, `watchers
      ensures Valid() && |watchers| == |old(watchers)| && watchers == old(watchers)[t := WithDep(old(watchers)[t], c)]
    {
      AddDepKeeps(store, defs, subs, watchers, queued, Busy(), t, c);
      var w := watchers[t];
      if c !in w.newDepIds {
        watchers := watchers[t := WithDep(w, c)];
        if c !in w.depIds {
          subs := subs[c := subs[c] + [t]];
        }
      }
    }

    /** The getter of a reactive property. */
    method ReadProperty(c: nat) returns (v: Value)
      requires Valid() && c < |store|
      modifies `subs, `watchers
      ensures Valid() && v == store[c]
      ensures KeptAbove(old(watchers), watchers, 0, target) && Tracked(old(watchers), watchers, target, {c})
    {
      v := store[c];
      if target.Some? {
        AddDep(target.value, c);
      }
    }

    /** `Watcher.depend`: the watcher on top of the stack takes over all dependencies of `n`. */
    method DependAll(n: nat)
      requires Valid() && n < |watchers| && n !in Busy() && target.Some?
      modifies `subs, `watchers
      ensures Valid()
      ensures KeptAbove(old(watchers), watchers, 0, target)
      ensures Tracked(old(watchers), watchers, target, old(watchers)[n].depIds)
    {
      hide *;
      var t, i := target.value, |watchers[n].deps|;
      ghost var deps := watchers[n].deps;
      TrackNone(watchers, target);
      DepsAreCells(n);
      ElementsNone(deps[i..]);
      while i > 0
        invariant 0 <= i <= |deps| && n < |watchers| && t < |watchers| && n != t
        invariant target == old(target) == Some(t) && store == old(store)
        invariant watchers[n] == old(watchers)[n] && watchers[n].deps == deps
        invariant Valid() && KeptAbove(old(watchers), watchers, 0, target)
        invariant Tracked(old(watchers), watchers, target, Elements(deps[i..]))
      {
        i := i - 1;
        ghost var ws := watchers;
        AddDep(t, watchers[n].deps[i]);
        TrackStep(old(watchers), ws, t, Elements(deps[i + 1..]), deps[i]);
        ElementsFirst(deps, i);
      }
      assert deps[0..] == deps;
    }

    /** Evaluating a getter: what the watcher on top of the stack collects is exactly the leaves. */
    method RunGetter(g: Getter, bound: nat) returns (v: Value)
      requires Valid() && bound <= |defs| && WellFormed(g, |store|, bound) && BusyAbove(bound)
      modifies this
      ensures Valid() && store == old(store) && queued == old(queued) && target == old(target) && stack == old(stack)
      ensures Acyclic(defs, |store|) && v == Fresh(store, defs, g, bound)
      ensures KeptAbove(old(watchers), watchers, bound, target)
      ensures Tracked(old(watchers), watchers, target, Leaves(store, defs, g, bound))
      decreases bound, 0, g
    {
      match g
      case Return(r) =>
        TrackNone(watchers, target);
        v := r;
      case ReadCell(c, next) =>
        var r := ReadProperty(c);
        ghost var ws := watchers;
        v := RunGetter(next[r], bound);
        TrackTrans(old(watchers), ws, watchers, 0, bound, bound, target, {c}, Leaves(store, defs, next[r], bound));
      case ReadComputed(n, next) =>
        var r := ReadComputedProperty(n);
        ghost var ws := watchers;
        v := RunGetter(next[r], bound);
        TrackTrans(old(watchers), ws, watchers, n + 1, bound, bound, target, Leaves(store, defs, defs[n], n),
                   Leaves(store, defs, next[r], bound));
    }

    /** The getter of a computed property. */
    method ReadComputedProperty(n: nat) returns (v: Value)
      requires Valid() && n < |defs| && BusyAbove(n + 1)
      modifies this
      ensures Valid() && store == old(store) && queued == old(queued) && target == old(target) && stack == old(stack)
      ensures Acyclic(defs, |store|) && WellFormed(defs[n], |store|, n) && v == Fresh(store, defs, defs[n], n)
      ensures KeptAbove(old(watchers), watchers, n + 1, target)
      ensures Tracked(old(watchers), watchers, target, Leaves(store, defs, defs[n], n))
      ensures n < |old(watchers)| && (!old(watchers)[n].dirty ==> KeptAbove(old(watchers), watchers, 0, target))
      decreases n, 3
    {
      hide *;
      ghost var t := target;
      DefDeclared(n);
      if watchers[n].dirty {
        Evaluate(n);
      } else {
        TrackNone(watchers, target);
      }
      CleanIsUpToDate(n);
      ghost var ws := watchers;
      if target.Some? {
        DependAll(n);
        TargetKept(old(watchers), ws, n, t.value);
      }
      TrackAfter(old(watchers), ws, watchers, n, t, ws[n].depIds);
      v := watchers[n].value;
    }

    /** `evaluate`: a lazy watcher gets its value and is clean. */
    method Evaluate(n: nat)
      requires Valid() && n < |defs| && BusyAbove(n + 1)
      modifies this
      ensures Valid() && store == old(store) && queued == old(queued) && target == old(target) && stack == old(stack)
      ensures n < |watchers| && !watchers[n].dirty && KeptAbove(old(watchers), watchers, n, Some(n))
      ensures BusyAbove(n + 1)
      decreases n, 2
    {
      EvaluationStarts(n);
      var v := Get(n);
      watchers := watchers[n := watchers[n].(value := v, dirty := false)];
    }

    /**
     * `get`: the watcher is pushed, its getter runs, it is popped and its subscriptions are replaced by
     * the dependencies just read. Storing the value is left to the caller.
     */
    method Get(w: nat) returns (v: Value)
      requires Startable(w) && w !in Busy() && BusyAbove(watchers[w].rank)
      modifies this
      ensures store == old(store) && queued == old(queued) && target == old(target) && stack == old(stack)
      ensures KeptAbove(old(watchers), watchers, old(watchers)[w].rank, Some(w)) && w < |watchers|
      ensures watchers[w] == old(watchers)[w].(deps := watchers[w].deps, depIds := watchers[w].depIds)
      ensures Consistent(store, defs, subs, watchers[w := watchers[w].(value := v, dirty := false)], queued, Busy())
      ensures UpToDate(store, defs, watchers[w].(value := v, dirty := false))
      decreases watchers[w].rank, 1
    {
      hide Consistent;
      hide UpToDate;
      hide WellFormed;
      hide Fresh;
      hide Leaves;
      hide NoDup;
      var getter, rank := watchers[w].getter, watchers[w].rank;
      EvaluationPushed(w);
      Push(w);
      v := RunGetter(getter, rank);
      ghost var subs0, evaluated := subs, watchers;
      Pop();
      assert evaluated[w].newDepIds == Leaves(store, defs, getter, rank);
      EvaluatedMirrored(subs0, evaluated, w);
      CleanupDeps(w);
      EvaluationEnded(subs0, evaluated, w, v);
    }

    method Push(w: nat)
      modifies `target, `stack
      ensures target == Some(w)
      ensures stack == if old(target).Some? then old(stack) + [old(target).value] else old(stack)
    {
      if target.Some? {
        stack := stack + [target.value];
      }
      target := Some(w);
    }

    method Pop()
      modifies `target, `stack
      ensures old(stack) == [] ==> target == None && stack == []
      ensures old(stack) != [] ==>
                target == Some(old(stack)[|old(stack)| - 1]) && stack == old(stack)[..|old(stack)| - 1]
    {
      if stack == [] {
        target := None;
      } else {
        target, stack := Some(stack[|stack| - 1]), stack[..|stack| - 1];
      }
    }

    /** `cleanupDeps`: the lists of dependencies that were not read again lose the watcher. */
    method CleanupDeps(t: nat)
      requires t < |watchers| && |subs| == |store| && Mirrored(watchers[t], |store|)
      modifies `subs, `watchers
      ensures watchers == old(watchers)[t := Cleaned(old(watchers)[t])]
      ensures Unsubscribed(old(subs), subs, t, old(watchers)[t].depIds - old(watchers)[t].newDepIds)
    {
      var w := watchers[t];
      RemoveFrom(t, w.deps, w.newDepIds);
      watchers := watchers[t := Cleaned(w)];
    }

    /** The loop of `cleanupDeps` and of `teardown`, from the last dependency to the first. */
    method RemoveFrom(t: nat, deps: seq<nat>, kept: set<nat>)
      requires NoDup(deps) && forall c :: c in Elements(deps) ==> c < |subs|
      modifies `subs
      ensures Unsubscribed(old(subs), subs, t, Elements(deps) - kept)
    {
      var i := |deps|;
      while i > 0
        invariant 0 <= i <= |deps| && |subs| == |old(subs)|
        invariant Unsubscribed(old(subs), subs, t, Elements(deps[i..]) - kept)
      {
        i := i - 1;
        assert deps[i] in Elements(deps) && deps[i] !in Elements(deps[i + 1..]);
        ElementsFirst(deps, i);
        if deps[i] !in kept {
          subs := subs[deps[i] := Removed(subs[deps[i]], t)];
        }
      }
      assert deps[0..] == deps;
    }

    /** The watcher `w` is ready to be evaluated: everything else is as it should be. */
    ghost predicate Startable(w: nat)
      reads this
    {
      && w < |watchers| && watchers[w].active && watchers[w].newDeps == [] && watchers[w].newDepIds == {}
      && Consistent(store, defs, subs, watchers, queued, Busy() + {w})
      && (target.None? ==> stack == [])
      && (forall b :: b in Busy() ==> b < |watchers| && watchers[b].active)
      && (target.Some? ==> target.value !in Elements(stack)) && NoDup(stack)
      && (forall q :: q in queued ==> |defs| <= q < |watchers|)
    }

    /** After the push, the watcher is being evaluated and nothing that its getter may need is. */
    lemma EvaluationPushed(w: nat)
      requires Startable(w) && w !in Busy() && BusyAbove(watchers[w].rank)
      ensures w < |watchers| && watchers[w].rank <= |defs| && watchers[w].rank <= w
      ensures WellFormed(watchers[w].getter, |store|, watchers[w].rank)
      ensures var stack' := if target.Some? then stack + [target.value] else stack;
              && BusyIds(Some(w), stack') == Busy() + {w} && NoDup(stack') && w !in Elements(stack')
    {}

    lemma EvaluatedMirrored(subs0: seq<seq<nat>>, ws: seq<Watcher>, w: nat)
      requires w < |ws| && Consistent(store, defs, subs0, ws, queued, Busy() + {w})
      ensures |subs0| == |store| && Mirrored(ws[w], |store|)
    {}

    /** After `cleanupDeps`, storing the value makes everything consistent again. */
    lemma EvaluationEnded(subs0: seq<seq<nat>>, ws: seq<Watcher>, w: nat, v: Value)
      requires w < |ws| && ws[w].active && w !in Busy()
      requires Consistent(store, defs, subs0, ws, queued, Busy() + {w})
      requires ws[w].newDepIds == Leaves(store, defs, ws[w].getter, ws[w].rank)
      requires v == Fresh(store, defs, ws[w].getter, ws[w].rank)
      requires Unsubscribed(subs0, subs, w, ws[w].depIds - ws[w].newDepIds)
      requires watchers == ws[w := Cleaned(ws[w])]
      ensures Consistent(store, defs, subs, watchers[w := watchers[w].(value := v, dirty := false)], queued, Busy())
      ensures UpToDate(store, defs, watchers[w].(value := v, dirty := false))
    {
      EvaluatedKeeps(store, defs, subs0, ws, queued, Busy() + {w}, w, subs, v);
      assert Busy() + {w} - {w} == Busy();
      assert watchers[w := watchers[w].(value := v, dirty := false)] ==
             ws[w := Cleaned(ws[w]).(value := v, dirty := false)];
    }

    lemma EvaluationStarts(n: nat)
      requires Valid() && n < |defs| && BusyAbove(n + 1)
      ensures Startable(n) && n !in Busy() && watchers[n].rank == n && BusyAbove(watchers[n].rank)
    {}

    lemma DefDeclared(n: nat)
      requires Valid() && n < |defs| && BusyAbove(n + 1)
      ensures n < |watchers| && n !in Busy() && Acyclic(defs, |store|) && WellFormed(defs[n], |store|, n)
      ensures target.Some? ==> n < target.value < |watchers|
    {}

    /** A computed property that is not marked dirty has the value of evaluating it afresh. */
    lemma CleanIsUpToDate(n: nat)
      requires Valid() && n < |defs| && BusyAbove(n + 1) && n < |watchers| && !watchers[n].dirty
      ensures n !in Busy() && Acyclic(defs, |store|) && WellFormed(defs[n], |store|, n)
      ensures watchers[n].value == Fresh(store, defs, defs[n], n)
      ensures watchers[n].depIds == Leaves(store, defs, defs[n], n)
    {}

    /** `teardown` of a watcher that is not being evaluated: no dependency lists it any more. */
    method Teardown(w: nat)
      requires Valid() && |defs| <= w < |watchers| && w !in Busy()
      modifies this
      ensures Valid() && store == old(store) && target == old(target) && stack == old(stack)
      ensures watchers == old(watchers)[w := old(watchers)[w].(active := false)] && queued == old(queued)
      ensures forall c: nat :: !Lists(subs, c, w)
    {
      if watchers[w].active {
        ghost var subs0, ws := subs, watchers;
        RemoveFrom(w, watchers[w].deps, {});
        assert watchers[w].depIds == Elements(watchers[w].deps) - {};
        watchers := watchers[w := watchers[w].(active := false)];
        TeardownKeeps(subs0, subs, ws, w);
      } else {
        assert forall c: nat :: Lists(subs, c, w) ==> Listening(watchers, w, c);
      }
    }

    /** `update`: a lazy watcher becomes dirty, another one is queued. */
    method Update(w: nat)
      requires w < |watchers|
      modifies `watchers, `queued
      ensures watchers == if old(watchers)[w].lazy then old(watchers)[w := old(watchers)[w].(dirty := true)]
                          else old(watchers)
      ensures queued == if old(watchers)[w].lazy then old(queued) else old(queued) + {w}
    {
      if watchers[w].lazy {
        watchers := watchers[w := watchers[w].(dirty := true)];
      } else {
        queued := queued + {w};
      }
    }

    /** `notify`, on a copy of the list of subscribers. */
    method Notify(c: nat)
      requires c < |subs| && forall w :: w in subs[c] ==> w < |watchers|
      modifies `watchers, `queued
      ensures Notified(old(watchers), old(queued), watchers, queued, Elements(subs[c]))
    {
      hide Notified, Elements;
      var ids := subs[c];
      NotifiedNone(watchers, queued);
      assert ids[..0] == [];
      for k := 0 to |ids|
        invariant forall w :: w in ids ==> w < |watchers|
        invariant Notified(old(watchers), old(queued), watchers, queued, Elements(ids[..k]))
      {
        assert ids[k] in ids;
        NotifiedNext(old(watchers), old(queued), watchers, queued, ids, k);
        Update(ids[k]);
      }
      assert ids[..|ids|] == ids;
    }

    /** The setter of a reactive property, outside any evaluation: an equal value is ignored. */
    method Write(c: nat, v: Value)
      requires Valid() && target.None? && c < |store|
      modifies this
      ensures Valid() && target.None? && store == old(store)[c := v] && c < |old(subs)|
      ensures |watchers| == |old(watchers)|
      ensures v == old(store)[c] ==> watchers == old(watchers) && queued == old(queued)
      ensures v != old(store)[c] ==> Notified(old(watchers), old(queued), watchers, queued, Elements(old(subs)[c]))
      ensures Seen() == After(old(Seen()), defs, SetCell(c, v))
    {
      if v == store[c] {
        return;
      }
      ghost var store0, ws, q := store, watchers, queued;
      assert Busy() == {};
      store := store[c := v];
      forall w | w in subs[c] ensures w < |watchers| {
        assert Lists(subs, c, w);
      }
      Notify(c);
      WriteKeeps(store0, defs, subs, ws, q, c, v, watchers, queued);
      WriteQueues(store0, defs, subs, ws, q, c, v, watchers, queued);
    }

    /** Reading a computed property from outside any evaluation. */
    method Read(n: nat) returns (v: Value)
      requires Valid() && target.None? && n < |defs|
      modifies this
      ensures Valid() && target.None? && store == old(store) && queued == old(queued)
      ensures |watchers| == |old(watchers)|
      ensures Acyclic(defs, |store|) && WellFormed(defs[n], |store|, n) && v == Fresh(store, defs, defs[n], n)
      ensures Seen() == old(Seen())
    {
      hide Consistent, Fresh, Tracked;
      Sizes();
      v := ReadComputedProperty(n);
      SameUsers(old(watchers), watchers, |defs|);
    }

    /** A queued watcher leaves the queue and runs: an active one is evaluated again. */
    method Run(w: nat)
      requires Valid() && target.None? && |defs| <= w < |watchers|
      modifies this
      ensures Valid() && target.None? && store == old(store) && queued == old(queued) - {w}
      ensures |watchers| == |old(watchers)| && watchers[w].active == old(watchers)[w].active
      ensures forall i :: |defs| <= i < |watchers| && i != w ==> watchers[i] == old(watchers)[i]
      ensures watchers[w].getter == old(watchers)[w].getter
      ensures watchers[w].active ==> UpToDate(store, defs, watchers[w])
      ensures !watchers[w].active ==> watchers == old(watchers) && subs == old(subs)
      ensures old(w in queued) ==> Seen() == After(old(Seen()), defs, RunQueued(w))
    {
      ghost var ws, q, world := watchers, queued, Seen();
      Sizes();
      queued := queued - {w};
      if watchers[w].active {
        RunStarts(q, w);
        var v := Get(w);
        assert watchers[w].(value := v, dirty := false) == watchers[w].(value := v);
        watchers := watchers[w := watchers[w].(value := v)];
      }
      assert q == old(queued) && ws == old(watchers) && world == old(Seen());
      Sizes();
      if w in q {
        RanWorld(store, defs, ws, watchers, q, w);
      }
    }

    lemma RunStarts(q: set<nat>, w: nat)
      requires Consistent(store, defs, subs, watchers, q, Busy()) && queued == q - {w}
      requires forall q :: q in queued ==> |defs| <= q < |watchers|
      requires target.None? && stack == [] && |defs| <= w < |watchers| && watchers[w].active
      ensures Startable(w) && Busy() == {} && BusyAbove(watchers[w].rank) && !watchers[w].dirty
      ensures watchers[w].rank == |defs|
    {}

    /** A new watcher is evaluated at once. */
    method Watch(g: Getter) returns (w: nat)
      requires Valid() && target.None? && WellFormed(g, |store|, |defs|)
      modifies this
      ensures Valid() && target.None? && store == old(store) && queued == old(queued)
      ensures w == |old(watchers)| && |watchers| == w + 1 && UpToDate(store, defs, watchers[w])
      ensures watchers[w].getter == g && watchers[w].active && watchers[w].rank == |defs|
      ensures forall i :: |defs| <= i < w ==> watchers[i] == old(watchers)[i]
    {
      w := |watchers|;
      ghost var ws := watchers;
      watchers := watchers + [Watcher(false, g, |defs|, false, true, 0, [], [], {}, {})];
      WatchStarts(ws, g);
      var v := Get(w);
      assert watchers[w].(value := v, dirty := false) == watchers[w].(value := v);
      watchers := watchers[w := watchers[w].(value := v)];
    }

    lemma WatchStarts(ws: seq<Watcher>, g: Getter)
      requires Consistent(store, defs, subs, ws, queued, Busy()) && target.None? && stack == []
      requires WellFormed(g, |store|, |defs|) && forall q :: q in queued ==> |defs| <= q < |ws|
      requires watchers == ws + [Watcher(false, g, |defs|, false, true, 0, [], [], {}, {})]
      ensures Startable(|ws|) && Busy() == {} && watchers[|ws|].rank == |defs|
    {}

    /**
     * Running all queued watchers, in the order of their ids: each runs once, and afterwards every active
     * watcher that is not lazy has the value of evaluating its getter afresh.
     */
    method RunAllQueued() returns (ran: seq<nat>)
      requires Valid() && target.None?
      modifies this
      ensures Valid() && target.None? && store == old(store) && queued == {}
      ensures |watchers| == |old(watchers)|
      ensures Elements(ran) == old(queued) && forall i, j :: 0 <= i < j < |ran| ==> ran[i] < ran[j]
      ensures forall w :: |defs| <= w < |watchers| && watchers[w].active ==> UpToDate(store, defs, watchers[w])
      ensures AllRerun(old(Seen()), defs, Seen().users)
    {
      hide *;
      ran := [];
      RanNone(queued);
      ghost var world := Seen();
      AlikeAtFirst(world.users);
      while queued != {}
        invariant Valid() && target.None? && store == old(store) && |watchers| == |old(watchers)|
        invariant RanInOrder(ran, queued, old(queued))
        invariant Alike(world.users, Seen().users) && Seen().store == store
        decreases queued
      {
        SmallestExists(queued);
        var w :| w in queued && Smallest(queued, w);
        RanNext(ran, queued, old(queued), w);
        QueuedAreWatchers(w);
        InQueue(w);
        AlikeAfter(world.users, Seen(), defs, w);
        Run(w);
        ran := ran + [w];
      }
      RanAll(ran, old(queued));
      NoneQueued();
      RerunAtEnd(world);
    }

    lemma InQueue(w: nat)
      requires Valid() && w in queued
      ensures w in Seen().queued
    {}

    lemma RerunAtEnd(world: World)
      requires Valid() && target.None? && queued == {}
      requires Sane(world, defs) && world.store == store && Alike(world.users, Seen().users)
      ensures AllRerun(world, defs, Seen().users)
    {
      hide Fresh, Leaves, WellFormed;
      Sizes();
      var users := Seen().users;
      forall i | 0 <= i < |world.users| ensures i < |users| && users[i] == Rerun(world, defs, i) {
        assert users[i] == UserOf(watchers[|defs| + i]);
        UserUpToDate(|defs| + i);
      }
    }

    lemma UserUpToDate(w: nat)
      requires Valid() && target.None? && queued == {} && |defs| <= w < |watchers|
      ensures watchers[w].rank == |defs| && (watchers[w].active ==> UpToDate(store, defs, watchers[w]))
    {
      assert Busy() == {};
    }

    lemma QueuedAreWatchers(w: nat)
      requires Valid() && w in queued
      ensures |defs| <= w < |watchers|
    {}

    lemma NoneQueued()
      requires Valid() && target.None? && queued == {}
      ensures forall w :: |defs| <= w < |watchers| && watchers[w].active ==> UpToDate(store, defs, watchers[w])
    {
      assert Busy() == {};
    }

    /**
     * Any program of writes, reads of computed properties, and creating, running and tearing down
     * watchers reads the values it would read without any cache, and leaves the watchers and the queue it
     * would leave.
     */
    method Execute(ops: seq<Op>) returns (out: seq<Value>)
      requires Valid() && target.None? && AllValid(ops, |store|, defs)
      modifies this
      ensures Valid() && target.None?
      ensures out == AllRead(old(Seen()), defs, ops)
      ensures Seen() == AfterAll(old(Seen()), defs, ops)
    {
      hide Valid, NaiveRuntimes.Read, After;
      if ops == [] {
        return [];
      }
      assert ops[0] in ops;
      out := Step(ops[0]);
      var rest := Execute(ops[1..]);
      out := out + rest;
    }

    lemma Sizes()
      requires Valid()
      ensures |subs| == |store| && |defs| <= |watchers| && Acyclic(defs, |store|)
      ensures target.None? ==> Busy() == {}
      ensures Seen() == WorldOf(store, watchers, |defs|, queued)
    {}

    method Step(op: Op) returns (out: seq<Value>)
      requires Valid() && target.None? && ValidOp(op, |store|, defs)
      modifies this
      ensures Valid() && target.None?
      ensures out == NaiveRuntimes.Read(old(Seen()), defs, op)
      ensures Seen() == After(old(Seen()), defs, op)
    {
      hide *;
      ghost var ws, world := watchers, Seen();
      Sizes();
      NothingRead(world, defs, op);
      out := [];
      match op {
        case SetCell(c, v) =>
          OpCell(c, v, |store|, defs);
          Write(c, v);
        case GetComputed(n) =>
          OpComputed(n, world, defs);
          var v := Read(n);
          out := [v];
        case Watch(g) =>
          OpWatch(g, |store|, defs);
          var w := Watch(g);
          Sizes();
          WatchedWorld(store, defs, ws, watchers, queued, g);
        case Unwatch(id) =>
          if |defs| <= id < |watchers| {
            Teardown(id);
            Sizes();
          }
          TornWorld(store, defs, ws, watchers, queued, id);
        case RunQueued(id) =>
          if id in queued {
            QueuedAreWatchers(id);
            Run(id);
          } else {
            NotQueued(store, defs, ws, queued, id);
          }
      }
    }

    lemma DepsAreCells(n: nat)
      requires Valid() && n < |watchers| && n !in Busy() && target.Some?
      ensures target.value < |watchers| && n != target.value
      ensures forall i :: 0 <= i < |watchers[n].deps| ==> watchers[n].deps[i] < |store|
      ensures watchers[n].depIds == Elements(watchers[n].deps)
    {
      forall i | 0 <= i < |watchers[n].deps| ensures watchers[n].deps[i] < |store| {
        assert watchers[n].deps[i] in watchers[n].depIds;
      }
    }
  }

  /** Only the watchers that a program created are seen. */
  lemma SameUsers(ws: seq<Watcher>, ws': seq<Watcher>, n: nat)
    requires n <= |ws| == |ws'| && forall i :: n <= i < |ws| ==> ws'[i] == ws[i]
    ensures UsersOf(ws', n) == UsersOf(ws, n)
  {}

  /** The same watchers, of which the active ones may have other values. */
  ghost predicate Alike(us: seq<User>, us': seq<User>) {
    |us'| == |us| && forall i :: 0 <= i < |us| ==> us'[i] == if us[i].active then us[i].(value := us'[i].value) else us[i]
  }

  lemma AlikeAtFirst(us: seq<User>)
    ensures Alike(us, us)
  {}

  lemma AlikeAfter(us: seq<User>, w: World, defs: seq<Getter>, id: nat)
    requires Sane(w, defs) && id in w.queued && Alike(us, w.users)
    ensures Alike(us, After(w, defs, RunQueued(id)).users)
  {}

  lemma TrackNone(ws: seq<Watcher>, target: Option<nat>)
    ensures KeptAbove(ws, ws, 0, target) && Tracked(ws, ws, target, {})
  {}

  lemma TrackTrans(ws0: seq<Watcher>, ws1: seq<Watcher>, ws2: seq<Watcher>, b1: nat, b2: nat, bound: nat,
                   target: Option<nat>, l1: set<nat>, l2: set<nat>)
    requires KeptAbove(ws0, ws1, b1, target) && Tracked(ws0, ws1, target, l1)
    requires KeptAbove(ws1, ws2, b2, target) && Tracked(ws1, ws2, target, l2)
    requires b1 <= bound && b2 <= bound
    ensures KeptAbove(ws0, ws2, bound, target) && Tracked(ws0, ws2, target, l1 + l2)
  {}

  lemma TargetKept(ws0: seq<Watcher>, ws1: seq<Watcher>, n: nat, t: nat)
    requires KeptAbove(ws0, ws1, n, Some(n)) && n < t < |ws0|
    ensures ws1[t] == ws0[t]
  {}

  /** Evaluating `n` and then handing its dependencies to the watcher on top. */
  lemma TrackAfter(ws0: seq<Watcher>, ws1: seq<Watcher>, ws2: seq<Watcher>, n: nat, target: Option<nat>, leaves: set<nat>)
    requires KeptAbove(ws0, ws1, n, Some(n)) || ws1 == ws0
    requires n < |ws0| == |ws1| && (target.Some? ==> n < target.value < |ws0|)
    requires target.None? ==> ws2 == ws1
    requires target.Some? ==> KeptAbove(ws1, ws2, 0, target) && Tracked(ws1, ws2, target, leaves)
    ensures KeptAbove(ws0, ws2, n + 1, target) && Tracked(ws0, ws2, target, leaves)
    ensures ws2[n] == ws1[n]
  {}

  lemma TrackStep(ws0: seq<Watcher>, ws1: seq<Watcher>, t: nat, leaves: set<nat>, c: nat)
    requires KeptAbove(ws0, ws1, 0, Some(t)) && Tracked(ws0, ws1, Some(t), leaves) && t < |ws1|
    ensures var ws2 := ws1[t := WithDep(ws1[t], c)];
            KeptAbove(ws0, ws2, 0, Some(t)) && Tracked(ws0, ws2, Some(t), leaves + {c})
    ensures forall i :: 0 <= i < |ws1| && i != t ==> ws1[t := WithDep(ws1[t], c)][i] == ws1[i]
  {}

  lemma ElementsNone(s: seq<nat>)
    ensures s == [] ==> Elements(s) == {}
  {}

  lemma ElementsFirst(s: seq<nat>, i: nat)
    requires i < |s|
    ensures Elements(s[i..]) == Elements(s[i + 1..]) + {s[i]}
  {}

  predicate Smallest(s: set<nat>, w: nat) {
    forall q :: q in s ==> w <= q
  }

  lemma {:induction false} SmallestExists(s: set<nat>)
    requires s != {}
    ensures exists w :: w in s && Smallest(s, w)
  {
    var x :| x in s;
    if s == {x} {
      assert Smallest(s, x);
    } else {
      SmallestExists(s - {x});
      var w :| w in s - {x} && Smallest(s - {x}, w);
      SmallestOf(s, x, w);
      assert Smallest(s, if w < x then w else x);
    }
  }

  lemma SmallestOf(s: set<nat>, x: nat, w: nat)
    requires Smallest(s - {x}, w)
    ensures Smallest(s, if w < x then w else x)
  {
    forall q | q in s ensures (if w < x then w else x) <= q {
      assert q != x ==> q in s - {x};
    }
  }

  /** The watchers that ran, in order, and those that still wait behind them. */
  ghost predicate RanInOrder(ran: seq<nat>, rest: set<nat>, all: set<nat>) {
    && Elements(ran) + rest == all
    && (forall i, j :: 0 <= i < j < |ran| ==> ran[i] < ran[j])
    && (forall i, q :: 0 <= i < |ran| && q in rest ==> ran[i] < q)
  }

  lemma RanNone(all: set<nat>)
    ensures RanInOrder([], all, all)
  {}

  lemma RanNext(ran: seq<nat>, rest: set<nat>, all: set<nat>, w: nat)
    requires RanInOrder(ran, rest, all) && w in rest && Smallest(rest, w)
    ensures RanInOrder(ran + [w], rest - {w}, all)
  {
    var now := ran + [w];
    assert now[|ran|] == w && forall i :: 0 <= i < |ran| ==> now[i] == ran[i];
    assert Elements(now) == Elements(ran) + {w};
  }

  lemma RanAll(ran: seq<nat>, all: set<nat>)
    requires RanInOrder(ran, {}, all)
    ensures Elements(ran) == all && forall i, j :: 0 <= i < j < |ran| ==> ran[i] < ran[j]
  {}

  lemma NotifiedNone(ws: seq<Watcher>, queued: set<nat>)
    ensures Elements([]) == {} && Notified(ws, queued, ws, queued, Elements([]))
  {}

  lemma NotifiedNext(ws0: seq<Watcher>, q0: set<nat>, ws: seq<Watcher>, q: set<nat>, ids: seq<nat>, k: nat)
    requires k < |ids| && ids[k] < |ws| && Notified(ws0, q0, ws, q, Elements(ids[..k]))
    ensures var w := ids[k];
            Notified(ws0, q0, if ws[w].lazy then ws[w := ws[w].(dirty := true)] else ws,
                     if ws[w].lazy then q else q + {w}, Elements(ids[..k + 1]))
  {
    assert ids[..k + 1] == ids[..k] + [ids[k]];
    ElementsLast(ids[..k], ids[k]);
  }

  lemma ElementsLast(s: seq<nat>, x: nat)
    ensures Elements(s + [x]) == Elements(s) + {x}
  {
    assert (s + [x])[|s|] == x && forall i :: 0 <= i < |s| ==> (s + [x])[i] == s[i];
  }
}
