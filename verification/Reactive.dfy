/**
 * The reactive graph: dependency lists (`Dep`), watchers, the evaluation stack, computed properties and
 * change notification. Watchers and dependency lists are records in tables indexed by their ids; the
 * dependency list of the reactive property `c` has the id `c`.
 */
module Reactivity {
  import opened Sequences
  import opened Getters
  import opened NaiveRuntimes

  datatype Watcher = Watcher(
    lazy: bool, getter: Getter, rank: nat, dirty: bool, active: bool, value: Value,
    deps: seq<nat>, newDeps: seq<nat>, depIds: set<nat>, newDepIds: set<nat>)

  ghost function Elements(s: seq<nat>): set<nat> {
    set x | x in s
  }

  /** The id sets mirror the dependency lists, which name existing cells once each. */
  ghost predicate Mirrored(w: Watcher, cells: nat) {
    && NoDup(w.deps) && w.depIds == Elements(w.deps) && (forall c :: c in w.depIds ==> c < cells)
    && NoDup(w.newDeps) && w.newDepIds == Elements(w.newDeps) && (forall c :: c in w.newDepIds ==> c < cells)
  }

  ghost predicate Subscribes(w: Watcher, c: nat) {
    w.active && (c in w.depIds || c in w.newDepIds)
  }

  ghost predicate Lists(subs: seq<seq<nat>>, c: nat, w: nat) {
    c < |subs| && w in subs[c]
  }

  ghost predicate Listening(ws: seq<Watcher>, w: nat, c: nat) {
    w < |ws| && Subscribes(ws[w], c)
  }

  /** A watcher is in the list of a dependency, once, exactly when it is active and has it as old or new dependency. */
  ghost predicate Subscribed(subs: seq<seq<nat>>, ws: seq<Watcher>) {
    && (forall c :: 0 <= c < |subs| ==> NoDup(subs[c]))
    && (forall c: nat, w: nat :: c < |subs| ==> (Lists(subs, c, w) <==> Listening(ws, w, c)))
  }

  /** Computed properties come first, in order, as lazy watchers; all other watchers are queued ones. */
  ghost predicate Declared(cells: nat, defs: seq<Getter>, ws: seq<Watcher>) {
    && Acyclic(defs, cells) && |defs| <= |ws|
    && (forall i :: 0 <= i < |defs| ==> ws[i].lazy && ws[i].active && ws[i].rank == i && ws[i].getter == defs[i])
    && (forall i :: |defs| <= i < |ws| ==>
          !ws[i].lazy && !ws[i].dirty && ws[i].rank == |defs| && WellFormed(ws[i].getter, cells, |defs|))
  }

  /** The value and the subscriptions of a watcher are those of evaluating its getter now. */
  ghost predicate UpToDate(store: seq<Value>, defs: seq<Getter>, w: Watcher) {
    && w.rank <= |defs| && Acyclic(defs, |store|) && WellFormed(w.getter, |store|, w.rank)
    && w.value == Fresh(store, defs, w.getter, w.rank)
    && w.depIds == Leaves(store, defs, w.getter, w.rank)
  }

  ghost predicate Settled(store: seq<Value>, defs: seq<Getter>, ws: seq<Watcher>, queued: set<nat>, busy: set<nat>) {
    forall i :: 0 <= i < |ws| && ws[i].active && i !in busy && !(if ws[i].lazy then ws[i].dirty else i in queued)
                ==> UpToDate(store, defs, ws[i])
  }

  /** Watchers that are not being evaluated have no new dependencies. */
  ghost predicate Idle(ws: seq<Watcher>, busy: set<nat>) {
    forall i :: 0 <= i < |ws| && i !in busy ==> ws[i].newDeps == [] && ws[i].newDepIds == {}
  }

  ghost predicate Consistent(store: seq<Value>, defs: seq<Getter>, subs: seq<seq<nat>>, ws: seq<Watcher>,
                             queued: set<nat>, busy: set<nat>)
  {
    && |subs| == |store|
    && Declared(|store|, defs, ws)
    && (forall i :: 0 <= i < |ws| ==> Mirrored(ws[i], |store|))
    && Subscribed(subs, ws)
    && Settled(store, defs, ws, queued, busy)
    && Idle(ws, busy)
  }

  lemma NoDupAppend(s: seq<nat>, x: nat)
    requires NoDup(s) && x !in s
    ensures NoDup(s + [x]) && Elements(s + [x]) == Elements(s) + {x}
  {}

  /** `addDep` on the watcher's own fields. */
  function WithDep(w: Watcher, c: nat): Watcher {
    if c in w.newDepIds then w else w.(newDeps := w.newDeps + [c], newDepIds := w.newDepIds + {c})
  }

  lemma AddDepKeeps(store: seq<Value>, defs: seq<Getter>, subs: seq<seq<nat>>, ws: seq<Watcher>,
                    queued: set<nat>, busy: set<nat>, t: nat, c: nat)
    requires Consistent(store, defs, subs, ws, queued, busy)
    requires t < |ws| && t in busy && ws[t].active && c < |store|
    ensures var subs' := if c in ws[t].newDepIds || c in ws[t].depIds then subs else subs[c := subs[c] + [t]];
            Consistent(store, defs, subs', ws[t := WithDep(ws[t], c)], queued, busy)
  {
    var w' := WithDep(ws[t], c);
    var ws' := ws[t := w'];
    assert Mirrored(w', |store|) by {
      if c !in ws[t].newDepIds {
        NoDupAppend(ws[t].newDeps, c);
      }
    }
    var subs' := if c in ws[t].newDepIds || c in ws[t].depIds then subs else subs[c := subs[c] + [t]];
    assert Subscribed(subs', ws') by {
      if c !in ws[t].newDepIds && c !in ws[t].depIds {
        assert !Listening(ws, t, c) && !Lists(subs, c, t);
        NoDupAppend(subs[c], t);
      }
      forall d: nat, w: nat | d < |subs'| ensures Lists(subs', d, w) <==> Listening(ws', w, d) {
        assert Lists(subs, d, w) <==> Listening(ws, w, d);
      }
    }
  }

  /** What `cleanupDeps` leaves in the watcher's own fields. */
  function Cleaned(w: Watcher): Watcher {
    w.(deps := w.newDeps, depIds := w.newDepIds, newDeps := [], newDepIds := {})
  }

  /** Every dependency in `cs` that is not a new one has lost the watcher `t`. */
  ghost predicate Unsubscribed(subs: seq<seq<nat>>, subs': seq<seq<nat>>, t: nat, cs: set<nat>) {
    && |subs'| == |subs|
    && forall c: nat :: c < |subs| ==> subs'[c] == if c in cs then Removed(subs[c], t) else subs[c]
  }

  lemma UnsubscribedMembers(subs: seq<seq<nat>>, subs': seq<seq<nat>>, t: nat, cs: set<nat>)
    requires Unsubscribed(subs, subs', t, cs)
    requires forall c :: 0 <= c < |subs| ==> NoDup(subs[c])
    ensures forall c :: 0 <= c < |subs| ==> NoDup(subs'[c])
    ensures forall c: nat, w: nat :: Lists(subs', c, w) <==> Lists(subs, c, w) && !(w == t && c in cs)
  {
    forall c | 0 <= c < |subs|
      ensures NoDup(subs'[c]) && forall w :: w in subs'[c] <==> w in subs[c] && !(w == t && c in cs)
    {
      RemovedOnce(subs[c], t);
    }
  }

  /** Afterwards the watcher is subscribed to exactly what its last evaluation read. */
  lemma CleanupKeeps(cells: nat, subs: seq<seq<nat>>, subs': seq<seq<nat>>, ws: seq<Watcher>, t: nat)
    requires Subscribed(subs, ws) && t < |ws| && |subs| == cells && Mirrored(ws[t], cells)
    requires Unsubscribed(subs, subs', t, ws[t].depIds - ws[t].newDepIds)
    ensures Subscribed(subs', ws[t := Cleaned(ws[t])]) && Mirrored(Cleaned(ws[t]), cells)
  {
    UnsubscribedMembers(subs, subs', t, ws[t].depIds - ws[t].newDepIds);
    var ws' := ws[t := Cleaned(ws[t])];
    forall c: nat, w: nat | c < |subs| ensures Lists(subs', c, w) <==> Listening(ws', w, c) {
      assert Lists(subs, c, w) <==> Listening(ws, w, c);
    }
  }

  lemma TeardownKeeps(subs: seq<seq<nat>>, subs': seq<seq<nat>>, ws: seq<Watcher>, t: nat)
    requires Subscribed(subs, ws) && t < |ws| && ws[t].newDepIds == {}
    requires Unsubscribed(subs, subs', t, ws[t].depIds)
    ensures Subscribed(subs', ws[t := ws[t].(active := false)])
    ensures forall c: nat :: !Lists(subs', c, t)
  {
    UnsubscribedMembers(subs, subs', t, ws[t].depIds);
    assert |subs'| == |subs|;
    var ws' := ws[t := ws[t].(active := false)];
    forall c: nat, w: nat | c < |subs| ensures Lists(subs', c, w) <==> Listening(ws', w, c) {
      assert Lists(subs, c, w) <==> Listening(ws, w, c);
    }
  }

  /** A watcher that is neither stale nor being evaluated listens to the leaves of its value, and to nothing else. */
  lemma ListensToItsLeaves(store: seq<Value>, defs: seq<Getter>, subs: seq<seq<nat>>, ws: seq<Watcher>,
                           queued: set<nat>, busy: set<nat>, i: nat, c: nat)
    requires Consistent(store, defs, subs, ws, queued, busy) && c < |store|
    requires i < |ws| && ws[i].active && i !in busy && !(if ws[i].lazy then ws[i].dirty else i in queued)
    ensures UpToDate(store, defs, ws[i])
    ensures i in subs[c] <==> c in Leaves(store, defs, ws[i].getter, ws[i].rank)
  {
    assert Lists(subs, c, i) <==> Listening(ws, i, c);
  }

  /** What notifying the watchers in `ids` does: lazy ones become dirty, the others are queued. */
  ghost predicate Notified(ws: seq<Watcher>, queued: set<nat>, ws': seq<Watcher>, queued': set<nat>, ids: set<nat>) {
    && |ws'| == |ws|
    && (forall i :: 0 <= i < |ws| ==> ws'[i] == if i in ids && ws[i].lazy then ws[i].(dirty := true) else ws[i])
    && queued' == queued + set i | i in ids && i < |ws| && !ws[i].lazy
  }

  /** Writing a cell and notifying its subscribers leaves every watcher up to date or marked as stale. */
  lemma WriteKeeps(store: seq<Value>, defs: seq<Getter>, subs: seq<seq<nat>>, ws: seq<Watcher>, queued: set<nat>,
                   c: nat, v: Value, ws': seq<Watcher>, queued': set<nat>)
    requires Consistent(store, defs, subs, ws, queued, {}) && c < |store|
    requires Notified(ws, queued, ws', queued', Elements(subs[c]))
    ensures Consistent(store[c := v], defs, subs, ws', queued', {})
  {
    var store' := store[c := v];
    assert Subscribed(subs, ws') by {
      forall d: nat, w: nat | d < |subs| ensures Lists(subs, d, w) <==> Listening(ws', w, d) {
        assert Lists(subs, d, w) <==> Listening(ws, w, d);
      }
    }
    forall i | 0 <= i < |ws'| && ws'[i].active && !(if ws'[i].lazy then ws'[i].dirty else i in queued')
      ensures UpToDate(store', defs, ws'[i])
    {
      assert ws'[i] == ws[i] && UpToDate(store, defs, ws[i]);
      assert !Lists(subs, c, i) && !Listening(ws, i, c);
      LeavesSuffice(store, store', defs, ws[i].getter, ws[i].rank);
    }
  }

  /** An evaluation that ends gives its watcher a value and subscriptions that are up to date. */
  lemma EvaluatedKeeps(store: seq<Value>, defs: seq<Getter>, subs: seq<seq<nat>>, ws: seq<Watcher>, queued: set<nat>,
                       busy: set<nat>, t: nat, subs': seq<seq<nat>>, v: Value)
    requires Consistent(store, defs, subs, ws, queued, busy)
    requires t < |ws| && t in busy && ws[t].active
    requires ws[t].newDepIds == Leaves(store, defs, ws[t].getter, ws[t].rank)
    requires v == Fresh(store, defs, ws[t].getter, ws[t].rank)
    requires Unsubscribed(subs, subs', t, ws[t].depIds - ws[t].newDepIds)
    ensures Consistent(store, defs, subs', ws[t := Cleaned(ws[t]).(value := v, dirty := false)], queued, busy - {t})
  {
    CleanupKeeps(|store|, subs, subs', ws, t);
    var w' := Cleaned(ws[t]).(value := v, dirty := false);
    var ws' := ws[t := w'];
    assert Subscribed(subs', ws') by {
      forall d: nat, w: nat | d < |subs'| ensures Lists(subs', d, w) <==> Listening(ws', w, d) {
        assert Lists(subs', d, w) <==> Listening(ws[t := Cleaned(ws[t])], w, d);
      }
    }
    assert UpToDate(store, defs, w');
  }

  // ----- the graph as a program sees it

  ghost function UserOf(w: Watcher): User {
    User(w.getter, w.active, w.value)
  }

  ghost function UsersOf(ws: seq<Watcher>, n: nat): (r: seq<User>)
    requires n <= |ws|
    ensures |r| == |ws| - n && forall i :: 0 <= i < |r| ==> r[i] == UserOf(ws[n + i])
  {
    seq(|ws| - n, i requires 0 <= i < |ws| - n => UserOf(ws[n + i]))
  }

  ghost function WorldOf(store: seq<Value>, ws: seq<Watcher>, n: nat, queued: set<nat>): World
    requires n <= |ws|
  {
    World(store, UsersOf(ws, n), queued)
  }

  lemma WorldIsSane(store: seq<Value>, defs: seq<Getter>, subs: seq<seq<nat>>, ws: seq<Watcher>,
                    queued: set<nat>, busy: set<nat>)
    requires Consistent(store, defs, subs, ws, queued, busy) && forall q :: q in queued ==> |defs| <= q < |ws|
    ensures |subs| == |store| && |defs| <= |ws| && Sane(WorldOf(store, ws, |defs|, queued), defs)
  {}

  lemma RanWorld(store: seq<Value>, defs: seq<Getter>, ws: seq<Watcher>, ws': seq<Watcher>, queued: set<nat>, w: nat)
    requires |defs| <= w < |ws| == |ws'| && w in queued && Sane(WorldOf(store, ws, |defs|, queued), defs)
    requires forall i :: |defs| <= i < |ws| && i != w ==> ws'[i] == ws[i]
    requires ws'[w].active == ws[w].active && ws'[w].getter == ws[w].getter
    requires if ws[w].active then ws'[w].rank == |defs| && UpToDate(store, defs, ws'[w]) else ws'[w] == ws[w]
    ensures WorldOf(store, ws', |defs|, queued - {w}) == After(WorldOf(store, ws, |defs|, queued), defs, RunQueued(w))
  {
    hide Fresh, Leaves, WellFormed;
    var world := WorldOf(store, ws, |defs|, queued);
    assert world.users[w - |defs|] == UserOf(ws[w]);
    assert UsersOf(ws', |defs|) == After(world, defs, RunQueued(w)).users;
  }

  lemma WatchedWorld(store: seq<Value>, defs: seq<Getter>, ws: seq<Watcher>, ws': seq<Watcher>, queued: set<nat>,
                     g: Getter)
    requires |defs| <= |ws| && |ws'| == |ws| + 1 && Sane(WorldOf(store, ws, |defs|, queued), defs)
    requires forall i :: |defs| <= i < |ws| ==> ws'[i] == ws[i]
    requires var w := ws'[|ws|]; w.getter == g && w.active && w.rank == |defs| && UpToDate(store, defs, w)
    ensures ValidOp(Watch(g), |store|, defs)
    ensures WorldOf(store, ws', |defs|, queued) == After(WorldOf(store, ws, |defs|, queued), defs, Watch(g))
  {
    hide Fresh, Leaves;
    var next := After(WorldOf(store, ws, |defs|, queued), defs, Watch(g));
    assert UsersOf(ws', |defs|) == next.users;
  }

  lemma TornWorld(store: seq<Value>, defs: seq<Getter>, ws: seq<Watcher>, ws': seq<Watcher>, queued: set<nat>, w: nat)
    requires |defs| <= |ws| && Sane(WorldOf(store, ws, |defs|, queued), defs)
    requires ws' == if |defs| <= w < |ws| then ws[w := ws[w].(active := false)] else ws
    ensures WorldOf(store, ws', |defs|, queued) == After(WorldOf(store, ws, |defs|, queued), defs, Unwatch(w))
  {
    hide Fresh, Leaves, WellFormed;
    var next := After(WorldOf(store, ws, |defs|, queued), defs, Unwatch(w));
    assert UsersOf(ws', |defs|) == next.users;
  }

  lemma NotQueued(store: seq<Value>, defs: seq<Getter>, ws: seq<Watcher>, queued: set<nat>, w: nat)
    requires |defs| <= |ws| && Sane(WorldOf(store, ws, |defs|, queued), defs) && w !in queued
    ensures After(WorldOf(store, ws, |defs|, queued), defs, RunQueued(w)) == WorldOf(store, ws, |defs|, queued)
  {}

  /** The watchers that a write queues are those whose value depends on the cell. */
  lemma WriteQueues(store: seq<Value>, defs: seq<Getter>, subs: seq<seq<nat>>, ws: seq<Watcher>, queued: set<nat>,
                    c: nat, v: Value, ws': seq<Watcher>, queued': set<nat>)
    requires Consistent(store, defs, subs, ws, queued, {}) && c < |store| && v != store[c]
    requires forall q :: q in queued ==> |defs| <= q < |ws|
    requires Notified(ws, queued, ws', queued', Elements(subs[c]))
    ensures Sane(WorldOf(store, ws, |defs|, queued), defs)
    ensures WorldOf(store[c := v], ws', |defs|, queued') == After(WorldOf(store, ws, |defs|, queued), defs, SetCell(c, v))
  {
    hide Consistent, Notified, UpToDate;
    WorldIsSane(store, defs, subs, ws, queued, {});
    var w := WorldOf(store, ws, |defs|, queued);
    NotifiedUsers(store, defs, subs, ws, queued, c, ws', queued');
    forall id | |defs| <= id < |ws| && id !in queued ensures id in queued' <==> Depends(w, defs, id, c) {
      SubscriberDepends(store, defs, subs, ws, queued, c, id);
    }
    var next := After(w, defs, SetCell(c, v));
    assert queued' == next.queued;
    assert UsersOf(ws', |defs|) == w.users;
  }

  lemma NotifiedUsers(store: seq<Value>, defs: seq<Getter>, subs: seq<seq<nat>>, ws: seq<Watcher>, queued: set<nat>,
                      c: nat, ws': seq<Watcher>, queued': set<nat>)
    requires Consistent(store, defs, subs, ws, queued, {}) && c < |store| == |subs|
    requires forall q :: q in queued ==> |defs| <= q < |ws|
    requires Notified(ws, queued, ws', queued', Elements(subs[c]))
    ensures |ws'| == |ws| && forall i :: |defs| <= i < |ws| ==> ws'[i] == ws[i]
    ensures forall id: nat :: id in queued' <==> id in queued || (|defs| <= id < |ws| && id in subs[c])
  {}

  lemma SubscriberDepends(store: seq<Value>, defs: seq<Getter>, subs: seq<seq<nat>>, ws: seq<Watcher>, queued: set<nat>,
                          c: nat, id: nat)
    requires Consistent(store, defs, subs, ws, queued, {}) && c < |store| == |subs|
    requires Sane(WorldOf(store, ws, |defs|, queued), defs)
    requires |defs| <= id < |ws| && id !in queued
    ensures id in subs[c] <==> Depends(WorldOf(store, ws, |defs|, queued), defs, id, c)
  {
    if ws[id].active {
      ListensToItsLeaves(store, defs, subs, ws, queued, {}, id, c);
    } else {
      assert Lists(subs, c, id) <==> Listening(ws, id, c);
    }
  }
}
