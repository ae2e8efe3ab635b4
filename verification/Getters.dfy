/**
 * What a watcher computes. A getter reads reactive properties ("cells") and computed properties and
 * decides from each value read how to go on, so the set of things it reads may differ from run to run.
 */
module Getters {
  type Value = int

  /** A getter as a tree of reads; the map says how it goes on for every value that may be read. */
  datatype Getter =
    | Return(v: Value)
    | ReadCell(c: nat, next: imap<Value, Getter>)
    | ReadComputed(n: nat, next: imap<Value, Getter>)

  ghost predicate Total(next: imap<Value, Getter>) {
    forall v: Value :: v in next
  }

  /** The getter goes on for every value, and reads only existing cells and computed properties below `bound`. */
  ghost predicate WellFormed(g: Getter, cells: nat, bound: nat)
    decreases g
  {
    match g
    case Return(_) => true
    case ReadCell(c, next) => c < cells && Total(next) && forall v: Value :: WellFormed(next[v], cells, bound)
    case ReadComputed(n, next) => n < bound && Total(next) && forall v: Value :: WellFormed(next[v], cells, bound)
  }

  /** No computed property depends on itself: each one reads only earlier ones. */
  ghost predicate Acyclic(defs: seq<Getter>, cells: nat) {
    forall n :: 0 <= n < |defs| ==> WellFormed(defs[n], cells, n)
  }

  /** The value of a getter computed afresh from the cells, without any cache. */
  ghost function Fresh(store: seq<Value>, defs: seq<Getter>, g: Getter, bound: nat): Value
    requires bound <= |defs| && Acyclic(defs, |store|) && WellFormed(g, |store|, bound)
    decreases bound, g
  {
    match g
    case Return(v) => v
    case ReadCell(c, next) =>
      var v := store[c];
      Fresh(store, defs, next[v], bound)
    case ReadComputed(n, next) =>
      var v := Fresh(store, defs, defs[n], n);
      Fresh(store, defs, next[v], bound)
  }

  /** The cells that computing the value afresh reads, those read by computed properties included. */
  ghost function Leaves(store: seq<Value>, defs: seq<Getter>, g: Getter, bound: nat): set<nat>
    requires bound <= |defs| && Acyclic(defs, |store|) && WellFormed(g, |store|, bound)
    decreases bound, g
  {
    match g
    case Return(v) => {}
    case ReadCell(c, next) =>
      var v := store[c];
      {c} + Leaves(store, defs, next[v], bound)
    case ReadComputed(n, next) =>
      var v := Fresh(store, defs, defs[n], n);
      Leaves(store, defs, defs[n], n) + Leaves(store, defs, next[v], bound)
  }

  /** A value depends on nothing but its leaves. */
  lemma {:induction false} LeavesSuffice(store: seq<Value>, store': seq<Value>, defs: seq<Getter>, g: Getter, bound: nat)
    requires bound <= |defs| && Acyclic(defs, |store|) && WellFormed(g, |store|, bound)
    requires |store'| == |store|
    requires forall c :: c in Leaves(store, defs, g, bound) && c < |store| ==> store'[c] == store[c]
    ensures Fresh(store', defs, g, bound) == Fresh(store, defs, g, bound)
    ensures Leaves(store', defs, g, bound) == Leaves(store, defs, g, bound)
    decreases bound, g
  {
    match g
    case Return(_) =>
    case ReadCell(c, next) =>
      assert c in Leaves(store, defs, g, bound);
      LeavesSuffice(store, store', defs, next[store[c]], bound);
    case ReadComputed(n, next) =>
      LeavesSuffice(store, store', defs, defs[n], n);
      LeavesSuffice(store, store', defs, next[Fresh(store, defs, defs[n], n)], bound);
  }

  lemma {:induction false} LeavesAreCells(store: seq<Value>, defs: seq<Getter>, g: Getter, bound: nat)
    requires bound <= |defs| && Acyclic(defs, |store|) && WellFormed(g, |store|, bound)
    ensures forall c :: c in Leaves(store, defs, g, bound) ==> c < |store|
    decreases bound, g
  {
    match g
    case Return(_) =>
    case ReadCell(c, next) =>
      var v := store[c];
      LeavesAreCells(store, defs, next[v], bound);
    case ReadComputed(n, next) =>
      LeavesAreCells(store, defs, defs[n], n);
      LeavesAreCells(store, defs, next[Fresh(store, defs, defs[n], n)], bound);
  }
}
