/**
 * The reactive runtime as a program sees it, without caches and dependency lists: the cells, the watchers
 * that the program created, and which of them are queued.
 */
module NaiveRuntimes {
  import opened Getters

  /** What a program does to the reactive graph from outside any evaluation. */
  datatype Op =
    | SetCell(c: nat, v: Value)
    | GetComputed(n: nat)
    | Watch(getter: Getter)
    | Unwatch(id: nat)
    | RunQueued(id: nat)

  ghost predicate ValidOp(op: Op, cells: nat, defs: seq<Getter>) {
    match op
    case SetCell(c, _) => c < cells
    case GetComputed(n) => n < |defs|
    case Watch(g) => WellFormed(g, cells, |defs|)
    case Unwatch(_) => true
    case RunQueued(_) => true
  }

  /** A watcher of the program, and the value it last computed. Its id follows those of the computed properties. */
  datatype User = User(getter: Getter, active: bool, value: Value)

  datatype World = World(store: seq<Value>, users: seq<User>, queued: set<nat>)

  ghost predicate Sane(w: World, defs: seq<Getter>) {
    && Acyclic(defs, |w.store|)
    && (forall i :: 0 <= i < |w.users| ==> WellFormed(w.users[i].getter, |w.store|, |defs|))
    && (forall q :: q in w.queued ==> |defs| <= q < |defs| + |w.users|)
  }

  ghost function FreshNow(w: World, defs: seq<Getter>, i: nat): Value
    requires Sane(w, defs) && i < |w.users|
  {
    Fresh(w.store, defs, w.users[i].getter, |defs|)
  }

  /** A watcher that has computed its value again: one that is not active does not. */
  ghost function Rerun(w: World, defs: seq<Getter>, i: nat): User
    requires Sane(w, defs) && i < |w.users|
  {
    if w.users[i].active then w.users[i].(value := FreshNow(w, defs, i)) else w.users[i]
  }

  ghost predicate AllRerun(w: World, defs: seq<Getter>, users: seq<User>)
    requires Sane(w, defs)
  {
    |users| == |w.users| && forall i :: 0 <= i < |users| ==> users[i] == Rerun(w, defs, i)
  }

  lemma OpCell(c: nat, v: Value, cells: nat, defs: seq<Getter>)
    requires ValidOp(SetCell(c, v), cells, defs)
    ensures c < cells
  {}

  lemma OpComputed(n: nat, w: World, defs: seq<Getter>)
    requires Sane(w, defs) && ValidOp(GetComputed(n), |w.store|, defs)
    ensures n < |defs| && Read(w, defs, GetComputed(n)) == [Fresh(w.store, defs, defs[n], n)]
    ensures After(w, defs, GetComputed(n)) == w
  {}

  lemma OpWatch(g: Getter, cells: nat, defs: seq<Getter>)
    requires ValidOp(Watch(g), cells, defs)
    ensures WellFormed(g, cells, |defs|)
  {}

  lemma NothingRead(w: World, defs: seq<Getter>, op: Op)
    requires Sane(w, defs) && ValidOp(op, |w.store|, defs)
    ensures !op.GetComputed? ==> Read(w, defs, op) == []
  {}

  /** The watcher with this id is active, and computing its value now reads the cell. */
  ghost predicate Depends(w: World, defs: seq<Getter>, id: nat, c: nat)
    requires Sane(w, defs)
  {
    && |defs| <= id < |defs| + |w.users| && w.users[id - |defs|].active
    && c in Leaves(w.store, defs, w.users[id - |defs|].getter, |defs|)
  }

  /**
   * One operation. A new value of a cell queues the watchers that depend on the cell, a new watcher and one
   * that is run from the queue compute their values, and nothing else happens to the watchers.
   */
  ghost function After(w: World, defs: seq<Getter>, op: Op): (w': World)
    requires Sane(w, defs) && ValidOp(op, |w.store|, defs)
    ensures Sane(w', defs) && |w'.store| == |w.store|
  {
    match op
    case SetCell(c, v) =>
      if w.store[c] == v then w
      else
        var more := set id | |defs| <= id < |defs| + |w.users| && Depends(w, defs, id, c);
        w.(store := w.store[c := v], queued := w.queued + more)
    case GetComputed(_) => w
    case Watch(g) => w.(users := w.users + [User(g, true, Fresh(w.store, defs, g, |defs|))])
    case Unwatch(id) =>
      var i := id - |defs|;
      if 0 <= i < |w.users| then w.(users := w.users[i := w.users[i].(active := false)]) else w
    case RunQueued(id) =>
      var i := id - |defs|;
      if id in w.queued then w.(users := w.users[i := Rerun(w, defs, i)], queued := w.queued - {id}) else w
  }

  /** What one operation reads. */
  ghost function Read(w: World, defs: seq<Getter>, op: Op): seq<Value>
    requires Sane(w, defs) && ValidOp(op, |w.store|, defs)
  {
    if op.GetComputed? then [Fresh(w.store, defs, defs[op.n], op.n)] else []
  }

  ghost predicate AllValid(ops: seq<Op>, cells: nat, defs: seq<Getter>) {
    forall op :: op in ops ==> ValidOp(op, cells, defs)
  }

  ghost function AfterAll(w: World, defs: seq<Getter>, ops: seq<Op>): World
    requires Sane(w, defs) && AllValid(ops, |w.store|, defs)
    decreases |ops|
  {
    if ops == [] then w
    else
      assert ops[0] in ops;
      AfterAll(After(w, defs, ops[0]), defs, ops[1..])
  }

  ghost function AllRead(w: World, defs: seq<Getter>, ops: seq<Op>): seq<Value>
    requires Sane(w, defs) && AllValid(ops, |w.store|, defs)
    decreases |ops|
  {
    if ops == [] then []
    else
      assert ops[0] in ops;
      Read(w, defs, ops[0]) + AllRead(After(w, defs, ops[0]), defs, ops[1..])
  }
}
