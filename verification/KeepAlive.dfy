/** The keep-alive component: a cache of component instances that forgets the least recently used one. */
module KeepAlives {
  import opened Sequences
  import opened Options
  import opened Keys

  type Instance = nat

  /** A cached vnode: the component's name, the vnode's tag, and the instance behind it. */
  datatype Entry = Entry(name: Option<string>, tag: string, instance: Instance)

  /** A property of the cache object is never deleted, only set to null. */
  type Cache = map<string, Option<Entry>>

  /** One render: the child found in the slot, its key, and the instance it would get if it were new. */
  datatype Access = Access(key: Key, child: Entry)

  // ----- sequences of keys

  function Last(ks: seq<Key>, max: nat): seq<Key> {
    if max > 0 && |ks| > max then ks[|ks| - max..] else ks
  }

  /** The distinct keys of a history in order of last use. */
  function Uses(history: seq<Key>): seq<Key>
    decreases |history|
  {
    if history == [] then []
    else
      var k := history[|history| - 1];
      Removed(Uses(history[..|history| - 1]), k) + [k]
  }

  lemma FirstOccurrence(ks: seq<Key>, k: Key, n: nat)
    requires n <= |ks| && k !in ks[..n] && (n < |ks| ==> ks[n] == k)
    ensures Removed(ks, k) == if n < |ks| then ks[..n] + ks[n + 1..] else ks
  {
    assert ks == ks[..n] + ks[n..];
    RemovedConcat(ks[..n], ks[n..], k);
    if n < |ks| {
      assert ks[n..][1..] == ks[n + 1..];
    } else {
      assert ks[n..] == [];
    }
  }

  // ----- what order of last use means

  /** The position after the last use of a key; 0 if it was never used. */
  function LastUse(history: seq<Key>, k: Key): nat
    decreases |history|
  {
    if history == [] then 0
    else if history[|history| - 1] == k then |history|
    else LastUse(history[..|history| - 1], k)
  }

  lemma {:induction false} LastUseBound(history: seq<Key>, k: Key)
    ensures LastUse(history, k) <= |history|
    decreases |history|
  {
    if history == [] {
    } else {
      LastUseBound(history[..|history| - 1], k);
    }
  }

  /** Uses holds exactly the keys that occur, once each, the least recently used first. */
  lemma {:induction false} UsesMeaning(history: seq<Key>)
    ensures NoDup(Uses(history))
    ensures forall k :: k in Uses(history) <==> k in history
    ensures forall i, j :: 0 <= i < j < |Uses(history)| ==>
              LastUse(history, Uses(history)[i]) < LastUse(history, Uses(history)[j])
    decreases |history|
  {
    if history == [] {
    } else {
      var before, k := history[..|history| - 1], history[|history| - 1];
      UsesMeaning(before);
      RemovedOnce(Uses(before), k);
      assert history == before + [k];
      var rank := x => LastUse(before, x);
      assert Ordered(Uses(before), rank);
      RemovedOrdered(Uses(before), k, rank);
      forall i, j | 0 <= i < j < |Uses(history)|
        ensures LastUse(history, Uses(history)[i]) < LastUse(history, Uses(history)[j])
      {
        var a := Uses(history)[i];
        assert a == Removed(Uses(before), k)[i] && a in Removed(Uses(before), k);
        LastUseBound(before, a);
        if j < |Uses(history)| - 1 {
          assert Uses(history)[j] == Removed(Uses(before), k)[j] && Uses(history)[j] in Removed(Uses(before), k);
        }
      }
    }
  }

  ghost predicate Ordered(ks: seq<Key>, rank: Key -> nat) {
    forall i, j :: 0 <= i < j < |ks| ==> rank(ks[i]) < rank(ks[j])
  }

  lemma {:induction false} RemovedOrdered(ks: seq<Key>, k: Key, rank: Key -> nat)
    requires Ordered(ks, rank)
    ensures Ordered(Removed(ks, k), rank)
  {
    if ks == [] {
    } else {
      assert Ordered(ks[1..], rank);
      if ks[0] != k {
        RemovedOrdered(ks[1..], k, rank);
        var r := Removed(ks[1..], k);
        forall j | 0 <= j < |r| ensures rank(ks[0]) < rank(r[j]) {
          RemovedSubset(ks[1..], k, r[j]);
          var i :| 0 <= i < |ks| - 1 && ks[1..][i] == r[j];
        }
        assert Ordered([ks[0]] + r, rank);
      }
    }
  }

  lemma {:induction false} RemovedSubset(ks: seq<Key>, k: Key, x: Key)
    ensures x in Removed(ks, k) ==> x in ks
  {
    if ks == [] {
    } else {
      RemovedSubset(ks[1..], k, x);
    }
  }

  // ----- one use

  /** What a render with key k makes of the keys. */
  function Touch(ks: seq<Key>, k: Key, max: nat): seq<Key> {
    if k in ks then Removed(ks, k) + [k]
    else if max > 0 && |ks| + 1 > max then (ks + [k])[1..]
    else ks + [k]
  }

  /** Touching the last `max` distinct keys gives the last `max` distinct keys. */
  lemma TouchIsLast(history: seq<Key>, k: Key, max: nat)
    ensures Touch(Last(Uses(history), max), k, max) == Last(Uses(history + [k]), max)
  {
    hide Removed, LastUse;
    var u := Uses(history);
    assert (history + [k])[..|history|] == history;
    UsesMeaning(history);
    var ks := Last(u, max);
    var a := u[..|u| - |ks|];
    assert u == a + ks;
    TouchSplit(a, ks, k, max);
  }

  lemma TouchSplit(a: seq<Key>, ks: seq<Key>, k: Key, max: nat)
    requires NoDup(a + ks) && ks == Last(a + ks, max)
    ensures Touch(ks, k, max) == Last(Removed(a + ks, k) + [k], max)
  {
    hide Removed, LastUse, Last;
    SplitDistinct(a, ks);
    RemovedConcat(a, ks, k);
    RemovedOnce(a, k);
    RemovedOnce(ks, k);
    WholeOrFull(a, ks, max);
    if k in ks {
      assert Removed(a + ks, k) + [k] == a + (Removed(ks, k) + [k]);
      LastAfter(a, Removed(ks, k) + [k], max);
    } else {
      assert Removed(a + ks, k) + [k] == Removed(a, k) + (ks + [k]);
      LastPushed(Removed(a, k), ks + [k], max);
    }
  }

  lemma WholeOrFull(a: seq<Key>, ks: seq<Key>, max: nat)
    requires ks == Last(a + ks, max)
    ensures (a == [] && (max > 0 ==> |ks| <= max)) || |ks| == max > 0
  {}

  lemma LastAfter(a: seq<Key>, ks: seq<Key>, max: nat)
    requires (a == [] && (max > 0 ==> |ks| <= max)) || |ks| == max > 0
    ensures Last(a + ks, max) == ks
  {}

  lemma LastPushed(a: seq<Key>, ks: seq<Key>, max: nat)
    requires ks != [] && ((a == [] && (max > 0 ==> |ks| <= max + 1)) || |ks| == max + 1 > 1)
    ensures Last(a + ks, max) == if max > 0 && |ks| > max then ks[1..] else ks
  {}

  lemma SplitDistinct(a: seq<Key>, b: seq<Key>)
    requires NoDup(a + b)
    ensures NoDup(a) && NoDup(b) && forall k :: k in a ==> k !in b
  {
    assert forall i :: 0 <= i < |a| ==> a[i] == (a + b)[i];
    assert forall i :: 0 <= i < |b| ==> b[i] == (a + b)[|a| + i];
  }

  // ----- the cache

  datatype Store = Store(cache: Cache, keys: seq<Key>)

  predicate Live(c: Cache, name: string) {
    name in c && c[name].Some?
  }

  ghost predicate Names(ks: seq<Key>, name: string) {
    exists k :: k in ks && PropertyName(k) == name
  }

  /** The keys are those of the live cache entries, once each. */
  ghost predicate Matching(s: Store) {
    && NoDup(s.keys)
    && (forall k, k' :: k in s.keys && k' in s.keys && PropertyName(k) == PropertyName(k') ==> k == k')
    && (forall k :: k in s.keys ==> Live(s.cache, PropertyName(k)))
    && (forall name :: Live(s.cache, name) ==> Names(s.keys, name))
  }

  ghost predicate Bounded(s: Store, max: nat) {
    max > 0 ==> |s.keys| <= max
  }

  /** `pruneCacheEntry`, apart from the instance. */
  function Forget(s: Store, k: Key): Store {
    Store(s.cache[PropertyName(k) := None], Removed(s.keys, k))
  }

  /** A render of an admitted child. */
  function Used(s: Store, k: Key, e: Entry, max: nat): Store {
    if Live(s.cache, PropertyName(k)) then Store(s.cache, Removed(s.keys, k) + [k])
    else
      var pushed := Store(s.cache[PropertyName(k) := Some(e)], s.keys + [k]);
      if max > 0 && |pushed.keys| > max then Forget(pushed, pushed.keys[0]) else pushed
  }

  lemma ForgetMatches(s: Store, k: Key)
    requires Matching(s) && k in s.keys
    ensures Matching(Forget(s, k))
  {
    hide PropertyName, Removed;
    RemovedOnce(s.keys, k);
    var after := Forget(s, k);
    forall name | Live(after.cache, name) ensures Names(after.keys, name) {
      assert Live(s.cache, name);
      var x :| x in s.keys && PropertyName(x) == name;
      assert x in after.keys;
    }
  }

  lemma PushMatches(s: Store, k: Key, e: Entry)
    requires Matching(s) && !Live(s.cache, PropertyName(k))
    ensures Matching(Store(s.cache[PropertyName(k) := Some(e)], s.keys + [k]))
  {
    hide PropertyName;
    var after := Store(s.cache[PropertyName(k) := Some(e)], s.keys + [k]);
    assert k in after.keys;
    forall name | Live(after.cache, name) ensures Names(after.keys, name) {
      if name != PropertyName(k) {
        assert Live(s.cache, name);
        var x :| x in s.keys && PropertyName(x) == name;
        assert x in after.keys;
      }
    }
  }

  lemma MoveMatches(s: Store, k: Key)
    requires Matching(s) && Live(s.cache, PropertyName(k))
    ensures Matching(Store(s.cache, Removed(s.keys, k) + [k])) <==> k in s.keys
  {
    hide PropertyName, Removed;
    RemovedOnce(s.keys, k);
    var after := Store(s.cache, Removed(s.keys, k) + [k]);
    assert forall x :: x in after.keys <==> x in s.keys || x == k;
    if k in s.keys {
      forall name | Live(after.cache, name) ensures Names(after.keys, name) {
        var x :| x in s.keys && PropertyName(x) == name;
        assert x in after.keys;
      }
    } else {
      var x :| x in s.keys && PropertyName(x) == PropertyName(k);
      assert x in after.keys && k in after.keys;
    }
  }

  lemma FirstGone(ks: seq<Key>)
    requires ks != []
    ensures Removed(ks, ks[0]) == ks[1..]
  {}

  /**
   * A render keeps keys and cache in step exactly when the key does not merely share the property name
   * of another one; then the keys are touched, and entries that stay keep their instance.
   */
  lemma UsedMatches(s: Store, k: Key, e: Entry, max: nat)
    requires Matching(s) && Bounded(s, max)
    ensures Matching(Used(s, k, e, max)) <==> (Live(s.cache, PropertyName(k)) ==> k in s.keys)
    ensures (Live(s.cache, PropertyName(k)) ==> k in s.keys) ==>
              var after := Used(s, k, e, max);
              && Bounded(after, max) && after.keys == Touch(s.keys, k, max)
              && forall x :: x in after.keys ==>
                   after.cache[PropertyName(x)] == if x in s.keys then s.cache[PropertyName(x)] else Some(e)
  {
    hide PropertyName, Removed, NoDup, Names;
    RemovedOnce(s.keys, k);
    if Live(s.cache, PropertyName(k)) {
      MoveMatches(s, k);
    } else {
      assert k !in s.keys;
      PushMatches(s, k, e);
      var pushed := Store(s.cache[PropertyName(k) := Some(e)], s.keys + [k]);
      FirstGone(pushed.keys);
      assert pushed.keys[0] in pushed.keys;
      ForgetMatches(pushed, pushed.keys[0]);
      RemovedOnce(pushed.keys, pushed.keys[0]);
    }
  }

  /**
   * Two renders, with a number as key and then with the string of its digits: the second one shows the
   * first one's instance, and two keys stand for one entry, even when only one is allowed.
   */
  lemma NumberThenStringCollides(n: int, e: Entry, e': Entry)
    ensures var k, k' := NumberKey(n), StringKey(PropertyName(NumberKey(n)));
            var first := Used(Store(map[], []), k, e, 1);
            var second := Used(first, k', e', 1);
            && Matching(first) && Bounded(first, 1)
            && Live(first.cache, PropertyName(k')) && first.cache[PropertyName(k')] == Some(e)
            && second.keys == [k, k'] && second.cache == first.cache
            && !Matching(second) && !Bounded(second, 1)
  {
    hide PropertyName, Removed;
    var k, k' := NumberKey(n), StringKey(PropertyName(NumberKey(n)));
    PropertyNameOfString(PropertyName(k));
    var none := Store(map[], []);
    PushMatches(none, k, e);
    var first := Used(none, k, e, 1);
    assert first == Store(map[PropertyName(k) := Some(e)], [k]);
    UsedMatches(first, k', e', 1);
    assert Removed([k], k') == [k] by {
      RemovedOnce([k], k');
    }
  }

  // ----- pruning

  /** The entries that a filter on names rejects. */
  predicate Rejected(c: Cache, keep: string -> bool, name: string) {
    Live(c, name) && c[name].value.name.Some? && !keep(c[name].value.name.value)
  }

  function RejectedNames(c: Cache, keep: string -> bool): set<string> {
    set name | name in c && Rejected(c, keep, name)
  }

  /** Pruning goes by property names, which are strings: a number among the keys is never found. */
  function Kept(ks: seq<Key>, gone: set<string>): seq<Key> {
    if ks == [] then []
    else (if ks[0].StringKey? && ks[0].s in gone then [] else [ks[0]]) + Kept(ks[1..], gone)
  }

  function Emptied(c: Cache, gone: set<string>): Cache {
    map name | name in c :: if name in gone then None else c[name]
  }

  lemma {:induction false} KeptKeys(ks: seq<Key>, gone: set<string>)
    requires NoDup(ks)
    ensures NoDup(Kept(ks, gone)) && |Kept(ks, gone)| <= |ks|
    ensures forall k :: k in Kept(ks, gone) <==> k in ks && !(k.StringKey? && k.s in gone)
  {
    if ks == [] {
    } else {
      KeptKeys(ks[1..], gone);
      assert ks == [ks[0]] + ks[1..];
      assert ks[0] !in ks[1..];
    }
  }

  lemma {:induction false} KeptStep(ks: seq<Key>, gone: set<string>, name: string)
    requires NoDup(ks) && name !in gone
    ensures Removed(Kept(ks, gone), StringKey(name)) == Kept(ks, gone + {name})
  {
    if ks == [] {
    } else {
      KeptStep(ks[1..], gone, name);
      var rest := Kept(ks[1..], gone);
      if ks[0] == StringKey(name) {
        KeptKeys(ks[1..], gone);
        RemovedOnce(rest, StringKey(name));
        assert ks[0] !in ks[1..];
        assert Kept(ks, gone) == [ks[0]] + rest && ([ks[0]] + rest)[1..] == rest;
        assert Kept(ks, gone + {name}) == Kept(ks[1..], gone + {name});
      } else if ks[0].StringKey? && ks[0].s in gone {
        assert Kept(ks, gone) == rest;
      } else {
        assert Kept(ks, gone) == [ks[0]] + rest && ([ks[0]] + rest)[1..] == rest;
      }
    }
  }

  lemma {:induction false} KeptAll(ks: seq<Key>)
    ensures Kept(ks, {}) == ks
  {
    if ks == [] {
    } else {
      KeptAll(ks[1..]);
    }
  }

  /** Pruning keeps keys and cache in step exactly when no pruned entry was stored under a number. */
  lemma PruneMatches(s: Store, keep: string -> bool)
    requires Matching(s)
    ensures var gone := RejectedNames(s.cache, keep);
            var after := Store(Emptied(s.cache, gone), Kept(s.keys, gone));
            && |after.keys| <= |s.keys|
            && (Matching(after) <==> forall k :: k in s.keys && Rejected(s.cache, keep, PropertyName(k)) ==> k.StringKey?)
  {
    hide Kept;
    var gone := RejectedNames(s.cache, keep);
    var after := Store(Emptied(s.cache, gone), Kept(s.keys, gone));
    KeptKeys(s.keys, gone);
    if forall k :: k in s.keys && Rejected(s.cache, keep, PropertyName(k)) ==> k.StringKey? {
      forall k | k in after.keys ensures Live(after.cache, PropertyName(k)) {
        assert Live(s.cache, PropertyName(k));
        assert PropertyName(k) in gone ==> Rejected(s.cache, keep, PropertyName(k));
      }
      forall name | Live(after.cache, name) ensures Names(after.keys, name) {
        assert Live(s.cache, name) && name !in gone;
        var k :| k in s.keys && PropertyName(k) == name;
        assert k in after.keys;
      }
    } else {
      var k :| k in s.keys && Rejected(s.cache, keep, PropertyName(k)) && !k.StringKey?;
      assert k in after.keys && !Live(after.cache, PropertyName(k));
    }
  }

  /** A number as key: the entry is pruned, its key stays, and the next use of it puts the key in twice. */
  lemma NumberKeyGoesStale(e: Entry, keep: string -> bool)
    requires e.name.Some? && !keep(e.name.value)
    ensures var s := Used(Store(map[], []), NumberKey(1), e, 1);
            var gone := RejectedNames(s.cache, keep);
            var after := Store(Emptied(s.cache, gone), Kept(s.keys, gone));
            && Matching(s) && !Matching(after)
            && after.keys == [NumberKey(1)]
            && Used(after, NumberKey(1), e, 0).keys == [NumberKey(1), NumberKey(1)]
  {}

  /** The instance that is destroyed when an entry is emptied: none if its tag is the one shown. */
  ghost function Doomed(c: Cache, name: string, current: Option<string>): seq<Instance> {
    if name in c && c[name].Some? && Some(c[name].value.tag) != current then [c[name].value.instance] else []
  }

  ghost function AllDoomed(c: Cache, names: seq<string>, current: Option<string>): seq<Instance> {
    if names == [] then [] else AllDoomed(c, names[..|names| - 1], current) + Doomed(c, names[|names| - 1], current)
  }

  lemma DoomedNext(c: Cache, names: seq<string>, name: string, current: Option<string>)
    ensures AllDoomed(c, names + [name], current) == AllDoomed(c, names, current) + Doomed(c, name, current)
  {
    assert (names + [name])[..|names|] == names;
  }

  ghost function NameSet(order: seq<string>): set<string> {
    set name | name in order
  }

  /** The entries named by `order` are emptied and their instances destroyed, unless their tag is the one shown. */
  ghost predicate Pruning(c: Cache, ks: seq<Key>, gone: seq<Instance>, current: Option<string>,
                          s: Store, gone': seq<Instance>, order: seq<string>)
  {
    && s == Store(Emptied(c, NameSet(order)), Kept(ks, NameSet(order)))
    && NoDup(order)
    && gone' == gone + AllDoomed(c, order, current)
  }

  lemma PruningStart(c: Cache, ks: seq<Key>, gone: seq<Instance>, current: Option<string>)
    ensures Pruning(c, ks, gone, current, Store(c, ks), gone, [])
  {
    KeptAll(ks);
    assert NameSet([]) == {} && Emptied(c, {}) == c;
  }

  lemma PruningStep(c: Cache, ks: seq<Key>, order: seq<string>, name: string)
    requires NoDup(ks) && name in c && name !in order && NoDup(order)
    ensures NoDup(order + [name])
    ensures Emptied(c, NameSet(order + [name])) == Emptied(c, NameSet(order))[name := None]
    ensures Kept(ks, NameSet(order + [name])) == Removed(Kept(ks, NameSet(order)), StringKey(name))
    ensures Emptied(c, NameSet(order))[name] == c[name]
  {
    hide Kept, Removed;
    assert NameSet(order + [name]) == NameSet(order) + {name};
    KeptStep(ks, NameSet(order), name);
  }

  lemma PruningEnd(c: Cache, ks: seq<Key>, gone: seq<Instance>, current: Option<string>,
                   s: Store, gone': seq<Instance>, order: seq<string>)
    requires Pruning(c, ks, gone, current, s, gone', order)
    ensures s == Store(Emptied(c, NameSet(order)), Kept(ks, NameSet(order)))
    ensures NoDup(order) && gone' == gone + AllDoomed(c, order, current)
  {}

  // ----- the naive account

  /** Everything that was ever used, and the instance last shown for each key. */
  datatype Naive = Naive(history: seq<Key>, shown: map<Key, Instance>)

  /** An instance is shown again if its key is among the last `max` distinct keys used. */
  function Shows(n: Naive, a: Access, max: nat): Instance {
    if a.key in Last(Uses(n.history), max) && a.key in n.shown then n.shown[a.key] else a.child.instance
  }

  function NaiveStep(n: Naive, a: Access, max: nat): Naive {
    Naive(n.history + [a.key], n.shown[a.key := Shows(n, a, max)])
  }

  function NaiveRun(n: Naive, accesses: seq<Access>, max: nat): seq<Instance>
    decreases |accesses|
  {
    if accesses == [] then []
    else [Shows(n, accesses[0], max)] + NaiveRun(NaiveStep(n, accesses[0], max), accesses[1..], max)
  }

  function NaiveAfter(n: Naive, accesses: seq<Access>, max: nat): Naive
    decreases |accesses|
  {
    if accesses == [] then n else NaiveAfter(NaiveStep(n, accesses[0], max), accesses[1..], max)
  }

  ghost predicate Agrees(s: Store, n: Naive, max: nat) {
    && Matching(s) && s.keys == Last(Uses(n.history), max)
    && forall k :: k in s.keys ==> k in n.shown && s.cache[PropertyName(k)].value.instance == n.shown[k]
  }

  lemma LastBound(ks: seq<Key>, max: nat)
    ensures max > 0 ==> |Last(ks, max)| <= max
  {}

  lemma StepAgrees(s: Store, n: Naive, a: Access, max: nat)
    requires Agrees(s, n, max)
    requires Live(s.cache, PropertyName(a.key)) ==> a.key in s.keys
    ensures Agrees(Used(s, a.key, a.child, max), NaiveStep(n, a, max), max)
    ensures Shows(n, a, max) == if Live(s.cache, PropertyName(a.key)) then s.cache[PropertyName(a.key)].value.instance
                                else a.child.instance
  {
    hide PropertyName, Removed, Uses, Last, Used;
    LastBound(Uses(n.history), max);
    UsedMatches(s, a.key, a.child, max);
    TouchIsLast(n.history, a.key, max);
    var after := Used(s, a.key, a.child, max);
    forall k | k in after.keys
      ensures k in NaiveStep(n, a, max).shown
      ensures after.cache[PropertyName(k)].value.instance == NaiveStep(n, a, max).shown[k]
    {
      TouchKeys(s.keys, a.key, max, k);
    }
  }

  lemma TouchKeys(ks: seq<Key>, k: Key, max: nat, x: Key)
    requires x in Touch(ks, k, max)
    ensures x == k || x in ks
  {
    RemovedSubset(ks, k, x);
  }

  // ----- the component

  /** What happens to the component: a render, or a change of a filter. */
  datatype Op = Show(access: Access) | Include(pattern: Option<string -> bool>) | Exclude(pattern: Option<string -> bool>)

  /** `matches`: no pattern matches nothing. */
  predicate Matches(pattern: Option<string -> bool>, name: string) {
    pattern.Some? && pattern.value(name)
  }

  /** The filters of the component turn a child away: it is shown without being cached. */
  ghost predicate FilteredOut(included: Option<string -> bool>, excluded: Option<string -> bool>, name: Option<string>) {
    match name
    case None => included.Some?
    case Some(n) => (included.Some? && !included.value(n)) || (excluded.Some? && excluded.value(n))
  }

  /** The component as the operations see it, apart from the instances destroyed. */
  datatype View = View(included: Option<string -> bool>, excluded: Option<string -> bool>,
                       store: Store, current: Option<string>)

  /** A render uses the cache unless a filter turns the child away; a new filter is applied to the cache at once. */
  ghost function Done(v: View, op: Op, max: nat): View {
    match op
    case Show(a) =>
      var store := if FilteredOut(v.included, v.excluded, a.child.name) then v.store else Used(v.store, a.key, a.child, max);
      v.(store := store, current := Some(a.child.tag))
    case Include(pattern) => v.(included := pattern, store := Pruned(v.store, name => Matches(pattern, name)))
    case Exclude(pattern) => v.(excluded := pattern, store := Pruned(v.store, name => !Matches(pattern, name)))
  }

  ghost function Pruned(s: Store, keep: string -> bool): Store {
    var gone := RejectedNames(s.cache, keep);
    Store(Emptied(s.cache, gone), Kept(s.keys, gone))
  }

  ghost function AllDone(v: View, ops: seq<Op>, max: nat): View
    decreases |ops|
  {
    if ops == [] then v else AllDone(Done(v, ops[0], max), ops[1..], max)
  }

  class KeepAlive {
    /** 0: no limit. */
    const max: nat
    var included: Option<string -> bool>
    var excluded: Option<string -> bool>
    var cache: Cache
    var keys: seq<Key>
    /** The tag of the vnode that is shown, if there is one. */
    var current: Option<string>
    var destroyed: seq<Instance>

    constructor (max: nat, included: Option<string -> bool>, excluded: Option<string -> bool>)
      ensures this.max == max && this.included == included && this.excluded == excluded && Now() == Store(map[], [])
      ensures current == None && destroyed == []
      ensures Agrees(Now(), Naive([], map[]), max)
    {
      this.max, this.included, this.excluded := max, included, excluded;
      cache, keys, current, destroyed := map[], [], None, [];
    }

    function Now(): Store
      reads this
    {
      Store(cache, keys)
    }

    predicate Admits(name: Option<string>)
      reads `included, `excluded
    {
      && (included.Some? ==> name.Some? && Matches(included, name.value))
      && !(excluded.Some? && name.Some? && Matches(excluded, name.value))
    }

    /** `remove`. */
    method RemoveKey(k: Key)
      modifies `keys
      ensures keys == Removed(old(keys), k)
    {
      var n := 0;
      while n < |keys| && keys[n] != k
        invariant n <= |keys| && k !in keys[..n]
      {
        n := n + 1;
      }
      FirstOccurrence(keys, k, n);
      if n < |keys| {
        keys := keys[..n] + keys[n + 1..];
      }
    }

    /** `pruneCacheEntry`: the instance lives on only if its tag is the one shown. */
    method PruneCacheEntry(k: Key)
      modifies `cache, `keys, `destroyed
      ensures Now() == Forget(old(Now()), k)
      ensures destroyed == old(destroyed) +
                if Live(old(cache), PropertyName(k)) && current != Some(old(cache)[PropertyName(k)].value.tag)
                then [old(cache)[PropertyName(k)].value.instance] else []
    {
      var name := PropertyName(k);
      if Live(cache, name) && current != Some(cache[name].value.tag) {
        destroyed := destroyed + [cache[name].value.instance];
      }
      cache := cache[name := None];
      RemoveKey(k);
    }

    /** `render`: which instance is shown for the child found in the slot. */
    method Render(a: Access) returns (shown: Instance)
      modifies `cache, `keys, `destroyed, `current
      ensures current == Some(a.child.tag)
      ensures FilteredOut(included, excluded, a.child.name) ==>
                shown == a.child.instance && Now() == old(Now()) && destroyed == old(destroyed)
      ensures !FilteredOut(included, excluded, a.child.name) ==>
                var hit := Live(old(cache), PropertyName(a.key));
                && Now() == Used(old(Now()), a.key, a.child, max)
                && shown == (if hit then old(cache)[PropertyName(a.key)].value.instance else a.child.instance)
                && destroyed == old(destroyed) +
                     if hit || max == 0 || |old(keys)| < max then []
                     else Doomed(old(cache)[PropertyName(a.key) := Some(a.child)], PropertyName(old(keys)[0]),
                                 old(current))
    {
      hide PropertyName, Removed;
      shown := a.child.instance;
      if Admits(a.child.name) {
        var name := PropertyName(a.key);
        if Live(cache, name) {
          shown := cache[name].value.instance;
          RemoveKey(a.key);
          keys := keys + [a.key];
        } else {
          cache := cache[name := Some(a.child)];
          keys := keys + [a.key];
          if max > 0 && |keys| > max {
            PruneCacheEntry(keys[0]);
          }
        }
      }
      current := Some(a.child.tag);
    }

    /**
     * `pruneCache`: entries are visited in any order. The rejected ones are emptied, and their instances
     * destroyed unless their tag is the one shown.
     */
    method PruneCache(keep: string -> bool) returns (ghost order: seq<string>)
      requires Matching(Now())
      modifies `cache, `keys, `destroyed
      ensures var gone := RejectedNames(old(cache), keep);
              Now() == Store(Emptied(old(cache), gone), Kept(old(keys), gone))
      ensures NoDup(order) && forall name :: name in order <==>
                name in old(cache) && old(cache)[name].Some? &&
                old(cache)[name].value.name.Some? && !keep(old(cache)[name].value.name.value)
      ensures destroyed == old(destroyed) + AllDoomed(old(cache), order, current)
    {
      hide Pruning, Emptied, PropertyName, Removed, Kept, AllDoomed, NoDup;
      order := [];
      var names := cache.Keys;
      PruningStart(cache, keys, destroyed, current);
      while names != {}
        invariant names <= cache.Keys == old(cache).Keys
        invariant forall name :: name in names ==> name !in order && cache[name] == old(cache)[name]
        invariant forall name :: name in order ==> Rejected(old(cache), keep, name)
        invariant forall name :: name in old(cache) && Rejected(old(cache), keep, name) ==> name in names || name in order
        invariant Pruning(old(cache), old(keys), old(destroyed), current, Now(), destroyed, order)
        decreases |names|
      {
        var name :| name in names;
        names := names - {name};
        if cache[name].Some? && cache[name].value.name.Some? && !keep(cache[name].value.name.value) {
          PruneRejected(name, old(cache), old(keys), old(destroyed), order);
          order := order + [name];
        }
      }
      assert NameSet(order) == RejectedNames(old(cache), keep);
      PruningEnd(old(cache), old(keys), old(destroyed), current, Now(), destroyed, order);
    }

    /** One entry is emptied; those not yet visited stay. */
    method PruneRejected(name: string, ghost c: Cache, ghost ks: seq<Key>, ghost gone: seq<Instance>,
                         ghost order: seq<string>)
      requires NoDup(ks) && name in cache && name !in order
      requires Pruning(c, ks, gone, current, Now(), destroyed, order)
      modifies `cache, `keys, `destroyed
      ensures cache == old(cache)[name := None]
      ensures Pruning(c, ks, gone, current, Now(), destroyed, order + [name])
    {
      hide Kept, Removed, NoDup, PropertyName;
      PropertyNameOfString(name);
      DoomedNext(c, order, name, current);
      PruningStep(c, ks, order, name);
      PruneCacheEntry(StringKey(name));
    }

    /** A run of renders shows what the naive account shows, and holds the last `max` distinct keys. */
    method Run(accesses: seq<Access>, ghost n: Naive) returns (shown: seq<Instance>)
      requires Agrees(Now(), n, max)
      requires forall i :: 0 <= i < |accesses| ==> !FilteredOut(included, excluded, accesses[i].child.name)
      requires Distinguished(keys, accesses)
      modifies `cache, `keys, `destroyed, `current
      ensures shown == NaiveRun(n, accesses, max)
      ensures Agrees(Now(), NaiveAfter(n, accesses, max), max)
    {
      hide PropertyName, Used, Shows, NaiveStep, Agrees, FilteredOut;
      shown := [];
      ghost var m := n;
      var i := 0;
      while i < |accesses|
        invariant i <= |accesses| && Agrees(Now(), m, max)
        invariant forall j :: 0 <= j < |accesses| ==> !FilteredOut(included, excluded, accesses[j].child.name)
        invariant Distinguished(keys, accesses[i..])
        invariant shown + NaiveRun(m, accesses[i..], max) == NaiveRun(n, accesses, max)
        invariant NaiveAfter(m, accesses[i..], max) == NaiveAfter(n, accesses, max)
      {
        ghost var s := Now();
        assert accesses[i..][0] == accesses[i] && accesses[i..][1..] == accesses[i + 1..];
        DistinguishedStep(s, m, accesses[i..], max);
        StepAgrees(s, m, accesses[i], max);
        var instance := Render(accesses[i]);
        shown := shown + [instance];
        m := NaiveStep(m, accesses[i], max);
        i := i + 1;
      }
    }

    ghost function Seen(): View
      reads this
    {
      View(included, excluded, Now(), current)
    }

    /** A render or a change of a filter; a watcher of the filter prunes the cache. */
    method Apply(op: Op)
      requires Matching(Now()) && Bounded(Now(), max) && OnlyStrings(keys)
      requires op.Show? ==> op.access.key.StringKey?
      modifies this
      ensures Matching(Now()) && Bounded(Now(), max) && OnlyStrings(keys)
      ensures Seen() == Done(old(Seen()), op, max)
    {
      hide Used, Kept, Emptied, Rejected, RejectedNames, FilteredOut;
      ghost var s := Now();
      match op {
        case Show(access) =>
          StringUse(s, access, max);
          var _ := Render(access);
        case Include(pattern) =>
          included := pattern;
          StringPrune(s, name => Matches(pattern, name));
          ghost var _ := PruneCache(name => Matches(pattern, name));
        case Exclude(pattern) =>
          excluded := pattern;
          StringPrune(s, name => !Matches(pattern, name));
          ghost var _ := PruneCache(name => !Matches(pattern, name));
      }
    }

    /**
     * Any mix of renders and filter changes, with strings as keys: keys and cache stay in step and bounded,
     * and the component is at the end what the operations one by one make of it.
     */
    method RunAll(ops: seq<Op>)
      requires Matching(Now()) && Bounded(Now(), max) && OnlyStrings(keys)
      requires forall i :: 0 <= i < |ops| && ops[i].Show? ==> ops[i].access.key.StringKey?
      modifies this
      ensures Matching(Now()) && Bounded(Now(), max) && OnlyStrings(keys)
      ensures Seen() == AllDone(old(Seen()), ops, max)
    {
      hide Done, Matching, Bounded, OnlyStrings;
      var i := 0;
      while i < |ops|
        invariant i <= |ops| && Matching(Now()) && Bounded(Now(), max) && OnlyStrings(keys)
        invariant AllDone(old(Seen()), ops, max) == AllDone(Seen(), ops[i..], max)
      {
        Apply(ops[i]);
        assert ops[i..][1..] == ops[i + 1..];
        i := i + 1;
      }
    }
  }

  lemma PropertyNameOfString(name: string)
    ensures PropertyName(StringKey(name)) == name
  {}

  /** No key in play is confused with another one. */
  ghost predicate Distinguished(ks: seq<Key>, accesses: seq<Access>) {
    && (forall i, k :: 0 <= i < |accesses| && k in ks && PropertyName(k) == PropertyName(accesses[i].key) ==>
          k == accesses[i].key)
    && (forall i, j :: 0 <= i < j < |accesses| && PropertyName(accesses[i].key) == PropertyName(accesses[j].key) ==>
          accesses[i].key == accesses[j].key)
  }

  lemma DistinguishedStep(s: Store, n: Naive, accesses: seq<Access>, max: nat)
    requires Agrees(s, n, max) && accesses != [] && Distinguished(s.keys, accesses)
    ensures Live(s.cache, PropertyName(accesses[0].key)) ==> accesses[0].key in s.keys
    ensures Distinguished(Used(s, accesses[0].key, accesses[0].child, max).keys, accesses[1..])
  {
    hide PropertyName, Uses, Used, Last;
    var a := accesses[0];
    if Live(s.cache, PropertyName(a.key)) {
      var k :| k in s.keys && PropertyName(k) == PropertyName(a.key);
    }
    LastBound(Uses(n.history), max);
    UsedMatches(s, a.key, a.child, max);
    forall k | k in Touch(s.keys, a.key, max) ensures k == a.key || k in s.keys {
      TouchKeys(s.keys, a.key, max, k);
    }
  }

  predicate OnlyStrings(ks: seq<Key>) {
    forall i :: 0 <= i < |ks| ==> ks[i].StringKey?
  }

  lemma StringUse(s: Store, a: Access, max: nat)
    requires Matching(s) && Bounded(s, max) && OnlyStrings(s.keys) && a.key.StringKey?
    ensures var after := Used(s, a.key, a.child, max); Matching(after) && Bounded(after, max) && OnlyStrings(after.keys)
  {
    hide Used, Removed;
    if Live(s.cache, PropertyName(a.key)) {
      var k :| k in s.keys && PropertyName(k) == PropertyName(a.key);
    }
    UsedMatches(s, a.key, a.child, max);
    var after := Used(s, a.key, a.child, max).keys;
    forall i | 0 <= i < |after| ensures after[i].StringKey? {
      TouchKeys(s.keys, a.key, max, after[i]);
    }
  }

  lemma StringPrune(s: Store, keep: string -> bool)
    requires Matching(s) && OnlyStrings(s.keys)
    ensures var gone := RejectedNames(s.cache, keep);
            var after := Store(Emptied(s.cache, gone), Kept(s.keys, gone));
            Matching(after) && |after.keys| <= |s.keys| && OnlyStrings(after.keys)
  {
    hide Kept, PropertyName;
    PruneMatches(s, keep);
    KeptKeys(s.keys, RejectedNames(s.cache, keep));
  }
}
