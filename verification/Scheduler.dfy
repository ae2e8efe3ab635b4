/**
 * The watcher queue: `queueWatcher` and `flushSchedulerQueue`. Watchers are named by their ids. Running
 * a watcher may queue any watchers, the running one included, while the queue is being drained.
 */
module Scheduling {
  import opened Sequences
  import opened FlushOrder

  datatype Event = Enqueued(id: nat) | Ran(id: nat)

  ghost predicate Increasing(s: seq<nat>) {
    forall i, j :: 0 <= i < j < |s| ==> s[i] < s[j]
  }

  lemma IdsConcat(a: seq<nat>, b: seq<nat>)
    ensures Ids(a + b) == Ids(a) + Ids(b)
    ensures |b| == 1 ==> Ids(b) == {b[0]}
    ensures Ids([]) == {}
  {}

  lemma IdsFirst(xs: seq<nat>)
    ensures Ids(xs) == if xs == [] then {} else {xs[0]} + Ids(xs[1..])
  {}

  /** The built-in sort by id. */
  function Sorted(s: seq<nat>): (r: seq<nat>)
    ensures |r| == |s| && Ids(r) == Ids(s)
  {
    if s == [] then [] else
      IdsConcat([s[0]], s[1..]); assert s == [s[0]] + s[1..];
      Inserted(Sorted(s[1..]), s[0])
  }

  function Inserted(s: seq<nat>, x: nat): (r: seq<nat>)
    ensures |r| == |s| + 1 && Ids(r) == Ids(s) + {x}
  {
    if s == [] then [x]
    else if x < s[0] then IdsConcat([x], s); [x] + s
    else
      IdsConcat([s[0]], s[1..]); assert s == [s[0]] + s[1..];
      IdsConcat([s[0]], Inserted(s[1..], x));
      [s[0]] + Inserted(s[1..], x)
  }

  lemma {:induction false} InsertedIncreasing(s: seq<nat>, x: nat)
    requires Increasing(s) && x !in Ids(s)
    ensures Increasing(Inserted(s, x))
  {
    if s != [] && x >= s[0] {
      assert s[0] in Ids(s);
      InsertedIncreasing(s[1..], x);
      var r := Inserted(s[1..], x);
      forall i | 0 <= i < |r| ensures s[0] < r[i] { assert r[i] in Ids(r); }
    }
  }

  lemma {:induction false} SortedIncreasing(s: seq<nat>)
    requires NoDup(s)
    ensures Increasing(Sorted(s))
  {
    if s == [] {
    } else {
      SortedIncreasing(s[1..]);
      InsertedIncreasing(Sorted(s[1..]), s[0]);
    }
  }

  /** How many more times `id` was accepted into the queue than it was run. */
  ghost function Balance(log: seq<Event>, id: nat): int {
    if log == [] then 0
    else
      var last := log[|log| - 1];
      Balance(log[..|log| - 1], id) + (if last == Enqueued(id) then 1 else if last == Ran(id) then -1 else 0)
  }

  /** In every prefix, each watcher was run as often as it was accepted, or once less. */
  ghost predicate Alternates(log: seq<Event>) {
    forall k, id :: 0 <= k <= |log| ==> 0 <= Balance(log[..k], id) <= 1
  }

  /** The log records exactly the watchers in `pending` as accepted and not yet run. */
  ghost predicate Accounts(log: seq<Event>, pending: set<nat>) {
    Alternates(log) && forall id :: Balance(log, id) == if id in pending then 1 else 0
  }

  lemma AppendBalance(log: seq<Event>, e: Event, id: nat)
    ensures Balance(log + [e], id) ==
            Balance(log, id) + (if e == Enqueued(id) then 1 else if e == Ran(id) then -1 else 0)
  {}

  /** The watchers run so far, in order. */
  ghost function RunsOf(log: seq<Event>): seq<nat> {
    if log == [] then []
    else RunsOf(log[..|log| - 1]) + (if log[|log| - 1].Ran? then [log[|log| - 1].id] else [])
  }

  lemma RunsAppend(log: seq<Event>, e: Event)
    ensures RunsOf(log + [e]) == RunsOf(log) + (if e.Ran? then [e.id] else [])
  {}

  lemma AccountsStep(log: seq<Event>, pending: set<nat>, e: Event)
    requires Accounts(log, pending)
    requires e.Enqueued? ==> e.id !in pending
    requires e.Ran? ==> e.id in pending
    ensures Accounts(log + [e], if e.Enqueued? then pending + {e.id} else pending - {e.id})
  {
    var log' := log + [e];
    assert log'[..|log'|] == log' && log[..|log|] == log;
    forall id ensures 0 <= Balance(log', id) <= 1 { AppendBalance(log, e, id); }
    forall k, id | 0 <= k <= |log'| ensures 0 <= Balance(log'[..k], id) <= 1 {
      if k <= |log| { assert log'[..k] == log[..k]; }
    }
    forall id { AppendBalance(log, e, id); }
  }

  /** When nothing is pending, every accepted watcher was run exactly once before it was accepted again. */
  lemma {:induction false} EnqueuedThenRan(log: seq<Event>, k: nat) returns (j: nat)
    requires Alternates(log) && k < |log| && log[k].Enqueued? && Balance(log, log[k].id) == 0
    ensures k < j < |log| && log[j] == Ran(log[k].id)
    ensures forall i :: k < i < j ==> log[i] != Enqueued(log[k].id) && log[i] != Ran(log[k].id)
  {
    var id := log[k].id;
    assert log[..k + 1] == log[..k] + [log[k]];
    AppendBalance(log[..k], log[k], id);
    j := k + 1;
    assert log[..|log|] == log;
    while log[j] != Ran(id)
      invariant k < j < |log| && Balance(log[..j], id) == 1
      invariant forall i :: k < i < j ==> log[i] != Enqueued(id) && log[i] != Ran(id)
      decreases |log| - j
    {
      assert log[..j + 1] == log[..j] + [log[j]];
      AppendBalance(log[..j], log[j], id);
      assert Balance(log[..j + 1], id) <= 1;
      j := j + 1;
    }
  }

  /** The search from the right for the place of a watcher that is queued during a flush. */
  method Place(queue: seq<nat>, index: nat, id: nat) returns (n: nat)
    requires index < |queue| && Increasing(queue[index + 1..]) && id !in Ids(queue[index + 1..])
    ensures index <= n < |queue|
    ensures queue[..n + 1] + [id] + queue[n + 1..] == queue[..index + 1] + Inserted(queue[index + 1..], id)
  {
    hide Increasing;
    hide Ids;
    hide Inserted;
    n := |queue| - 1;
    while n > index && queue[n] > id
      invariant index <= n < |queue|
      invariant forall i :: n < i < |queue| ==> queue[i] > id
    {
      n := n - 1;
    }
    SplicedIn(queue, index, n, id);
  }

  lemma InsertedPending(was: seq<nat>, now: seq<nat>, index: nat, id: nat)
    requires index < |was| && Increasing(was[index + 1..]) && id !in Ids(was[index + 1..])
    requires now == was[..index + 1] + Inserted(was[index + 1..], id)
    ensures now[..index + 1] == was[..index + 1] && now[index + 1..] == Inserted(was[index + 1..], id)
    ensures Increasing(now[index + 1..]) && Ids(now[index + 1..]) == Ids(was[index + 1..]) + {id}
  {
    InsertedIncreasing(was[index + 1..], id);
  }

  lemma KeptPrefix(was: seq<nat>, now: seq<nat>, index: nat, id: nat)
    requires index < |was|
    requires now == was || now == was[..index + 1] + Inserted(was[index + 1..], id)
    ensures index < |now| && now[..index + 1] == was[..index + 1]
  {}

  class Scheduler {
    var queue: seq<nat>
    var has: set<nat>
    var index: nat
    var flushing: bool
    var waiting: bool
    ghost var log: seq<Event>
    /** Flushes handed to `nextTick` that have not started. */
    ghost var requested: nat

    /** Watchers queued and not yet started: during a flush the one at `index` is the running one. */
    ghost function Pending(): seq<nat>
      reads this
      requires flushing ==> index < |queue|
    {
      if flushing then queue[index + 1..] else queue
    }

    /** Every state `queueWatcher` can be called in: outside a flush, or inside a watcher's run. */
    ghost predicate Valid()
      reads this
    {
      && (flushing ==> index < |queue| && waiting && Increasing(Pending()))
      && (!flushing ==> index == 0 && NoDup(queue) && (waiting <==> queue != []))
      && has == Ids(Pending())
      && Accounts(log, has)
      && requested == (if waiting && !flushing then 1 else 0)
    }

    constructor ()
      ensures Valid() && !flushing && queue == [] && log == []
    {
      queue, has, index, flushing, waiting := [], {}, 0, false, false;
      log, requested := [], 0;
    }

    lemma WaitingWhenPending(id: nat)
      requires Valid() && id in has
      ensures waiting
    {}

    method QueueWatcher(id: nat)
      requires Valid()
      modifies this
      ensures Valid() && flushing == old(flushing) && index == old(index) && waiting
      ensures old(id in has) ==> queue == old(queue) && log == old(log)
      ensures old(id !in has) ==> log == old(log) + [Enqueued(id)]
      ensures has == old(has) + {id}
      ensures !flushing && old(id !in has) ==> queue == old(queue) + [id]
      ensures flushing && old(id !in has) ==>
                queue == old(queue)[..index + 1] + Inserted(old(queue)[index + 1..], id)
    {
      hide Increasing;
      hide Ids;
      hide NoDup;
      hide Inserted;
      hide Accounts;
      hide Balance;
      if id in has {
        WaitingWhenPending(id);
      } else {
        AccountsStep(log, has, Enqueued(id));
        if flushing {
          var n := Place(queue, index, id);
          queue := queue[..n + 1] + [id] + queue[n + 1..];
          InsertedPending(old(queue), queue, index, id);
        } else {
          DistinctAppend(queue, id);
          queue := queue + [id];
        }
        has := has + {id};
        log := log + [Enqueued(id)];
        if !waiting {
          waiting := true;
          requested := requested + 1;
        }
      }
    }

    /** Between two runs of a flush, and before the first: everything from `index` on is still to run. */
    ghost predicate Draining()
      reads this
    {
      && flushing && waiting && requested == 0 && index <= |queue|
      && Increasing(queue[index..])
      && has == Ids(queue[index..])
      && Accounts(log, has)
    }

    /** One turn of the flush loop; the watcher's run queues `xs`. */
    method RunNext(xs: seq<nat>)
      requires Draining() && index < |queue|
      modifies this
      ensures Draining() && index == old(index) + 1 && queue[..index] == old(queue)[..index]
      ensures has == old(has) - {old(queue)[old(index)]} + Ids(xs)
      ensures Least(old(has), old(queue)[old(index)])
      ensures RunsOf(log) == RunsOf(old(log)) + [old(queue)[old(index)]]
      ensures xs == [] ==> queue == old(queue)
    {
      hide Increasing;
      hide Ids;
      hide Accounts;
      hide Balance;
      hide RunsOf;
      hide Valid;
      hide Least;
      Remaining();
      FrontIsLeast(queue, index);
      StartRun();
      QueueAll(xs);
      TurnDone();
      index := index + 1;
    }

    lemma TurnDone()
      requires Valid() && flushing
      ensures waiting && requested == 0 && index < |queue|
      ensures Increasing(queue[index + 1..]) && has == Ids(queue[index + 1..]) && Accounts(log, has)
    {}

    method QueueDuringFlush(id: nat)
      requires Valid() && flushing
      modifies this
      ensures Valid() && flushing && index == old(index) && index < |queue|
      ensures queue[..index + 1] == old(queue)[..index + 1]
      ensures has == old(has) + {id} && RunsOf(log) == RunsOf(old(log))
    {
      hide Increasing;
      hide Ids;
      hide Accounts;
      hide Inserted;
      hide RunsOf;
      QueueWatcher(id);
      RunsAppend(old(log), Enqueued(id));
      KeptPrefix(old(queue), queue, index, id);
    }

    /** The body of the running watcher, as far as the queue sees it. */
    method QueueAll(xs: seq<nat>)
      requires Valid() && flushing && index < |queue|
      modifies this
      ensures Valid() && flushing && index == old(index) < |queue| && queue[..index + 1] == old(queue)[..index + 1]
      ensures has == old(has) + Ids(xs) && RunsOf(log) == RunsOf(old(log))
      ensures xs == [] ==> queue == old(queue)
    {
      hide *;
      IdsFirst(xs);
      if xs != [] {
        QueueDuringFlush(xs[0]);
        QueueAll(xs[1..]);
      }
    }

    /** The running watcher is no longer pending: it may be queued again from here on. */
    method StartRun()
      requires Draining() && index < |queue|
      modifies this
      ensures Valid() && flushing && index == old(index) && queue == old(queue)
      ensures queue[index] in old(has) && has == old(has) - {queue[index]} && log == old(log) + [Ran(queue[index])]
      ensures RunsOf(log) == RunsOf(old(log)) + [queue[index]]
    {
      hide Increasing;
      hide Ids;
      hide Accounts;
      hide Balance;
      HeadOnce(queue[index..]);
      assert queue[index..][0] == queue[index] && queue[index..][1..] == queue[index + 1..];
      AccountsStep(log, has, Ran(queue[index]));
      RunsAppend(log, Ran(queue[index]));
      has := has - {queue[index]};
      log := log + [Ran(queue[index])];
    }

    /** Start of `flushSchedulerQueue`. */
    method Begin()
      requires Valid() && !flushing && waiting
      modifies this
      ensures Draining() && index == 0 && queue == Sorted(old(queue)) && has == old(has) && log == old(log)
      ensures Increasing(queue)
    {
      hide Accounts;
      hide Balance;
      flushing := true;
      requested := requested - 1;
      SortedIncreasing(queue);
      queue := Sorted(queue);
      index := 0;
      assert queue[0..] == queue;
    }

    /** End of `flushSchedulerQueue`: `resetSchedulerState`. */
    method Reset()
      requires Draining() && index == |queue|
      modifies this
      ensures Valid() && !flushing && queue == [] && has == old(has) == {} && log == old(log)
    {
      assert queue[index..] == [] && has == {};
      index, queue, has := 0, [], {};
      waiting, flushing := false, false;
    }

    /**
     * A whole flush in which the k-th run queues `script[k]` and runs beyond the script queue nothing.
     * Every flush that ends has such a script. Nothing is pending afterwards.
     */
    method Flush(script: seq<seq<nat>>) returns (ran: seq<nat>)
      requires Valid() && !flushing && waiting
      modifies this
      ensures Valid() && !flushing && has == {} && queue == []
      ensures forall id :: Balance(log, id) == 0
      ensures RunsOf(log) == RunsOf(old(log)) + ran
      ensures LeastFirst(old(has), ran, Padded(script, |ran|)) && StillPending(old(has), ran, Padded(script, |ran|)) == {}
      ensures forall id :: id in old(has) ==> id in ran
      ensures forall k, id :: 0 <= k < |ran| && k < |script| && id in script[k] ==>
                exists j :: k < j < |ran| && ran[j] == id
      ensures forall j :: 0 <= j < |ran| ==>
                ran[j] in old(has) || exists k :: 0 <= k < j && k < |script| && ran[j] in script[k]
    {
      hide *;
      Begin();
      var runs := 0;
      NothingRan(queue, log);
      NothingYet(has);
      while index < |queue|
        invariant Draining() && runs == index <= |queue|
        invariant RunsOf(log) == RunsOf(old(log)) + queue[..index]
        invariant LeastFirst(old(has), queue[..index], Padded(script, index))
        invariant StillPending(old(has), queue[..index], Padded(script, index)) == has
        decreases if runs < |script| then |script| - runs else 0, |queue| - index
      {
        ghost var was := queue;
        var xs := if runs < |script| then script[runs] else [];
        Remaining();
        RunNext(xs);
        Remaining();
        PrefixGrows(was, queue, runs);
        PaddedNext(script, runs);
        RunExtends(old(has), was[..runs], Padded(script, runs), was[runs], xs);
        runs := runs + 1;
      }
      Remaining();
      assert queue[..index] == queue;
      ran := queue;
      Reset();
      NothingPending();
      QueuedRunsLater(old(has), ran, Padded(script, |ran|));
      FirstRun(old(has), ran, Padded(script, |ran|));
    }

    /**
     * A flush in which every run queues only watchers with larger ids from a finite set: it terminates,
     * and the watchers run once each, in increasing order of their ids.
     */
    method FlushForward(queues: (nat, nat) -> seq<nat>, ghost universe: set<nat>) returns (ran: seq<nat>)
      requires Valid() && !flushing && waiting && has <= universe
      requires forall k: nat, id: nat :: AllAbove(Ids(queues(k, id)), id) && Ids(queues(k, id)) <= universe
      modifies this
      ensures Valid() && !flushing && has == {} && queue == []
      ensures Increasing(ran) && old(has) <= Ids(ran) <= universe && RunsOf(log) == RunsOf(old(log)) + ran
      ensures LeastFirst(old(has), ran, Answers(queues, ran)) && StillPending(old(has), ran, Answers(queues, ran)) == {}
      ensures forall k, id :: 0 <= k < |ran| && id in queues(k, ran[k]) ==> exists j :: k < j < |ran| && ran[j] == id
      ensures forall j :: 0 <= j < |ran| ==>
                ran[j] in old(has) || exists k :: 0 <= k < j && ran[j] in queues(k, ran[k])
    {
      hide *;
      Begin();
      ForwardStart(queue, has, universe);
      ghost var last: int := -1;
      NothingRan(queue, log);
      NothingYet(has);
      while index < |queue|
        invariant Draining() && index <= |queue|
        invariant Forward(queue, index, has, universe, old(has), last)
        invariant RunsOf(log) == RunsOf(old(log)) + queue[..index]
        invariant LeastFirst(old(has), queue[..index], Answers(queues, queue[..index]))
        invariant StillPending(old(has), queue[..index], Answers(queues, queue[..index])) == has
        decreases Above(universe, last)
      {
        ghost var was, had := queue, has;
        var id := queue[index];
        var xs := queues(index, id);
        Remaining();
        RunNext(xs);
        Remaining();
        ForwardStep(was, queue, index - 1, had, has, xs, universe, old(has), last);
        AnswersNext(queues, was[..index - 1], id);
        RunExtends(old(has), was[..index - 1], Answers(queues, was[..index - 1]), id, xs);
        last := id;
      }
      Remaining();
      assert queue[..index] == queue;
      ForwardEnd(queue, index, has, universe, old(has), last);
      ran := queue;
      Reset();
      QueuedRunsLater(old(has), ran, Answers(queues, ran));
    }

    lemma NothingPending()
      requires Valid() && has == {}
      ensures forall id :: Balance(log, id) == 0
    {}

    lemma Remaining()
      requires Draining()
      ensures index <= |queue| && Increasing(queue[index..]) && has == Ids(queue[index..])
    {}
  }

  /** How far an increasing flush has come: nothing that waits is at or below the last one that ran. */
  ghost predicate Forward(queue: seq<nat>, index: nat, has: set<nat>, universe: set<nat>, first: set<nat>, last: int) {
    && index <= |queue| && Increasing(queue)
    && Ids(queue[..index]) + has <= universe && first <= Ids(queue[..index]) + has
    && AllAbove(has, last)
  }

  lemma ForwardStart(queue: seq<nat>, has: set<nat>, universe: set<nat>)
    requires Increasing(queue) && has <= universe
    ensures Forward(queue, 0, has, universe, has, -1)
  {}

  lemma NothingRan(queue: seq<nat>, log: seq<Event>)
    ensures RunsOf(log) == RunsOf(log) + queue[..0]
  {}

  lemma ForwardStep(was: seq<nat>, now: seq<nat>, index: nat, had: set<nat>, has: set<nat>, xs: seq<nat>,
                    universe: set<nat>, first: set<nat>, last: int)
    requires index < |was| && Forward(was, index, had, universe, first, last)
    requires Increasing(was[index..]) && had == Ids(was[index..])
    requires index < |now| && now[..index + 1] == was[..index + 1]
    requires Increasing(now[index + 1..]) && has == Ids(now[index + 1..])
    requires has == had - {was[index]} + Ids(xs) && AllAbove(Ids(xs), was[index]) && Ids(xs) <= universe
    ensures Forward(now, index + 1, has, universe, first, was[index])
    ensures Above(universe, was[index]) < Above(universe, last)
    ensures now[..index + 1] == was[..index] + [was[index]]
  {
    hide Increasing, Ids, AllAbove, Above;
    HeadOnce(was[index..]);
    assert was[index..][0] == was[index];
    AllLarger(was[index..]);
    AboveShrinks(universe, had, last, was[index], Ids(xs));
    PrefixGrows(was, now, index);
    StillIncreasing(was, now, index);
  }

  lemma ForwardEnd(queue: seq<nat>, index: nat, has: set<nat>, universe: set<nat>, first: set<nat>, last: int)
    requires Forward(queue, index, has, universe, first, last) && index == |queue| && has == Ids(queue[index..])
    ensures Increasing(queue) && first <= Ids(queue) <= universe
  {
    assert queue[..index] == queue && queue[index..] == [];
  }

  ghost predicate AllAbove(s: set<nat>, id: int) {
    forall x :: x in s ==> id < x
  }

  ghost function Above(s: set<nat>, id: int): set<nat> {
    set x | x in s && id < x
  }

  lemma AboveShrinks(universe: set<nat>, has: set<nat>, last: int, id: nat, more: set<nat>)
    requires has <= universe && id in has && AllAbove(has, last) && AllAbove(has - {id}, id) && AllAbove(more, id)
    ensures Above(universe, id) < Above(universe, last) && AllAbove(has - {id} + more, id)
  {
    assert id in Above(universe, last) && id !in Above(universe, id);
  }

  lemma AllLarger(s: seq<nat>)
    requires Increasing(s) && s != []
    ensures AllAbove(Ids(s) - {s[0]}, s[0])
  {}

  lemma FrontIsLeast(queue: seq<nat>, index: nat)
    requires index < |queue| && Increasing(queue[index..])
    ensures Least(Ids(queue[index..]), queue[index])
  {
    assert queue[index..][0] == queue[index];
  }

  lemma PrefixGrows(was: seq<nat>, now: seq<nat>, n: nat)
    requires n < |was| && n < |now| && now[..n + 1] == was[..n + 1]
    ensures Ids(now[..n + 1]) == Ids(was[..n]) + {was[n]}
    ensures now[..n + 1] == was[..n] + [was[n]]
  {}

  lemma IncreasingConcat(a: seq<nat>, b: seq<nat>)
    ensures Increasing(a + b) <==> Increasing(a) && Increasing(b) && forall x, y :: x in a && y in b ==> x < y
  {
    var ab := a + b;
    assert forall i :: 0 <= i < |a| ==> ab[i] == a[i];
    assert forall i :: 0 <= i < |b| ==> ab[|a| + i] == b[i];
    if Increasing(ab) {
      forall x, y | x in a && y in b ensures x < y {
        var i :| 0 <= i < |a| && a[i] == x;
        var j :| 0 <= j < |b| && b[j] == y;
        assert ab[i] < ab[|a| + j];
      }
    }
    if Increasing(a) && Increasing(b) && forall x, y :: x in a && y in b ==> x < y {
      forall i, j | 0 <= i < j < |ab| ensures ab[i] < ab[j] {
        if j < |a| {
          assert ab[i] == a[i] && ab[j] == a[j];
        } else if i < |a| {
          assert a[i] in a && b[j - |a|] in b;
        } else {
          assert ab[i] == b[i - |a|] && ab[j] == b[j - |a|];
        }
      }
    }
  }

  /** `splice` at the place found by the search from the right puts the id where it belongs. */
  lemma SplicedIn(queue: seq<nat>, index: nat, n: nat, id: nat)
    requires index <= n < |queue| && Increasing(queue[index + 1..]) && id !in Ids(queue[index + 1..])
    requires forall i :: n < i < |queue| ==> queue[i] > id
    requires n > index ==> queue[n] <= id
    ensures queue[..n + 1] + [id] + queue[n + 1..] == queue[..index + 1] + Inserted(queue[index + 1..], id)
  {
    hide Increasing;
    hide Ids;
    hide Inserted;
    var low, high := queue[index + 1..n + 1], queue[n + 1..];
    assert queue[index + 1..] == low + high;
    IncreasingConcat(low, high);
    IdsConcat(low, high);
    LowPart(low, id);
    InsertedBetween(low, high, id);
    assert queue[..n + 1] == queue[..index + 1] + low;
  }

  lemma LowPart(low: seq<nat>, id: nat)
    requires Increasing(low) && id !in Ids(low) && (low != [] ==> low[|low| - 1] <= id)
    ensures forall i :: 0 <= i < |low| ==> low[i] < id
  {}

  lemma {:induction false} InsertedBetween(low: seq<nat>, high: seq<nat>, id: nat)
    requires forall i :: 0 <= i < |low| ==> low[i] < id
    requires forall i :: 0 <= i < |high| ==> high[i] > id
    ensures Inserted(low + high, id) == low + [id] + high
  {
    if low == [] {
      assert low + high == high && low + [id] + high == [id] + high;
    } else {
      assert (low + high)[1..] == low[1..] + high;
      InsertedBetween(low[1..], high, id);
      assert low + [id] + high == [low[0]] + (low[1..] + [id] + high);
    }
  }

  lemma DistinctAppend(s: seq<nat>, id: nat)
    requires NoDup(s) && id !in Ids(s)
    ensures NoDup(s + [id]) && Ids(s + [id]) == Ids(s) + {id}
  {}

  lemma BelowLast(s: seq<nat>, x: nat)
    requires Increasing(s) && x in s
    ensures x <= s[|s| - 1]
  {}

  lemma HeadOnce(s: seq<nat>)
    requires Increasing(s) && s != []
    ensures Increasing(s[1..]) && Ids(s[1..]) == Ids(s) - {s[0]} && s[0] in Ids(s)
  {}

  /** What was run stays in front, and everything still to run is larger. */
  lemma StillIncreasing(was: seq<nat>, now: seq<nat>, n: nat)
    requires n < |was| && n < |now| && Increasing(was) && now[..n + 1] == was[..n + 1] && Increasing(now[n + 1..])
    requires AllAbove(Ids(now[n + 1..]), was[n])
    ensures Increasing(now)
  {
    assert was == was[..n + 1] + was[n + 1..] && now == now[..n + 1] + now[n + 1..];
    IncreasingConcat(was[..n + 1], was[n + 1..]);
    var ran, rest := was[..n + 1], now[n + 1..];
    forall x, y | x in ran && y in rest ensures x < y {
      BelowLast(ran, x);
      assert y in Ids(rest);
    }
    IncreasingConcat(now[..n + 1], now[n + 1..]);
  }
}
