/** Which watchers a flush runs, and in which order, told by what their runs queue. */
module FlushOrder {
  import opened Sequences

  ghost predicate Least(s: set<nat>, x: nat) {
    x in s && forall y :: y in s ==> x <= y
  }

  /** The watchers pending after the runs of `ran`, of which the k-th queued `queued[k]`. */
  ghost function StillPending(first: set<nat>, ran: seq<nat>, queued: seq<seq<nat>>): set<nat>
    requires |ran| == |queued|
  {
    if ran == [] then first
    else
      var n := |ran| - 1;
      StillPending(first, ran[..n], queued[..n]) - {ran[n]} + Ids(queued[n])
  }

  /** Each run is that of the pending watcher with the least id. */
  ghost predicate LeastFirst(first: set<nat>, ran: seq<nat>, queued: seq<seq<nat>>)
    requires |ran| == |queued|
  {
    forall k :: 0 <= k < |ran| ==> Least(StillPending(first, ran[..k], queued[..k]), ran[k])
  }

  lemma RunExtends(first: set<nat>, ran: seq<nat>, queued: seq<seq<nat>>, id: nat, xs: seq<nat>)
    requires |ran| == |queued| && LeastFirst(first, ran, queued) && Least(StillPending(first, ran, queued), id)
    ensures LeastFirst(first, ran + [id], queued + [xs])
    ensures StillPending(first, ran + [id], queued + [xs]) == StillPending(first, ran, queued) - {id} + Ids(xs)
  {
    var ran', queued' := ran + [id], queued + [xs];
    assert ran'[..|ran|] == ran && queued'[..|ran|] == queued;
    forall k | 0 <= k < |ran'| ensures Least(StillPending(first, ran'[..k], queued'[..k]), ran'[k]) {
      assert ran'[..k] == ran[..k] && queued'[..k] == queued[..k];
    }
  }

  /** What is pending is run before nothing is pending any more. */
  lemma {:induction false} PendingRuns(first: set<nat>, ran: seq<nat>, queued: seq<seq<nat>>, k: nat, id: nat)
    returns (j: nat)
    requires |ran| == |queued| && StillPending(first, ran, queued) == {}
    requires k <= |ran| && id in StillPending(first, ran[..k], queued[..k])
    ensures k <= j < |ran| && ran[j] == id
    decreases |ran| - k
  {
    assert ran[..|ran|] == ran && queued[..|ran|] == queued;
    if ran[k] == id {
      j := k;
    } else {
      assert ran[..k + 1][..k] == ran[..k] && queued[..k + 1][..k] == queued[..k];
      j := PendingRuns(first, ran, queued, k + 1, id);
    }
  }

  /** What is pending was so from the start or was queued by a run. */
  lemma {:induction false} PendingFrom(first: set<nat>, ran: seq<nat>, queued: seq<seq<nat>>, id: nat)
    requires |ran| == |queued| && id in StillPending(first, ran, queued)
    ensures id in first || exists k :: 0 <= k < |ran| && id in queued[k]
  {
    if ran == [] {
    } else {
      var n := |ran| - 1;
      if id !in queued[n] {
        PendingFrom(first, ran[..n], queued[..n], id);
        if id !in first {
          var k :| 0 <= k < n && id in queued[..n][k];
          assert id in queued[k];
        }
      }
    }
  }

  lemma QueuedPending(first: set<nat>, ran: seq<nat>, queued: seq<seq<nat>>, k: nat, id: nat)
    requires k < |ran| == |queued| && id in queued[k]
    ensures id in StillPending(first, ran[..k + 1], queued[..k + 1])
  {
    assert ran[..k + 1][..k] == ran[..k] && queued[..k + 1][..k] == queued[..k];
  }

  lemma RanPending(first: set<nat>, ran: seq<nat>, queued: seq<seq<nat>>, j: nat)
    requires j < |ran| == |queued| && LeastFirst(first, ran, queued)
    ensures ran[j] in StillPending(first, ran[..j], queued[..j])
  {}

  /**
   * In a flush that leaves nothing pending, whatever a run queues is run after it, and nothing is run
   * that was neither pending at the start nor queued by an earlier run.
   */
  lemma QueuedRunsLater(first: set<nat>, ran: seq<nat>, queued: seq<seq<nat>>)
    requires |ran| == |queued| && LeastFirst(first, ran, queued) && StillPending(first, ran, queued) == {}
    ensures forall k, id :: 0 <= k < |ran| && id in queued[k] ==> exists j :: k < j < |ran| && ran[j] == id
    ensures forall j :: 0 <= j < |ran| ==> ran[j] in first || exists k :: 0 <= k < j && ran[j] in queued[k]
  {
    hide StillPending, LeastFirst;
    forall k, id | 0 <= k < |ran| && id in queued[k] ensures exists j :: k < j < |ran| && ran[j] == id {
      QueuedPending(first, ran, queued, k, id);
      var j := PendingRuns(first, ran, queued, k + 1, id);
    }
    forall j | 0 <= j < |ran| ensures ran[j] in first || exists k :: 0 <= k < j && ran[j] in queued[k] {
      RanPending(first, ran, queued, j);
      PendingFrom(first, ran[..j], queued[..j], ran[j]);
      if ran[j] !in first {
        var k :| 0 <= k < j && ran[j] in queued[..j][k];
        assert ran[j] in queued[k];
      }
    }
  }

  /** What the runs of a script queue: beyond its end they queue nothing. */
  ghost function Padded(script: seq<seq<nat>>, n: nat): (r: seq<seq<nat>>)
    ensures |r| == n && forall k :: 0 <= k < n ==> r[k] == if k < |script| then script[k] else []
  {
    seq(n, k requires 0 <= k < n => if k < |script| then script[k] else [])
  }

  lemma PaddedNext(script: seq<seq<nat>>, n: nat)
    ensures Padded(script, n + 1) == Padded(script, n) + [if n < |script| then script[n] else []]
  {}

  /** What the runs queue when that depends on the watcher. */
  ghost function Answers(queues: (nat, nat) -> seq<nat>, ran: seq<nat>): (r: seq<seq<nat>>)
    ensures |r| == |ran| && forall k :: 0 <= k < |ran| ==> r[k] == queues(k, ran[k])
  {
    seq(|ran|, k requires 0 <= k < |ran| => queues(k, ran[k]))
  }

  lemma AnswersNext(queues: (nat, nat) -> seq<nat>, ran: seq<nat>, id: nat)
    ensures Answers(queues, ran + [id]) == Answers(queues, ran) + [queues(|ran|, id)]
  {}

  lemma NothingYet(first: set<nat>)
    ensures LeastFirst(first, [], []) && StillPending(first, [], []) == first
  {}

  lemma FirstRun(first: set<nat>, ran: seq<nat>, queued: seq<seq<nat>>)
    requires |ran| == |queued| && StillPending(first, ran, queued) == {}
    ensures forall id :: id in first ==> id in ran
  {
    forall id | id in first ensures id in ran {
      assert ran[..0] == [] && queued[..0] == [];
      var j := PendingRuns(first, ran, queued, 0, id);
    }
  }
}
