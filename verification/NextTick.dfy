/**
 * `nextTick`: callbacks are collected and handed to the host as one batch. The host runs a batch after
 * the current code has ended; a callback may register more callbacks, which go into the next batch.
 */
module NextTicks {
  type Callback = nat

  /** What the calls from the a-th up to the b-th register, in order. */
  ghost function RegisteredBy(registers: nat -> seq<Callback>, a: nat, b: nat): seq<Callback>
    decreases b
  {
    if b <= a then [] else RegisteredBy(registers, a, b - 1) + registers(b - 1)
  }

  /** From the start-th call on the script says what is registered, and beyond its end nothing is. */
  function Scripted(script: seq<seq<Callback>>, start: nat): nat -> seq<Callback> {
    (k: nat) => if start <= k < start + |script| then script[k - start] else []
  }

  lemma {:induction false} RegisteredSplit(registers: nat -> seq<Callback>, a: nat, b: nat, c: nat)
    requires a <= b <= c
    ensures RegisteredBy(registers, a, c) == RegisteredBy(registers, a, b) + RegisteredBy(registers, b, c)
    decreases c
  {
    if b == c {
      assert RegisteredBy(registers, a, b) + [] == RegisteredBy(registers, a, b);
    } else {
      RegisteredSplit(registers, a, b, c - 1);
    }
  }

  lemma {:induction false} NothingRegistered(registers: nat -> seq<Callback>, a: nat, b: nat)
    requires forall k :: a <= k < b ==> registers(k) == []
    ensures RegisteredBy(registers, a, b) == []
    decreases b
  {
    if b <= a {
    } else {
      NothingRegistered(registers, a, b - 1);
    }
  }

  lemma BatchStart(copies: seq<Callback>, called: seq<Callback>, registers: nat -> seq<Callback>, calls: nat)
    ensures copies[0..] == copies && called + copies[..0] == called && RegisteredBy(registers, calls, calls) == []
  {}

  /** One more call of a batch. */
  lemma BatchStep(copies: seq<Callback>, t: nat, called: seq<Callback>, registered: seq<Callback>,
                  registers: nat -> seq<Callback>, calls: nat)
    requires t < |copies|
    ensures copies[t..] != [] && copies[t..][0] == copies[t] && copies[t..][1..] == copies[t + 1..]
    ensures called + copies[..t] + [copies[t]] == called + copies[..t + 1]
    ensures var made, more := RegisteredBy(registers, calls, calls + t), registers(calls + t);
            && RegisteredBy(registers, calls, calls + t + 1) == made + more
            && registered + made + more == registered + (made + more)
  {
    assert copies[..t + 1] == copies[..t] + [copies[t]];
  }

  lemma ScriptGoesOn(script: seq<seq<Callback>>, start: nat, b: nat, c: nat, first: seq<Callback>, made: seq<Callback>)
    requires start <= b <= c && made == first + RegisteredBy(Scripted(script, start), start, b)
    ensures made + RegisteredBy(Scripted(script, start), b, c) == first + RegisteredBy(Scripted(script, start), start, c)
    ensures b >= start + |script| ==> RegisteredBy(Scripted(script, start), b, c) == []
  {
    hide RegisteredBy;
    RegisteredSplit(Scripted(script, start), start, b, c);
    if b >= start + |script| {
      NothingRegistered(Scripted(script, start), b, c);
    }
  }

  lemma NoneRegisteredYet(registers: nat -> seq<Callback>, a: nat, s: seq<Callback>)
    ensures s == s + RegisteredBy(registers, a, a)
  {}

  class NextTick {
    var callbacks: seq<Callback>
    var pending: bool
    /** Batches handed to the host and not started. */
    ghost var outstanding: nat
    /** All callbacks registered so far, and all that were called so far, in order. */
    ghost var registered: seq<Callback>
    ghost var called: seq<Callback>
    /** What is left of the batch being run. */
    ghost var rest: seq<Callback>

    ghost predicate Valid()
      reads this
    {
      && outstanding == (if pending then 1 else 0)
      && (pending <==> callbacks != [])
      && registered == called + rest + callbacks
    }

    constructor ()
      ensures Valid() && registered == called == rest == [] && !pending
    {
      callbacks, pending := [], false;
      outstanding, registered, called, rest := 0, [], [], [];
    }

    method Register(cb: Callback)
      requires Valid()
      modifies this
      ensures Valid() && pending && registered == old(registered) + [cb] && callbacks == old(callbacks) + [cb]
      ensures called == old(called) && rest == old(rest)
      ensures outstanding == old(outstanding) + (if old(pending) then 0 else 1)
    {
      callbacks := callbacks + [cb];
      registered := registered + [cb];
      if !pending {
        pending := true;
        outstanding := outstanding + 1;
      }
    }

    method RegisterAll(cbs: seq<Callback>)
      requires Valid()
      modifies this
      ensures Valid() && registered == old(registered) + cbs && callbacks == old(callbacks) + cbs
      ensures called == old(called) && rest == old(rest)
    {
      for i := 0 to |cbs|
        invariant Valid() && registered == old(registered) + cbs[..i] && callbacks == old(callbacks) + cbs[..i]
        invariant called == old(called) && rest == old(rest)
      {
        Register(cbs[i]);
      }
    }

    /** One callback runs and registers others. */
    method Call(registers: seq<Callback>)
      requires Valid() && rest != []
      modifies this
      ensures Valid() && called == old(called) + [old(rest)[0]] && rest == old(rest)[1..]
      ensures registered == old(registered) + registers && callbacks == old(callbacks) + registers
    {
      assert rest == [rest[0]] + rest[1..];
      called, rest := called + [rest[0]], rest[1..];
      assert registered == called + rest + callbacks;
      RegisterAll(registers);
    }

    /**
     * One batch. The callback that is the k-th to be called since the start registers `registers(k)`
     * while it runs, and that makes up the next batch.
     */
    method FlushCallbacks(registers: nat -> seq<Callback>, calls: nat)
      requires Valid() && pending && rest == [] && calls == |called|
      modifies this
      ensures Valid() && rest == []
      ensures called == old(registered) && old(callbacks) <= called[calls..]
      ensures registered == old(registered) + callbacks
      ensures callbacks == RegisteredBy(registers, calls, |called|)
    {
      hide RegisteredBy;
      var copies := callbacks;
      pending, callbacks := false, [];
      outstanding := outstanding - 1;
      rest := copies;
      assert called + [] + copies == called + copies + [] && registered + [] == registered;
      BatchStart(copies, called, registers, calls);
      for t := 0 to |copies|
        invariant Valid() && rest == copies[t..] && called == old(called) + copies[..t]
        invariant registered == old(registered) + callbacks
        invariant callbacks == RegisteredBy(registers, calls, calls + t)
      {
        BatchStep(copies, t, old(called), old(registered), registers, calls);
        Call(registers(calls + t));
      }
      assert copies[..|copies|] == copies;
    }

    /**
     * The host's loop when only the next calls register something, as the script says: in the end nothing
     * is left, and every callback was called exactly once, in the order of registration, whatever the
     * batches were. What the calls registered comes after what was registered before.
     */
    method RunToEnd(script: seq<seq<Callback>>, start: nat)
      requires Valid() && rest == [] && start == |called|
      modifies this
      ensures Valid() && !pending && outstanding == 0
      ensures called == registered
      ensures registered == old(registered) + RegisteredBy(Scripted(script, start), start, |called|)
    {
      hide RegisteredBy, Scripted;
      var registers := Scripted(script, start);
      NoneRegisteredYet(registers, start, registered);
      var calls := start;
      while pending
        invariant Valid() && rest == [] && start <= calls == |called|
        invariant registered == old(registered) + RegisteredBy(registers, start, calls)
        decreases if calls < start + |script| then start + |script| - calls else 0, |callbacks|
      {
        ghost var was := |callbacks|;
        assert was > 0 && |registered| == |called| + was;
        ghost var before, made := calls, registered;
        calls := calls + |callbacks|;
        FlushCallbacks(registers, calls - |callbacks|);
        ScriptGoesOn(script, start, before, calls, old(registered), made);
      }
    }
  }
}
