/** When generated code gives proper trees. */
module Conditions {
  import opened Templates
  import opened Codegen
  import opened StaticTrees

  // ----- conditions on the template

  /**
   * There are no slots, only else blocks are attached to conditions, and the trees that get hoisted
   * survive being cloned.
   */
  ghost predicate Supported(n: Node, p: Place, reserved: string -> bool)
    decreases n
  {
    n.Element? ==>
      && n.tag != "slot"
      && (StaticRoot(n, p, reserved) ==> Cloneable(n, p))
      && (forall i :: 0 <= i < |n.children| ==> Supported(n.children[i], Below(n, p, reserved), reserved))
      && (n.cond.If? ==>
            forall i :: 0 <= i < |n.cond.others| ==>
              IsBlock(n.cond.others[i]) && Supported(n.cond.others[i], Beside(n, p, reserved), reserved))
  }

  predicate IsBlock(n: Node) {
    n.Element? && !n.cond.If?
  }

  /**
   * A single looping child has no template or looping else block. Such a child is generated without a
   * normalisation type, so the arrays of those blocks would stay nested.
   */
  ghost predicate Sound(n: Node)
    decreases n
  {
    n.Element? ==>
      && (n.tag != "template" && IsBare(n.children) ==> !AnyNeedsFlattening(Others(n.children[0])))
      && (forall i :: 0 <= i < |n.children| ==> Sound(n.children[i]))
      && (n.cond.If? ==> forall i :: 0 <= i < |n.cond.others| ==> Sound(n.cond.others[i]))
  }

  // ----- the same condition in one scope, for what is rendered there

  ghost predicate SoundAt(n: Node, env: Env)
    decreases n, 3
  {
    if n.Element? && n.loop.For? then
      var list := n.loop.source(env);
      list.Some? ==> forall k :: 0 <= k < |list.value| ==> SoundOnce(n, n.loop.bind(env, list.value[k], k))
    else SoundOnce(n, env)
  }

  ghost predicate SoundOnce(n: Node, env: Env)
    decreases n, 1
  {
    n.Element? ==> if n.cond.If? && !n.cond.test(env) then SoundOthers(n.cond.others, env) else SoundBody(n, env)
  }

  ghost predicate SoundBody(n: Node, env: Env)
    requires n.Element?
    decreases n, 0
  {
    && (forall i :: 0 <= i < |n.children| ==> SoundAt(n.children[i], env))
    && (n.tag != "template" && IsBare(n.children) ==> SingleTurns(n.children[0], env))
  }

  ghost predicate SoundOthers(others: seq<Node>, env: Env)
    decreases others
  {
    others != [] ==> if Taken(others[0], env) then SoundAt(others[0], env) else SoundOthers(others[1..], env)
  }

  /** Every turn of the loop ends in a block that is one node. */
  ghost predicate SingleTurns(n: Node, env: Env)
    requires n.Element? && n.loop.For?
  {
    var list := n.loop.source(env);
    list.Some? ==> forall k :: 0 <= k < |list.value| ==> SingleOnce(n, n.loop.bind(env, list.value[k], k))
  }

  predicate SingleOnce(n: Node, env: Env)
    requires n.Element?
  {
    if n.cond.If? && !n.cond.test(env) then SingleOther(n.cond.others, env) else n.tag != "template"
  }

  predicate SingleOther(others: seq<Node>, env: Env) {
    others != [] ==> if Taken(others[0], env) then !NeedsFlattening(others[0]) else SingleOther(others[1..], env)
  }

  /** The condition on the template guarantees the condition in every scope. */
  lemma {:induction false} SoundEverywhere(n: Node, env: Env)
    requires Sound(n)
    ensures SoundAt(n, env)
    decreases n, 1
  {
    if n.Element? {
      if n.loop.For? && n.loop.source(env).Some? {
        var list := n.loop.source(env).value;
        forall k | 0 <= k < |list| ensures SoundOnce(n, n.loop.bind(env, list[k], k)) {
          SoundEveryTurn(n, n.loop.bind(env, list[k], k));
        }
      }
      SoundEveryTurn(n, env);
    }
  }

  lemma {:induction false} SoundEveryTurn(n: Node, env: Env)
    requires n.Element? && Sound(n)
    ensures SoundOnce(n, env)
    decreases n, 0
  {
    forall i | 0 <= i < |n.children| ensures SoundAt(n.children[i], env) {
      SoundEverywhere(n.children[i], env);
    }
    if n.tag != "template" && IsBare(n.children) {
      var c := n.children[0];
      forall env' ensures SingleOnce(c, env') {
        if c.cond.If? {
          NoneNeedsFlattening(c.cond.others, env');
        }
      }
    }
    if n.cond.If? {
      SoundOthersEverywhere(n.cond.others, env);
    }
  }

  lemma {:induction false} SoundOthersEverywhere(others: seq<Node>, env: Env)
    requires forall i :: 0 <= i < |others| ==> Sound(others[i])
    ensures SoundOthers(others, env)
    decreases others, 0
  {
    if others == [] {
    } else {
      SoundEverywhere(others[0], env);
      SoundOthersEverywhere(others[1..], env);
    }
  }

  lemma {:induction false} NoneNeedsFlattening(others: seq<Node>, env: Env)
    requires !AnyNeedsFlattening(others)
    ensures SingleOther(others, env)
    decreases others
  {
    if others == [] {
    } else {
      assert !NeedsFlattening(others[0]);
      assert forall i :: 0 <= i < |others| - 1 ==> others[1..][i] == others[i + 1];
      NoneNeedsFlattening(others[1..], env);
    }
  }
}
