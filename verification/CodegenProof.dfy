/** Generated code means what the template means, over any sequence of renders with the shared static trees. */
module CodegenProof {
  import opened Options
  import opened Values
  import opened Trees
  import opened Normalization
  import opened Templates
  import opened ShownTokens
  import opened Codegen
  import opened StaticTrees
  import opened Conditions

  // ----- what the code of a node evaluates to

  /** Nodes, nested arrays of nodes, or nothing. */
  predicate Shape(v: Value)
    decreases v
  {
    IsNode(v) || v.Undefined? || (v.Array? && forall i :: 0 <= i < |v.items| ==> Shape(v.items[i]))
  }

  /** The same, where the nodes are proper trees. */
  predicate Loose(v: Value)
    decreases v
  {
    Proper(v) || v.Undefined? || (v.Array? && forall i :: 0 <= i < |v.items| ==> Loose(v.items[i]))
  }

  /** What is left of the meaning of a node, and of the conditions on it, once the flags are set. */
  ghost function Expected(n: Node, done: Done, env: Env): seq<Value> {
    if n.Element? && (n.loop.For? ==> done.looped) then
      if n.cond.If? && !done.tested then InterpOnce(n, env) else InterpBody(n, env)
    else Interp(n, env)
  }

  ghost predicate SoundNow(n: Node, done: Done, env: Env) {
    if n.Element? && (n.loop.For? ==> done.looped) then
      if n.cond.If? && !done.tested then SoundOnce(n, env) else SoundBody(n, env)
    else SoundAt(n, env)
  }

  /** The node contributes exactly one node to the list of its parent. */
  ghost predicate SingleNow(n: Node, done: Done, env: Env) {
    n.Element? ==>
      && (n.loop.For? ==> done.looped)
      && (if n.cond.If? && !done.tested then SingleOnce(n, env) else n.tag != "template")
  }

  /** A value with the meaning of a node: proper and single exactly when the conditions hold. */
  ghost predicate Right(n: Node, done: Done, env: Env, v: Value) {
    Means(v, Expected(n, done, env), SoundNow(n, done, env), SingleNow(n, done, env))
  }

  predicate Means(v: Value, nodes: seq<Value>, sound: bool, single: bool) {
    && Markup(v) == MarkupAll(nodes)
    && Kind(v, sound, single)
  }

  predicate Kind(v: Value, sound: bool, single: bool) {
    Shape(v) && (Loose(v) <==> sound) && (IsNode(v) <==> single)
  }

  ghost predicate AllRight(ns: seq<Node>, env: Env, vs: seq<Value>) {
    && |vs| == |ns|
    && MarkupAll(vs) == MarkupAll(InterpAll(ns, env))
    && forall i :: 0 <= i < |ns| ==> Kind(vs[i], SoundAt(ns[i], env), SingleNow(ns[i], FRESH, env))
  }

  /** The values of the turns from k on. */
  ghost predicate TurnsRight(n: Node, done: Done, list: seq<Item>, k: nat, env: Env, vs: seq<Value>)
    requires n.Element? && n.loop.For? && k <= |list|
  {
    && |vs| == |list| - k
    && MarkupAll(vs) == MarkupAll(InterpTurns(n, list, k, env))
    && forall i :: k <= i < |list| ==>
         var env' := n.loop.bind(env, list[i], i); Kind(vs[i - k], SoundNow(n, done, env'), SingleNow(n, done, env'))
  }

  /** Cached trees are the values of their static render functions. */
  ghost predicate CacheOk(cache: Cache, fns: seq<Code>) {
    forall i :: i in cache ==> i < |fns| && cache[i] == ValueOf(fns[i])
  }

  /** The flags are set in the order loop, condition. */
  predicate InOrder(n: Node, done: Done) {
    n.Element? && n.loop.For? && done.tested ==> done.looped
  }

  lemma {:induction false} EvalGen(n: Node, p: Place, done: Done, fns: seq<Code>, all: seq<Code>,
                                   env: Env, root: Env, cache: Cache, reserved: string -> bool)
    requires Supported(n, p, reserved) && InOrder(n, done)
    requires Gen(n, p, done, fns, reserved).1 <= all && AllClosed(all) && CacheOk(cache, all)
    ensures var out := Eval(Gen(n, p, done, fns, reserved).0, env, root, all, |all|, cache);
            Right(n, done, env, out.value) && CacheOk(out.cache, all)
    decreases n, Left(done), 1
  {
    if !n.Element? {
      EvalLeaf(n, p, done, fns, all, env, root, cache, reserved);
    } else if StaticRoot(n, p, reserved) && !done.hoisted {
      EvalHoisted(n, p, done, fns, all, env, root, cache, reserved);
    } else if n.loop.For? && !done.looped {
      EvalLoop(n, p, done, fns, all, env, root, cache, reserved);
    } else if n.cond.If? && !done.tested {
      EvalIf(n, p, done, fns, all, env, root, cache, reserved);
    } else {
      EvalBodyGen(n, p, fns, all, env, root, cache, reserved);
      BodyGen(n, p, done, fns, reserved);
      BodyExpected(n, done, env);
    }
  }

  lemma EvalLeaf(n: Node, p: Place, done: Done, fns: seq<Code>, all: seq<Code>, env: Env, root: Env, cache: Cache,
                 reserved: string -> bool)
    requires !n.Element?
    ensures var out := Eval(Gen(n, p, done, fns, reserved).0, env, root, all, |all|, cache);
            Right(n, done, env, out.value) && out.cache == cache
  {
    var v := Eval(Gen(n, p, done, fns, reserved).0, env, root, all, |all|, cache).value;
    assert Interp(n, env) == InterpOnce(n, env) == [v];
    MarkupOne(v);
    assert SoundAt(n, env) && SoundOnce(n, env) && SingleNow(n, done, env);
  }

  lemma {:induction false} EvalHoisted(n: Node, p: Place, done: Done, fns: seq<Code>, all: seq<Code>,
                                       env: Env, root: Env, cache: Cache, reserved: string -> bool)
    requires n.Element? && StaticRoot(n, p, reserved) && !done.hoisted
    requires Supported(n, p, reserved) && InOrder(n, done)
    requires Gen(n, p, done, fns, reserved).1 <= all && AllClosed(all) && CacheOk(cache, all)
    ensures var out := Eval(Gen(n, p, done, fns, reserved).0, env, root, all, |all|, cache);
            Right(n, done, env, out.value) && CacheOk(out.cache, all)
    decreases n, Left(done), 0
  {
    var done' := done.(hoisted := true);
    var body := Gen(n, p, done', fns, reserved).0;
    StaticGen(n, p, done', fns, reserved);
    HoistedGen(n, p, done, fns, all, reserved);
    EvalGen(n, p, done', fns, all, env, root, cache, reserved);
    ClosedEval(body, env, root, all, |all|, cache);
    StaticValue(n, p, done', fns, all, env, root, cache, reserved);
  }

  lemma HoistedGen(n: Node, p: Place, done: Done, fns: seq<Code>, all: seq<Code>, reserved: string -> bool)
    requires n.Element? && StaticRoot(n, p, reserved) && !done.hoisted
    requires Gen(n, p, done.(hoisted := true), fns, reserved).1 == fns
    requires Gen(n, p, done, fns, reserved).1 <= all
    ensures var body := Gen(n, p, done.(hoisted := true), fns, reserved).0;
            && Gen(n, p, done, fns, reserved) == (StaticCode(|fns|, p.inFor), fns + [body])
            && fns + [body] <= all && |fns| < |all| && all[|fns|] == body
  {}

  /** A hoisted tree evaluates to the value of its code, rendered or cloned. */
  lemma StaticValue(n: Node, p: Place, done: Done, fns: seq<Code>, all: seq<Code>, env: Env, root: Env, cache: Cache,
                    reserved: string -> bool)
    requires n.Element? && StaticRoot(n, p, reserved) && Cloneable(n, p) && done.hoisted
    requires var body := Gen(n, p, done, fns, reserved).0;
             Closed(body) && |fns| < |all| && all[|fns|] == body && CacheOk(cache, all)
    ensures var body := Gen(n, p, done, fns, reserved).0;
            var out := Eval(StaticCode(|fns|, p.inFor), env, root, all, |all|, cache);
            out.value == ValueOf(body) && CacheOk(out.cache, all)
  {
    ClosedEval(Gen(n, p, done, fns, reserved).0, root, root, all, |fns|, cache);
    if !p.inFor {
      CloneSame(n, p, done, fns, reserved);
    }
  }

  lemma {:induction false} EvalLoop(n: Node, p: Place, done: Done, fns: seq<Code>, all: seq<Code>,
                                    env: Env, root: Env, cache: Cache, reserved: string -> bool)
    requires n.Element? && (StaticRoot(n, p, reserved) ==> done.hoisted) && n.loop.For? && !done.looped
    requires Supported(n, p, reserved) && InOrder(n, done)
    requires Gen(n, p, done, fns, reserved).1 <= all && AllClosed(all) && CacheOk(cache, all)
    ensures var out := Eval(Gen(n, p, done, fns, reserved).0, env, root, all, |all|, cache);
            Right(n, done, env, out.value) && CacheOk(out.cache, all)
    decreases n, Left(done), 0
  {
    hide Supported, Static, StaticRoot, MarkupAll, InterpTurns, InterpOnce, InterpBody;
    hide SoundOnce, SoundBody, SingleOnce, Normal;
    hide NormType, Opened, EvalTurns, EvalAll, Closed, AllClosed, CacheOk;
    var list := n.loop.source(env);
    if list.Some? {
      EvalTurnsGen(n, p, done.(looped := true), fns, all, list.value, 0, env, root, cache, reserved);
      var body := Gen(n, p, done.(looped := true), fns, reserved).0;
      var vs := EvalTurns(Turn(n.loop.source, n.loop.bind, body), list.value, 0, env, root, all, |all|, cache).values;
      TurnsLoose(n, done.(looped := true), list.value, env, vs);
      assert Markup(Array(vs)) == MarkupAll(vs);
    } else {
      EmptyMarkup();
    }
  }

  lemma EmptyMarkup()
    ensures MarkupAll([]) == []
  {}

  lemma TurnsLoose(n: Node, done: Done, list: seq<Item>, env: Env, vs: seq<Value>)
    requires n.Element? && n.loop.For? && done.looped && !done.tested
    requires TurnsRight(n, done, list, 0, env, vs)
    ensures Shape(Array(vs))
    ensures Loose(Array(vs)) <==> forall k :: 0 <= k < |list| ==> SoundOnce(n, n.loop.bind(env, list[k], k))
    ensures AllProper(vs) <==>
              && (forall k :: 0 <= k < |list| ==> SoundOnce(n, n.loop.bind(env, list[k], k)))
              && (forall k :: 0 <= k < |list| ==> SingleOnce(n, n.loop.bind(env, list[k], k)))
  {
    hide SoundOnce, SoundBody, SingleOnce, MarkupAll, InterpTurns, SoundAt;
    forall k | 0 <= k < |list|
      ensures var env' := n.loop.bind(env, list[k], k);
              Kind(vs[k], SoundOnce(n, env'), SingleOnce(n, env'))
    {
      BodyOrOnce(n, done, n.loop.bind(env, list[k], k));
    }
  }

  lemma BodyOrOnce(n: Node, done: Done, env: Env)
    requires n.Element? && n.loop.For? && done.looped && !done.tested
    ensures SoundNow(n, done, env) == SoundOnce(n, env)
    ensures SingleNow(n, done, env) == SingleOnce(n, env)
    ensures Expected(n, done, env) == InterpOnce(n, env)
  {}

  lemma {:induction false} EvalIf(n: Node, p: Place, done: Done, fns: seq<Code>, all: seq<Code>,
                                  env: Env, root: Env, cache: Cache, reserved: string -> bool)
    requires n.Element? && (StaticRoot(n, p, reserved) ==> done.hoisted) && (n.loop.For? ==> done.looped)
    requires n.cond.If? && !done.tested
    requires Supported(n, p, reserved) && InOrder(n, done)
    requires Gen(n, p, done, fns, reserved).1 <= all && AllClosed(all) && CacheOk(cache, all)
    ensures var out := Eval(Gen(n, p, done, fns, reserved).0, env, root, all, |all|, cache);
            Right(n, done, env, out.value) && CacheOk(out.cache, all)
    decreases n, Left(done), 0
  {
    hide Static, StaticRoot, Markup, MarkupAll, InterpBody, SoundBody, EvalAll, Closed, AllClosed;
    hide CacheOk, Shape, Loose, NormType, Opened;
    var yes := Gen(n, p, done.(tested := true), fns, reserved);
    if n.cond.test(env) {
      EvalGen(n, p, done.(tested := true), fns, all, env, root, cache, reserved);
    } else {
      EvalOthersGen(n.cond.others, Beside(n, p, reserved), yes.1, all, env, root, cache, reserved);
    }
  }

  lemma BodyGen(n: Node, p: Place, done: Done, fns: seq<Code>, reserved: string -> bool)
    requires n.Element? && (StaticRoot(n, p, reserved) ==> done.hoisted) && (n.loop.For? ==> done.looped)
    requires n.cond.If? ==> done.tested
    ensures Gen(n, p, done, fns, reserved) == GenBody(n, p, fns, reserved)
  {}

  lemma BodyExpected(n: Node, done: Done, env: Env)
    requires n.Element? && (n.loop.For? ==> done.looped) && (n.cond.If? ==> done.tested)
    ensures Expected(n, done, env) == InterpBody(n, env)
    ensures SoundNow(n, done, env) == SoundBody(n, env)
    ensures SingleNow(n, done, env) == (n.tag != "template")
  {}

  lemma {:induction false} EvalTurnsGen(n: Node, p: Place, done: Done, fns: seq<Code>, all: seq<Code>,
                                        list: seq<Item>, k: nat, env: Env, root: Env, cache: Cache, reserved: string -> bool)
    requires n.Element? && n.loop.For? && done.looped && !done.tested && k <= |list|
    requires Supported(n, p, reserved)
    requires Gen(n, p, done, fns, reserved).1 <= all && AllClosed(all) && CacheOk(cache, all)
    ensures var body := Gen(n, p, done, fns, reserved).0;
            var out := EvalTurns(Turn(n.loop.source, n.loop.bind, body), list, k, env, root, all, |all|, cache);
            TurnsRight(n, done, list, k, env, out.values) && CacheOk(out.cache, all)
    decreases n, Left(done), 2, |list| - k
  {
    hide *;
    var c := Turn(n.loop.source, n.loop.bind, Gen(n, p, done, fns, reserved).0);
    if k < |list| {
      var env' := n.loop.bind(env, list[k], k);
      EvalGen(n, p, done, fns, all, env', root, cache, reserved);
      var out := Eval(c.body, env', root, all, |all|, cache);
      EvalTurnsGen(n, p, done, fns, all, list, k + 1, env, root, out.cache, reserved);
      var rest := EvalTurns(c, list, k + 1, env, root, all, |all|, out.cache);
      FirstTurn(n, done, list, k, env, out.value, rest.values);
      FirstTurnEval(c, list, k, env, root, all, cache);
    } else {
      NoTurns(n, done, list, env);
      NoTurnsEval(c, list, env, root, all, cache);
    }
  }

  lemma FirstTurnEval(c: Code, list: seq<Item>, k: nat, env: Env, root: Env, all: seq<Code>, cache: Cache)
    requires c.Turn? && k < |list|
    ensures var out := Eval(c.body, c.bind(env, list[k], k), root, all, |all|, cache);
            var rest := EvalTurns(c, list, k + 1, env, root, all, |all|, out.cache);
            EvalTurns(c, list, k, env, root, all, |all|, cache) == OutAll([out.value] + rest.values, rest.cache)
  {}

  lemma NoTurnsEval(c: Code, list: seq<Item>, env: Env, root: Env, all: seq<Code>, cache: Cache)
    requires c.Turn?
    ensures EvalTurns(c, list, |list|, env, root, all, |all|, cache) == OutAll([], cache)
  {}

  lemma NoTurns(n: Node, done: Done, list: seq<Item>, env: Env)
    requires n.Element? && n.loop.For?
    ensures TurnsRight(n, done, list, |list|, env, [])
  {}

  lemma FirstTurn(n: Node, done: Done, list: seq<Item>, k: nat, env: Env, v: Value, vs: seq<Value>)
    requires n.Element? && n.loop.For? && done.looped && !done.tested && k < |list|
    requires Right(n, done, n.loop.bind(env, list[k], k), v) && TurnsRight(n, done, list, k + 1, env, vs)
    ensures TurnsRight(n, done, list, k, env, [v] + vs)
  {
    hide SoundNow, SingleNow, Kind, Interp, InterpOnce, InterpBody;
    var env' := n.loop.bind(env, list[k], k);
    BodyOrOnce(n, done, env');
    MarkupConcat(InterpOnce(n, env'), InterpTurns(n, list, k + 1, env));
    assert ([v] + vs)[1..] == vs;
    forall i | k <= i < |list|
      ensures var e := n.loop.bind(env, list[i], i);
              Kind(([v] + vs)[i - k], SoundNow(n, done, e), SingleNow(n, done, e))
    {
      assert i > k ==> ([v] + vs)[i - k] == vs[i - (k + 1)];
    }
  }

  lemma {:induction false} EvalOthersGen(others: seq<Node>, p: Place, fns: seq<Code>, all: seq<Code>,
                                         env: Env, root: Env, cache: Cache, reserved: string -> bool)
    requires forall i :: 0 <= i < |others| ==> IsBlock(others[i]) && Supported(others[i], p, reserved)
    requires GenOthers(others, p, fns, reserved).1 <= all && AllClosed(all) && CacheOk(cache, all)
    ensures var out := Eval(GenOthers(others, p, fns, reserved).0, env, root, all, |all|, cache);
            && CacheOk(out.cache, all)
            && Means(out.value, InterpOthers(others, env), SoundOthers(others, env), SingleOther(others, env))
    decreases others
  {
    hide Supported, Static, StaticRoot, SoundAt, Gen, Closed, AllClosed, CacheOk, Interp, InterpBody, NormType, Opened;
    if others == [] {
      MarkupOne(Comment(""));
    } else {
      var fns1 := Gen(others[0], p, FRESH, fns, reserved).1;
      EvalGen(others[0], p, FRESH, fns, all, env, root, cache, reserved);
      NoSlot(others[0], p, reserved);
      ExpectedFresh(others[0], env);
      if others[0].cond.ElseIf? {
        EvalOthersGen(others[1..], p, fns1, all, env, root, cache, reserved);
      }
    }
  }

  lemma NoSlot(n: Node, p: Place, reserved: string -> bool)
    requires n.Element? && Supported(n, p, reserved)
    ensures n.tag != "slot"
  {}

  lemma ExpectedFresh(n: Node, env: Env)
    ensures Expected(n, FRESH, env) == Interp(n, env)
    ensures SoundNow(n, FRESH, env) == SoundAt(n, env)
    ensures IsBlock(n) && n.tag != "slot" ==> SingleNow(n, FRESH, env) == !NeedsFlattening(n)
  {}

  lemma {:induction false} EvalBodyGen(n: Node, p: Place, fns: seq<Code>, all: seq<Code>,
                                       env: Env, root: Env, cache: Cache, reserved: string -> bool)
    requires n.Element? && Supported(n, p, reserved)
    requires GenBody(n, p, fns, reserved).1 <= all && AllClosed(all) && CacheOk(cache, all)
    ensures var out := Eval(GenBody(n, p, fns, reserved).0, env, root, all, |all|, cache);
            && CacheOk(out.cache, all)
            && Means(out.value, InterpBody(n, env), SoundBody(n, env), n.tag != "template")
    decreases n, 0, 0
  {
    hide Static, StaticRoot, NormType, Gen, GenAll, Eval, EvalAll, EvalTurns, Closed, AllClosed;
    hide InterpBody, GenBody, Below, MarkupAll, Normal, Means, SoundBody, CacheOk, AllRight, TurnsRight;
    var below, cs := Below(n, p, reserved), n.children;
    SupportedBelow(n, p, reserved);
    if cs == [] {
      EvalChildless(n, p, fns, all, env, root, cache, reserved);
    } else if IsBare(cs) {
      var list := cs[0].loop.source(env);
      BareGen(n, p, fns, reserved);
      if list.Some? {
        EvalTurnsGen(cs[0], below, FRESH.(looped := true), fns, all, list.value, 0, env, root, cache, reserved);
      }
      EvalBare(n, p, fns, all, env, root, cache, reserved);
    } else {
      ListedGen(n, p, fns, reserved);
      EvalAllGen(cs, below, fns, all, env, root, cache, reserved);
      EvalListed(n, p, fns, all, env, root, cache, reserved);
    }
  }

  lemma SupportedBelow(n: Node, p: Place, reserved: string -> bool)
    requires n.Element? && Supported(n, p, reserved)
    ensures forall i :: 0 <= i < |n.children| ==> Supported(n.children[i], Below(n, p, reserved), reserved)
  {}

  lemma BareGen(n: Node, p: Place, fns: seq<Code>, reserved: string -> bool)
    requires n.Element? && IsBare(n.children)
    ensures var c, below := n.children[0], Below(n, p, reserved);
            var r := Gen(c, below, FRESH.(looped := true), fns, reserved);
            && Gen(c, below, FRESH, fns, reserved) == (Turn(c.loop.source, c.loop.bind, r.0), r.1)
            && GenBody(n, p, fns, reserved).1 == r.1
  {}

  lemma ListedGen(n: Node, p: Place, fns: seq<Code>, reserved: string -> bool)
    requires n.Element? && n.children != [] && !IsBare(n.children)
    ensures GenBody(n, p, fns, reserved).1 == GenAll(n.children, Below(n, p, reserved), fns, reserved).1
  {}

  lemma EvalChildless(n: Node, p: Place, fns: seq<Code>, all: seq<Code>, env: Env, root: Env, cache: Cache,
                      reserved: string -> bool)
    requires n.Element? && n.children == []
    ensures var out := Eval(GenBody(n, p, fns, reserved).0, env, root, all, |all|, cache);
            && out.cache == cache
            && Means(out.value, InterpBody(n, env), SoundBody(n, env), n.tag != "template")
  {}

  /** The body of an element or template whose only child is a loop. */
  lemma EvalBare(n: Node, p: Place, fns: seq<Code>, all: seq<Code>, env: Env, root: Env, cache: Cache,
                 reserved: string -> bool)
    requires n.Element? && IsBare(n.children) && CacheOk(cache, all)
    requires var c, done := n.children[0], FRESH.(looped := true);
             var turn := Turn(c.loop.source, c.loop.bind, Gen(c, Below(n, p, reserved), done, fns, reserved).0);
             c.loop.source(env).Some? ==>
               var out := EvalTurns(turn, c.loop.source(env).value, 0, env, root, all, |all|, cache);
               TurnsRight(c, done, c.loop.source(env).value, 0, env, out.values) && CacheOk(out.cache, all)
    ensures var out := Eval(GenBody(n, p, fns, reserved).0, env, root, all, |all|, cache);
            && CacheOk(out.cache, all)
            && Means(out.value, InterpBody(n, env), SoundBody(n, env), n.tag != "template")
  {
    hide Static, StaticRoot, EvalTurns, CacheOk, MarkupAll, InterpTurns, Gen, SoundOnce, SingleOnce;
    hide Shape, Loose, Proper, Below, InterpBody;
    hide InterpOnce, NormType, Normal;
    var c := n.children[0];
    var list := c.loop.source(env);
    BareMarkup(n.children, env);
    BareGen(n, p, fns, reserved);
    var out := Eval(Gen(c, Below(n, p, reserved), FRESH, fns, reserved).0, env, root, all, |all|, cache);
    var vs := if out.value.Array? then out.value.items else [];
    if list.Some? {
      TurnsLoose(c, FRESH.(looped := true), list.value, env, vs);
    }
    ArrayKind(vs);
    if n.tag == "template" {
      TemplateMeaning(n, env, vs);
    } else {
      ElemMarkup(n, env, vs);
      ElemKind(n.tag, AttrsAt(n.data, env), vs);
    }
  }

  lemma ArrayKind(vs: seq<Value>)
    ensures vs == [] ==> AllProper(vs) && Shape(Undefined) && Loose(Undefined) && MarkupAll(vs) == Markup(Undefined)
    ensures Shape(Array(vs)) <==> forall i :: 0 <= i < |vs| ==> Shape(vs[i])
    ensures Loose(Array(vs)) <==> forall i :: 0 <= i < |vs| ==> Loose(vs[i])
  {}

  lemma ElemKind(tag: string, attrs: Attrs, kids: seq<Value>)
    ensures Kind(Elem(tag, attrs, kids), AllProper(kids), true)
  {}

  lemma TemplateMeaning(n: Node, env: Env, vs: seq<Value>)
    requires n.Element? && n.tag == "template"
    ensures InterpBody(n, env) == InterpAll(n.children, env)
    ensures Markup(Array(vs)) == MarkupAll(vs)
  {}

  lemma ElemMarkup(n: Node, env: Env, kids: seq<Value>)
    requires n.Element? && n.tag != "template" && MarkupAll(kids) == MarkupAll(InterpAll(n.children, env))
    ensures Markup(Elem(n.tag, AttrsAt(n.data, env), kids)) == MarkupAll(InterpBody(n, env))
  {}

  /** The children of a single looping child are those of its turns. */
  lemma BareMarkup(ns: seq<Node>, env: Env)
    requires IsBare(ns)
    ensures InterpAll(ns, env) == if ns[0].loop.source(env).None? then []
                                  else InterpTurns(ns[0], ns[0].loop.source(env).value, 0, env)
  {}

  /** Several children, or one that does not loop. */
  lemma EvalListed(n: Node, p: Place, fns: seq<Code>, all: seq<Code>, env: Env, root: Env, cache: Cache,
                   reserved: string -> bool)
    requires n.Element? && n.children != [] && !IsBare(n.children)
    requires var out := EvalAll(GenAll(n.children, Below(n, p, reserved), fns, reserved).0, env, root, all, |all|, cache);
             AllRight(n.children, env, out.values) && CacheOk(out.cache, all)
    ensures var out := Eval(GenBody(n, p, fns, reserved).0, env, root, all, |all|, cache);
            && CacheOk(out.cache, all)
            && Means(out.value, InterpBody(n, env), SoundBody(n, env), n.tag != "template")
  {
    hide *;
    var cs := n.children;
    var out := EvalAll(GenAll(cs, Below(n, p, reserved), fns, reserved).0, env, root, all, |all|, cache);
    ListedRight(cs, env, out.values, reserved);
    ListedValue(n, p, fns, all, env, root, cache, reserved);
    ListedSound(n, env);
    if n.tag == "template" {
      TemplateMeaning(n, env, out.values);
      ArrayMeans(out.values, InterpBody(n, env), SoundBody(n, env));
    } else {
      ElemMarkup(n, env, Children(cs, out.values, reserved));
      ElemMeans(n.tag, AttrsAt(n.data, env), Children(cs, out.values, reserved), InterpBody(n, env), SoundBody(n, env));
    }
  }

  lemma ListedSound(n: Node, env: Env)
    requires n.Element? && !IsBare(n.children)
    ensures SoundBody(n, env) <==> forall i :: 0 <= i < |n.children| ==> SoundAt(n.children[i], env)
  {}

  lemma ArrayMeans(vs: seq<Value>, nodes: seq<Value>, sound: bool)
    requires MarkupAll(vs) == MarkupAll(nodes)
    requires forall i :: 0 <= i < |vs| ==> Shape(vs[i])
    requires sound <==> forall i :: 0 <= i < |vs| ==> Loose(vs[i])
    ensures Means(Array(vs), nodes, sound, false)
  {}

  lemma ElemMeans(tag: string, attrs: Attrs, kids: seq<Value>, nodes: seq<Value>, sound: bool)
    requires Markup(Elem(tag, attrs, kids)) == MarkupAll(nodes) && (sound <==> AllProper(kids))
    ensures Means(Elem(tag, attrs, kids), nodes, sound, true)
  {}

  /** What becomes of evaluated children under the normalisation type of their nodes. */
  function Children(ns: seq<Node>, vs: seq<Value>, reserved: string -> bool): seq<Value> {
    var norm := NormType(ns, reserved);
    if norm == 2 then Normal(vs) else if norm == 1 then Opened(vs) else vs
  }

  lemma ListedValue(n: Node, p: Place, fns: seq<Code>, all: seq<Code>, env: Env, root: Env, cache: Cache,
                    reserved: string -> bool)
    requires n.Element? && n.children != [] && !IsBare(n.children)
    ensures var out := EvalAll(GenAll(n.children, Below(n, p, reserved), fns, reserved).0, env, root, all, |all|, cache);
            Eval(GenBody(n, p, fns, reserved).0, env, root, all, |all|, cache) ==
            Out(if n.tag == "template" then Array(out.values)
                else Elem(n.tag, AttrsAt(n.data, env), Children(n.children, out.values, reserved)), out.cache)
  {}

  lemma {:induction false} EvalAllGen(ns: seq<Node>, p: Place, fns: seq<Code>, all: seq<Code>,
                                      env: Env, root: Env, cache: Cache, reserved: string -> bool)
    requires forall i :: 0 <= i < |ns| ==> Supported(ns[i], p, reserved)
    requires GenAll(ns, p, fns, reserved).1 <= all && AllClosed(all) && CacheOk(cache, all)
    ensures var out := EvalAll(GenAll(ns, p, fns, reserved).0, env, root, all, |all|, cache);
            AllRight(ns, env, out.values) && CacheOk(out.cache, all)
    decreases ns
  {
    hide Supported, Static, StaticRoot, SoundAt, SingleNow, Gen, Eval, Kind, CacheOk, Closed, AllClosed, Interp, SoundNow;
    if ns == [] {
    } else {
      var r := Gen(ns[0], p, FRESH, fns, reserved);
      EvalGen(ns[0], p, FRESH, fns, all, env, root, cache, reserved);
      ExpectedFresh(ns[0], env);
      var out := Eval(r.0, env, root, all, |all|, cache);
      EvalAllGen(ns[1..], p, r.1, all, env, root, out.cache, reserved);
      MarkupConcat(Interp(ns[0], env), InterpAll(ns[1..], env));
    }
  }

  /** The normalisation type is enough for the children it was chosen for. */
  lemma ListedRight(ns: seq<Node>, env: Env, vs: seq<Value>, reserved: string -> bool)
    requires AllRight(ns, env, vs)
    ensures MarkupAll(vs) == MarkupAll(InterpAll(ns, env)) && |vs| == |ns|
    ensures MarkupAll(Children(ns, vs, reserved)) == MarkupAll(InterpAll(ns, env))
    ensures AllProper(Children(ns, vs, reserved)) <==> forall i :: 0 <= i < |ns| ==> SoundAt(ns[i], env)
    ensures (forall i :: 0 <= i < |vs| ==> Loose(vs[i])) <==> forall i :: 0 <= i < |ns| ==> SoundAt(ns[i], env)
    ensures forall i :: 0 <= i < |vs| ==> Shape(vs[i])
  {
    hide SoundAt, SingleNow, NormType, Flat, Coalesce, Opened, Shape, MarkupAll, InterpAll;
    NormalMarkup(vs);
    OpenedMarkup(vs);
    if NormType(ns, reserved) == 2 {
      FlatLoose(vs);
      CoalesceProper([], Flat(vs));
    } else {
      NormTypeMeaning(ns, env, reserved);
      assert forall i :: 0 <= i < |ns| ==> SingleNow(ns[i], FRESH, env) && IsNode(vs[i]);
      OpenedNodes(vs);
    }
  }

  /** A child or one of the blocks attached to it is rendered by a loop, as a template or as a slot. */
  ghost predicate MayNest(n: Node) {
    n.Element? &&
    (n.loop.For? || n.tag in {"template", "slot"} ||
     (n.cond.If? && exists b :: b in n.cond.others && b.Element? && (b.loop.For? || b.tag in {"template", "slot"})))
  }

  /** A child or one of the blocks attached to it may be a component. */
  ghost predicate MayBeComponent(n: Node, reserved: string -> bool) {
    n.Element? &&
    (!reserved(n.tag) ||
     (n.cond.If? && exists b :: b in n.cond.others && b.Element? && !reserved(b.tag)))
  }

  /** Full normalisation for children that may be arrays, simple normalisation for components, else none. */
  lemma {:induction false} NormTypeExactly(ns: seq<Node>, reserved: string -> bool)
    ensures NormType(ns, reserved) == 2 <==> exists i :: 0 <= i < |ns| && MayNest(ns[i])
    ensures NormType(ns, reserved) == 1 <==>
              && (forall i :: 0 <= i < |ns| ==> !MayNest(ns[i]))
              && exists i :: 0 <= i < |ns| && MayBeComponent(ns[i], reserved)
    ensures NormType(ns, reserved) <= 2
  {
    hide MayNest, MayBeComponent;
    if ns == [] {
    } else {
      NormTypeExactly(ns[1..], reserved);
      FirstNests(ns[0], reserved);
      assert forall i :: 0 < i < |ns| ==> ns[i] == ns[1..][i - 1];
      assert forall i :: 0 <= i < |ns| - 1 ==> ns[1..][i] == ns[i + 1];
    }
  }

  lemma FirstNests(n: Node, reserved: string -> bool)
    ensures NeedsFlattening(n) || AnyNeedsFlattening(Others(n)) <==> MayNest(n)
    ensures MaybeComponent(n, reserved) || AnyMaybeComponent(Others(n), reserved) ==> n.Element?
    ensures n.Element? ==>
              (MaybeComponent(n, reserved) || AnyMaybeComponent(Others(n), reserved) <==> MayBeComponent(n, reserved))
    ensures !n.Element? ==> !MayBeComponent(n, reserved)
  {}

  lemma {:induction false} NormTypeMeaning(ns: seq<Node>, env: Env, reserved: string -> bool)
    requires NormType(ns, reserved) != 2
    ensures forall i :: 0 <= i < |ns| ==> SingleNow(ns[i], FRESH, env)
  {
    if ns == [] {
    } else {
      NormTypeMeaning(ns[1..], env, reserved);
      NoneNeedsFlattening(Others(ns[0]), env);
      forall i | 0 < i < |ns| ensures SingleNow(ns[i], FRESH, env) {
        assert ns[i] == ns[1..][i - 1];
      }
    }
  }

  lemma {:induction false} OpenedNodes(vs: seq<Value>)
    requires forall i :: 0 <= i < |vs| ==> IsNode(vs[i])
    ensures Opened(vs) == vs
  {
    if vs == [] {
    } else {
      OpenedNodes(vs[1..]);
    }
  }

  lemma {:induction false} FlatLoose(vs: seq<Value>)
    requires forall i :: 0 <= i < |vs| ==> Shape(vs[i])
    ensures AllProper(Flat(vs)) <==> forall i :: 0 <= i < |vs| ==> Loose(vs[i])
    decreases vs
  {
    if vs == [] {
    } else {
      FlatLoose(vs[1..]);
      if vs[0].Array? {
        FlatLoose(vs[0].items);
      }
      assert AllProper(FlatOne(vs[0])) <==> Loose(vs[0]) by {
        assert IsNode(vs[0]) ==> FlatOne(vs[0])[0] == vs[0];
      }
      ProperConcat(FlatOne(vs[0]), Flat(vs[1..]));
      assert (forall i :: 0 <= i < |vs| ==> Loose(vs[i])) <==>
             Loose(vs[0]) && forall i :: 0 <= i < |vs| - 1 ==> Loose(vs[1..][i]);
    }
  }

  lemma ProperConcat(a: seq<Value>, b: seq<Value>)
    ensures AllProper(a + b) <==> AllProper(a) && AllProper(b)
  {
    assert forall i :: 0 <= i < |b| ==> b[i] == (a + b)[|a| + i];
    assert forall i :: 0 <= i < |a| ==> a[i] == (a + b)[i];
  }

  /** Joining text neither hides nor makes improper nodes. */
  lemma {:induction false} CoalesceProper(l: seq<Value>, vs: seq<Value>)
    ensures AllProper(Coalesce(l, vs)) <==> AllProper(l) && AllProper(vs)
    decreases |vs|
  {
    if vs == [] {
    } else {
      CoalesceProper(Append(l, vs[0]), vs[1..]);
      AppendProper(l, vs[0]);
      ProperConcat([vs[0]], vs[1..]);
      assert vs == [vs[0]] + vs[1..];
    }
  }

  lemma AppendProper(l: seq<Value>, v: Value)
    ensures AllProper(Append(l, v)) <==> AllProper(l) && Proper(v)
  {
    if EndsInText(l) && v.Text? {
      ProperConcat(l[..|l| - 1], [l[|l| - 1]]);
      ProperConcat(l[..|l| - 1], [Text(l[|l| - 1].text + v.text)]);
      assert l == l[..|l| - 1] + [l[|l| - 1]];
    } else {
      ProperConcat(l, [v]);
      assert [v][0] == v;
    }
  }

  // ----- whole runs

  /** A compiled template rendered in one scope after another; the static trees are shared by all renders. */
  ghost function Renders(code: Code, fns: seq<Code>, envs: seq<Env>, cache: Cache): seq<Value> {
    if envs == [] then []
    else
      var out := Eval(code, envs[0], envs[0], fns, |fns|, cache);
      [out.value] + Renders(code, fns, envs[1..], out.cache)
  }

  ghost function Rendered(n: Node, envs: seq<Env>, reserved: string -> bool): seq<Value> {
    var (code, fns) := Gen(n, TOP, FRESH, [], reserved);
    Renders(code, fns, envs, map[])
  }

  /**
   * Every render of a run shows what the template means in its scope, and it is a proper tree exactly
   * when the scope meets the conditions. The tags with their attributes, the characters and the comments
   * in it are those that the template shows in that scope.
   */
  lemma RendersMeanTemplate(n: Node, envs: seq<Env>, reserved: string -> bool)
    requires Supported(n, TOP, reserved)
    ensures |Rendered(n, envs, reserved)| == |envs|
    ensures forall k :: 0 <= k < |envs| ==>
              && Markup(Rendered(n, envs, reserved)[k]) == MarkupAll(Interp(n, envs[k]))
              && TreesOf(Rendered(n, envs, reserved)[k]) == AllTrees(Interp(n, envs[k]))
              && (Proper(Rendered(n, envs, reserved)[k]) <==> SoundAt(n, envs[k]) && SingleNow(n, FRESH, envs[k]))
    ensures forall k, t :: 0 <= k < |envs| ==> (t in Markup(Rendered(n, envs, reserved)[k]) <==> Shown(n, envs[k], t))
  {
    hide Supported, Gen, Eval, SoundAt, SingleNow, Interp, Markup, Renders, CacheOk, Proper, TreesOf, Shown;
    GenClosed(n, TOP, FRESH, [], reserved);
    NothingCached(Gen(n, TOP, FRESH, [], reserved).1);
    RendersRight(n, envs, map[], reserved);
    forall k | 0 <= k < |envs| ensures TreesOf(Rendered(n, envs, reserved)[k]) == AllTrees(Interp(n, envs[k])) {
      var v := Rendered(n, envs, reserved)[k];
      MarkupOne(v);
      SameMarkupSameTrees([v], Interp(n, envs[k]));
      TreesOfOne(v);
    }
    forall k, t | 0 <= k < |envs| ensures t in Markup(Rendered(n, envs, reserved)[k]) <==> Shown(n, envs[k], t) {
      InterpShown(n, envs[k], t);
    }
  }

  /**
   * An element without loop and condition renders as one element of its tag, with no attributes, the fixed
   * ones, or those of the scope of that render.
   */
  lemma ElementRenders(n: Node, envs: seq<Env>, k: nat, reserved: string -> bool)
    requires Supported(n, TOP, reserved)
    requires n.Element? && n.tag != "template" && n.loop.NoLoop? && n.cond.Always? && k < |envs|
    ensures |Rendered(n, envs, reserved)| == |envs|
    ensures var v := Rendered(n, envs, reserved)[k];
            && v.Elem? && v.tag == n.tag
            && match n.data
               case Plain => v.attrs == []
               case Fixed(attrs) => v.attrs == attrs
               case Bound(at) => v.attrs == at(envs[k])
  {
    hide Supported, Gen, Eval, SoundAt, Renders, CacheOk;
    GenClosed(n, TOP, FRESH, [], reserved);
    NothingCached(Gen(n, TOP, FRESH, [], reserved).1);
    RendersRight(n, envs, map[], reserved);
    var v := Rendered(n, envs, reserved)[k];
    var inner := InterpAll(n.children, envs[k]);
    assert Interp(n, envs[k]) == InterpOnce(n, envs[k]) == [Elem(n.tag, AttrsAt(n.data, envs[k]), inner)];
    MarkupOne(Elem(n.tag, AttrsAt(n.data, envs[k]), inner));
    assert Markup(v)[0] == OpenTag(n.tag, AttrsAt(n.data, envs[k]));
  }

  lemma NothingCached(fns: seq<Code>)
    ensures CacheOk(map[], fns)
  {}

  lemma {:induction false} RendersRight(n: Node, envs: seq<Env>, cache: Cache, reserved: string -> bool)
    requires Supported(n, TOP, reserved)
    requires var all := Gen(n, TOP, FRESH, [], reserved).1; AllClosed(all) && CacheOk(cache, all)
    ensures var (code, all) := Gen(n, TOP, FRESH, [], reserved);
            var vs := Renders(code, all, envs, cache);
            && |vs| == |envs|
            && forall k :: 0 <= k < |envs| ==>
                 && Markup(vs[k]) == MarkupAll(Interp(n, envs[k])) && (IsNode(vs[k]) <==> SingleNow(n, FRESH, envs[k]))
                 && (Proper(vs[k]) <==> SoundAt(n, envs[k]) && SingleNow(n, FRESH, envs[k]))
  {
    hide Supported, Gen, Eval, SoundAt, SingleNow, Interp, SoundNow, CacheOk, Closed, AllClosed, Markup, MarkupAll;
    if envs == [] {
    } else {
      var (code, all) := Gen(n, TOP, FRESH, [], reserved);
      EvalGen(n, TOP, FRESH, [], all, envs[0], envs[0], cache, reserved);
      ExpectedFresh(n, envs[0]);
      var out := Eval(code, envs[0], envs[0], all, |all|, cache);
      RendersRight(n, envs[1..], out.cache, reserved);
      KindProper(out.value, SoundAt(n, envs[0]), SingleNow(n, FRESH, envs[0]));
    }
  }

  lemma KindProper(v: Value, sound: bool, single: bool)
    requires Kind(v, sound, single)
    ensures Proper(v) <==> sound && single
  {}

  /** Children that need no normalisation evaluate to a flat list of nodes. */
  lemma NoNormalizationNeeded(ns: seq<Node>, p: Place, fns: seq<Code>, all: seq<Code>, env: Env, root: Env, cache: Cache,
                              reserved: string -> bool)
    requires forall i :: 0 <= i < |ns| ==> Supported(ns[i], p, reserved)
    requires GenAll(ns, p, fns, reserved).1 <= all && AllClosed(all) && CacheOk(cache, all)
    requires NormType(ns, reserved) != 2
    ensures forall v <- EvalAll(GenAll(ns, p, fns, reserved).0, env, root, all, |all|, cache).values :: IsNode(v)
  {
    hide SingleNow, SoundAt, Gen, GenAll, Eval, EvalAll, Supported, Shape, Loose, NormType;
    EvalAllGen(ns, p, fns, all, env, root, cache, reserved);
    NormTypeMeaning(ns, env, reserved);
    assert forall i :: 0 <= i < |ns| ==> SingleNow(ns[i], FRESH, env);
  }

  // ----- the two conditions are needed

  function Reserved(tag: string): bool { true }

  /** A list item with a loop and a condition that never holds, followed by a template as its else block. */
  function LoopWithTemplateElse(): Node {
    var block := Element("template", Plain, NoLoop, Else, [PlainText("b")]);
    var item := Element("li", Plain, For(e => Some(["x"]), (e, item, k) => e), If(e => false, [block]), [PlainText("a")]);
    Element("ul", Plain, NoLoop, Always, [item])
  }

  /** Rendering it leaves an array among the children of the list. */
  lemma LoopWithTemplateElseIsImproper(env: Env)
    ensures !Proper(Rendered(LoopWithTemplateElse(), [env], Reserved)[0])
  {
    var n := LoopWithTemplateElse();
    var item := n.children[0];
    var block := item.cond.others[0];
    assert Taken(block, env) && NeedsFlattening(block);
    assert !SingleOther(item.cond.others, env);
    assert !SingleOnce(item, item.loop.bind(env, item.loop.source(env).value[0], 0));
    assert !SoundBody(n, env) && !SoundAt(n, env);
    RendersMeanTemplate(n, [env], Reserved);
  }

  /** A static template in a static template, in an element that is not static. */
  function TemplateInTemplate(): Node {
    var inner := Element("template", Plain, NoLoop, Always, [PlainText("a")]);
    var outer := Element("template", Plain, NoLoop, Always, [inner]);
    Element("div", Bound(e => []), NoLoop, Always, [outer])
  }

  /** The first render is right, the second one is not. */
  lemma TemplateInTemplateBreaks(env: Env)
    ensures var vs := Rendered(TemplateInTemplate(), [env, env], Reserved);
            |vs| == 2 && Garbage in Markup(vs[1])
  {
    var n := TemplateInTemplate();
    var outer := n.children[0];
    var inner := outer.children[0];
    var below := Below(n, TOP, Reserved);
    assert !Static(n, TOP, Reserved);
    assert below == TOP;
    assert Static(inner, Place(true, false, false, false), Reserved);
    assert StaticRoot(outer, TOP, Reserved) && IsTemplate(inner);
    HoistedTwice(outer, TOP, [], env, env, env, env, Reserved);
    ChildRenders(n, outer, env);
  }

  /** What an element with a single hoisted child shows in its second render. */
  lemma ChildRenders(n: Node, c: Node, env: Env)
    requires n.Element? && n.tag != "template" && n.cond.Always? && n.loop.NoLoop? && n.children == [c]
    requires c.Element? && !IsBare([c]) && !StaticRoot(n, TOP, Reserved) && Below(n, TOP, Reserved) == TOP
    requires var (code, all) := Gen(c, TOP, FRESH, [], Reserved);
             var first := Eval(code, env, env, all, |all|, map[]);
             Garbage in Markup(Eval(code, env, env, all, |all|, first.cache).value)
    ensures var vs := Rendered(n, [env, env], Reserved);
            |vs| == 2 && Garbage in Markup(vs[1])
  {
    hide Static, StaticRoot, Below, Normal, Opened, IsBare;
    var (code, all) := Gen(c, TOP, FRESH, [], Reserved);
    OneChildGen(c, TOP, [], Reserved);
    var norm := NormType(n.children, Reserved);
    var whole := Create(n.tag, GenData(n.data), Listed([code], norm));
    assert Gen(n, TOP, FRESH, [], Reserved) == GenBody(n, TOP, [], Reserved) == (whole, all);
    var first := Eval(code, env, env, all, |all|, map[]);
    var second := Eval(code, env, env, all, |all|, first.cache);
    OneChild(code, env, all, map[]);
    OneChild(code, env, all, first.cache);
    NormalMarkup([second.value]);
    OpenedMarkup([second.value]);
    MarkupOne(second.value);
    assert [env, env][1..] == [env] && [env][1..] == [];
    assert Eval(whole, env, env, all, |all|, map[]).cache == first.cache;
    var v := Eval(whole, env, env, all, |all|, first.cache).value;
    assert Renders(whole, all, [env], first.cache) == [v] + Renders(whole, all, [], second.cache);
    assert Garbage in Markup(v);
  }

  lemma OneChildGen(c: Node, p: Place, fns: seq<Code>, reserved: string -> bool)
    ensures var r := Gen(c, p, FRESH, fns, reserved); GenAll([c], p, fns, reserved) == ([r.0], r.1)
  {
    var r := Gen(c, p, FRESH, fns, reserved);
    assert [c][0] == c && [c][1..] == [];
    assert GenAll([], p, r.1, reserved) == ([], r.1);
    assert [r.0] + [] == [r.0];
  }

  lemma OneChild(code: Code, env: Env, all: seq<Code>, cache: Cache)
    ensures var out := Eval(code, env, env, all, |all|, cache);
            EvalAll([code], env, env, all, |all|, cache) == OutAll([out.value], out.cache)
  {}
}
