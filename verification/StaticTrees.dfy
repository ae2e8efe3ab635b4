/** Hoisted static trees: their code is independent of the scope, and when cloning a cached tree is harmless. */
module StaticTrees {
  import opened Values
  import opened Normalization
  import opened Templates
  import opened Codegen

  // ----- code of static nodes

  /** Code that neither looks at the scope nor at other static trees. */
  predicate Closed(c: Code)
    decreases c, 1
  {
    match c
    case Create(_, data, kids) =>
      !data.Computed? &&
      (match kids case NoKids => true case Bare(code) => Closed(code) case Listed(items, _) => AllClosed(items))
    case TextCode(_) => true
    case EmptyCode(_) => true
    case ArrayCode(items) => AllClosed(items)
    case Void => true
    case _ => false
  }

  predicate AllClosed(cs: seq<Code>)
    decreases cs, 0
  {
    forall i :: 0 <= i < |cs| ==> Closed(cs[i])
  }

  /** The value of closed code, in whatever scope. */
  function ValueOf(c: Code): Value {
    Eval(c, map[], map[], [], 0, map[]).value
  }

  lemma {:induction false} ClosedEval(c: Code, env: Env, root: Env, fns: seq<Code>, lim: nat, cache: Cache)
    requires Closed(c) && lim <= |fns|
    ensures Eval(c, env, root, fns, lim, cache) == Out(ValueOf(c), cache)
    decreases c, 1
  {
    match c
    case Create(_, data, NoKids) =>
    case Create(_, data, Bare(code)) =>
      ClosedEval(code, env, root, fns, lim, cache);
    case Create(_, data, Listed(items, _)) =>
      ClosedEvalAll(items, env, root, fns, lim, cache);
      ClosedEvalAll(items, map[], map[], [], 0, map[]);
    case ArrayCode(items) =>
      ClosedEvalAll(items, env, root, fns, lim, cache);
      ClosedEvalAll(items, map[], map[], [], 0, map[]);
    case _ =>
  }

  function ValuesOf(cs: seq<Code>): seq<Value> {
    if cs == [] then [] else [ValueOf(cs[0])] + ValuesOf(cs[1..])
  }

  lemma {:induction false} ClosedEvalAll(cs: seq<Code>, env: Env, root: Env, fns: seq<Code>, lim: nat, cache: Cache)
    requires AllClosed(cs) && lim <= |fns|
    ensures EvalAll(cs, env, root, fns, lim, cache) == OutAll(ValuesOf(cs), cache)
    decreases cs, 0
  {
    if cs == [] {
    } else {
      ClosedEval(cs[0], env, root, fns, lim, cache);
      ClosedEvalAll(cs[1..], env, root, fns, lim, cache);
    }
  }

  /** Nothing below or at the node is hoisted any more. */
  predicate Quiet(n: Node, p: Place, done: Done, reserved: string -> bool) {
    n.Element? ==> done.hoisted || !StaticRoot(n, p, reserved)
  }

  lemma QuietBelow(n: Node, p: Place, done: Done, reserved: string -> bool, i: nat)
    requires n.Element? && Static(n, p, reserved) && Quiet(n, p, done, reserved) && i < |n.children|
    ensures Static(n.children[i], Below(n, p, reserved), reserved)
    ensures Quiet(n.children[i], Below(n, p, reserved), FRESH, reserved)
  {}

  lemma StaticNotBare(n: Node, p: Place, reserved: string -> bool)
    requires n.Element? && Static(n, p, reserved)
    ensures !IsBare(n.children)
  {}

  /** A static node generates closed code and hoists nothing. */
  lemma {:induction false} StaticGen(n: Node, p: Place, done: Done, fns: seq<Code>, reserved: string -> bool)
    requires Static(n, p, reserved) && Quiet(n, p, done, reserved)
    ensures var r := Gen(n, p, done, fns, reserved); r.1 == fns && Closed(r.0)
    decreases n, 1
  {
    if n.Element? {
      forall i | 0 <= i < |n.children|
        ensures Static(n.children[i], Below(n, p, reserved), reserved)
        ensures Quiet(n.children[i], Below(n, p, reserved), FRESH, reserved)
      {
        QuietBelow(n, p, done, reserved, i);
      }
      StaticNotBare(n, p, reserved);
      StaticGenAll(n.children, Below(n, p, reserved), fns, reserved);
    }
  }

  lemma {:induction false} StaticGenAll(ns: seq<Node>, p: Place, fns: seq<Code>, reserved: string -> bool)
    requires forall i :: 0 <= i < |ns| ==> Static(ns[i], p, reserved) && Quiet(ns[i], p, FRESH, reserved)
    ensures var r := GenAll(ns, p, fns, reserved); r.1 == fns && AllClosed(r.0)
    decreases ns, 0
  {
    if ns == [] {
    } else {
      StaticGen(ns[0], p, FRESH, fns, reserved);
      StaticGenAll(ns[1..], p, fns, reserved);
    }
  }

  // ----- cloning cached trees

  predicate IsTemplate(n: Node) {
    n.Element? && n.tag == "template"
  }

  /**
   * A cached array is cloned one level deep only, so the value of a template directly inside a hoisted
   * template is lost, unless a loop makes the tree be rendered afresh every time.
   */
  predicate Cloneable(n: Node, p: Place)
    requires n.Element?
  {
    p.inFor || n.tag != "template" || forall i :: 0 <= i < |n.children| ==> !IsTemplate(n.children[i])
  }

  predicate IsNode(v: Value) {
    v.Elem? || v.Text? || v.Comment?
  }

  predicate MakesNode(c: Code) {
    c.Create? || c.TextCode? || c.EmptyCode?
  }

  lemma CloneSame(n: Node, p: Place, done: Done, fns: seq<Code>, reserved: string -> bool)
    requires n.Element? && StaticRoot(n, p, reserved) && done.hoisted
    requires n.tag == "template" ==> forall i :: 0 <= i < |n.children| ==> !IsTemplate(n.children[i])
    ensures var v := ValueOf(Gen(n, p, done, fns, reserved).0); Clone(v) == v
  {
    var below := Below(n, p, reserved);
    forall i | 0 <= i < |n.children| ensures Static(n.children[i], below, reserved) {
      StaticBelow(n, p, reserved, i);
    }
    StaticNotBare(n, p, reserved);
    assert Gen(n, p, done, fns, reserved) == GenBody(n, p, fns, reserved);
    if n.tag == "template" {
      var items := GenAll(n.children, below, fns, reserved).0;
      NodeCodes(n.children, below, fns, reserved);
      NodeValues(items, map[]);
      var vs := EvalAll(items, map[], map[], [], 0, map[]).values;
      CloneNodes(vs);
    }
  }

  lemma CloneNodes(vs: seq<Value>)
    requires forall v <- vs :: IsNode(v)
    ensures Clone(Array(vs)) == Array(vs)
  {
    forall i | 0 <= i < |vs| ensures CloneNode(vs[i]) == vs[i] {
      assert IsNode(vs[i]);
    }
    assert Clone(Array(vs)).items == vs;
  }

  lemma {:induction false} NodeCodes(ns: seq<Node>, p: Place, fns: seq<Code>, reserved: string -> bool)
    requires !p.rootable && forall i :: 0 <= i < |ns| ==> Static(ns[i], p, reserved) && !IsTemplate(ns[i])
    ensures forall c <- GenAll(ns, p, fns, reserved).0 :: MakesNode(c)
  {
    if ns == [] {
    } else {
      NodeCode(ns[0], p, fns, reserved);
      NodeCodes(ns[1..], p, Gen(ns[0], p, FRESH, fns, reserved).1, reserved);
    }
  }

  lemma NodeCode(n: Node, p: Place, fns: seq<Code>, reserved: string -> bool)
    requires !p.rootable && Static(n, p, reserved) && !IsTemplate(n)
    ensures MakesNode(Gen(n, p, FRESH, fns, reserved).0)
  {}

  lemma {:induction false} NodeValues(cs: seq<Code>, cache: Cache)
    requires forall c <- cs :: MakesNode(c)
    ensures forall v <- EvalAll(cs, map[], map[], [], 0, cache).values :: IsNode(v)
  {
    if cs == [] {
    } else {
      var out := Eval(cs[0], map[], map[], [], 0, cache);
      var rest := EvalAll(cs[1..], map[], map[], [], 0, out.cache);
      NodeValues(cs[1..], out.cache);
      assert EvalAll(cs, map[], map[], [], 0, cache).values == [out.value] + rest.values;
      assert IsNode(out.value) by { assert MakesNode(cs[0]); }
    }
  }

  /** Closed code never renders garbage. */
  lemma {:induction false} NoGarbage(c: Code)
    requires Closed(c)
    ensures Garbage !in Markup(ValueOf(c))
    decreases c, 1
  {
    match c
    case Create(tag, data, NoKids) =>
    case Create(tag, data, Bare(code)) =>
      NoGarbage(code);
    case Create(tag, data, Listed(items, norm)) =>
      NoGarbageAll(items);
      ClosedEvalAll(items, map[], map[], [], 0, map[]);
      NormalMarkup(ValuesOf(items));
      OpenedMarkup(ValuesOf(items));
    case ArrayCode(items) =>
      NoGarbageAll(items);
      ClosedEvalAll(items, map[], map[], [], 0, map[]);
    case _ =>
  }

  lemma {:induction false} NoGarbageAll(cs: seq<Code>)
    requires AllClosed(cs)
    ensures Garbage !in MarkupAll(ValuesOf(cs))
    decreases cs, 0
  {
    if cs == [] {
    } else {
      NoGarbage(cs[0]);
      NoGarbageAll(cs[1..]);
    }
  }

  lemma {:induction false} BrokenIsGarbage(vs: seq<Value>, i: nat)
    requires i < |vs| && vs[i] == Broken
    ensures Garbage in MarkupAll(vs)
  {
    if i > 0 {
      BrokenIsGarbage(vs[1..], i - 1);
    } else {
      assert Markup(vs[0])[0] == Garbage;
    }
  }

  /** The value of a template is never a node. */
  lemma TemplateCode(n: Node, p: Place, fns: seq<Code>, reserved: string -> bool)
    requires !p.rootable && Static(n, p, reserved) && IsTemplate(n)
    ensures var c := Gen(n, p, FRESH, fns, reserved).0; c.ArrayCode? || c.Void?
  {}

  lemma {:induction false} ChildCode(ns: seq<Node>, p: Place, fns: seq<Code>, i: nat, reserved: string -> bool)
    requires !p.rootable && i < |ns| && IsTemplate(ns[i])
    requires forall k :: 0 <= k < |ns| ==> Static(ns[k], p, reserved)
    ensures var c := GenAll(ns, p, fns, reserved).0[i]; c.ArrayCode? || c.Void?
  {
    if i == 0 {
      TemplateCode(ns[0], p, fns, reserved);
    } else {
      ChildCode(ns[1..], p, Gen(ns[0], p, FRESH, fns, reserved).1, i - 1, reserved);
    }
  }

  lemma {:induction false} ValuesAt(cs: seq<Code>, i: nat)
    requires i < |cs|
    ensures i < |ValuesOf(cs)| && ValuesOf(cs)[i] == ValueOf(cs[i])
  {
    if i > 0 {
      ValuesAt(cs[1..], i - 1);
    }
  }

  /** A template directly inside a hoisted template does not survive cloning. */
  lemma CloneBreaks(n: Node, p: Place, done: Done, fns: seq<Code>, i: nat, reserved: string -> bool)
    requires IsTemplate(n) && StaticRoot(n, p, reserved) && done.hoisted
    requires i < |n.children| && IsTemplate(n.children[i])
    ensures Garbage in Markup(Clone(ValueOf(Gen(n, p, done, fns, reserved).0)))
  {
    var below := Below(n, p, reserved);
    forall k | 0 <= k < |n.children| ensures Static(n.children[k], below, reserved) {
      StaticBelow(n, p, reserved, k);
    }
    StaticNotBare(n, p, reserved);
    StaticGen(n, p, done, fns, reserved);
    assert Gen(n, p, done, fns, reserved) == GenBody(n, p, fns, reserved);
    var items := GenAll(n.children, below, fns, reserved).0;
    ChildCode(n.children, below, fns, i, reserved);
    ClosedEvalAll(items, map[], map[], [], 0, map[]);
    ValuesAt(items, i);
    var v := ValueOf(ArrayCode(items));
    assert Clone(v).items[i] == CloneNode(v.items[i]) == Broken;
    BrokenIsGarbage(Clone(v).items, i);
  }

  /**
   * Rendering a hoisted tree a second time, in any scope, gives what the first time gave exactly when
   * the tree is cloneable; otherwise the second tree holds garbage.
   */
  lemma HoistedTwice(n: Node, p: Place, fns: seq<Code>, env: Env, root: Env, env': Env, root': Env, reserved: string -> bool)
    requires n.Element? && StaticRoot(n, p, reserved)
    ensures var (code, all) := Gen(n, p, FRESH, fns, reserved);
            var first := Eval(code, env, root, all, |all|, map[]);
            var second := Eval(code, env', root', all, |all|, first.cache);
            && Garbage !in Markup(first.value)
            && (second.value == first.value <==> Cloneable(n, p))
            && (Garbage in Markup(second.value) <==> !Cloneable(n, p))
  {
    var done := FRESH.(hoisted := true);
    var body := Gen(n, p, done, fns, reserved).0;
    StaticGen(n, p, done, fns, reserved);
    var all := fns + [body];
    assert Gen(n, p, FRESH, fns, reserved) == (StaticCode(|fns|, p.inFor), all);
    ClosedEval(body, root, root, all, |fns|, map[]);
    var first := Eval(StaticCode(|fns|, p.inFor), env, root, all, |all|, map[]);
    assert first == Out(ValueOf(body), map[|fns| := ValueOf(body)]);
    ClosedEval(body, root', root', all, |fns|, first.cache);
    NoGarbage(body);
    if !p.inFor {
      if Cloneable(n, p) {
        CloneSame(n, p, done, fns, reserved);
      } else {
        var i :| 0 <= i < |n.children| && IsTemplate(n.children[i]);
        CloneBreaks(n, p, done, fns, i, reserved);
      }
    }
  }

  // ----- everything collected is closed

  lemma {:induction false} GenClosed(n: Node, p: Place, done: Done, fns: seq<Code>, reserved: string -> bool)
    requires AllClosed(fns)
    ensures AllClosed(Gen(n, p, done, fns, reserved).1)
    decreases n, Left(done), 1
  {
    if n.Element? {
      if StaticRoot(n, p, reserved) && !done.hoisted {
        StaticGen(n, p, done.(hoisted := true), fns, reserved);
      } else if n.loop.For? && !done.looped {
        GenClosed(n, p, done.(looped := true), fns, reserved);
      } else if n.cond.If? && !done.tested {
        GenClosed(n, p, done.(tested := true), fns, reserved);
        GenOthersClosed(n.cond.others, Beside(n, p, reserved), Gen(n, p, done.(tested := true), fns, reserved).1, reserved);
      } else {
        GenBodyClosed(n, p, fns, reserved);
      }
    }
  }

  lemma {:induction false} GenBodyClosed(n: Node, p: Place, fns: seq<Code>, reserved: string -> bool)
    requires n.Element? && AllClosed(fns)
    ensures AllClosed(GenBody(n, p, fns, reserved).1)
    decreases n, 0, 0
  {
    if IsBare(n.children) {
      GenClosed(n.children[0], Below(n, p, reserved), FRESH, fns, reserved);
    } else {
      GenAllClosed(n.children, Below(n, p, reserved), fns, reserved);
    }
  }

  lemma {:induction false} GenOthersClosed(others: seq<Node>, p: Place, fns: seq<Code>, reserved: string -> bool)
    requires AllClosed(fns)
    ensures AllClosed(GenOthers(others, p, fns, reserved).1)
    decreases others
  {
    if others == [] {
    } else {
      GenClosed(others[0], p, FRESH, fns, reserved);
      GenOthersClosed(others[1..], p, Gen(others[0], p, FRESH, fns, reserved).1, reserved);
    }
  }

  lemma {:induction false} GenAllClosed(ns: seq<Node>, p: Place, fns: seq<Code>, reserved: string -> bool)
    requires AllClosed(fns)
    ensures AllClosed(GenAll(ns, p, fns, reserved).1)
    decreases ns
  {
    if ns == [] {
    } else {
      GenClosed(ns[0], p, FRESH, fns, reserved);
      GenAllClosed(ns[1..], p, Gen(ns[0], p, FRESH, fns, reserved).1, reserved);
    }
  }
}
