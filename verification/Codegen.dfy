/**
 * Code generation and the evaluation of the generated code. The code is a small expression tree instead
 * of a string: conditionals, `_l`, `_c`, `_v`, `_e` and `_m`.
 */
module Codegen {
  import opened Options
  import opened Values
  import opened Normalization
  import opened Templates

  datatype Code =
    | Ternary(test: Env -> bool, yes: Code, no: Code)
    | Turn(source: Env -> Option<seq<Item>>, bind: (Env, Item, nat) -> Env, body: Code)
    | Create(tag: string, data: DataCode, kids: Kids)
    | TextCode(text: string)
    | ToText(value: Env -> string)
    | EmptyCode(text: string)
    | StaticCode(index: nat, inFor: bool)
    | ArrayCode(items: seq<Code>)
    | Void

  /** The data argument of `_c`: left out, an object literal, or an expression. */
  datatype DataCode = NoData | Literal(attrs: Attrs) | Computed(at: Env -> Attrs)

  /** The children argument of `_c`: none, a bare expression, or an array with a normalisation type. */
  datatype Kids = NoKids | Bare(code: Code) | Listed(items: seq<Code>, norm: nat)

  // ----- generation

  /** The processed flags of a node. */
  datatype Done = Done(hoisted: bool, looped: bool, tested: bool)

  const FRESH := Done(false, false, false)

  function Left(d: Done): nat {
    (if d.hoisted then 0 else 1) + (if d.looped then 0 else 1) + (if d.tested then 0 else 1)
  }

  /** `needsNormalization`. */
  predicate NeedsFlattening(n: Node) {
    n.Element? && (n.loop.For? || n.tag == "template" || n.tag == "slot")
  }

  predicate AnyNeedsFlattening(ns: seq<Node>) {
    exists i :: 0 <= i < |ns| && NeedsFlattening(ns[i])
  }

  predicate MaybeComponent(n: Node, reserved: string -> bool) {
    n.Element? && !reserved(n.tag)
  }

  predicate AnyMaybeComponent(ns: seq<Node>, reserved: string -> bool) {
    exists i :: 0 <= i < |ns| && MaybeComponent(ns[i], reserved)
  }

  function Others(n: Node): seq<Node> {
    if n.Element? && n.cond.If? then n.cond.others else []
  }

  /** `getNormalizationType`. */
  function NormType(ns: seq<Node>, reserved: string -> bool): nat {
    if ns == [] then 0
    else if NeedsFlattening(ns[0]) || AnyNeedsFlattening(Others(ns[0])) then 2
    else
      var rest := NormType(ns[1..], reserved);
      if rest == 2 then 2
      else if MaybeComponent(ns[0], reserved) || AnyMaybeComponent(Others(ns[0]), reserved) then 1
      else rest
  }

  /** A single looping child is generated without brackets and without a normalisation type. */
  predicate IsBare(ns: seq<Node>) {
    |ns| == 1 && ns[0].Element? && ns[0].loop.For? && ns[0].tag !in { "template", "slot" }
  }

  /** `genData`, which is not called for a plain element. */
  function GenData(data: Data): DataCode {
    match data
    case Plain => NoData
    case Fixed(attrs) => Literal(attrs)
    case Bound(at) => Computed(at)
  }

  /**
   * `genElement`: returns the code and the static render functions collected so far. It comes back to
   * the same node with one more flag set, or goes to smaller nodes.
   */
  function Gen(n: Node, p: Place, done: Done, fns: seq<Code>, reserved: string -> bool): (r: (Code, seq<Code>))
    ensures fns <= r.1
    decreases n, Left(done), 1
  {
    match n
    case PlainText(text) => (TextCode(text), fns)
    case Interpolation(value) => (ToText(value), fns)
    case CommentNode(text) => (EmptyCode(text), fns)
    case Element(tag, data, loop, cond, children) =>
      if StaticRoot(n, p, reserved) && !done.hoisted then
        var (body, fns1) := Gen(n, p, done.(hoisted := true), fns, reserved);
        (StaticCode(|fns1|, p.inFor), fns1 + [body])
      else if loop.For? && !done.looped then
        var (body, fns1) := Gen(n, p, done.(looped := true), fns, reserved);
        (Turn(loop.source, loop.bind, body), fns1)
      else if cond.If? && !done.tested then
        var (yes, fns1) := Gen(n, p, done.(tested := true), fns, reserved);
        var (no, fns2) := GenOthers(cond.others, Beside(n, p, reserved), fns1, reserved);
        (Ternary(cond.test, yes, no), fns2)
      else
        GenBody(n, p, fns, reserved)
  }

  /** The element itself, or the children of a template. */
  function GenBody(n: Node, p: Place, fns: seq<Code>, reserved: string -> bool): (r: (Code, seq<Code>))
    ensures fns <= r.1
    requires n.Element?
    decreases n, 0, 0
  {
    var below := Below(n, p, reserved);
    if n.children == [] then
      (if n.tag == "template" then Void else Create(n.tag, GenData(n.data), NoKids), fns)
    else if IsBare(n.children) then
      var (code, fns1) := Gen(n.children[0], below, FRESH, fns, reserved);
      (if n.tag == "template" then code else Create(n.tag, GenData(n.data), Bare(code)), fns1)
    else
      var (items, fns1) := GenAll(n.children, below, fns, reserved);
      (if n.tag == "template" then ArrayCode(items)
       else Create(n.tag, GenData(n.data), Listed(items, NormType(n.children, reserved))), fns1)
  }

  /** The rest of an if chain: a block without a condition ends it. */
  function GenOthers(others: seq<Node>, p: Place, fns: seq<Code>, reserved: string -> bool): (r: (Code, seq<Code>))
    ensures fns <= r.1
    decreases others
  {
    if others == [] then (EmptyCode(""), fns)
    else
      var (yes, fns1) := Gen(others[0], p, FRESH, fns, reserved);
      if others[0].Element? && others[0].cond.ElseIf? then
        var (no, fns2) := GenOthers(others[1..], p, fns1, reserved);
        (Ternary(others[0].cond.when, yes, no), fns2)
      else (yes, fns1)
  }

  function GenAll(ns: seq<Node>, p: Place, fns: seq<Code>, reserved: string -> bool): (r: (seq<Code>, seq<Code>))
    ensures fns <= r.1 && |r.0| == |ns|
    decreases ns
  {
    if ns == [] then ([], fns)
    else
      var (code, fns1) := Gen(ns[0], p, FRESH, fns, reserved);
      var (codes, fns2) := GenAll(ns[1..], p, fns1, reserved);
      ([code] + codes, fns2)
  }

  // ----- evaluation

  /** The trees of static render functions that were rendered before. */
  type Cache = map<nat, Value>

  datatype Out = Out(value: Value, cache: Cache)
  datatype OutAll = OutAll(values: seq<Value>, cache: Cache)

  /** Cloning one node; anything that is not a node does not survive it. */
  function CloneNode(v: Value): Value {
    if v.Array? || v.Undefined? || v.Bool? || v.Prim? then Broken else v
  }

  /** Cloning a cached tree: an array is cloned one level deep. */
  function Clone(v: Value): Value {
    if v.Array? then Array(seq(|v.items|, i requires 0 <= i < |v.items| => CloneNode(v.items[i]))) else CloneNode(v)
  }

  /** `simpleNormalizeChildren`: one level of arrays is opened. */
  function Opened(vs: seq<Value>): seq<Value> {
    if vs == [] then [] else (if vs[0].Array? then vs[0].items else [vs[0]]) + Opened(vs[1..])
  }

  lemma {:induction false} OpenedMarkup(vs: seq<Value>)
    ensures MarkupAll(Opened(vs)) == MarkupAll(vs)
  {
    if vs == [] {
    } else {
      OpenedMarkup(vs[1..]);
      var first := if vs[0].Array? then vs[0].items else [vs[0]];
      MarkupConcat(first, Opened(vs[1..]));
      MarkupOne(vs[0]);
    }
  }

  function DataAt(data: DataCode, env: Env): Attrs {
    match data
    case NoData => []
    case Literal(attrs) => attrs
    case Computed(at) => at(env)
  }

  /**
   * The value of generated code in a scope. `root` is the scope static render functions run in; `lim`
   * says how many of the functions `fns` may be used, since a function uses only earlier ones.
   */
  function Eval(c: Code, env: Env, root: Env, fns: seq<Code>, lim: nat, cache: Cache): Out
    requires lim <= |fns|
    decreases lim, c, 1
  {
    match c
    case Ternary(test, yes, no) =>
      if test(env) then Eval(yes, env, root, fns, lim, cache) else Eval(no, env, root, fns, lim, cache)
    case Turn(source, bind, body) =>
      var list := source(env);
      if list.None? then Out(Undefined, cache)
      else
        var out := EvalTurns(c, list.value, 0, env, root, fns, lim, cache);
        Out(Array(out.values), out.cache)
    case Create(tag, data, kids) =>
      (match kids
       case NoKids => Out(Elem(tag, DataAt(data, env), []), cache)
       case Bare(code) =>
         var out := Eval(code, env, root, fns, lim, cache);
         Out(Elem(tag, DataAt(data, env), if out.value.Array? then out.value.items else []), out.cache)
       case Listed(items, norm) =>
         var out := EvalAll(items, env, root, fns, lim, cache);
         var children := if norm == 2 then Normal(out.values) else if norm == 1 then Opened(out.values) else out.values;
         Out(Elem(tag, DataAt(data, env), children), out.cache))
    case TextCode(text) => Out(Text(text), cache)
    case ToText(value) => Out(Text(value(env)), cache)
    case EmptyCode(text) => Out(Comment(text), cache)
    case StaticCode(index, inFor) =>
      if index in cache && !cache[index].Undefined? && !inFor then Out(Clone(cache[index]), cache)
      else if index < lim then
        var out := Eval(fns[index], root, root, fns, index, cache);
        Out(out.value, out.cache[index := out.value])
      else Out(Undefined, cache)
    case ArrayCode(items) =>
      var out := EvalAll(items, env, root, fns, lim, cache);
      Out(Array(out.values), out.cache)
    case Void => Out(Undefined, cache)
  }

  function EvalTurns(c: Code, list: seq<Item>, k: nat, env: Env, root: Env, fns: seq<Code>, lim: nat, cache: Cache): OutAll
    requires lim <= |fns| && c.Turn? && k <= |list|
    decreases lim, c, 0, |list| - k
  {
    if k == |list| then OutAll([], cache)
    else
      var out := Eval(c.body, c.bind(env, list[k], k), root, fns, lim, cache);
      var rest := EvalTurns(c, list, k + 1, env, root, fns, lim, out.cache);
      OutAll([out.value] + rest.values, rest.cache)
  }

  function EvalAll(cs: seq<Code>, env: Env, root: Env, fns: seq<Code>, lim: nat, cache: Cache): OutAll
    requires lim <= |fns|
    decreases lim, cs
  {
    if cs == [] then OutAll([], cache)
    else
      var out := Eval(cs[0], env, root, fns, lim, cache);
      var rest := EvalAll(cs[1..], env, root, fns, lim, out.cache);
      OutAll([out.value] + rest.values, rest.cache)
  }
}
