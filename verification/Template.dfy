/** The template tree, its direct interpretation, and the marking of static nodes. */
module Templates {
  import opened Options
  import opened Values

  /** The variables in scope. Expressions of the template are functions of them. */
  type Env = map<string, string>
  type Item = string

  /** Attributes: none, fixed ones, or anything that depends on the scope. */
  datatype Data = Plain | Fixed(attrs: Attrs) | Bound(at: Env -> Attrs)

  /** `v-for`: the list (None when the source is null) and the scope of one turn. */
  datatype Loop = NoLoop | For(source: Env -> Option<seq<Item>>, bind: (Env, Item, nat) -> Env)

  /** `v-if` with the blocks attached to it; the blocks themselves carry `v-else-if` or `v-else`. */
  datatype Cond = Always | If(test: Env -> bool, others: seq<Node>) | ElseIf(when: Env -> bool) | Else

  datatype Node =
    | Element(tag: string, data: Data, loop: Loop, cond: Cond, children: seq<Node>)
    | Interpolation(value: Env -> string)
    | PlainText(text: string)
    | CommentNode(text: string)

  function AttrsAt(d: Data, env: Env): Attrs {
    match d
    case Plain => []
    case Fixed(attrs) => attrs
    case Bound(at) => at(env)
  }

  /** The expression stored with an else block: only `v-else-if` has one. */
  predicate Taken(block: Node, env: Env) {
    block.Element? && block.cond.ElseIf? ==> block.cond.when(env)
  }

  // ----- direct interpretation

  /** The nodes a template node stands for. A loop is outermost, then the condition, then the element. */
  ghost function Interp(n: Node, env: Env): seq<Value>
    decreases n, 3
  {
    if n.Element? && n.loop.For? then
      var list := n.loop.source(env);
      if list.None? then [] else InterpTurns(n, list.value, 0, env)
    else InterpOnce(n, env)
  }

  ghost function InterpTurns(n: Node, list: seq<Item>, k: nat, env: Env): seq<Value>
    requires n.Element? && n.loop.For? && k <= |list|
    decreases n, 2, |list| - k
  {
    if k == |list| then []
    else InterpOnce(n, n.loop.bind(env, list[k], k)) + InterpTurns(n, list, k + 1, env)
  }

  /** One turn: the condition decides. */
  ghost function InterpOnce(n: Node, env: Env): seq<Value>
    decreases n, 1
  {
    match n
    case Interpolation(value) => [Text(value(env))]
    case PlainText(text) => [Text(text)]
    case CommentNode(text) => [Comment(text)]
    case Element(_, _, _, cond, _) =>
      if cond.If? && !cond.test(env) then InterpOthers(cond.others, env) else InterpBody(n, env)
  }

  ghost function InterpBody(n: Node, env: Env): seq<Value>
    requires n.Element?
    decreases n, 0
  {
    var kids := InterpAll(n.children, env);
    if n.tag == "template" then kids else [Elem(n.tag, AttrsAt(n.data, env), kids)]
  }

  /** The first block whose condition holds, or an empty comment. */
  ghost function InterpOthers(others: seq<Node>, env: Env): seq<Value>
    decreases others
  {
    if others == [] then [Comment("")]
    else if Taken(others[0], env) then Interp(others[0], env)
    else InterpOthers(others[1..], env)
  }

  ghost function InterpAll(ns: seq<Node>, env: Env): seq<Value>
    decreases ns
  {
    if ns == [] then [] else Interp(ns[0], env) + InterpAll(ns[1..], env)
  }

  // ----- static marking

  /**
   * Where a node stands: below elements that `markStatic` descends into, directly below a looping
   * template, inside a loop, and outside every static root.
   */
  datatype Place = Place(marked: bool, inTemplateFor: bool, inFor: bool, rootable: bool)

  const TOP := Place(true, false, false, true)

  /** `isStatic` for an element, apart from its children. */
  predicate OwnStatic(n: Node, p: Place, reserved: string -> bool)
    requires n.Element?
  {
    && !n.data.Bound? && n.cond.Always? && n.loop.NoLoop?
    && n.tag !in { "slot", "component" } && reserved(n.tag) && !p.inTemplateFor
  }

  /** `markStatic` goes into reserved tags and slots only. */
  predicate Descends(tag: string, reserved: string -> bool) {
    reserved(tag) || tag == "slot"
  }

  function Below(n: Node, p: Place, reserved: string -> bool): Place
    requires n.Element?
  {
    Place(p.marked && Descends(n.tag, reserved), n.tag == "template" && (n.loop.For? || p.inTemplateFor),
          p.inFor || n.loop.For?, p.rootable && !StaticRoot(n, p, reserved))
  }

  /** The place of an else block: next to the element it is attached to. */
  function Beside(n: Node, p: Place, reserved: string -> bool): Place
    requires n.Element?
  {
    Place(p.marked && Descends(n.tag, reserved), p.inTemplateFor, p.inFor, p.rootable)
  }

  /** The `static` flag `markStatic` leaves on a node; unset counts as false. */
  predicate Static(n: Node, p: Place, reserved: string -> bool)
    decreases n
  {
    match n
    case Interpolation(_) => false
    case PlainText(_) => p.marked
    case CommentNode(_) => p.marked
    case Element(tag, _, _, _, children) =>
      && p.marked && OwnStatic(n, p, reserved)
      && forall i :: 0 <= i < |children| ==>
           Static(children[i],
                  Place(p.marked && Descends(tag, reserved), tag == "template" && (n.loop.For? || p.inTemplateFor),
                        false, false),
                  reserved)
  }

  /** `staticRoot`: static, and worth hoisting because it is more than one text. */
  predicate StaticRoot(n: Node, p: Place, reserved: string -> bool)
    requires n.Element?
  {
    && p.rootable && Static(n, p, reserved) && |n.children| > 0
    && (|n.children| > 1 || n.children[0].Element? || n.children[0].Interpolation?)
  }

  /** Being static is handed down: so are all children. */
  lemma StaticBelow(n: Node, p: Place, reserved: string -> bool, i: nat)
    requires n.Element? && Static(n, p, reserved) && i < |n.children|
    ensures Static(n.children[i], Below(n, p, reserved), reserved)
  {}

  /** A static node means the same in every scope. */
  lemma {:induction false} StaticInterp(n: Node, p: Place, reserved: string -> bool, env: Env, env': Env)
    requires Static(n, p, reserved)
    ensures Interp(n, env) == Interp(n, env')
    decreases n
  {
    if n.Element? {
      forall i | 0 <= i < |n.children| ensures Interp(n.children[i], env) == Interp(n.children[i], env') {
        StaticBelow(n, p, reserved, i);
        StaticInterp(n.children[i], Below(n, p, reserved), reserved, env, env');
      }
      InterpAllSame(n.children, env, env');
      assert Interp(n, env) == InterpOnce(n, env) == InterpBody(n, env);
      assert Interp(n, env') == InterpOnce(n, env') == InterpBody(n, env');
    }
  }

  lemma {:induction false} InterpAllSame(ns: seq<Node>, env: Env, env': Env)
    requires forall i :: 0 <= i < |ns| ==> Interp(ns[i], env) == Interp(ns[i], env')
    ensures InterpAll(ns, env) == InterpAll(ns, env')
  {
    if ns == [] {
    } else {
      InterpAllSame(ns[1..], env, env');
    }
  }
}
