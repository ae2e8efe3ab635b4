/**
 * Which nodes of a template are static and which of them are hoisted, told by where they stand and without
 * the places that the passes of `optimize` carry along.
 */
module Hoisting {
  import opened Options
  import opened Templates

  /** A node is known by the way to it; blocks are those attached to a condition. */
  datatype Step = Child(i: nat) | Block(i: nat)

  type Path = seq<Step>

  /** A node, the elements it is inside of, from the outermost on, and all elements on the way to it. */
  datatype Spot = Spot(node: Node, above: seq<Node>, passed: seq<Node>)

  /** The node at the end of a path. A block is inside the same elements as the element it is attached to. */
  ghost function Follow(s: Spot, path: Path): Option<Spot>
    decreases |path|
  {
    if path == [] then Some(s) else if Next(s, path[0]).None? then None else Follow(Next(s, path[0]).value, path[1..])
  }

  ghost function Next(s: Spot, step: Step): Option<Spot> {
    match step
    case Child(i) =>
      if s.node.Element? && i < |s.node.children| then
        Some(Spot(s.node.children[i], s.above + [s.node], s.passed + [s.node]))
      else None
    case Block(i) =>
      if s.node.Element? && s.node.cond.If? && i < |s.node.cond.others| then
        Some(Spot(s.node.cond.others[i], s.above, s.passed + [s.node]))
      else None
  }

  /** Inside templates only, up to one that has a loop. */
  ghost predicate InLoopTemplates(above: seq<Node>) {
    exists k :: 0 <= k < |above| && above[k].Element? && above[k].loop.For? &&
      forall j :: k <= j < |above| ==> above[j].Element? && above[j].tag == "template"
  }

  ghost predicate InLoop(above: seq<Node>) {
    exists k :: 0 <= k < |above| && above[k].Element? && above[k].loop.For?
  }

  /** The first pass gets there: every element on the way is one it goes into. */
  ghost predicate Visited(passed: seq<Node>, reserved: string -> bool) {
    forall k :: 0 <= k < |passed| ==> passed[k].Element? && (reserved(passed[k].tag) || passed[k].tag == "slot")
  }

  /** Nothing in the tree depends on the scope, and all of its tags are plain ones. */
  ghost predicate FixedTree(n: Node, above: seq<Node>, reserved: string -> bool)
    decreases n
  {
    match n
    case Interpolation(_) => false
    case PlainText(_) => true
    case CommentNode(_) => true
    case Element(tag, data, loop, cond, children) =>
      && (data.Plain? || data.Fixed?) && loop == NoLoop && cond.Always?
      && tag != "slot" && tag != "component" && reserved(tag) && !InLoopTemplates(above)
      && forall i :: 0 <= i < |children| ==> FixedTree(children[i], above + [n], reserved)
  }

  ghost predicate IsFixed(s: Spot, reserved: string -> bool) {
    Visited(s.passed, reserved) && FixedTree(s.node, s.above, reserved)
  }

  /** Several children, or one that is not just text. */
  ghost predicate WorthHoisting(n: Node) {
    n.Element? && n.children != [] && (|n.children| == 1 ==> n.children[0].Element? || n.children[0].Interpolation?)
  }

  // ----- places

  /** The place says the same about where a node stands. */
  ghost predicate PlaceOf(p: Place, s: Spot, reserved: string -> bool) {
    && (p.marked <==> Visited(s.passed, reserved))
    && (p.inTemplateFor <==> InLoopTemplates(s.above))
    && (p.inFor <==> InLoop(s.above))
  }

  lemma LoopTemplatesNext(above: seq<Node>, n: Node)
    requires n.Element?
    ensures InLoopTemplates(above + [n]) <==> n.tag == "template" && (n.loop.For? || InLoopTemplates(above))
    ensures InLoop(above + [n]) <==> n.loop.For? || InLoop(above)
  {
    var after := above + [n];
    assert after[|above|] == n && forall k :: 0 <= k < |above| ==> after[k] == above[k];
    if n.tag == "template" && InLoopTemplates(above) {
      var k :| 0 <= k < |above| && above[k].Element? && above[k].loop.For? &&
               forall j :: k <= j < |above| ==> above[j].Element? && above[j].tag == "template";
      assert after[k].loop.For?;
    }
    if InLoop(above) {
      var k :| 0 <= k < |above| && above[k].Element? && above[k].loop.For?;
      assert after[k].loop.For?;
    }
  }

  lemma PlaceNext(p: Place, s: Spot, step: Step, reserved: string -> bool)
    requires PlaceOf(p, s, reserved) && Next(s, step).Some?
    ensures PlaceOf(if step.Child? then Below(s.node, p, reserved) else Beside(s.node, p, reserved),
                    Next(s, step).value, reserved)
  {
    hide InLoopTemplates, InLoop, StaticRoot;
    LoopTemplatesNext(s.above, s.node);
    assert Visited(s.passed + [s.node], reserved) <==> Visited(s.passed, reserved) && Descends(s.node.tag, reserved) by {
      var after := s.passed + [s.node];
      assert after[|s.passed|] == s.node && forall k :: 0 <= k < |s.passed| ==> after[k] == s.passed[k];
    }
  }

  /** `Static` is being fixed, where the first pass gets. */
  lemma {:induction false} StaticIsFixed(n: Node, p: Place, above: seq<Node>, reserved: string -> bool)
    requires p.inTemplateFor <==> InLoopTemplates(above)
    ensures Static(n, p, reserved) <==> p.marked && FixedTree(n, above, reserved)
    decreases n
  {
    if n.Element? {
      hide InLoopTemplates;
      LoopTemplatesNext(above, n);
      var q := Place(p.marked && Descends(n.tag, reserved), n.tag == "template" && (n.loop.For? || p.inTemplateFor),
                     false, false);
      forall i | 0 <= i < |n.children|
        ensures Static(n.children[i], q, reserved) <==> q.marked && FixedTree(n.children[i], above + [n], reserved)
      {
        StaticIsFixed(n.children[i], q, above + [n], reserved);
      }
    }
  }
}
