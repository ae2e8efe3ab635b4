/** The two passes of `optimize`, which write flags on the nodes of the template. */
module Marking {
  import opened Templates
  import opened Hoisting

  type Flags = map<Path, bool>

  predicate Extends(q: Path, path: Path) {
    |path| <= |q| && q[..|path|] == path
  }

  /** A flag that was never written reads as undefined, which counts as false. */
  predicate Flag(flags: Flags, path: Path) {
    path in flags && flags[path]
  }

  ghost predicate SameBelow(flags: Flags, flags': Flags, path: Path) {
    forall q :: Extends(q, path) ==> Flag(flags', q) == Flag(flags, q)
  }

  ghost predicate SameElsewhere(flags: Flags, flags': Flags, path: Path) {
    forall q :: !Extends(q, path) ==> Flag(flags', q) == Flag(flags, q)
  }

  ghost predicate Unset(flags: Flags, path: Path) {
    forall q :: Extends(q, path) ==> !Flag(flags, q)
  }

  function Blocks(n: Node): seq<Node> {
    if n.Element? && n.cond.If? then n.cond.others else []
  }

  function Kids(n: Node): seq<Node> {
    if n.Element? then n.children else []
  }

  /** The flags written so far are those of `Static`, for the node and all below it. */
  ghost predicate Marked(flags: Flags, n: Node, p: Place, path: Path, reserved: string -> bool)
    decreases n
  {
    && Flag(flags, path) == Static(n, p, reserved)
    && (n.Element? ==>
          && (forall i :: 0 <= i < |n.children| ==>
                Marked(flags, n.children[i], Below(n, p, reserved), path + [Child(i)], reserved))
          && (n.cond.If? ==> forall i :: 0 <= i < |n.cond.others| ==>
                Marked(flags, n.cond.others[i], Beside(n, p, reserved), path + [Block(i)], reserved)))
  }

  /** The same for `StaticRoot`; a root also knows whether it is inside a loop. */
  ghost predicate Rooted(roots: Flags, inFors: Flags, n: Node, p: Place, path: Path, reserved: string -> bool)
    decreases n
  {
    if !n.Element? then !Flag(roots, path)
    else
      && Flag(roots, path) == StaticRoot(n, p, reserved)
      && (StaticRoot(n, p, reserved) ==> Flag(inFors, path) == p.inFor)
      && (forall i :: 0 <= i < |n.children| ==>
            Rooted(roots, inFors, n.children[i], Below(n, p, reserved), path + [Child(i)], reserved))
      && (n.cond.If? ==> forall i :: 0 <= i < |n.cond.others| ==>
            Rooted(roots, inFors, n.cond.others[i], Beside(n, p, reserved), path + [Block(i)], reserved))
  }

  // ----- paths

  lemma ExtendsStep(q: Path, path: Path, s: Step)
    ensures Extends(q, path + [s]) ==> Extends(q, path)
    ensures Extends(q, path + [s]) <==> Extends(q, path) && |q| > |path| && q[|path|] == s
  {
    if Extends(q, path + [s]) {
      assert q[..|path|] == q[..|path| + 1][..|path|] == path;
      assert q[|path|] == q[..|path| + 1][|path|];
    }
    if Extends(q, path) && |q| > |path| && q[|path|] == s {
      assert q[..|path| + 1] == q[..|path|] + [q[|path|]];
    }
  }

  lemma SameBelowStep(flags: Flags, flags': Flags, path: Path, s: Step)
    requires SameBelow(flags, flags', path)
    ensures SameBelow(flags, flags', path + [s])
  {
    forall q | Extends(q, path + [s]) ensures Flag(flags', q) == Flag(flags, q) {
      ExtendsStep(q, path, s);
    }
  }

  lemma SetBelow(flags: Flags, path: Path, b: bool, s: Step)
    ensures SameBelow(flags, flags[path := b], path + [s])
    ensures SameElsewhere(flags, flags[path := b], path)
  {
    assert Extends(path, path);
    forall q | Extends(q, path + [s]) ensures Flag(flags[path := b], q) == Flag(flags, q) {
      ExtendsStep(q, path, s);
    }
  }

  lemma UnsetStep(flags: Flags, path: Path, s: Step)
    requires Unset(flags, path)
    ensures Unset(flags, path + [s])
  {
    forall q | Extends(q, path + [s]) ensures !Flag(flags, q) {
      ExtendsStep(q, path, s);
    }
  }

  lemma UnsetSame(flags: Flags, flags': Flags, path: Path)
    requires Unset(flags, path) && SameBelow(flags, flags', path)
    ensures Unset(flags', path)
  {}

  /** What happens below one step is invisible below another one. */
  lemma ApartStep(flags: Flags, flags': Flags, path: Path, s: Step, other: Step)
    requires SameElsewhere(flags, flags', path + [s]) && s != other
    ensures SameBelow(flags, flags', path + [other])
  {
    forall q | Extends(q, path + [other]) ensures Flag(flags', q) == Flag(flags, q) {
      ExtendsStep(q, path, s);
      ExtendsStep(q, path, other);
    }
  }

  lemma ElsewhereStep(flags: Flags, flags': Flags, path: Path, s: Step)
    requires SameElsewhere(flags, flags', path + [s])
    ensures SameElsewhere(flags, flags', path)
    ensures Flag(flags', path) == Flag(flags, path)
  {
    forall q | !Extends(q, path) ensures Flag(flags', q) == Flag(flags, q) {
      ExtendsStep(q, path, s);
    }
    ExtendsStep(path, path, s);
  }

  lemma {:induction false} MarkedFrame(flags: Flags, flags': Flags, n: Node, p: Place, path: Path, reserved: string -> bool)
    requires Marked(flags, n, p, path, reserved) && SameBelow(flags, flags', path)
    ensures Marked(flags', n, p, path, reserved)
    decreases n
  {
    assert Extends(path, path);
    forall i | 0 <= i < |Kids(n)|
      ensures Marked(flags', n.children[i], Below(n, p, reserved), path + [Child(i)], reserved)
    {
      SameBelowStep(flags, flags', path, Child(i));
      MarkedFrame(flags, flags', n.children[i], Below(n, p, reserved), path + [Child(i)], reserved);
    }
    forall i | 0 <= i < |Blocks(n)|
      ensures Marked(flags', n.cond.others[i], Beside(n, p, reserved), path + [Block(i)], reserved)
    {
      SameBelowStep(flags, flags', path, Block(i));
      MarkedFrame(flags, flags', n.cond.others[i], Beside(n, p, reserved), path + [Block(i)], reserved);
    }
  }

  /** Where `markStatic` does not go, nothing is marked. */
  lemma {:induction false} UnmarkedBelow(flags: Flags, n: Node, p: Place, path: Path, reserved: string -> bool)
    requires !p.marked && Unset(flags, path)
    ensures Marked(flags, n, p, path, reserved)
    decreases n
  {
    assert Extends(path, path);
    forall i | 0 <= i < |Kids(n)|
      ensures Marked(flags, n.children[i], Below(n, p, reserved), path + [Child(i)], reserved)
    {
      UnsetStep(flags, path, Child(i));
      UnmarkedBelow(flags, n.children[i], Below(n, p, reserved), path + [Child(i)], reserved);
    }
    forall i | 0 <= i < |Blocks(n)|
      ensures Marked(flags, n.cond.others[i], Beside(n, p, reserved), path + [Block(i)], reserved)
    {
      UnsetStep(flags, path, Block(i));
      UnmarkedBelow(flags, n.cond.others[i], Beside(n, p, reserved), path + [Block(i)], reserved);
    }
  }

  lemma {:induction false} RootedFrame(roots: Flags, inFors: Flags, roots': Flags, inFors': Flags, n: Node, p: Place,
                                       path: Path, reserved: string -> bool)
    requires Rooted(roots, inFors, n, p, path, reserved)
    requires SameBelow(roots, roots', path) && SameBelow(inFors, inFors', path)
    ensures Rooted(roots', inFors', n, p, path, reserved)
    decreases n
  {
    assert Extends(path, path);
    forall i | 0 <= i < |Kids(n)|
      ensures Rooted(roots', inFors', n.children[i], Below(n, p, reserved), path + [Child(i)], reserved)
    {
      SameBelowStep(roots, roots', path, Child(i));
      SameBelowStep(inFors, inFors', path, Child(i));
      RootedFrame(roots, inFors, roots', inFors', n.children[i], Below(n, p, reserved), path + [Child(i)], reserved);
    }
    forall i | 0 <= i < |Blocks(n)|
      ensures Rooted(roots', inFors', n.cond.others[i], Beside(n, p, reserved), path + [Block(i)], reserved)
    {
      SameBelowStep(roots, roots', path, Block(i));
      SameBelowStep(inFors, inFors', path, Block(i));
      RootedFrame(roots, inFors, roots', inFors', n.cond.others[i], Beside(n, p, reserved), path + [Block(i)], reserved);
    }
  }

  /** Inside a root nothing is visited, and nothing is a root. */
  lemma {:induction false} NoRootsBelow(roots: Flags, inFors: Flags, n: Node, p: Place, path: Path, reserved: string -> bool)
    requires !p.rootable && Unset(roots, path)
    ensures Rooted(roots, inFors, n, p, path, reserved)
    decreases n
  {
    assert Extends(path, path);
    forall i | 0 <= i < |Kids(n)|
      ensures Rooted(roots, inFors, n.children[i], Below(n, p, reserved), path + [Child(i)], reserved)
    {
      UnsetStep(roots, path, Child(i));
      NoRootsBelow(roots, inFors, n.children[i], Below(n, p, reserved), path + [Child(i)], reserved);
    }
    forall i | 0 <= i < |Blocks(n)|
      ensures Rooted(roots, inFors, n.cond.others[i], Beside(n, p, reserved), path + [Block(i)], reserved)
    {
      UnsetStep(roots, path, Block(i));
      NoRootsBelow(roots, inFors, n.cond.others[i], Beside(n, p, reserved), path + [Block(i)], reserved);
    }
  }

  // ----- the first pass

  /** In the middle of `markStatic`: the first `i` children and the first `j` blocks are marked. */
  ghost predicate MarkingNode(flags0: Flags, flags: Flags, n: Node, p: Place, path: Path, i: nat, j: nat,
                              reserved: string -> bool)
    requires n.Element? && i <= |n.children| && j <= |Blocks(n)|
  {
    && SameElsewhere(flags0, flags, path)
    && (Flag(flags, path) <==>
          && OwnStatic(n, p, reserved)
          && (forall k :: 0 <= k < i ==> Static(n.children[k], Below(n, p, reserved), reserved))
          && (forall k :: 0 <= k < j ==> Static(Blocks(n)[k], Beside(n, p, reserved), reserved)))
    && (forall k :: 0 <= k < i ==> Marked(flags, n.children[k], Below(n, p, reserved), path + [Child(k)], reserved))
    && (forall k :: 0 <= k < j ==> Marked(flags, Blocks(n)[k], Beside(n, p, reserved), path + [Block(k)], reserved))
    && (forall k :: i <= k < |n.children| ==> Unset(flags, path + [Child(k)]))
    && (forall k :: j <= k < |Blocks(n)| ==> Unset(flags, path + [Block(k)]))
  }

  lemma MarkStart(flags0: Flags, n: Node, p: Place, path: Path, reserved: string -> bool)
    requires n.Element? && Unset(flags0, path)
    ensures MarkingNode(flags0, flags0[path := OwnStatic(n, p, reserved)], n, p, path, 0, 0, reserved)
  {
    var flags := flags0[path := OwnStatic(n, p, reserved)];
    assert Extends(path, path);
    forall s: Step ensures Unset(flags, path + [s]) {
      forall q | Extends(q, path + [s]) ensures !Flag(flags, q) {
        ExtendsStep(q, path, s);
      }
    }
  }

  lemma MarkStep(flags0: Flags, flags: Flags, flags': Flags, n: Node, p: Place, path: Path, i: nat, j: nat, s: Step,
                 reserved: string -> bool)
    requires n.Element? && i <= |n.children| && j <= |Blocks(n)|
    requires MarkingNode(flags0, flags, n, p, path, i, j, reserved)
    requires SameElsewhere(flags, flags', path + [s])
    requires if s.Child? then
               s.i == i < |n.children| && Marked(flags', n.children[i], Below(n, p, reserved), path + [s], reserved)
             else s.i == j < |Blocks(n)| && Marked(flags', Blocks(n)[j], Beside(n, p, reserved), path + [s], reserved)
    ensures var final := if Flag(flags', path + [s]) then flags' else flags'[path := false];
            MarkingNode(flags0, final, n, p, path, if s.Child? then i + 1 else i, if s.Child? then j else j + 1, reserved)
  {
    hide Static, OwnStatic, Marked, Extends;
    var final := if Flag(flags', path + [s]) then flags' else flags'[path := false];
    ElsewhereStep(flags, flags', path, s);
    forall t: Step ensures SameBelow(flags', final, path + [t]) {
      SetBelow(flags', path, false, t);
    }
    ElsewhereTwice(flags0, flags, flags', path);
    forall t: Step | t != s ensures SameBelow(flags, final, path + [t]) {
      ApartStep(flags, flags', path, s, t);
      assert SameBelow(flags', final, path + [t]);
    }
    MarkedFlags(flags', n, p, path, i, j, s, reserved);
    forall k | 0 <= k < (if s.Child? then i + 1 else i)
      ensures Marked(final, n.children[k], Below(n, p, reserved), path + [Child(k)], reserved)
    {
      assert SameBelow(if Child(k) == s then flags' else flags, final, path + [Child(k)]);
      MarkedFrame(if Child(k) == s then flags' else flags, final, n.children[k], Below(n, p, reserved), path + [Child(k)],
                  reserved);
    }
    forall k | 0 <= k < (if s.Child? then j else j + 1)
      ensures Marked(final, Blocks(n)[k], Beside(n, p, reserved), path + [Block(k)], reserved)
    {
      assert SameBelow(if Block(k) == s then flags' else flags, final, path + [Block(k)]);
      MarkedFrame(if Block(k) == s then flags' else flags, final, Blocks(n)[k], Beside(n, p, reserved), path + [Block(k)],
                  reserved);
    }
    forall t: Step | t != s && Unset(flags, path + [t]) ensures Unset(final, path + [t]) {
      assert SameBelow(flags, final, path + [t]);
    }
  }

  lemma ElsewhereTwice(flags0: Flags, flags: Flags, flags': Flags, path: Path)
    requires SameElsewhere(flags0, flags, path) && SameElsewhere(flags, flags', path)
    ensures SameElsewhere(flags0, flags', path) && SameElsewhere(flags0, flags'[path := false], path)
  {
    assert Extends(path, path);
  }

  lemma MarkedFlags(flags: Flags, n: Node, p: Place, path: Path, i: nat, j: nat, s: Step, reserved: string -> bool)
    requires n.Element? && i <= |n.children| && j <= |Blocks(n)|
    requires if s.Child? then
               s.i == i < |n.children| && Marked(flags, n.children[i], Below(n, p, reserved), path + [s], reserved)
             else s.i == j < |Blocks(n)| && Marked(flags, Blocks(n)[j], Beside(n, p, reserved), path + [s], reserved)
    ensures Flag(flags, path + [s]) ==
            if s.Child? then Static(n.children[i], Below(n, p, reserved), reserved)
            else Static(Blocks(n)[j], Beside(n, p, reserved), reserved)
  {}

  /** The place below a node as the static flag sees it: the parts that only matter for roots do not count. */
  lemma {:induction false} StaticPlace(n: Node, p: Place, q: Place, reserved: string -> bool)
    requires p.marked == q.marked && p.inTemplateFor == q.inTemplateFor
    ensures Static(n, p, reserved) == Static(n, q, reserved)
  {}

  /** With all children and blocks marked, the node is: a node with blocks is not static on its own account. */
  lemma MarkEnd(flags0: Flags, flags: Flags, n: Node, p: Place, path: Path, reserved: string -> bool)
    requires n.Element? && p.marked && Descends(n.tag, reserved)
    requires MarkingNode(flags0, flags, n, p, path, |n.children|, |Blocks(n)|, reserved)
    ensures Marked(flags, n, p, path, reserved)
  {
    var q := Place(p.marked && Descends(n.tag, reserved), n.tag == "template" && (n.loop.For? || p.inTemplateFor),
                   false, false);
    forall k | 0 <= k < |n.children|
      ensures Static(n.children[k], Below(n, p, reserved), reserved) == Static(n.children[k], q, reserved)
    {
      StaticPlace(n.children[k], Below(n, p, reserved), q, reserved);
    }
  }

  lemma MarkSkipped(flags0: Flags, n: Node, p: Place, path: Path, reserved: string -> bool)
    requires n.Element? && Unset(flags0, path) && !Descends(n.tag, reserved)
    ensures var flags := flags0[path := OwnStatic(n, p, reserved)];
            Marked(flags, n, p, path, reserved) && SameElsewhere(flags0, flags, path)
  {
    var flags := flags0[path := OwnStatic(n, p, reserved)];
    MarkStart(flags0, n, p, path, reserved);
    forall i | 0 <= i < |n.children|
      ensures Marked(flags, n.children[i], Below(n, p, reserved), path + [Child(i)], reserved)
    {
      UnmarkedBelow(flags, n.children[i], Below(n, p, reserved), path + [Child(i)], reserved);
    }
    forall i | 0 <= i < |Blocks(n)|
      ensures Marked(flags, n.cond.others[i], Beside(n, p, reserved), path + [Block(i)], reserved)
    {
      UnmarkedBelow(flags, n.cond.others[i], Beside(n, p, reserved), path + [Block(i)], reserved);
    }
  }

  lemma MarkLeaf(flags0: Flags, n: Node, p: Place, path: Path, reserved: string -> bool)
    requires !n.Element? && p.marked
    ensures var flags := flags0[path := !n.Interpolation?];
            Marked(flags, n, p, path, reserved) && SameElsewhere(flags0, flags, path)
  {
    assert Extends(path, path);
  }

  // ----- the second pass

  /** In the middle of `markStaticRoots` at a node that is no root. */
  ghost predicate RootingNode(roots0: Flags, inFors0: Flags, roots: Flags, inFors: Flags, n: Node, p: Place, path: Path,
                              i: nat, j: nat, reserved: string -> bool)
    requires n.Element? && i <= |n.children| && j <= |Blocks(n)|
  {
    && SameElsewhere(roots0, roots, path) && SameElsewhere(inFors0, inFors, path)
    && !Flag(roots, path)
    && (forall k :: 0 <= k < i ==> Rooted(roots, inFors, n.children[k], Below(n, p, reserved), path + [Child(k)], reserved))
    && (forall k :: 0 <= k < j ==> Rooted(roots, inFors, Blocks(n)[k], Beside(n, p, reserved), path + [Block(k)], reserved))
    && (forall k :: i <= k < |n.children| ==> Unset(roots, path + [Child(k)]))
    && (forall k :: j <= k < |Blocks(n)| ==> Unset(roots, path + [Block(k)]))
  }

  lemma RootStart(roots0: Flags, inFors0: Flags, inFors: Flags, n: Node, p: Place, path: Path, reserved: string -> bool)
    requires n.Element? && Unset(roots0, path) && SameElsewhere(inFors0, inFors, path)
    ensures RootingNode(roots0, inFors0, roots0[path := false], inFors, n, p, path, 0, 0, reserved)
  {
    SetBelow(roots0, path, false, Child(0));
    forall s: Step ensures Unset(roots0[path := false], path + [s]) {
      SetBelow(roots0, path, false, s);
      UnsetStep(roots0, path, s);
    }
  }

  lemma RootStep(roots0: Flags, inFors0: Flags, roots: Flags, inFors: Flags, roots': Flags, inFors': Flags,
                 n: Node, p: Place, path: Path, i: nat, j: nat, s: Step, reserved: string -> bool)
    requires n.Element? && i <= |n.children| && j <= |Blocks(n)|
    requires RootingNode(roots0, inFors0, roots, inFors, n, p, path, i, j, reserved)
    requires SameElsewhere(roots, roots', path + [s]) && SameElsewhere(inFors, inFors', path + [s])
    requires if s.Child? then
               s.i == i < |n.children| && Rooted(roots', inFors', n.children[i], Below(n, p, reserved), path + [s], reserved)
             else
               s.i == j < |Blocks(n)| && Rooted(roots', inFors', Blocks(n)[j], Beside(n, p, reserved), path + [s], reserved)
    ensures RootingNode(roots0, inFors0, roots', inFors', n, p, path, if s.Child? then i + 1 else i,
                        if s.Child? then j else j + 1, reserved)
  {
    hide Rooted, Extends, SameElsewhere, SameBelow, Unset, Flag;
    ElsewhereStep(roots, roots', path, s);
    ElsewhereStep(inFors, inFors', path, s);
    ElsewhereTwice(roots0, roots, roots', path);
    ElsewhereTwice(inFors0, inFors, inFors', path);
    forall t: Step | t != s
      ensures SameBelow(roots, roots', path + [t]) && SameBelow(inFors, inFors', path + [t])
    {
      ApartStep(roots, roots', path, s, t);
      ApartStep(inFors, inFors', path, s, t);
    }
    forall k | 0 <= k < i
      ensures Rooted(roots', inFors', n.children[k], Below(n, p, reserved), path + [Child(k)], reserved)
    {
      RootedFrame(roots, inFors, roots', inFors', n.children[k], Below(n, p, reserved), path + [Child(k)], reserved);
    }
    forall k | 0 <= k < j
      ensures Rooted(roots', inFors', Blocks(n)[k], Beside(n, p, reserved), path + [Block(k)], reserved)
    {
      RootedFrame(roots, inFors, roots', inFors', Blocks(n)[k], Beside(n, p, reserved), path + [Block(k)], reserved);
    }
    forall t: Step | t != s && Unset(roots, path + [t]) ensures Unset(roots', path + [t]) {
      UnsetSame(roots, roots', path + [t]);
    }
  }

  lemma RootEnd(roots0: Flags, inFors0: Flags, roots: Flags, inFors: Flags, n: Node, p: Place, path: Path,
                reserved: string -> bool)
    requires n.Element? && !StaticRoot(n, p, reserved)
    requires RootingNode(roots0, inFors0, roots, inFors, n, p, path, |n.children|, |Blocks(n)|, reserved)
    ensures Rooted(roots, inFors, n, p, path, reserved)
    ensures SameElsewhere(roots0, roots, path) && SameElsewhere(inFors0, inFors, path)
  {}

  /** At a root the pass stops: it has no blocks, and nothing inside it is a root. */
  lemma RootFound(roots0: Flags, inFors: Flags, n: Node, p: Place, path: Path, reserved: string -> bool)
    requires n.Element? && StaticRoot(n, p, reserved) && Unset(roots0, path) && Flag(inFors, path) == p.inFor
    ensures Rooted(roots0[path := true], inFors, n, p, path, reserved)
    ensures SameElsewhere(roots0, roots0[path := true], path)
  {
    var roots := roots0[path := true];
    assert Extends(path, path) && Flag(roots, path);
    forall i | 0 <= i < |n.children|
      ensures Rooted(roots, inFors, n.children[i], Below(n, p, reserved), path + [Child(i)], reserved)
    {
      UnsetStep(roots0, path, Child(i));
      SetBelow(roots0, path, true, Child(i));
      NoRootsBelow(roots, inFors, n.children[i], Below(n, p, reserved), path + [Child(i)], reserved);
    }
  }

  /** Worth hoisting: more than one text. */
  predicate MoreThanText(n: Node)
    requires n.Element?
  {
    n.children != [] && !(|n.children| == 1 && (n.children[0].PlainText? || n.children[0].CommentNode?))
  }

  lemma RootTest(flags: Flags, n: Node, p: Place, path: Path, reserved: string -> bool)
    requires n.Element? && p.rootable && Marked(flags, n, p, path, reserved)
    ensures StaticRoot(n, p, reserved) <==> Flag(flags, path) && MoreThanText(n)
    ensures !StaticRoot(n, p, reserved) ==> Below(n, p, reserved).rootable
    ensures Beside(n, p, reserved).rootable
    ensures forall i :: 0 <= i < |n.children| ==>
              Marked(flags, n.children[i], Below(n, p, reserved), path + [Child(i)], reserved)
    ensures n.cond.If? ==> forall i :: 0 <= i < |n.cond.others| ==>
              Marked(flags, n.cond.others[i], Beside(n, p, reserved), path + [Block(i)], reserved)
  {}

  lemma NextUnrooted(roots0: Flags, inFors0: Flags, roots: Flags, inFors: Flags, n: Node, p: Place, path: Path,
                     i: nat, j: nat, reserved: string -> bool)
    requires n.Element? && i <= |n.children| && j <= |Blocks(n)|
    requires RootingNode(roots0, inFors0, roots, inFors, n, p, path, i, j, reserved)
    ensures i < |n.children| ==> Unset(roots, path + [Child(i)])
    ensures j < |Blocks(n)| ==> Unset(roots, path + [Block(j)])
  {}

  lemma RootLeaf(roots: Flags, inFors: Flags, n: Node, p: Place, path: Path, reserved: string -> bool)
    requires !n.Element? && Unset(roots, path)
    ensures Rooted(roots, inFors, n, p, path, reserved)
    ensures SameElsewhere(roots, roots, path) && SameElsewhere(inFors, inFors, path)
  {
    assert Extends(path, path);
  }

  // ----- what the flags mean

  /** A node is flagged as static exactly when it is visited and fixed. */
  lemma {:induction false} MarkedAt(flags: Flags, s: Spot, p: Place, before: Path, path: Path, reserved: string -> bool)
    requires Marked(flags, s.node, p, before, reserved) && PlaceOf(p, s, reserved) && Follow(s, path).Some?
    ensures Flag(flags, before + path) <==> IsFixed(Follow(s, path).value, reserved)
    decreases |path|
  {
    hide FixedTree, Visited, PlaceOf;
    if path == [] {
      assert before + path == before;
      PlaceFixed(p, s, reserved);
    } else {
      PlaceNext(p, s, path[0], reserved);
      assert before + [path[0]] + path[1..] == before + path;
      var q := if path[0].Child? then Below(s.node, p, reserved) else Beside(s.node, p, reserved);
      MarkedAt(flags, Next(s, path[0]).value, q, before + [path[0]], path[1..], reserved);
    }
  }

  lemma PlaceFixed(p: Place, s: Spot, reserved: string -> bool)
    requires PlaceOf(p, s, reserved)
    ensures Static(s.node, p, reserved) <==> IsFixed(s, reserved)
    ensures p.inFor <==> InLoop(s.above)
  {
    StaticIsFixed(s.node, p, s.above, reserved);
  }

  /** No node on the way was hoisted. */
  ghost predicate NoneAbove(roots: Flags, before: Path, path: Path) {
    forall k :: 0 <= k < |path| ==> !Flag(roots, before + path[..k])
  }

  lemma NoneAboveNext(roots: Flags, before: Path, path: Path)
    requires path != []
    ensures NoneAbove(roots, before, path) <==> !Flag(roots, before) && NoneAbove(roots, before + [path[0]], path[1..])
  {
    assert before + path[..0] == before;
    forall k | 0 < k < |path| ensures before + path[..k] == before + [path[0]] + path[1..][..k - 1] {
      assert path[..k] == [path[0]] + path[1..][..k - 1];
    }
    if NoneAbove(roots, before, path) {
      forall k | 0 <= k < |path| - 1 ensures !Flag(roots, before + [path[0]] + path[1..][..k]) {
        assert !Flag(roots, before + path[..k + 1]);
      }
    }
  }

  /**
   * A node is flagged as the root of a hoisted tree exactly when it is visited, fixed, worth it and not inside
   * another one; it then knows whether it is inside a loop.
   */
  lemma {:induction false} RootedAt(roots: Flags, inFors: Flags, s: Spot, p: Place, before: Path, path: Path,
                                    reserved: string -> bool)
    requires Rooted(roots, inFors, s.node, p, before, reserved) && PlaceOf(p, s, reserved) && Follow(s, path).Some?
    ensures var t := Follow(s, path).value;
            && (Flag(roots, before + path) <==>
                  IsFixed(t, reserved) && WorthHoisting(t.node) && p.rootable && NoneAbove(roots, before, path))
            && (Flag(roots, before + path) ==> (Flag(inFors, before + path) <==> InLoop(t.above)))
    decreases |path|
  {
    hide IsFixed, PlaceOf, InLoop, NoneAbove, Static;
    if path == [] {
      assert before + path == before;
      PlaceFixed(p, s, reserved);
      NothingAbove(roots, before);
    } else {
      var q := if path[0].Child? then Below(s.node, p, reserved) else Beside(s.node, p, reserved);
      PlaceNext(p, s, path[0], reserved);
      RootableNext(roots, inFors, s, p, before, path[0], reserved);
      NoneAboveNext(roots, before, path);
      assert before + [path[0]] + path[1..] == before + path;
      RootedAt(roots, inFors, Next(s, path[0]).value, q, before + [path[0]], path[1..], reserved);
    }
  }

  lemma NothingAbove(roots: Flags, before: Path)
    ensures NoneAbove(roots, before, [])
  {}

  lemma RootableNext(roots: Flags, inFors: Flags, s: Spot, p: Place, before: Path, step: Step, reserved: string -> bool)
    requires Rooted(roots, inFors, s.node, p, before, reserved) && Next(s, step).Some?
    ensures var q := if step.Child? then Below(s.node, p, reserved) else Beside(s.node, p, reserved);
            && (q.rootable <==> p.rootable && !Flag(roots, before))
            && Rooted(roots, inFors, Next(s, step).value.node, q, before + [step], reserved)
  {}

  /** The flags that both passes leave, for every node of the template. */
  ghost predicate Optimized(root: Node, isStatic: Flags, isRoot: Flags, isInFor: Flags, reserved: string -> bool) {
    forall path :: Follow(Spot(root, [], []), path).Some? ==>
      var t := Follow(Spot(root, [], []), path).value;
      && (Flag(isStatic, path) <==> IsFixed(t, reserved))
      && (Flag(isRoot, path) <==>
            IsFixed(t, reserved) && WorthHoisting(t.node) && forall k :: 0 <= k < |path| ==> !Flag(isRoot, path[..k]))
      && (Flag(isRoot, path) ==> (Flag(isInFor, path) <==> InLoop(t.above)))
  }

  lemma FlagsMean(root: Node, isStatic: Flags, isRoot: Flags, isInFor: Flags, reserved: string -> bool)
    requires Marked(isStatic, root, TOP, [], reserved) && Rooted(isRoot, isInFor, root, TOP, [], reserved)
    ensures Optimized(root, isStatic, isRoot, isInFor, reserved)
  {
    hide Marked, Rooted, IsFixed, InLoop, Follow;
    var s := Spot(root, [], []);
    TopPlace(root, reserved);
    forall path | Follow(s, path).Some?
      ensures var t := Follow(s, path).value;
              && (Flag(isStatic, path) <==> IsFixed(t, reserved))
              && (Flag(isRoot, path) <==>
                    && IsFixed(t, reserved) && WorthHoisting(t.node)
                    && forall k :: 0 <= k < |path| ==> !Flag(isRoot, path[..k]))
              && (Flag(isRoot, path) ==> (Flag(isInFor, path) <==> InLoop(t.above)))
    {
      assert [] + path == path && forall k :: 0 <= k < |path| ==> [] + path[..k] == path[..k];
      MarkedAt(isStatic, s, TOP, [], path, reserved);
      RootedAt(isRoot, isInFor, s, TOP, [], path, reserved);
    }
  }

  lemma TopPlace(root: Node, reserved: string -> bool)
    ensures PlaceOf(TOP, Spot(root, [], []), reserved)
  {}

  class Optimizer {
    const reserved: string -> bool
    var isStatic: Flags
    var isRoot: Flags
    var isInFor: Flags

    constructor (reserved: string -> bool)
      ensures this.reserved == reserved && isStatic == isRoot == isInFor == map[]
    {
      this.reserved := reserved;
      isStatic, isRoot, isInFor := map[], map[], map[];
    }

    /** `isDirectChildOfTemplateFor`: the search goes up from the innermost element. */
    method IsDirectChildOfTemplateFor(above: seq<Node>) returns (r: bool)
      requires AllElements(above)
      ensures r <==> InLoopTemplates(above)
    {
      var k := |above|;
      while k > 0
        invariant 0 <= k <= |above|
        invariant forall j :: k <= j < |above| ==> above[j].tag == "template" && !above[j].loop.For?
      {
        k := k - 1;
        if above[k].tag != "template" {
          return false;
        }
        if above[k].loop.For? {
          assert forall j :: k <= j < |above| ==> above[j].Element? && above[j].tag == "template";
          return true;
        }
      }
      return false;
    }

    /** `isStatic` for an element. */
    method IsStatic(n: Node, above: seq<Node>, ghost p: Place) returns (r: bool)
      requires n.Element? && AllElements(above) && (p.inTemplateFor <==> InLoopTemplates(above))
      ensures r == OwnStatic(n, p, reserved)
    {
      r := false;
      if !n.data.Bound? && n.cond.Always? && n.loop.NoLoop? && n.tag !in { "slot", "component" } && reserved(n.tag) {
        var inTemplateFor := IsDirectChildOfTemplateFor(above);
        r := !inTemplateFor;
      }
    }

    /** `markStatic`: a node is static until one of its children or blocks is not. */
    method MarkStatic(n: Node, above: seq<Node>, path: Path, ghost p: Place)
      requires p.marked && Unset(isStatic, path)
      requires AllElements(above) && (p.inTemplateFor <==> InLoopTemplates(above))
      modifies `isStatic
      ensures Marked(isStatic, n, p, path, reserved) && SameElsewhere(old(isStatic), isStatic, path)
      decreases n
    {
      hide *;
      ghost var before := isStatic;
      if !n.Element? {
        MarkLeaf(before, n, p, path, reserved);
        isStatic := isStatic[path := !n.Interpolation?];
        return;
      }
      var own := IsStatic(n, above, p);
      isStatic := isStatic[path := own];
      PlaceBelow(n, p, above, reserved);
      if !Descends(n.tag, reserved) {
        MarkSkipped(before, n, p, path, reserved);
        return;
      }
      MarkStart(before, n, p, path, reserved);
      DescendsMarked(n, p, reserved);
      for i := 0 to |n.children|
        invariant MarkingNode(before, isStatic, n, p, path, i, 0, reserved)
      {
        NextUnset(before, isStatic, n, p, path, i, 0, reserved);
        ghost var flags := isStatic;
        MarkStatic(n.children[i], above + [n], path + [Child(i)], Below(n, p, reserved));
        MarkStep(before, flags, isStatic, n, p, path, i, 0, Child(i), reserved);
        if !Flag(isStatic, path + [Child(i)]) {
          isStatic := isStatic[path := false];
        }
      }
      BlocksOf(n);
      if n.cond.If? {
        for j := 0 to |n.cond.others|
          invariant MarkingNode(before, isStatic, n, p, path, |n.children|, j, reserved)
        {
          NextUnset(before, isStatic, n, p, path, |n.children|, j, reserved);
          ghost var flags := isStatic;
          MarkStatic(n.cond.others[j], above, path + [Block(j)], Beside(n, p, reserved));
          MarkStep(before, flags, isStatic, n, p, path, |n.children|, j, Block(j), reserved);
          if !Flag(isStatic, path + [Block(j)]) {
            isStatic := isStatic[path := false];
          }
        }
      }
      MarkingElsewhere(before, isStatic, n, p, path, reserved);
      MarkEnd(before, isStatic, n, p, path, reserved);
    }

    /** `markStaticRoots`: the pass stops at a root. */
    method MarkStaticRoots(n: Node, inFor: bool, path: Path, ghost p: Place)
      requires p.rootable && p.inFor == inFor && Marked(isStatic, n, p, path, reserved) && Unset(isRoot, path)
      modifies `isRoot, `isInFor
      ensures Rooted(isRoot, isInFor, n, p, path, reserved)
      ensures SameElsewhere(old(isRoot), isRoot, path) && SameElsewhere(old(isInFor), isInFor, path)
      decreases n
    {
      hide *;
      ghost var roots0, inFors0 := isRoot, isInFor;
      NothingElsewhere(inFors0, path);
      if !n.Element? {
        RootLeaf(roots0, inFors0, n, p, path, reserved);
        return;
      }
      RootTest(isStatic, n, p, path, reserved);
      SetBelow(inFors0, path, inFor, Child(0));
      SetFlag(inFors0, path, inFor);
      LoopBelow(n, p, reserved);
      if Flag(isStatic, path) {
        isInFor := isInFor[path := inFor];
      }
      if Flag(isStatic, path) && MoreThanText(n) {
        RootFound(roots0, isInFor, n, p, path, reserved);
        isRoot := isRoot[path := true];
        return;
      }
      RootStart(roots0, inFors0, isInFor, n, p, path, reserved);
      isRoot := isRoot[path := false];
      for i := 0 to |n.children|
        invariant RootingNode(roots0, inFors0, isRoot, isInFor, n, p, path, i, 0, reserved)
      {
        NextUnrooted(roots0, inFors0, isRoot, isInFor, n, p, path, i, 0, reserved);
        ghost var roots, inFors := isRoot, isInFor;
        MarkStaticRoots(n.children[i], inFor || n.loop.For?, path + [Child(i)], Below(n, p, reserved));
        RootStep(roots0, inFors0, roots, inFors, isRoot, isInFor, n, p, path, i, 0, Child(i), reserved);
      }
      BlocksOf(n);
      if n.cond.If? {
        for j := 0 to |n.cond.others|
          invariant RootingNode(roots0, inFors0, isRoot, isInFor, n, p, path, |n.children|, j, reserved)
        {
          NextUnrooted(roots0, inFors0, isRoot, isInFor, n, p, path, |n.children|, j, reserved);
          ghost var roots, inFors := isRoot, isInFor;
          MarkStaticRoots(n.cond.others[j], inFor, path + [Block(j)], Beside(n, p, reserved));
          RootStep(roots0, inFors0, roots, inFors, isRoot, isInFor, n, p, path, |n.children|, j, Block(j), reserved);
        }
      }
      RootEnd(roots0, inFors0, isRoot, isInFor, n, p, path, reserved);
    }

    /**
     * `optimize`: both passes over a fresh template leave exactly `Static`, `StaticRoot` and the loop flag of
     * roots, and what these flags mean can be told from the template alone.
     */
    method Optimize(root: Node)
      requires isStatic == isRoot == isInFor == map[]
      modifies this
      ensures Marked(isStatic, root, TOP, [], reserved) && Rooted(isRoot, isInFor, root, TOP, [], reserved)
      ensures Optimized(root, isStatic, isRoot, isInFor, reserved)
    {
      MarkStatic(root, [], [], TOP);
      MarkStaticRoots(root, false, [], TOP);
      FlagsMean(root, isStatic, isRoot, isInFor, reserved);
    }
  }

  predicate AllElements(above: seq<Node>) {
    forall k :: 0 <= k < |above| ==> above[k].Element?
  }

  lemma PlaceBelow(n: Node, p: Place, above: seq<Node>, reserved: string -> bool)
    requires n.Element? && AllElements(above) && (p.inTemplateFor <==> InLoopTemplates(above))
    ensures AllElements(above + [n])
    ensures Below(n, p, reserved).inTemplateFor <==> InLoopTemplates(above + [n])
    ensures Beside(n, p, reserved).inTemplateFor == p.inTemplateFor
  {
    LoopTemplatesNext(above, n);
  }

  lemma LoopBelow(n: Node, p: Place, reserved: string -> bool)
    requires n.Element?
    ensures Below(n, p, reserved).inFor == (p.inFor || n.loop.For?) && Beside(n, p, reserved).inFor == p.inFor
  {}

  lemma SetFlag(flags: Flags, path: Path, b: bool)
    ensures Flag(flags[path := b], path) == b
  {}

  lemma NothingElsewhere(flags: Flags, path: Path)
    ensures SameElsewhere(flags, flags, path)
  {}

  lemma DescendsMarked(n: Node, p: Place, reserved: string -> bool)
    requires n.Element? && p.marked && Descends(n.tag, reserved)
    ensures Below(n, p, reserved).marked && Beside(n, p, reserved).marked
  {}

  lemma BlocksOf(n: Node)
    requires n.Element?
    ensures Blocks(n) == if n.cond.If? then n.cond.others else []
  {}

  lemma NextUnset(flags0: Flags, flags: Flags, n: Node, p: Place, path: Path, i: nat, j: nat, reserved: string -> bool)
    requires n.Element? && i <= |n.children| && j <= |Blocks(n)| && MarkingNode(flags0, flags, n, p, path, i, j, reserved)
    ensures i < |n.children| ==> Unset(flags, path + [Child(i)])
    ensures j < |Blocks(n)| ==> Unset(flags, path + [Block(j)])
  {}

  lemma MarkingElsewhere(flags0: Flags, flags: Flags, n: Node, p: Place, path: Path, reserved: string -> bool)
    requires n.Element? && MarkingNode(flags0, flags, n, p, path, |n.children|, |Blocks(n)|, reserved)
    ensures SameElsewhere(flags0, flags, path)
  {}
}
