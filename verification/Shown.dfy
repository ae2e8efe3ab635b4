/** What a template shows in a scope, piece by piece, told without its interpretation. */
module ShownTokens {
  import opened Values
  import opened Templates

  /**
   * This piece of markup is shown where `n` stands: by the node itself or by one below it, in one of the
   * turns of each loop on the way and in the block that each condition selects.
   */
  ghost predicate Shown(n: Node, env: Env, t: Token)
    decreases n, 1
  {
    match n
    case Interpolation(value) => t.Character? && t.c in value(env)
    case PlainText(text) => t.Character? && t.c in text
    case CommentNode(text) => t == CommentToken(text)
    case Element(_, _, NoLoop, _, _) => ShownOnce(n, env, t)
    case Element(_, _, For(source, bind), _, _) =>
      source(env).Some? &&
      exists k :: 0 <= k < |source(env).value| && ShownOnce(n, bind(env, source(env).value[k], k), t)
  }

  ghost predicate ShownOnce(n: Node, env: Env, t: Token)
    requires n.Element?
    decreases n, 0
  {
    if n.cond.If? && !n.cond.test(env) then
      || (t == CommentToken("") && forall i :: 0 <= i < |n.cond.others| ==> Refused(n.cond.others[i], env))
      || exists j :: 0 <= j < |n.cond.others| && Selected(n.cond.others, env, j) && Shown(n.cond.others[j], env, t)
    else
      || (n.tag != "template" && t.OpenTag? && t.tag == n.tag && HasAttrs(n.data, env, t.attrs))
      || (n.tag != "template" && t == CloseTag)
      || exists i :: 0 <= i < |n.children| && Shown(n.children[i], env, t)
  }

  ghost predicate HasAttrs(data: Data, env: Env, attrs: Attrs) {
    match data
    case Plain => attrs == []
    case Fixed(fixed) => attrs == fixed
    case Bound(at) => attrs == at(env)
  }

  ghost predicate Refused(block: Node, env: Env) {
    block.Element? && block.cond.ElseIf? && !block.cond.when(env)
  }

  /** The first block without a condition or with one that holds. */
  ghost predicate Selected(others: seq<Node>, env: Env, j: nat)
    requires j < |others|
  {
    !Refused(others[j], env) && forall i :: 0 <= i < j ==> Refused(others[i], env)
  }

  lemma InMarkup(t: Token, a: seq<Value>, b: seq<Value>)
    ensures t in MarkupAll(a + b) <==> t in MarkupAll(a) || t in MarkupAll(b)
  {
    MarkupConcat(a, b);
  }

  lemma InElement(t: Token, tag: string, attrs: Attrs, kids: seq<Value>)
    ensures t in MarkupAll([Elem(tag, attrs, kids)]) <==> t == OpenTag(tag, attrs) || t == CloseTag || t in MarkupAll(kids)
  {
    MarkupOne(Elem(tag, attrs, kids));
    assert Markup(Elem(tag, attrs, kids)) == [OpenTag(tag, attrs)] + MarkupAll(kids) + [CloseTag];
  }

  lemma InText(t: Token, text: string)
    ensures t in Characters(text) <==> t.Character? && t.c in text
  {
    if t.Character? && t.c in text {
      var i :| 0 <= i < |text| && text[i] == t.c;
      assert Characters(text)[i] == t;
    }
  }

  lemma LeafShown(n: Node, env: Env, t: Token)
    requires !n.Element?
    ensures t in MarkupAll(Interp(n, env)) <==> Shown(n, env, t)
  {
    hide Characters;
    assert Interp(n, env) == InterpOnce(n, env);
    MarkupOne(Interp(n, env)[0]);
    if n.PlainText? {
      InText(t, n.text);
    } else if n.Interpolation? {
      InText(t, n.value(env));
    }
  }

  /** The interpretation holds a piece of markup exactly when it is shown. */
  lemma {:induction false} InterpShown(n: Node, env: Env, t: Token)
    ensures t in MarkupAll(Interp(n, env)) <==> Shown(n, env, t)
    decreases n, 3
  {
    hide ShownOnce, InterpOnce, InterpTurns;
    if !n.Element? {
      LeafShown(n, env, t);
    } else if n.loop.NoLoop? {
      InterpOnceShown(n, env, t);
    } else if n.loop.source(env).Some? {
      InterpTurnsShown(n, n.loop.source(env).value, 0, env, t);
    }
  }

  lemma {:induction false} InterpTurnsShown(n: Node, list: seq<Item>, k: nat, env: Env, t: Token)
    requires n.Element? && n.loop.For? && k <= |list|
    ensures t in MarkupAll(InterpTurns(n, list, k, env)) <==>
            exists i :: k <= i < |list| && ShownOnce(n, n.loop.bind(env, list[i], i), t)
    decreases n, 2, |list| - k
  {
    hide ShownOnce, InterpOnce;
    if k == |list| {
    } else {
      var env' := n.loop.bind(env, list[k], k);
      InterpOnceShown(n, env', t);
      InterpTurnsShown(n, list, k + 1, env, t);
      InMarkup(t, InterpOnce(n, env'), InterpTurns(n, list, k + 1, env));
    }
  }

  lemma {:induction false} InterpOnceShown(n: Node, env: Env, t: Token)
    requires n.Element?
    ensures t in MarkupAll(InterpOnce(n, env)) <==> ShownOnce(n, env, t)
    decreases n, 1
  {
    hide Shown, Interp, InterpAll, InterpBody, MarkupAll, HasAttrs;
    if n.cond.If? && !n.cond.test(env) {
      InterpOthersShown(n.cond.others, env, t);
    } else {
      InterpAllShown(n.children, env, t);
      BodyShown(n, env, t);
    }
  }

  lemma BodyShown(n: Node, env: Env, t: Token)
    requires n.Element?
    ensures t in MarkupAll(InterpBody(n, env)) <==>
            || (n.tag != "template" && t.OpenTag? && t.tag == n.tag && HasAttrs(n.data, env, t.attrs))
            || (n.tag != "template" && t == CloseTag)
            || t in MarkupAll(InterpAll(n.children, env))
  {
    hide MarkupAll, InterpAll;
    var attrs := AttrsAt(n.data, env);
    InElement(t, n.tag, attrs, InterpAll(n.children, env));
    assert t == OpenTag(n.tag, attrs) <==> t.OpenTag? && t.tag == n.tag && HasAttrs(n.data, env, t.attrs);
  }

  lemma {:induction false} InterpOthersShown(others: seq<Node>, env: Env, t: Token)
    ensures t in MarkupAll(InterpOthers(others, env)) <==>
            || (t == CommentToken("") && forall i :: 0 <= i < |others| ==> Refused(others[i], env))
            || exists j :: 0 <= j < |others| && Selected(others, env, j) && Shown(others[j], env, t)
    decreases others
  {
    hide Shown, Interp;
    if others == [] {
      MarkupOne(Comment(""));
    } else {
      InterpShown(others[0], env, t);
      InterpOthersShown(others[1..], env, t);
      assert Selected(others, env, 0) <==> Taken(others[0], env);
      assert forall i :: 0 < i < |others| ==> others[i] == others[1..][i - 1];
      forall j | 0 < j < |others|
        ensures Selected(others, env, j) <==> !Taken(others[0], env) && Selected(others[1..], env, j - 1)
      {
        SelectedNext(others, env, j);
      }
    }
  }

  lemma SelectedNext(others: seq<Node>, env: Env, j: nat)
    requires 0 < j < |others|
    ensures Selected(others, env, j) <==> !Taken(others[0], env) && Selected(others[1..], env, j - 1)
  {
    assert forall i :: 0 < i < |others| ==> others[i] == others[1..][i - 1];
  }

  lemma {:induction false} InterpAllShown(ns: seq<Node>, env: Env, t: Token)
    ensures t in MarkupAll(InterpAll(ns, env)) <==> exists i :: 0 <= i < |ns| && Shown(ns[i], env, t)
    decreases ns
  {
    hide Shown, Interp;
    if ns == [] {
    } else {
      InterpShown(ns[0], env, t);
      InterpAllShown(ns[1..], env, t);
      InMarkup(t, Interp(ns[0], env), InterpAll(ns[1..], env));
    }
  }
}
