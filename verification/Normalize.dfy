/** `normalizeArrayChildren`: nested children are flattened and adjacent text is joined. */
module Normalization {
  import opened Values

  /** All leaves of nested arrays in order, without what renders to nothing. */
  function Flat(vs: seq<Value>): seq<Value>
    decreases vs
  {
    if vs == [] then [] else FlatOne(vs[0]) + Flat(vs[1..])
  }

  function FlatOne(v: Value): seq<Value>
    decreases v
  {
    match v
    case Array(items) => Flat(items)
    case Undefined => []
    case Bool(_) => []
    case Prim(text) => if text == "" then [] else [Text(text)]
    case _ => [v]
  }

  predicate EndsInText(l: seq<Value>) {
    l != [] && l[|l| - 1].Text?
  }

  /** Appending one node, joined to the last one when both are text. */
  function Append(l: seq<Value>, v: Value): seq<Value> {
    if EndsInText(l) && v.Text? then l[..|l| - 1] + [Text(l[|l| - 1].text + v.text)] else l + [v]
  }

  function Coalesce(l: seq<Value>, vs: seq<Value>): seq<Value>
    decreases |vs|
  {
    if vs == [] then l else Coalesce(Append(l, vs[0]), vs[1..])
  }

  /** The specification: flatten, then join adjacent text. */
  function Normal(vs: seq<Value>): seq<Value> {
    Coalesce([], Flat(vs))
  }

  ghost predicate NoAdjacentText(l: seq<Value>) {
    forall i :: 0 <= i < |l| - 1 ==> !(l[i].Text? && l[i + 1].Text?)
  }

  ghost predicate OnlyNodes(l: seq<Value>) {
    forall i :: 0 <= i < |l| ==> l[i].Text? || l[i].Comment? || l[i].Elem? || l[i].Broken?
  }

  lemma {:induction false} FlatOnlyNodes(vs: seq<Value>)
    ensures OnlyNodes(Flat(vs))
    decreases vs
  {
    if vs == [] {
    } else {
      if vs[0].Array? { FlatOnlyNodes(vs[0].items); }
      FlatOnlyNodes(vs[1..]);
    }
  }

  lemma {:induction false} FlatConcat(a: seq<Value>, b: seq<Value>)
    ensures Flat(a + b) == Flat(a) + Flat(b)
  {
    if a == [] {
      assert a + b == b;
    } else {
      assert (a + b)[1..] == a[1..] + b;
      FlatConcat(a[1..], b);
    }
  }

  lemma {:induction false} CoalesceConcat(l: seq<Value>, a: seq<Value>, b: seq<Value>)
    ensures Coalesce(l, a + b) == Coalesce(Coalesce(l, a), b)
    decreases |a|
  {
    if a == [] {
      assert a + b == b;
    } else {
      assert (a + b)[1..] == a[1..] + b;
      CoalesceConcat(Append(l, a[0]), a[1..], b);
    }
  }

  /** Joining two lists: only the border may need joining. */
  function Joined(l: seq<Value>, s: seq<Value>): seq<Value> {
    if s == [] then l else Append(l, s[0]) + s[1..]
  }

  /** Normalising a nested array on its own and joining it at the border is the same as going on through it. */
  lemma {:induction false} CoalesceNested(l: seq<Value>, s: seq<Value>, vs: seq<Value>)
    ensures Joined(l, Coalesce(s, vs)) == Coalesce(Joined(l, s), vs)
    decreases |vs|
  {
    if vs == [] {
    } else {
      CoalesceNested(l, Append(s, vs[0]), vs[1..]);
      JoinedAppend(l, s, vs[0]);
    }
  }

  lemma JoinedAppend(l: seq<Value>, s: seq<Value>, v: Value)
    ensures Joined(l, Append(s, v)) == Append(Joined(l, s), v)
  {
    if s == [] {
      assert Append(s, v) == [v];
      assert Append(l, v) + [v][1..] == Append(l, v);
    } else if |s| == 1 {
      JoinedOne(l, s[0], v);
      assert s == [s[0]];
    } else {
      JoinedLong(l, s, v);
    }
  }

  lemma JoinedOne(l: seq<Value>, x: Value, v: Value)
    ensures Joined(l, Append([x], v)) == Append(Joined(l, [x]), v)
  {
    assert [x][1..] == [] && Append(l, x) + [] == Append(l, x);
    if x.Text? && v.Text? {
      var xv := Text(x.text + v.text);
      assert Append([x], v) == [xv] && [xv][1..] == [] && Append(l, xv) + [] == Append(l, xv);
      if EndsInText(l) {
        assert l[|l| - 1].text + (x.text + v.text) == l[|l| - 1].text + x.text + v.text;
      }
    } else {
      assert Append([x], v) == [x, v] && [x, v][1..] == [v];
    }
  }

  lemma JoinedLong(l: seq<Value>, s: seq<Value>, v: Value)
    requires |s| >= 2
    ensures Joined(l, Append(s, v)) == Append(Joined(l, s), v)
  {
    hide Append;
    assert s == [s[0]] + s[1..];
    AppendAfter([s[0]], s[1..], v);
    AppendAfter(Append(l, s[0]), s[1..], v);
    assert ([s[0]] + Append(s[1..], v))[1..] == Append(s[1..], v);
  }

  lemma AppendAfter(a: seq<Value>, m: seq<Value>, v: Value)
    requires m != []
    ensures Append(a + m, v) == a + Append(m, v)
  {
    assert (a + m)[..|a + m| - 1] == a + m[..|m| - 1];
  }

  // ----- properties of the specification

  lemma {:induction false} CoalesceNoAdjacentText(l: seq<Value>, vs: seq<Value>)
    requires NoAdjacentText(l) && OnlyNodes(l) && OnlyNodes(vs)
    ensures NoAdjacentText(Coalesce(l, vs)) && OnlyNodes(Coalesce(l, vs))
    decreases |vs|
  {
    if vs == [] {
    } else {
      CoalesceNoAdjacentText(Append(l, vs[0]), vs[1..]);
    }
  }

  /** The result has no nested array and no two adjacent text nodes. */
  lemma NormalShape(vs: seq<Value>)
    ensures OnlyNodes(Normal(vs)) && NoAdjacentText(Normal(vs))
  {
    FlatOnlyNodes(vs);
    CoalesceNoAdjacentText([], Flat(vs));
  }

  lemma {:induction false} CoalesceNothing(l: seq<Value>, vs: seq<Value>)
    requires NoAdjacentText(l + vs)
    ensures Coalesce(l, vs) == l + vs
    decreases |vs|
  {
    if vs == [] {
      assert l + vs == l;
    } else {
      assert (l + vs)[|l|] == vs[0];
      assert EndsInText(l) ==> (l + vs)[|l| - 1] == l[|l| - 1];
      assert l + [vs[0]] + vs[1..] == l + vs;
      CoalesceNothing(l + [vs[0]], vs[1..]);
    }
  }

  lemma {:induction false} FlatNothing(vs: seq<Value>)
    requires OnlyNodes(vs)
    ensures Flat(vs) == vs
  {
    if vs == [] {
    } else {
      FlatNothing(vs[1..]);
    }
  }

  /** Normalising again changes nothing. */
  lemma NormalIdempotent(vs: seq<Value>)
    ensures Normal(Normal(vs)) == Normal(vs)
  {
    NormalShape(vs);
    FlatNothing(Normal(vs));
    assert [] + Normal(vs) == Normal(vs);
    CoalesceNothing([], Normal(vs));
  }

  /** A list that is normal already is left as it is. */
  lemma NormalFixed(vs: seq<Value>)
    requires OnlyNodes(vs) && NoAdjacentText(vs)
    ensures Normal(vs) == vs
  {
    FlatNothing(vs);
    assert [] + vs == vs;
    CoalesceNothing([], vs);
  }

  lemma FlatSplit(a: seq<Value>, s: seq<Value>, b: seq<Value>)
    ensures Normal(a + s + b) == Coalesce(Coalesce(Coalesce([], Flat(a)), Flat(s)), Flat(b))
  {
    FlatConcat(a + s, b);
    FlatConcat(a, s);
    CoalesceConcat([], Flat(a) + Flat(s), Flat(b));
    CoalesceConcat([], Flat(a), Flat(s));
  }

  /**
   * What normalising does to one child, wherever it stands: what renders to nothing is dropped, an array is
   * replaced by its items and a primitive by a text. With `TextsJoin` and `NormalFixed` this determines the
   * result.
   */
  lemma ChildReplaced(a: seq<Value>, v: Value, b: seq<Value>)
    requires v.Undefined? || v.Bool? || v.Array? || v.Prim?
    ensures Normal(a + [v] + b) ==
            match v
            case Array(items) => Normal(a + items + b)
            case Prim(text) => if text == "" then Normal(a + b) else Normal(a + [Text(text)] + b)
            case _ => Normal(a + b)
  {
    hide Normal, Coalesce;
    FlatSplit(a, [v], b);
    FlatSplit(a, [], b);
    assert a + [] + b == a + b;
    assert [v][1..] == [] && FlatOne(v) + [] == FlatOne(v);
    match v
    case Array(items) => FlatSplit(a, items, b);
    case Prim(text) =>
      FlatSplit(a, [Text(text)], b);
      assert [Text(text)][1..] == [] && FlatOne(Text(text)) + [] == FlatOne(Text(text));
    case _ =>
  }

  /** Two texts side by side become one. */
  lemma TextsJoin(a: seq<Value>, s: string, t: string, b: seq<Value>)
    ensures Normal(a + [Text(s), Text(t)] + b) == Normal(a + [Text(s + t)] + b)
  {
    hide Normal;
    FlatSplit(a, [Text(s), Text(t)], b);
    FlatSplit(a, [Text(s + t)], b);
    FlatNothing([Text(s), Text(t)]);
    FlatNothing([Text(s + t)]);
    var l := Coalesce([], Flat(a));
    CoalesceOne(l, Text(s + t));
    CoalesceConcat(l, [Text(s)], [Text(t)]);
    CoalesceOne(l, Text(s));
    CoalesceOne(Append(l, Text(s)), Text(t));
    assert [Text(s)] + [Text(t)] == [Text(s), Text(t)];
    if EndsInText(l) {
      assert l[|l| - 1].text + s + t == l[|l| - 1].text + (s + t);
    }
  }

  lemma {:induction false} FlatMarkup(vs: seq<Value>)
    ensures MarkupAll(Flat(vs)) == MarkupAll(vs)
    decreases vs
  {
    if vs == [] {
    } else {
      FlatMarkup(vs[1..]);
      MarkupConcat(FlatOne(vs[0]), Flat(vs[1..]));
      match vs[0]
      case Array(items) => FlatMarkup(items);
      case Prim(text) => MarkupOne(Text(text));
      case Undefined =>
      case Bool(_) =>
      case _ => MarkupOne(vs[0]);
    }
  }

  lemma AppendMarkup(l: seq<Value>, v: Value)
    ensures MarkupAll(Append(l, v)) == MarkupAll(l) + Markup(v)
  {
    if EndsInText(l) && v.Text? {
      var init, t := l[..|l| - 1], l[|l| - 1].text;
      assert l == init + [Text(t)];
      MarkupConcat(init, [Text(t)]);
      MarkupConcat(init, [Text(t + v.text)]);
      MarkupOne(Text(t));
      MarkupOne(Text(t + v.text));
      assert Characters(t + v.text) == Characters(t) + Characters(v.text);
    } else {
      MarkupConcat(l, [v]);
      MarkupOne(v);
    }
  }

  lemma {:induction false} CoalesceMarkup(l: seq<Value>, vs: seq<Value>)
    ensures MarkupAll(Coalesce(l, vs)) == MarkupAll(l) + MarkupAll(vs)
    decreases |vs|
  {
    if vs == [] {
    } else {
      hide Append;
      CoalesceMarkup(Append(l, vs[0]), vs[1..]);
      AppendMarkup(l, vs[0]);
      assert MarkupAll(vs) == Markup(vs[0]) + MarkupAll(vs[1..]);
    }
  }

  /** The text and the order of everything else are kept. */
  lemma NormalMarkup(vs: seq<Value>)
    ensures MarkupAll(Normal(vs)) == MarkupAll(vs)
  {
    CoalesceMarkup([], Flat(vs));
    FlatMarkup(vs);
  }

  /** The loop of the source, which normalises nested arrays recursively and edits the last node in place. */
  method NormalizeArrayChildren(vs: seq<Value>) returns (l: seq<Value>)
    ensures l == Normal(vs)
    decreases vs
  {
    hide Normal;
    l := [];
    NormalNone();
    for a := 0 to |vs|
      invariant l == Normal(vs[..a])
    {
      var s := vs[a];
      NormalNext(vs, a, l);
      if s.Undefined? || s.Bool? {
      } else if s.Array? {
        if |s.items| > 0 {
          var inner := NormalizeArrayChildren(s.items);
          if inner != [] && inner[0].Text? && EndsInText(l) {
            l := l[..|l| - 1] + [Text(l[|l| - 1].text + inner[0].text)];
            inner := inner[1..];
          }
          l := l + inner;
        } else {
          assert FlatOne(s) == [];
        }
      } else if s.Prim? {
        if EndsInText(l) {
          assert s.text == "" ==> l[|l| - 1].text + s.text == l[|l| - 1].text;
          l := l[..|l| - 1] + [Text(l[|l| - 1].text + s.text)];
        } else if s.text != "" {
          l := l + [Text(s.text)];
        }
      } else if s.Text? && EndsInText(l) {
        l := l[..|l| - 1] + [Text(l[|l| - 1].text + s.text)];
      } else {
        l := l + [s];
      }
    }
    assert vs[..|vs|] == vs;
  }

  lemma NormalNone()
    ensures Normal([]) == []
  {}

  /** One turn of the loop, by the kind of child. */
  lemma NormalNext(vs: seq<Value>, a: nat, l: seq<Value>)
    requires a < |vs| && l == Normal(vs[..a])
    ensures var next := Normal(vs[..a + 1]);
            match vs[a]
            case Undefined => next == l
            case Bool(_) => next == l
            case Array(items) =>
              var inner := Normal(items);
              && (inner == [] ==> next == l)
              && (inner != [] ==> next == Append(l, inner[0]) + inner[1..])
            case Prim(text) => next == if text == "" then l else Append(l, Text(text))
            case _ => next == Append(l, vs[a])
  {
    var s := vs[a];
    assert vs[..a + 1] == vs[..a] + [s];
    FlatConcat(vs[..a], [s]);
    assert [s][1..] == [] && FlatOne(s) + [] == FlatOne(s) && Flat([s]) == FlatOne(s);
    CoalesceConcat([], Flat(vs[..a]), FlatOne(s));
    if s.Array? {
      CoalesceNested(l, [], Flat(s.items));
    } else if FlatOne(s) != [] {
      CoalesceOne(l, FlatOne(s)[0]);
      assert FlatOne(s) == [FlatOne(s)[0]];
    }
  }

  lemma CoalesceOne(l: seq<Value>, v: Value)
    ensures Coalesce(l, [v]) == Append(l, v)
  {}
}
