/** What render functions produce: virtual nodes, arrays of them, and values that are not nodes. */
module Values {
  type Attrs = seq<(string, string)>

  datatype Value =
    | Elem(tag: string, attrs: Attrs, kids: seq<Value>)
    | Text(text: string)
    | Comment(text: string)
    | Array(items: seq<Value>)
    | Undefined
    | Bool(b: bool)
    | Prim(text: string)
    | Broken

  /** Rendered markup. Adjacent text runs together, and nothing shows where one array ends and another begins. */
  datatype Token = OpenTag(tag: string, attrs: Attrs) | CloseTag | Character(c: char) | CommentToken(text: string) | Garbage

  function Characters(s: string): seq<Token> {
    seq(|s|, i requires 0 <= i < |s| => Character(s[i]))
  }

  function Markup(v: Value): seq<Token>
    decreases v
  {
    match v
    case Elem(tag, attrs, kids) => [OpenTag(tag, attrs)] + MarkupAll(kids) + [CloseTag]
    case Text(text) => Characters(text)
    case Comment(text) => [CommentToken(text)]
    case Array(items) => MarkupAll(items)
    case Undefined => []
    case Bool(_) => []
    case Prim(text) => Characters(text)
    case Broken => [Garbage]
  }

  function MarkupAll(vs: seq<Value>): seq<Token>
    decreases vs
  {
    if vs == [] then [] else Markup(vs[0]) + MarkupAll(vs[1..])
  }

  lemma {:induction false} MarkupConcat(a: seq<Value>, b: seq<Value>)
    ensures MarkupAll(a + b) == MarkupAll(a) + MarkupAll(b)
  {
    if a == [] {
      assert a + b == b;
    } else {
      assert (a + b)[1..] == a[1..] + b;
      MarkupConcat(a[1..], b);
    }
  }

  lemma MarkupOne(v: Value)
    ensures MarkupAll([v]) == Markup(v)
  {}

  /** A tree that can be mounted: a node all of whose children are nodes, at every level. */
  predicate Proper(v: Value)
    decreases v
  {
    v.Text? || v.Comment? || (v.Elem? && forall i :: 0 <= i < |v.kids| ==> Proper(v.kids[i]))
  }

  predicate AllProper(vs: seq<Value>) {
    forall i :: 0 <= i < |vs| ==> Proper(vs[i])
  }
}
