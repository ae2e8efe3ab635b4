/**
 * Virtual nodes, the "same node" test of the diff, and mounted virtual nodes: a virtual node together
 * with the document nodes that show it.
 */
module VNodes {
  import opened Options
  import opened Dom
  import opened Keys

  /** Only an element with data has a key: the source reads it off the data. */
  datatype VNode =
    | Element(key: Option<Key>, tag: string, data: Option<Data>, children: ChildList)
    | Text(text: string)
    | Comment(text: string)

  /** The `children` field: undefined, or an array. */
  datatype ChildList = NoChildren | ChildArray(list: seq<VNode>)

  function KeyOf(v: VNode): Option<Key> {
    if v.Element? && v.data.Some? then v.key else None
  }

  /** The property of the key index that a virtual node is filed under. */
  function KeyName(v: VNode): Option<string> {
    if KeyOf(v).Some? then Some(PropertyName(KeyOf(v).value)) else None
  }

  const TEXT_INPUT_TYPES: set<string> := { "text", "number", "password", "search", "email", "tel", "url" }

  /** The value of `isDef(data) && isDef(data.attrs) && attrs.type`. */
  datatype InputType = NoAttributes | NoType | TypeName(name: string)

  function InputTypeOf(v: VNode): InputType
    requires v.Element?
  {
    if v.data.None? || v.data.value.attrs.None? then NoAttributes
    else
      var attrs := v.data.value.attrs.value;
      if "type" in attrs then TypeName(attrs["type"]) else NoType
  }

  predicate IsTextInput(t: InputType) {
    t.TypeName? && t.name in TEXT_INPUT_TYPES
  }

  predicate SameInputType(a: VNode, b: VNode)
    requires a.Element? && b.Element?
  {
    a.tag != "input" || InputTypeOf(a) == InputTypeOf(b) || (IsTextInput(InputTypeOf(a)) && IsTextInput(InputTypeOf(b)))
  }

  predicate SameVNode(a: VNode, b: VNode) {
    && KeyOf(a) == KeyOf(b)
    && a.Element? == b.Element? && a.Text? == b.Text?
    && (a.Element? ==> a.tag == b.tag && a.data.Some? == b.data.Some? && SameInputType(a, b))
  }

  /**
   * The same test as a statement about the two nodes: a text is reused for a text, a comment for a comment,
   * and an element for an element of its tag that has data as well, with the key, or has none either.
   */
  ghost predicate SameKind(o: VNode, v: VNode) {
    match o
    case Text(_) => v.Text?
    case Comment(_) => v.Comment?
    case Element(key, tag, data, _) =>
      && v.Element? && v.tag == tag
      && (if data.None? then v.data.None? else v.data.Some? && v.key == key)
      && (tag == "input" && data.Some? ==> SameField(data.value.attrs, v.data.value.attrs))
  }

  /** For input fields: neither has attributes, or both have, of equal or missing types or of two types of text field. */
  ghost predicate SameField(a: Option<map<string, string>>, b: Option<map<string, string>>) {
    || (a.None? && b.None?)
    || (a.Some? && b.Some? && "type" !in a.value && "type" !in b.value)
    || (a.Some? && b.Some? && "type" in a.value && "type" in b.value &&
        (a.value["type"] == b.value["type"] ||
         {a.value["type"], b.value["type"]} <= {"text", "number", "password", "search", "email", "tel", "url"}))
  }

  lemma SameKindExactly(o: VNode, v: VNode)
    ensures SameVNode(o, v) <==> SameKind(o, v)
  {
    if o.Element? && v.Element? && o.data.Some? && v.data.Some? && InputTypeOf(o).TypeName? && InputTypeOf(v).TypeName? {
      assert SameField(o.data.value.attrs, v.data.value.attrs) <==>
             InputTypeOf(o) == InputTypeOf(v) || (IsTextInput(InputTypeOf(o)) && IsTextInput(InputTypeOf(v)));
    }
  }

  function InputField(kind: string): VNode {
    Element(None, "input", Some(Data(Some(map["type" := kind]), map[])), NoChildren)
  }

  /** A text field becomes a password field, but a checkbox does not become a text field. */
  lemma FieldsReused()
    ensures SameVNode(InputField("text"), InputField("password"))
    ensures !SameVNode(InputField("checkbox"), InputField("text"))
  {
    assert map["type" := "checkbox"]["type"] != map["type" := "text"]["type"];
  }

  /** No two keys of the list name the same property. */
  ghost predicate KeysDistinct(vs: seq<VNode>) {
    forall i, j :: 0 <= i < j < |vs| && KeyName(vs[i]).Some? ==> KeyName(vs[i]) != KeyName(vs[j])
  }

  /** The list of children, empty when it is undefined. */
  function Children(v: VNode): seq<VNode> {
    if v.Element? && v.children.ChildArray? then v.children.list else []
  }

  function ContentOf(v: VNode): Content {
    match v
    case Element(_, tag, data, _) => ElementNode(tag, data)
    case Text(text) => TextNode(text)
    case Comment(text) => CommentNode(text)
  }

  /** A document subtree as a value. */
  datatype DomTree = DomTree(content: Content, kids: seq<DomTree>)

  /** The document tree a virtual node stands for. */
  function Render(v: VNode): DomTree
    decreases v
  {
    match v
    case Element(_, tag, data, ChildArray(cs)) =>
      DomTree(ElementNode(tag, data), seq(|cs|, i requires 0 <= i < |cs| => Render(cs[i])))
    case Element(_, tag, data, NoChildren) => DomTree(ElementNode(tag, data), [])
    case Text(text) => DomTree(TextNode(text), [])
    case Comment(text) => DomTree(CommentNode(text), [])
  }

  type Contents = map<Elm, Content>
  type KidMap = map<Elm, seq<Elm>>

  /** The document below `e` is the tree `t`. */
  ghost predicate Depicts(content: Contents, kids: KidMap, e: Elm, t: DomTree)
    decreases t
  {
    && e in content && e in kids
    && content[e] == t.content
    && |kids[e]| == |t.kids|
    && forall i :: 0 <= i < |t.kids| ==> Depicts(content, kids, kids[e][i], t.kids[i])
  }

  /** A virtual node whose `elm` fields are set, children included. */
  datatype Mounted = Mounted(vnode: VNode, elm: Elm, kids: seq<Mounted>)

  function Roots(ms: seq<Mounted>): (r: seq<Elm>)
    ensures |r| == |ms| && forall i :: 0 <= i < |ms| ==> r[i] == ms[i].elm
  {
    seq(|ms|, i requires 0 <= i < |ms| => ms[i].elm)
  }

  ghost function Elms(m: Mounted): set<Elm>
    decreases m
  {
    {m.elm} + ElmsOf(m.kids)
  }

  ghost function ElmsOf(ms: seq<Mounted>): set<Elm>
    decreases ms
  {
    set i, e | 0 <= i < |ms| && e in Elms(ms[i]) :: e
  }

  /** The document shows `m`: its nodes carry the right content and children, and no node is used twice. */
  ghost predicate Shows(content: Contents, kids: KidMap, m: Mounted)
    decreases m
  {
    && m.elm in content && m.elm in kids
    && content[m.elm] == ContentOf(m.vnode)
    && kids[m.elm] == Roots(m.kids)
    && |m.kids| == |Children(m.vnode)|
    && (forall i :: 0 <= i < |m.kids| ==> m.kids[i].vnode == Children(m.vnode)[i])
    && m.elm !in ElmsOf(m.kids)
    && Forest(content, kids, m.kids)
  }

  ghost predicate Forest(content: Contents, kids: KidMap, ms: seq<Mounted>)
    decreases ms
  {
    && (forall i :: 0 <= i < |ms| ==> Shows(content, kids, ms[i]))
    && Apart(ms)
  }

  ghost predicate Apart(ms: seq<Mounted>) {
    forall i, j :: 0 <= i < j < |ms| ==> Elms(ms[i]) !! Elms(ms[j])
  }

  ghost predicate Agree(content: Contents, kids: KidMap, content': Contents, kids': KidMap, es: set<Elm>) {
    forall e :: e in es && e in content && e in kids ==>
                  e in content' && e in kids' && content'[e] == content[e] && kids'[e] == kids[e]
  }

  lemma {:induction false} ShowsFrame(content: Contents, kids: KidMap, content': Contents, kids': KidMap, m: Mounted)
    requires Shows(content, kids, m)
    requires Agree(content, kids, content', kids', Elms(m))
    ensures Shows(content', kids', m)
    decreases m
  {
    forall i | 0 <= i < |m.kids| ensures Shows(content', kids', m.kids[i]) {
      assert Elms(m.kids[i]) <= Elms(m);
      ShowsFrame(content, kids, content', kids', m.kids[i]);
    }
  }

  lemma ForestFrame(content: Contents, kids: KidMap, content': Contents, kids': KidMap, ms: seq<Mounted>)
    requires Forest(content, kids, ms)
    requires Agree(content, kids, content', kids', ElmsOf(ms))
    ensures Forest(content', kids', ms)
  {
    forall i | 0 <= i < |ms| ensures Shows(content', kids', ms[i]) {
      assert Elms(ms[i]) <= ElmsOf(ms);
      ShowsFrame(content, kids, content', kids', ms[i]);
    }
  }

  /** All nodes of a shown tree are nodes of the document. */
  lemma {:induction false} ShownElmsExist(content: Contents, kids: KidMap, m: Mounted)
    requires Shows(content, kids, m)
    ensures Elms(m) <= content.Keys
    decreases m
  {
    forall i | 0 <= i < |m.kids| ensures Elms(m.kids[i]) <= content.Keys {
      ShownElmsExist(content, kids, m.kids[i]);
    }
  }

  /** A shown virtual node is depicted by the document, exactly as it would be rendered from scratch. */
  lemma {:induction false} ShowsDepicts(content: Contents, kids: KidMap, m: Mounted)
    requires Shows(content, kids, m)
    ensures Depicts(content, kids, m.elm, Render(m.vnode))
    decreases m
  {
    forall i | 0 <= i < |m.kids| ensures Depicts(content, kids, m.kids[i].elm, Render(m.kids[i].vnode)) {
      ShowsDepicts(content, kids, m.kids[i]);
    }
  }
}
