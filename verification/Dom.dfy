/**
 * The part of a browser document that the patch algorithm edits: a forest of nodes whose child lists
 * are changed by insertion, removal and text assignment (the `nodeOps` table of the source).
 */
module Dom {
  import opened Sequences
  import opened Options

  type Elm = nat

  /** What the modules' `update` hooks write on an element; only `attrs.type` is looked at by the diff. */
  datatype Data = Data(attrs: Option<map<string, string>>, rest: map<string, string>)

  datatype Content =
    | ElementNode(tag: string, data: Option<Data>)
    | TextNode(text: string)
    | CommentNode(text: string)

  /** `s` with `e` put before the reference node, or at the end when there is none. */
  function InsertedBefore(s: seq<Elm>, e: Elm, ref: Option<Elm>): (r: seq<Elm>)
    ensures forall x :: x in r <==> x in s || x == e
  {
    if s == [] then [e]
    else if ref == Some(s[0]) then [e] + s
    else [s[0]] + InsertedBefore(s[1..], e, ref)
  }

  /** The sibling after the first occurrence of `e`. */
  function Sibling(s: seq<Elm>, e: Elm): Option<Elm> {
    if |s| <= 1 then None else if s[0] == e then Some(s[1]) else Sibling(s[1..], e)
  }

  function First(s: seq<Elm>): Option<Elm> {
    if s == [] then None else Some(s[0])
  }

  lemma {:induction false} InsertedBeforeAt(a: seq<Elm>, e: Elm, b: seq<Elm>)
    requires b != [] ==> b[0] !in a
    ensures InsertedBefore(a + b, e, First(b)) == a + [e] + b
  {
    if a == [] {
      assert a + b == b && a + [e] + b == [e] + b;
      if b != [] {
        assert InsertedBefore(b, e, First(b)) == [e] + b;
      }
    } else {
      assert (a + b)[0] == a[0] && (a + b)[1..] == a[1..] + b;
      InsertedBeforeAt(a[1..], e, b);
      assert a + [e] + b == [a[0]] + (a[1..] + [e] + b);
    }
  }

  lemma {:induction false} SiblingAt(a: seq<Elm>, e: Elm, b: seq<Elm>)
    requires e !in a
    ensures Sibling(a + [e] + b, e) == First(b)
  {
    if a == [] {
      assert a + [e] + b == [e] + b;
    } else {
      assert (a + [e] + b)[1..] == a[1..] + [e] + b;
      SiblingAt(a[1..], e, b);
    }
  }

  lemma {:induction false} InsertedBeforeNoDup(s: seq<Elm>, e: Elm, ref: Option<Elm>)
    requires NoDup(s) && e !in s
    ensures NoDup(InsertedBefore(s, e, ref))
  {
    if s == [] {
    } else {
      NoDupCons(s);
      var rest := if ref == Some(s[0]) then s else InsertedBefore(s[1..], e, ref);
      if ref != Some(s[0]) {
        InsertedBeforeNoDup(s[1..], e, ref);
      }
      var r := [if ref == Some(s[0]) then e else s[0]] + rest;
      assert r[1..] == rest;
      NoDupCons(r);
    }
  }

  ghost predicate IsParent(parent: map<Elm, Elm>, c: Elm, p: Elm) {
    c in parent && parent[c] == p
  }

  /** Child lists and parent pointers mirror each other, and no node occurs twice below one parent. */
  ghost predicate Linked(kids: map<Elm, seq<Elm>>, parent: map<Elm, Elm>) {
    && (forall p, c {:trigger IsParent(parent, c, p)} :: IsParent(parent, c, p) <==> p in kids && c in kids[p])
    && (forall p {:trigger NoDup(kids[p])} :: p in kids ==> NoDup(kids[p]))
  }

  lemma LinkedAfterInsert(kids: map<Elm, seq<Elm>>, parent: map<Elm, Elm>, p: Elm, e: Elm, ref: Option<Elm>)
    requires Linked(kids, parent) && p in kids && e !in parent
    ensures Removed(kids[p], e) == kids[p]
    ensures Linked(kids[p := InsertedBefore(kids[p], e, ref)], parent[e := p])
  {
    assert !IsParent(parent, e, p);
    RemovedAbsent(kids[p], e);
    var kids', parent' := kids[p := InsertedBefore(kids[p], e, ref)], parent[e := p];
    forall q, c ensures IsParent(parent', c, q) <==> q in kids' && c in kids'[q] {
      assert IsParent(parent, c, q) <==> q in kids && c in kids[q];
    }
    forall q | q in kids' ensures NoDup(kids'[q]) {
      assert NoDup(kids[q]);
      InsertedBeforeNoDup(kids[p], e, ref);
    }
  }

  lemma LinkedAfterRemove(kids: map<Elm, seq<Elm>>, parent: map<Elm, Elm>, e: Elm)
    requires Linked(kids, parent) && e in parent
    ensures parent[e] in kids && e in kids[parent[e]]
    ensures Linked(kids[parent[e] := Removed(kids[parent[e]], e)], parent - {e})
  {
    assert IsParent(parent, e, parent[e]);
    assert NoDup(kids[parent[e]]);
    RemovedOnce(kids[parent[e]], e);
    var kids', parent' := kids[parent[e] := Removed(kids[parent[e]], e)], parent - {e};
    forall q, c ensures IsParent(parent', c, q) <==> q in kids' && c in kids'[q] {
      assert IsParent(parent, c, q) <==> q in kids && c in kids[q];
    }
    forall q | q in kids' ensures NoDup(kids'[q]) {
      assert NoDup(kids[q]);
    }
  }

  lemma LinkedAfterCreate(kids: map<Elm, seq<Elm>>, parent: map<Elm, Elm>, e: Elm)
    requires Linked(kids, parent) && e !in kids
    ensures Linked(kids[e := []], parent)
  {}

  class Document {
    var content: map<Elm, Content>
    var kids: map<Elm, seq<Elm>>
    var parent: map<Elm, Elm>
    var next: nat

    ghost predicate Valid()
      reads this
    {
      && kids.Keys == content.Keys
      && parent.Keys <= content.Keys
      && (forall e :: e in content ==> e < next)
      && Linked(kids, parent)
    }

    method CreateNode(l: Content) returns (e: Elm)
      requires Valid()
      modifies this
      ensures Valid() && e !in old(content) && e !in parent
      ensures content == old(content)[e := l] && kids == old(kids)[e := []] && parent == old(parent)
    {
      e := next;
      LinkedAfterCreate(kids, parent, e);
      content := content[e := l];
      kids := kids[e := []];
      next := next + 1;
    }

    function NextSibling(e: Elm): Option<Elm>
      reads this
    {
      if e in parent && parent[e] in kids then Sibling(kids[parent[e]], e) else None
    }

    /** `removeNode`: nothing happens to a node without a parent. */
    method RemoveNode(e: Elm)
      requires Valid() && e in content
      modifies this
      ensures Valid() && content == old(content)
      ensures parent == old(parent) - {e}
      ensures e !in old(parent) ==> kids == old(kids)
      ensures e in old(parent) ==>
                old(parent)[e] in old(kids) &&
                kids == old(kids)[old(parent)[e] := Removed(old(kids)[old(parent)[e]], e)]
    {
      if e in parent {
        LinkedAfterRemove(kids, parent, e);
        var p := parent[e];
        kids := kids[p := Removed(kids[p], e)];
      }
      assert e !in parent ==> parent - {e} == parent;
      parent := parent - {e};
    }

    /** `insertBefore`, and `appendChild` when there is no reference node: the node leaves the parent it has. */
    method InsertBefore(p: Elm, e: Elm, ref: Option<Elm>)
      requires Valid() && p in content && e in content
      requires ref.Some? ==> ref.value in kids[p] && ref.value != e
      modifies this
      ensures Valid() && content == old(content)
      ensures e in old(parent) && old(parent)[e] != p ==>
                var q := old(parent)[e];
                && q in old(kids)
                && kids == old(kids)[q := Removed(old(kids)[q], e)][p := InsertedBefore(old(kids)[p], e, ref)]
      ensures (e in old(parent) ==> old(parent)[e] == p) ==>
                kids == old(kids)[p := InsertedBefore(Removed(old(kids)[p], e), e, ref)]
      ensures parent == old(parent)[e := p]
    {
      hide Linked, IsParent, NoDup, Removed, InsertedBefore;
      RemoveNode(e);
      LinkedAfterInsert(kids, parent, p, e, ref);
      kids := kids[p := InsertedBefore(kids[p], e, ref)];
      parent := parent[e := p];
    }

    /** A text or attribute write: only the node's own content changes. */
    method SetContent(e: Elm, l: Content)
      requires Valid() && e in content
      modifies `content
      ensures Valid() && content == old(content)[e := l]
    {
      content := content[e := l];
    }
  }
}
