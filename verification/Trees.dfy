/**
 * Rendered trees up to joined, split and empty text: a text is the list of its characters among its
 * siblings, and an array or an absent value stands for what it holds.
 */
module Trees {
  import opened Values

  datatype Tree =
    | ElementTree(tag: string, attrs: Attrs, kids: seq<Tree>)
    | CharTree(c: char)
    | CommentTree(text: string)
    | GarbageTree

  function CharTrees(s: string): seq<Tree> {
    if s == "" then [] else [CharTree(s[0])] + CharTrees(s[1..])
  }

  function TreesOf(v: Value): seq<Tree>
    decreases v
  {
    match v
    case Elem(tag, attrs, kids) => [ElementTree(tag, attrs, AllTrees(kids))]
    case Text(text) => CharTrees(text)
    case Comment(text) => [CommentTree(text)]
    case Array(items) => AllTrees(items)
    case Undefined => []
    case Bool(_) => []
    case Prim(text) => CharTrees(text)
    case Broken => [GarbageTree]
  }

  function AllTrees(vs: seq<Value>): seq<Tree>
    decreases vs
  {
    if vs == [] then [] else TreesOf(vs[0]) + AllTrees(vs[1..])
  }

  lemma TreesOfOne(v: Value)
    ensures AllTrees([v]) == TreesOf(v)
  {
    assert [v][1..] == [] && TreesOf(v) + [] == TreesOf(v);
  }

  // ----- reading markup back

  datatype Frame = Frame(tag: string, attrs: Attrs, before: seq<Tree>)

  /** The elements that are open, and the trees read in the innermost one. */
  datatype Reader = Reader(frames: seq<Frame>, trees: seq<Tree>)

  function Feed(r: Reader, t: Token): Reader {
    match t
    case OpenTag(tag, attrs) => Reader(r.frames + [Frame(tag, attrs, r.trees)], [])
    case CloseTag =>
      if r.frames == [] then r
      else
        var f := r.frames[|r.frames| - 1];
        Reader(r.frames[..|r.frames| - 1], f.before + [ElementTree(f.tag, f.attrs, r.trees)])
    case Character(c) => r.(trees := r.trees + [CharTree(c)])
    case CommentToken(text) => r.(trees := r.trees + [CommentTree(text)])
    case Garbage => r.(trees := r.trees + [GarbageTree])
  }

  function FeedAll(r: Reader, ts: seq<Token>): Reader
    decreases |ts|
  {
    if ts == [] then r else FeedAll(Feed(r, ts[0]), ts[1..])
  }

  lemma {:induction false} FeedConcat(r: Reader, ts: seq<Token>, us: seq<Token>)
    ensures FeedAll(r, ts + us) == FeedAll(FeedAll(r, ts), us)
    decreases |ts|
  {
    if ts == [] {
      assert ts + us == us;
    } else {
      assert (ts + us)[1..] == ts[1..] + us;
      FeedConcat(Feed(r, ts[0]), ts[1..], us);
    }
  }

  lemma FeedOne(r: Reader, t: Token)
    ensures FeedAll(r, [t]) == Feed(r, t)
  {
    assert [t][1..] == [];
  }

  lemma {:induction false} FeedCharacters(r: Reader, s: string)
    ensures FeedAll(r, Characters(s)) == r.(trees := r.trees + CharTrees(s))
    decreases |s|
  {
    if s == "" {
      assert r.trees + [] == r.trees;
    } else {
      assert Characters(s)[1..] == Characters(s[1..]);
      FeedCharacters(Feed(r, Character(s[0])), s[1..]);
      assert r.trees + [CharTree(s[0])] + CharTrees(s[1..]) == r.trees + CharTrees(s);
    }
  }

  /** Reading the markup of a value adds its trees. */
  lemma {:induction false} FeedMarkup(r: Reader, v: Value)
    ensures FeedAll(r, Markup(v)) == r.(trees := r.trees + TreesOf(v))
    decreases v
  {
    match v
    case Elem(tag, attrs, kids) =>
      var inside := Reader(r.frames + [Frame(tag, attrs, r.trees)], []);
      FeedOne(r, OpenTag(tag, attrs));
      FeedConcat(r, [OpenTag(tag, attrs)], MarkupAll(kids));
      FeedMarkupAll(inside, kids);
      FeedConcat(r, [OpenTag(tag, attrs)] + MarkupAll(kids), [CloseTag]);
      assert [] + AllTrees(kids) == AllTrees(kids) && inside.frames[..|inside.frames| - 1] == r.frames;
      FeedOne(inside.(trees := AllTrees(kids)), CloseTag);
      assert Markup(v) == [OpenTag(tag, attrs)] + MarkupAll(kids) + [CloseTag];
    case Text(text) => FeedCharacters(r, text);
    case Comment(text) => FeedOne(r, CommentToken(text));
    case Array(items) => FeedMarkupAll(r, items);
    case Undefined =>
    case Bool(_) =>
    case Prim(text) => FeedCharacters(r, text);
    case Broken => FeedOne(r, Garbage);
  }

  lemma {:induction false} FeedMarkupAll(r: Reader, vs: seq<Value>)
    ensures FeedAll(r, MarkupAll(vs)) == r.(trees := r.trees + AllTrees(vs))
    decreases vs
  {
    if vs == [] {
      assert r.trees + [] == r.trees;
    } else {
      FeedMarkup(r, vs[0]);
      FeedConcat(r, Markup(vs[0]), MarkupAll(vs[1..]));
      FeedMarkupAll(r.(trees := r.trees + TreesOf(vs[0])), vs[1..]);
      assert r.trees + TreesOf(vs[0]) + AllTrees(vs[1..]) == r.trees + AllTrees(vs);
    }
  }

  /** Markup determines the trees: nothing is lost in it. */
  lemma SameMarkupSameTrees(vs: seq<Value>, ws: seq<Value>)
    requires MarkupAll(vs) == MarkupAll(ws)
    ensures AllTrees(vs) == AllTrees(ws)
  {
    var start := Reader([], []);
    FeedMarkupAll(start, vs);
    FeedMarkupAll(start, ws);
    assert [] + AllTrees(vs) == AllTrees(vs) && [] + AllTrees(ws) == AllTrees(ws);
  }
}
