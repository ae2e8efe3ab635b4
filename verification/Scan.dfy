/**
 * A reference scanner: what one turn of `parseHTML` reads off the front of the input, and what each token does
 * to the open tags and the events. A turn depends on the open tags only through the innermost one.
 */
module Scanning {
  import opened Options
  import opened Html
  import opened Nesting

  datatype StartTag = StartTag(name: string, attrs: seq<Attr>, slash: bool)

  datatype Config = Config(matchers: Matchers, expectHtml: bool, keepComments: bool)

  datatype Token =
    | StartToken(tag: StartTag)
    | EndToken(name: string)
    | TextToken(text: string)
    | CommentToken(text: string)
    | Skipped
    | Eof

  // ----- what tokens do

  datatype Machine = Machine(open: seq<string>, events: seq<Event>, failed: bool)

  const INITIAL := Machine([], [], false)

  predicate IsUnary(tag: StartTag) {
    tag.name in UNARY || tag.slash
  }

  function Do(c: Config, s: Machine, t: Token): Machine {
    match t
    case StartToken(tag) =>
      var open := if c.expectHtml then Cleared(s.open, tag.name) else s.open;
      s.(open := if IsUnary(tag) then open else open + [tag.name],
         events := s.events + Ends(s.open[|open|..]) + [Start(tag.name, tag.attrs, IsUnary(tag))])
    case EndToken(name) => s.(open := OpenAfterEnd(s.open, name), events := s.events + EventsOfEnd(s.open, name))
    case TextToken(text) => s.(events := s.events + [Chars(text)])
    case CommentToken(text) =>
      if s.open == [] then s.(failed := true) else s.(events := s.events + [CommentText(text)])
    case Skipped => s
    case Eof => s.(open := [], events := s.events + Ends(s.open))
  }

  function DoAll(c: Config, s: Machine, ts: seq<Token>): Machine
    decreases |ts|
  {
    if ts == [] then s else DoAll(c, Do(c, s, ts[0]), ts[1..])
  }

  lemma DoOne(c: Config, s: Machine, t: Token)
    ensures DoAll(c, s, [t]) == Do(c, s, t)
  {
    assert [t][1..] == [];
  }

  lemma DoTwo(c: Config, s: Machine, t: Token, u: Token)
    ensures DoAll(c, s, [t, u]) == Do(c, Do(c, s, t), u)
  {
    assert [t, u][1..] == [u];
    DoOne(c, Do(c, s, t), u);
  }

  lemma {:induction false} DoMore(c: Config, s: Machine, ts: seq<Token>, us: seq<Token>)
    ensures DoAll(c, s, ts + us) == DoAll(c, DoAll(c, s, ts), us)
    decreases |ts|
  {
    if ts == [] {
      assert ts + us == us;
    } else {
      assert (ts + us)[1..] == ts[1..] + us;
      DoMore(c, Do(c, s, ts[0]), ts[1..], us);
    }
  }

  /** The events are well nested and leave the open tags open, which respect the content model. */
  ghost predicate Nested(c: Config, s: Machine) {
    Replay(s.events) == Some(s.open) && (c.expectHtml ==> ContentModel(s.open))
  }

  /** Whatever the tokens are: stray, missing and mis-nested end tags included. */
  lemma {:induction false} TokensNest(c: Config, s: Machine, ts: seq<Token>)
    requires Nested(c, s)
    ensures Nested(c, DoAll(c, s, ts))
    ensures var end := Do(c, DoAll(c, s, ts), Eof); end.open == [] && Replay(end.events) == Some([])
    decreases |ts|
  {
    hide Do, ContentModel, Replay;
    if ts == [] {
      TokenNests(c, s, Eof);
      EofCloses(c, s);
    } else {
      TokenNests(c, s, ts[0]);
      TokensNest(c, Do(c, s, ts[0]), ts[1..]);
    }
  }

  lemma EofCloses(c: Config, s: Machine)
    ensures Do(c, s, Eof).open == []
  {}

  lemma TokenNests(c: Config, s: Machine, t: Token)
    requires Nested(c, s)
    ensures Nested(c, Do(c, s, t))
  {
    hide Replay, Cleared, Innermost, ContentModel;
    match t
    case StartToken(tag) =>
      var open := if c.expectHtml then Cleared(s.open, tag.name) else s.open;
      if c.expectHtml {
        OneCloseEach(s.open, tag.name);
        ContentModelPrefix(open + [tag.name], |open|);
        assert (open + [tag.name])[..|open|] == open;
      }
      EndsReplay(s.events, s.open, |open|);
      ClearedIsPrefix(s.open, tag.name);
      assert s.open[..|s.open|] == s.open;
      ReplayAppend(s.events + Ends(s.open[|open|..]), Start(tag.name, tag.attrs, IsUnary(tag)));
    case EndToken(name) =>
      EndNests(s, name);
      if c.expectHtml && Innermost(s.open, name) >= 0 {
        ContentModelPrefix(s.open, Innermost(s.open, name));
      }
    case TextToken(text) => ReplayAppend(s.events, Chars(text));
    case CommentToken(text) => ReplayAppend(s.events, CommentText(text));
    case Skipped =>
    case Eof =>
      EndsReplay(s.events, s.open, 0);
      assert s.open[0..] == s.open && s.open[..0] == [];
      if c.expectHtml {
        ContentModelPrefix(s.open, 0);
      }
  }

  lemma EndNests(s: Machine, name: string)
    requires Replay(s.events) == Some(s.open)
    ensures Replay(s.events + EventsOfEnd(s.open, name)) == Some(OpenAfterEnd(s.open, name))
  {
    hide Replay, Innermost;
    var i := Innermost(s.open, name);
    if i >= 0 {
      EndsReplay(s.events, s.open, i);
    } else if Lower(name) == "br" {
      ReplayAppend(s.events, Start(name, [], true));
    } else if Lower(name) == "p" {
      ReplayAppend(s.events, Start(name, [], false));
      ReplayAppend(s.events + [Start(name, [], false)], End(name));
      assert s.events + [Start(name, [], false)] + [End(name)] == s.events + [Start(name, [], false), End(name)];
      assert (s.open + [name])[..|s.open|] == s.open;
    } else {
      assert s.events + [] == s.events;
    }
  }

  /** Closing from the top down to a position leaves what is below it. */
  lemma {:induction false} EndsReplay(es: seq<Event>, open: seq<string>, i: nat)
    requires Replay(es) == Some(open) && i <= |open|
    ensures Replay(es + Ends(open[i..])) == Some(open[..i])
    decreases |open|
  {
    if i == |open| {
      assert open[i..] == [] && open[..i] == open && es + [] == es;
    } else {
      var top, below := open[|open| - 1], open[..|open| - 1];
      ReplayAppend(es, End(top));
      EndsReplay(es + [End(top)], below, i);
      assert open[i..][..|open| - i - 1] == below[i..] && below[..i] == open[..i];
      assert es + [End(top)] + Ends(below[i..]) == es + Ends(open[i..]);
    }
  }

  // ----- what is read

  datatype Piece = Piece(token: Token, rest: string)

  function Attributes(m: Matchers, s: string, attrs: seq<Attr>): (r: (seq<Attr>, string))
    requires Sane(m)
    ensures |r.1| <= |s|
    decreases |s|
  {
    if m.startTagClose(s).None? && m.attribute(s).Some? then
      assert Fits(m.attribute(s), s);
      var attr := m.attribute(s).value;
      Attributes(m, s[attr.length..], attrs + [attr.captured])
    else (attrs, s)
  }

  /** A start tag; when it is not closed by `>`, what was matched of it is gone all the same. */
  function StartTagAt(m: Matchers, s: string): (r: (Option<StartTag>, string))
    requires Sane(m)
    ensures |r.1| <= |s| && (r.1 != s || r.0.Some? ==> |r.1| < |s|)
  {
    var start := m.startTagOpen(s);
    if start.None? then (None, s)
    else
      assert Fits(m.startTagOpen(s), s);
      var (attrs, s1) := Attributes(m, s[start.value.length..], []);
      var end := m.startTagClose(s1);
      assert Fits(m.startTagClose(s1), s1);
      if end.None? then (None, s1)
      else (Some(StartTag(start.value.captured, attrs, end.value.captured)), s1[end.value.length..])
  }

  /** A comment, a conditional comment or a doctype. */
  function DeclarationAt(c: Config, s: string): (r: Option<Piece>)
    requires Sane(c.matchers) && s != ""
    ensures r.Some? ==> |r.value.rest| < |s| && (r.value.token.CommentToken? || r.value.token.Skipped?)
  {
    var comment := IndexOf(s, "-->", 0);
    var conditional := IndexOf(s, "]>", 0);
    var doctype := c.matchers.doctype(s);
    assert Fits(c.matchers.doctype(s), s);
    if StartsWith(s, "<!--") && comment.Some? then
      Some(Piece(if c.keepComments then CommentToken(Substring(s, 4, comment.value)) else Skipped, s[comment.value + 3..]))
    else if StartsWith(s, "<![") && conditional.Some? then Some(Piece(Skipped, s[conditional.value + 2..]))
    else if doctype.Some? then Some(Piece(Skipped, s[doctype.value.length..]))
    else None
  }

  /** Any markup at the front. */
  function MarkupAt(c: Config, s: string): (r: Option<Piece>)
    requires Sane(c.matchers) && s != ""
    ensures r.Some? ==> |r.value.rest| < |s|
  {
    if DeclarationAt(c, s).Some? then DeclarationAt(c, s)
    else
      var end := c.matchers.endTag(s);
      assert Fits(c.matchers.endTag(s), s);
      if end.Some? then Some(Piece(EndToken(end.value.captured), s[end.value.length..]))
      else
        var (tag, rest) := StartTagAt(c.matchers, s);
        if tag.Some? then Some(Piece(StartToken(tag.value), rest)) else None
  }

  /** A newline right after `<pre>` or `<textarea>` is dropped. */
  predicate DropsNewline(tag: Option<string>, s: string) {
    tag.Some? && Lower(tag.value) in { "pre", "textarea" } && StartsWith(s, "\n")
  }

  /** Something that may be markup begins, or the input is over. */
  predicate TextStops(m: Matchers, s: string) {
    s == "" || m.endTag(s).Some? || m.startTagOpen(s).Some? || StartsWith(s, "<!--") || StartsWith(s, "<![")
  }

  /** Where the text that starts at the front ends, looking from the position `h` on. */
  function TextEndAt(m: Matchers, s: string, h: nat): (r: nat)
    requires h <= |s|
    ensures h <= r <= |s|
    decreases |s| - h
  {
    if TextStops(m, s[h..]) then h
    else
      var x := IndexOf(s[h..], "<", 1);
      if x.None? then h else TextEndAt(m, s, h + x.value)
  }

  lemma TextGoesOn(m: Matchers, s: string, h: nat)
    requires h <= |s| && !TextStops(m, s[h..])
    ensures h < |s|
    ensures var x := IndexOf(s[h..], "<", 1); TextEndAt(m, s, h) == if x.None? then h else TextEndAt(m, s, h + x.value)
  {}

  lemma TextIsOver(m: Matchers, s: string, h: nat)
    requires h <= |s| && TextStops(m, s[h..])
    ensures TextEndAt(m, s, h) == h
  {}

  predicate InRawText(open: seq<string>) {
    open != [] && Lower(open[|open| - 1]) in RAW_TEXT
  }

  /** One turn: its tokens, what remains, and whether the loop goes on. */
  datatype Turned = Turned(tokens: seq<Token>, rest: string, more: bool)

  /** When a turn consumed nothing, all that remains is text and the loop ends. */
  function OrAllText(s: string, tokens: seq<Token>, rest: string): Turned {
    if rest == s then Turned(tokens + [TextToken(s)], s, false) else Turned(tokens, rest, true)
  }

  /** Text up to the end tag, which ends the element even when it is missing. */
  function RawPieces(c: Config, tag: string, s: string): (r: (seq<Token>, string))
    requires Sane(c.matchers)
    ensures |r.1| <= |s| && (r.1 != s ==> |r.1| < |s|)
  {
    var raw := c.matchers.rawText(tag, s);
    assert RawFits(c.matchers.rawText(tag, s), s);
    if raw.None? then ([EndToken(tag)], s)
    else
      var text := s[..raw.value.length - raw.value.endTagLength];
      ([TextToken(if DropsNewline(Some(tag), text) then text[1..] else text), EndToken(tag)], s[raw.value.length..])
  }

  function TextTurn(c: Config, s: string, s1: string, from: nat): (t: Turned)
    requires from <= |s1| <= |s| && (s1 == s || |s1| < |s|)
    ensures t.more ==> |t.rest| < |s|
  {
    var h := TextEndAt(c.matchers, s1, from);
    OrAllText(s, if h > 0 then [TextToken(s1[..h])] else [], s1[h..])
  }

  function MarkupTurn(c: Config, open: seq<string>, piece: Piece): Turned {
    var after := Do(c, Machine(open, [], false), piece.token).open;
    var drop := piece.token.StartToken? && DropsNewline(Top(after), piece.rest);
    Turned([piece.token], if drop then piece.rest[1..] else piece.rest, true)
  }

  /** What a turn of the main loop reads when the tags `open` are open. */
  function Read(c: Config, open: seq<string>, s: string): (t: Turned)
    requires Sane(c.matchers) && s != ""
    ensures t.more ==> |t.rest| < |s|
  {
    if InRawText(open) then
      var (tokens, rest) := RawPieces(c, Lower(open[|open| - 1]), s);
      OrAllText(s, tokens, rest)
    else
      var found := IndexOf(s, "<", 0);
      if found.None? then Turned([TextToken(s)], "", false)
      else if found.value > 0 then TextTurn(c, s, s, found.value)
      else if MarkupAt(c, s).Some? then MarkupTurn(c, open, MarkupAt(c, s).value)
      else TextTurn(c, s, StartTagAt(c.matchers, s).1, 0)
  }

  // ----- the whole input

  function Scan(c: Config, s: Machine, rest: string): Machine
    requires Sane(c.matchers)
    decreases |rest|
  {
    if rest == "" then Do(c, s, Eof)
    else
      var t := Read(c, s.open, rest);
      var after := DoAll(c, s, t.tokens);
      if t.more then Scan(c, after, t.rest) else Do(c, after, Eof)
  }

  /** The tokens of the whole input, the end included. */
  function Tokens(c: Config, s: Machine, rest: string): seq<Token>
    requires Sane(c.matchers)
    decreases |rest|
  {
    if rest == "" then [Eof]
    else
      var t := Read(c, s.open, rest);
      if t.more then t.tokens + Tokens(c, DoAll(c, s, t.tokens), t.rest) else t.tokens + [Eof]
  }

  /** The scan is the fold of its tokens. */
  lemma {:induction false} ScanIsFold(c: Config, s: Machine, rest: string)
    requires Sane(c.matchers)
    ensures Scan(c, s, rest) == DoAll(c, s, Tokens(c, s, rest))
    decreases |rest|
  {
    hide Read, Do;
    if rest == "" {
      DoOne(c, s, Eof);
    } else {
      var t := Read(c, s.open, rest);
      var after := DoAll(c, s, t.tokens);
      if t.more {
        ScanIsFold(c, after, t.rest);
        DoMore(c, s, t.tokens, Tokens(c, after, t.rest));
      } else {
        DoMore(c, s, t.tokens, [Eof]);
        DoOne(c, after, Eof);
      }
    }
  }

  // ----- failure

  /** The state of the scanner at the head of its loop. */
  datatype Head = Head(open: seq<string>, rest: string)

  function Heads(c: Config, s: Machine, rest: string): seq<Head>
    requires Sane(c.matchers)
    decreases |rest|
  {
    if rest == "" then []
    else
      var t := Read(c, s.open, rest);
      [Head(s.open, rest)] + if t.more then Heads(c, DoAll(c, s, t.tokens), t.rest) else []
  }

  /** A comment that is kept while no element is open. */
  predicate CommentOutside(c: Config, h: Head) {
    c.keepComments && h.open == [] && StartsWith(h.rest, "<!--") && IndexOf(h.rest, "-->", 0).Some?
  }

  /** The parse fails exactly when its loop comes to a kept comment outside all elements. */
  lemma {:induction false} FailsExactly(c: Config, s: Machine, rest: string)
    requires Sane(c.matchers)
    ensures Scan(c, s, rest).failed <==> s.failed || exists h :: h in Heads(c, s, rest) && CommentOutside(c, h)
    decreases |rest|
  {
    hide Read, CommentOutside;
    if rest == "" {
    } else {
      var t := Read(c, s.open, rest);
      var after := DoAll(c, s, t.tokens);
      TurnFails(c, s, rest);
      assert Head(s.open, rest) in Heads(c, s, rest);
      if t.more {
        FailsExactly(c, after, t.rest);
      }
    }
  }

  lemma TurnFails(c: Config, s: Machine, rest: string)
    requires Sane(c.matchers) && rest != ""
    ensures DoAll(c, s, Read(c, s.open, rest).tokens).failed <==> s.failed || CommentOutside(c, Head(s.open, rest))
  {
    hide Read, MarkupAt, DeclarationAt;
    var ts := Read(c, s.open, rest).tokens;
    CommentIsMarkup(c, s.open, rest);
    if CommentRead(c, s.open, rest) {
      DoOne(c, s, ts[0]);
    } else {
      NoCommentNoFailure(c, s, ts);
    }
  }

  /** The turn reads a comment that is kept. */
  predicate CommentRead(c: Config, open: seq<string>, s: string) {
    c.keepComments && !InRawText(open) && StartsWith(s, "<!--") && IndexOf(s, "-->", 0).Some?
  }

  lemma CommentIsMarkup(c: Config, open: seq<string>, s: string)
    requires Sane(c.matchers) && s != ""
    ensures var ts := Read(c, open, s).tokens;
            if CommentRead(c, open, s) then |ts| == 1 && ts[0].CommentToken?
            else forall i :: 0 <= i < |ts| ==> !ts[i].CommentToken?
  {
    hide Attributes, Do, Lower, TextEndAt;
    assert StartsWith(s, "<!--") ==> StartsWith(s[0..], "<") && s[0..] == s;
  }

  lemma {:induction false} NoCommentNoFailure(c: Config, s: Machine, ts: seq<Token>)
    requires forall i :: 0 <= i < |ts| ==> !ts[i].CommentToken?
    ensures DoAll(c, s, ts).failed == s.failed
    decreases |ts|
  {
    if ts == [] {
    } else {
      NoCommentNoFailure(c, Do(c, s, ts[0]), ts[1..]);
    }
  }

  lemma CommentInput()
    ensures StartsWith("<!---->", "<!--") && IndexOf("<!---->", "-->", 0).Some?
  {
    hide IndexOf;
    assert StartsWith("<!---->"[4..], "-->");
  }

  /** Such an input: a comment and nothing else. */
  lemma CommentAloneFails(c: Config)
    requires Sane(c.matchers)
    ensures Scan(c, INITIAL, "<!---->").failed <==> c.keepComments
  {
    hide Read, IndexOf, StartsWith, Scan, Sane;
    var input := "<!---->";
    CommentInput();
    FailsExactly(c, INITIAL, input);
    var first := Head([], input);
    assert first == Heads(c, INITIAL, input)[0];
    assert first in Heads(c, INITIAL, input);
    assert CommentOutside(c, first) <==> c.keepComments;
  }
}
