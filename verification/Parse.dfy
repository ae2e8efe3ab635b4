/** `parseHTML` driving the handlers of `parse`. */
module Parsing {
  import opened Options
  import opened Html
  import opened Nesting
  import opened Scanning
  import opened Stories
  import opened StoryProofs

  /** An element the tree builder has open; `pre` says that `v-pre` was found on it. */
  datatype Open = Open(tag: string, pre: bool)

  function Tags(open: seq<Open>): (r: seq<string>)
    ensures |r| == |open| && forall i :: 0 <= i < |open| ==> r[i] == open[i].tag
  {
    seq(|open|, i requires 0 <= i < |open| => open[i].tag)
  }

  function PreCount(open: seq<Open>): nat {
    if open == [] then 0 else PreCount(open[..|open| - 1]) + (if open[|open| - 1].pre then 1 else 0)
  }

  predicate HasPre(attrs: seq<Attr>) {
    exists i :: 0 <= i < |attrs| && attrs[i].name == "v-pre"
  }

  class Parser {
    const config: Config

    var rest: string
    var offset: nat
    var stack: seq<string>
    var lastTag: Option<string>

    var elements: seq<Open>
    var inPre: bool
    /** A comment was kept while no element was open: the source fails there. */
    var failed: bool

    ghost var events: seq<Event>

    constructor (config: Config, input: string)
      ensures Valid() && rest == input && offset == 0 && Now() == INITIAL && this.config == config
    {
      this.config := config;
      rest, offset, stack, lastTag := input, 0, [], None;
      elements, inPre, failed, events := [], false, false, [];
    }

    /**
     * The scanner's stack is what the events left open, the tree builder's stack is in step with it, the
     * content model is respected, and `v-pre` is in force exactly while its one element is open.
     */
    ghost predicate Valid()
      reads this
    {
      && Replay(events) == Some(stack)
      && lastTag == Top(stack)
      && Tags(elements) == stack
      && (config.expectHtml ==> ContentModel(stack))
      && PreCount(elements) == (if inPre then 1 else 0)
    }

    ghost function Now(): Machine
      reads this
    {
      Machine(stack, events, failed)
    }

    /** `start` of the tree builder. */
    method OnStart(tag: string, attrs: seq<Attr>, unary: bool)
      modifies `elements, `inPre, `events
      requires PreCount(elements) == (if inPre then 1 else 0)
      ensures events == old(events) + [Start(tag, attrs, unary)]
      ensures Tags(elements) == Tags(old(elements)) + (if unary then [] else [tag])
      ensures PreCount(elements) == (if inPre then 1 else 0)
      ensures var pre := exists i :: 0 <= i < |attrs| && attrs[i].name == "v-pre";
              && elements == old(elements) + (if unary then [] else [Open(tag, pre && !old(inPre))])
              && inPre == (old(inPre) || (pre && !unary))
    {
      events := events + [Start(tag, attrs, unary)];
      var pre := !inPre && HasPre(attrs);
      if pre {
        inPre := true;
      }
      if unary {
        CloseElement(pre);
      } else {
        assert (elements + [Open(tag, pre)])[..|elements|] == elements;
        elements := elements + [Open(tag, pre)];
      }
    }

    method CloseElement(pre: bool)
      modifies `inPre
      ensures inPre == (old(inPre) && !pre)
    {
      if pre {
        inPre := false;
      }
    }

    /** `end` of the tree builder: there is always an element to close. */
    method OnEnd(tag: string)
      requires elements != [] && elements[|elements| - 1].tag == tag
      requires PreCount(elements) == (if inPre then 1 else 0)
      modifies `elements, `inPre, `events
      ensures events == old(events) + [End(tag)]
      ensures elements == old(elements)[..|old(elements)| - 1]
      ensures inPre == (old(inPre) && !old(elements)[|old(elements)| - 1].pre)
      ensures PreCount(elements) == (if inPre then 1 else 0)
    {
      events := events + [End(tag)];
      var element := elements[|elements| - 1];
      elements := elements[..|elements| - 1];
      CloseElement(element.pre);
    }

    method OnChars(text: string)
      requires Valid()
      modifies `events
      ensures Valid() && Now() == Do(config, old(Now()), TextToken(text))
      ensures events == old(events) + [Chars(text)]
    {
      ReplayAppend(events, Chars(text));
      events := events + [Chars(text)];
    }

    /** `comment` of the tree builder appends to the current element without asking whether there is one. */
    method OnComment(text: string)
      requires Valid()
      modifies `events, `failed
      ensures Valid() && Now() == Do(config, old(Now()), CommentToken(text))
      ensures if stack == [] then failed && events == old(events) else events == old(events) + [CommentText(text)]
    {
      if elements == [] {
        failed := true;
      } else {
        ReplayAppend(events, CommentText(text));
        events := events + [CommentText(text)];
      }
    }

    method Advance(n: nat)
      requires n <= |rest|
      modifies `rest, `offset
      ensures Valid() == old(Valid())
      ensures rest == old(rest)[n..] && offset == old(offset) + n
    {
      offset := offset + n;
      rest := rest[n..];
    }

    /** Trailing text is taken without moving the offset. */
    method DropRest()
      modifies `rest
      ensures rest == "" && Valid() == old(Valid())
    {
      rest := "";
    }

    /** The innermost open tag with the same lower-case name. */
    method FindOpen(tagName: string) returns (i: int)
      ensures i == Innermost(stack, tagName)
    {
      i := |stack| - 1;
      while i >= 0 && Lower(stack[i]) != Lower(tagName)
        invariant -1 <= i < |stack|
        invariant forall k :: i < k < |stack| ==> Lower(stack[k]) != Lower(tagName)
      {
        i := i - 1;
      }
      InnermostIs(stack, tagName, i);
    }

    method CloseTop(tag: string, ghost below: seq<string>)
      requires Replay(events) == Some(below + [tag]) && Tags(elements) == below + [tag]
      requires PreCount(elements) == (if inPre then 1 else 0)
      modifies `elements, `inPre, `events
      ensures Replay(events) == Some(below) && Tags(elements) == below
      ensures PreCount(elements) == (if inPre then 1 else 0)
      ensures events == old(events) + [End(tag)]
    {
      hide Replay, PreCount;
      assert (below + [tag])[|below|] == tag && (below + [tag])[..|below|] == below;
      ReplayAppend(events, End(tag));
      OnEnd(tag);
      assert Tags(elements) == below;
    }

    /** Closing every open tag from the top of the stack down to the position `i`. */
    method CloseFrom(i: nat)
      requires Valid() && i <= |stack|
      modifies `stack, `lastTag, `elements, `inPre, `events
      ensures Valid() && stack == old(stack)[..i] && events == old(events) + Ends(old(stack)[i..])
    {
      hide ContentModel, Replay, PreCount, Ends, Tags;
      var c := |stack| - 1;
      assert stack[..c + 1] == stack;
      EndsNone();
      while c >= i
        invariant i - 1 <= c < |stack| && stack == old(stack)
        invariant Replay(events) == Some(stack[..c + 1])
        invariant Tags(elements) == stack[..c + 1]
        invariant PreCount(elements) == (if inPre then 1 else 0)
        invariant old(events) + Ends(stack[i..]) == events + Ends(stack[i..c + 1])
        decreases c
      {
        EndsStep(stack, i, c);
        assert stack[..c + 1] == stack[..c] + [stack[c]];
        CloseTop(stack[c], stack[..c]);
        c := c - 1;
      }
      if config.expectHtml {
        ContentModelPrefix(stack, i);
      }
      assert stack[i..c + 1] == [];
      stack := stack[..i];
      lastTag := if i > 0 then Some(stack[i - 1]) else None;
    }

    /** `parseEndTag`; without a name it closes everything that is still open. */
    method ParseEndTag(tagName: Option<string>)
      requires Valid()
      modifies `stack, `lastTag, `elements, `inPre, `events
      ensures Valid() && Now() == Do(config, old(Now()), if tagName.None? then Eof else EndToken(tagName.value))
    {
      hide ContentModel, Replay, PreCount, Ends, Innermost;
      if tagName.None? {
        assert stack[0..] == stack;
        CloseFrom(0);
        return;
      }
      var name := tagName.value;
      var i := FindOpen(name);
      if i >= 0 {
        CloseFrom(i);
      } else if Lower(name) == "br" {
        ReplayAppend(events, Start(name, [], true));
        OnStart(name, [], true);
      } else if Lower(name) == "p" {
        StrayParagraph(name);
      }
    }

    /** A stray `</p>` stands for an empty paragraph. */
    method StrayParagraph(name: string)
      requires Valid()
      modifies `elements, `inPre, `events
      ensures Valid() && events == old(events) + [Start(name, [], false), End(name)]
    {
      ReplayAppend(events, Start(name, [], false));
      OnStart(name, [], false);
      ReplayAppend(events, End(name));
      assert (stack + [name])[..|stack|] == stack;
      assert Tags(elements)[|stack|] == name;
      OnEnd(name);
      assert Tags(elements) == stack;
    }

    /** `parseStartTag`: when the tag is not closed by `>`, what was matched of it is nevertheless consumed. */
    method ParseStartTag() returns (tag: Option<StartTag>)
      requires Sane(config.matchers)
      modifies `rest, `offset
      ensures Valid() == old(Valid())
      ensures (tag, rest) == StartTagAt(config.matchers, old(rest))
      ensures offset + |rest| == old(offset + |rest|)
    {
      hide Valid, Attributes;
      var m := config.matchers;
      var start := m.startTagOpen(rest);
      if start.None? {
        return None;
      }
      assert Fits(m.startTagOpen(rest), rest);
      Advance(start.value.length);
      var attrs := ParseAttributes();
      var end := m.startTagClose(rest);
      if end.None? {
        return None;
      }
      assert Fits(m.startTagClose(rest), rest);
      Advance(end.value.length);
      tag := Some(StartTag(start.value.captured, attrs, end.value.captured));
    }

    method ParseAttributes() returns (attrs: seq<Attr>)
      requires Sane(config.matchers)
      modifies `rest, `offset
      ensures Valid() == old(Valid())
      ensures (attrs, rest) == Attributes(config.matchers, old(rest), [])
      ensures offset + |rest| == old(offset + |rest|)
    {
      hide Valid;
      var m := config.matchers;
      attrs := [];
      while m.startTagClose(rest).None? && m.attribute(rest).Some?
        invariant Valid() == old(Valid())
        invariant offset + |rest| == old(offset + |rest|) && |rest| <= |old(rest)|
        invariant Attributes(m, old(rest), []) == Attributes(m, rest, attrs)
        decreases |rest|
      {
        var attr := m.attribute(rest).value;
        assert Fits(m.attribute(rest), rest);
        attrs := attrs + [attr.captured];
        Advance(attr.length);
      }
    }

    /** `handleStartTag`. */
    method HandleStartTag(tag: StartTag)
      requires Valid()
      modifies `stack, `lastTag, `elements, `inPre, `events
      ensures Valid() && Now() == Do(config, old(Now()), StartToken(tag))
      ensures !IsUnary(tag) ==> Opened(elements, tag)
    {
      hide Replay, PreCount, ContentModel, Cleared, Ends, Tags, IsUnary, MayContain, Opened;
      var name := tag.name;
      if config.expectHtml {
        OneCloseEach(stack, name);
        ClearFor(name);
      } else {
        assert stack[|stack|..] == [];
        EndsNone();
      }
      var unary := IsUnary(tag);
      ReplayAppend(events, Start(name, tag.attrs, unary));
      if !unary {
        stack := stack + [name];
        lastTag := Some(name);
      }
      OpenedNext(elements, tag, inPre);
      OnStart(name, tag.attrs, unary);
    }

    /** The two conditional closes in front of a start tag. */
    method ClearFor(name: string)
      requires Valid()
      modifies `stack, `lastTag, `elements, `inPre, `events
      ensures Valid() && stack == Cleared(old(stack), name)
      ensures events == old(events) + Ends(old(stack)[|stack|..])
    {
      hide Replay, PreCount, ContentModel, Ends;
      ClearedEnds(stack, name);
      CloseTopIf(name in NON_PHRASING, "p");
      CloseTopIf(name in CAN_BE_LEFT_OPEN, name);
    }

    /** The end tag of the open tag on top, when the rule applies and it is the tag in question. */
    method CloseTopIf(rule: bool, tag: string)
      requires Valid()
      modifies `stack, `lastTag, `elements, `inPre, `events
      ensures Valid()
      ensures stack == if rule && Top(old(stack)) == Some(tag) then old(stack)[..|old(stack)| - 1] else old(stack)
      ensures events == old(events) + if rule && Top(old(stack)) == Some(tag) then [End(tag)] else []
    {
      hide Replay, PreCount, ContentModel, Innermost, OpenAfterEnd, EventsOfEnd;
      if rule && lastTag == Some(tag) {
        TopIsInnermost(stack, tag);
        ParseEndTag(lastTag);
      }
    }

    /** Where the text before the next tag, comment or conditional ends; `from` is a `<` or the cut of a start tag. */
    method TextEnd(from: nat) returns (h: nat)
      requires from <= |rest|
      ensures h == TextEndAt(config.matchers, rest, from)
    {
      hide TextEndAt, TextStops;
      var m := config.matchers;
      h := from;
      while !TextStops(m, rest[h..])
        invariant from <= h <= |rest| && TextEndAt(m, rest, from) == TextEndAt(m, rest, h)
        decreases |rest| - h
      {
        TextGoesOn(m, rest, h);
        var x := IndexOf(rest[h..], "<", 1);
        if x.None? {
          return;
        }
        h := h + x.value;
      }
      TextIsOver(m, rest, h);
    }

    /**
     * The part of the main loop for a `<` at the front. `handled` says that a comment, a conditional, a
     * doctype, an end tag or a start tag was consumed; when it is false at most the front of an unclosed
     * start tag was.
     */
    method ParseMarkup() returns (handled: bool)
      requires Valid() && Sane(config.matchers) && rest != ""
      modifies this
      ensures Valid() && offset + |rest| == old(offset + |rest|)
      ensures handled == MarkupAt(config, old(rest)).Some?
      ensures handled ==>
                var piece := MarkupAt(config, old(rest)).value;
                rest == MarkupTurn(config, old(stack), piece).rest && Now() == Do(config, old(Now()), piece.token)
      ensures !handled ==> rest == StartTagAt(config.matchers, old(rest)).1 && Now() == old(Now())
    {
      hide Do, DeclarationAt, StartTagAt, Valid;
      var declared := ParseDeclaration();
      if declared {
        return true;
      }
      var end := config.matchers.endTag(rest);
      if end.Some? {
        assert Fits(config.matchers.endTag(rest), rest);
        Advance(end.value.length);
        ParseEndTag(Some(end.value.captured));
        return true;
      }
      var start := ParseStartTag();
      if start.Some? {
        ghost var before := Now();
        HandleStartTag(start.value);
        OpenOnly(config, before, StartToken(start.value));
        LastIsTop();
        if DropsNewline(lastTag, rest) {
          Advance(1);
        }
        return true;
      }
      return false;
    }

    lemma LastIsTop()
      requires Valid()
      ensures lastTag == Top(stack)
    {}

    /** Comments, conditional comments and doctypes. */
    method ParseDeclaration() returns (handled: bool)
      requires Valid() && Sane(config.matchers) && rest != ""
      modifies this
      ensures Valid() && offset + |rest| == old(offset + |rest|)
      ensures handled == DeclarationAt(config, old(rest)).Some?
      ensures if handled then
                var piece := DeclarationAt(config, old(rest)).value;
                rest == piece.rest && Now() == Do(config, old(Now()), piece.token)
              else rest == old(rest) && Now() == old(Now())
    {
      hide Valid, Do;
      SkipsNothing(config, Now());
      if StartsWith(rest, "<!--") {
        var m := IndexOf(rest, "-->", 0);
        if m.Some? {
          if config.keepComments {
            OnComment(Substring(rest, 4, m.value));
          }
          Advance(m.value + 3);
          return true;
        }
      }
      if StartsWith(rest, "<![") {
        var m := IndexOf(rest, "]>", 0);
        if m.Some? {
          Advance(m.value + 2);
          return true;
        }
      }
      var doctype := config.matchers.doctype(rest);
      if doctype.Some? {
        assert Fits(config.matchers.doctype(rest), rest);
        Advance(doctype.value.length);
        return true;
      }
      return false;
    }

    /** The part of the main loop inside `script`, `style` or `textarea`, which is closed in any case. */
    method ParseRawText()
      requires Valid() && Sane(config.matchers) && lastTag.Some?
      modifies this
      ensures Valid() && offset + |rest| == old(offset + |rest|)
      ensures var (tokens, rest') := RawPieces(config, Lower(old(lastTag).value), old(rest));
              rest == rest' && Now() == DoAll(config, old(Now()), tokens)
    {
      hide Valid, Do, Lower, DoAll;
      var tag := Lower(lastTag.value);
      var raw := config.matchers.rawText(tag, rest);
      assert RawFits(config.matchers.rawText(tag, rest), rest);
      if raw.Some? {
        var text := rest[..raw.value.length - raw.value.endTagLength];
        var shown := if DropsNewline(Some(tag), text) then text[1..] else text;
        DoTwo(config, Now(), TextToken(shown), EndToken(tag));
        OnChars(shown);
        Advance(raw.value.length);
      } else {
        DoOne(config, Now(), EndToken(tag));
      }
      ParseEndTag(Some(tag));
    }

    /** Text up to the next piece of markup. */
    method ParseText(from: nat)
      requires Valid() && from <= |rest|
      modifies `rest, `offset, `events
      ensures Valid() && offset + |rest| == old(offset + |rest|)
      ensures var h := TextEndAt(config.matchers, old(rest), from);
              && rest == old(rest)[h..]
              && Now() == DoAll(config, old(Now()), if h > 0 then [TextToken(old(rest)[..h])] else [])
    {
      hide Valid, Do, TextEndAt;
      var h := TextEnd(from);
      if h > 0 {
        DoOne(config, Now(), TextToken(rest[..h]));
        OnChars(rest[..h]);
      }
      Advance(h);
    }

    /** When a turn consumed nothing, the rest is text and the loop ends. */
    method TakeAllText() returns (more: bool)
      requires Valid()
      modifies `events
      ensures Valid() && !more && Now() == DoAll(config, old(Now()), [TextToken(rest)])
    {
      hide Valid, Do;
      DoOne(config, Now(), TextToken(rest));
      OnChars(rest);
      more := false;
    }

    /** One turn of the main loop reads what the reference scanner reads. `more` is false when it was the last one. */
    method Turn() returns (more: bool)
      requires Valid() && Sane(config.matchers) && rest != ""
      modifies this
      ensures var t := Read(config, old(stack), old(rest));
              && more == t.more && rest == t.rest
              && Now() == DoAll(config, old(Now()), t.tokens)
      ensures Valid() && (more ==> offset + |rest| == old(offset + |rest|))
    {
      hide Valid, Do, DoAll, MarkupAt, StartTagAt, TextEndAt, Sane, Lower, RawPieces;
      ghost var before, tokens := Now(), [];
      var last := rest;
      LastIsTop();
      if lastTag.Some? && Lower(lastTag.value) in RAW_TEXT {
        tokens := RawPieces(config, Lower(lastTag.value), rest).0;
        ParseRawText();
      } else {
        var found := IndexOf(rest, "<", 0);
        if found == Some(0) {
          var handled := ParseMarkup();
          if handled {
            DoOne(config, before, MarkupAt(config, last).value.token);
            return true;
          }
        }
        if found.None? {
          more := TakeAllText();
          DropRest();
          return;
        }
        var h := TextEndAt(config.matchers, rest, found.value);
        tokens := if h > 0 then [TextToken(rest[..h])] else [];
        ParseText(found.value);
      }
      if rest == last {
        more := TakeAllText();
        DoMore(config, before, tokens, [TextToken(last)]);
        return;
      }
      return true;
    }

    /**
     * The whole input. The spans cut it up, each one is justified where it stands, and they make the events,
     * up to the ends of what is open at last; an input without `<` is one text. The events end well nested
     * with nothing open, both stacks end empty, and it fails exactly when the loop comes to a kept comment
     * outside all elements.
     */
    method Parse() returns (ghost spans: seq<Span>)
      requires Valid() && Sane(config.matchers) && offset == 0
      modifies this
      ensures Valid() && stack == [] && elements == [] && Replay(events) == Some([]) && !inPre
      ensures Story(config, old(stack), old(rest), spans) && Sources(spans) == old(rest)
      ensures events == old(events) + Made(spans) + Shut(Left(old(stack), Made(spans)), 0)
      ensures old(stack) == [] && old(rest) != "" && '<' !in old(rest) ==> events == old(events) + [Chars(old(rest))]
      ensures Now() == Scan(config, old(Now()), old(rest))
      ensures Now() == DoAll(config, old(Now()), Tokens(config, old(Now()), old(rest)))
      ensures failed <==> old(failed) || exists h :: h in Heads(config, old(Now()), old(rest)) && CommentOutside(config, h)
    {
      hide Replay, ContentModel, Sane, Read, DoAll, CommentOutside, Heads, Tokens, Story, Sources, Made, Left, Shut;
      spans := ScanTells(config, Now(), rest);
      StoryCovers(config, stack, rest, spans);
      if stack == [] && rest != "" && '<' !in rest {
        PlainStory(config, rest, spans);
        PlainLeft(rest);
      }
      ScanIsFold(config, Now(), rest);
      FailsExactly(config, Now(), rest);
      ghost var total, end := |rest|, Scan(config, Now(), rest);
      var more := true;
      while more && rest != ""
        invariant Valid() && (more ==> offset + |rest| == total)
        invariant end == if more then Scan(config, Now(), rest) else Do(config, Now(), Eof)
        decreases more, |rest|
      {
        more := Turn();
      }
      ParseEndTag(None);
    }
  }

  /** The tag is the innermost element; `v-pre` is found on it if it has that attribute and is in no such element. */
  ghost predicate Opened(elements: seq<Open>, tag: StartTag) {
    var n := |elements| - 1;
    && 0 <= n && elements[n].tag == tag.name
    && (elements[n].pre <==>
          (exists i :: 0 <= i < |tag.attrs| && tag.attrs[i].name == "v-pre") && forall i :: 0 <= i < n ==> !elements[i].pre)
  }

  lemma OpenedNext(elements: seq<Open>, tag: StartTag, inPre: bool)
    requires PreCount(elements) == (if inPre then 1 else 0)
    ensures var pre := exists i :: 0 <= i < |tag.attrs| && tag.attrs[i].name == "v-pre";
            Opened(elements + [Open(tag.name, pre && !inPre)], tag)
  {
    NoPre(elements);
    var pre := exists i :: 0 <= i < |tag.attrs| && tag.attrs[i].name == "v-pre";
    var after := elements + [Open(tag.name, pre && !inPre)];
    assert forall i :: 0 <= i < |elements| ==> after[i] == elements[i];
  }

  lemma {:induction false} NoPre(open: seq<Open>)
    ensures PreCount(open) == 0 <==> forall i :: 0 <= i < |open| ==> !open[i].pre
  {
    if open == [] {
    } else {
      NoPre(open[..|open| - 1]);
    }
  }

  lemma EndsNone()
    ensures Ends([]) == []
  {}

  lemma EndsStep(open: seq<string>, i: nat, c: nat)
    requires i <= c < |open|
    ensures Ends(open[i..c + 1]) == [End(open[c])] + Ends(open[i..c])
  {
    assert open[i..c + 1][..c - i] == open[i..c];
  }

  /** The end events of a cleared stack, close by close. */
  lemma ClearedEnds(open: seq<string>, tag: string)
    ensures var open1 := if Top(open) == Some("p") && tag in NON_PHRASING then open[..|open| - 1] else open;
            var open2 := Cleared(open, tag);
            Ends(open[|open2|..]) ==
            (if open1 == open then [] else [End("p")]) + (if open2 == open1 then [] else [End(tag)])
  {
    var open1 := if Top(open) == Some("p") && tag in NON_PHRASING then open[..|open| - 1] else open;
    var open2 := Cleared(open, tag);
    assert open[|open|..] == [];
    if open1 != open {
      EndsStep(open, |open| - 1, |open| - 1);
    }
    if open2 != open1 {
      EndsStep(open, |open2|, |open| - 1);
      EndsStep(open1, |open2|, |open2|);
    }
  }

  lemma OpenOnly(c: Config, s: Machine, t: Token)
    ensures Do(c, s, t).open == Do(c, Machine(s.open, [], false), t).open
  {}

  lemma SkipsNothing(c: Config, s: Machine)
    ensures Do(c, s, Skipped) == s
  {}
}
