/**
 * How the template parser accounts for its whole input: the input is cut into spans, one after the other,
 * and each span makes the events that its kind calls for. Nothing of it refers to the reference scanner.
 */
module Stories {
  import opened Options
  import opened Html
  import opened Nesting
  import opened Scanning

  /**
   * What a span is. `Words` is text up to the next markup, `Remains` a front that is no markup with all that
   * follows it, and a torn tag is a start tag that `>` does not close, with the text after it. `tail` is
   * what follows the attributes of a tag, `at` the place where the end of a comment or conditional begins.
   */
  datatype Kind =
    | Words
    | Remains
    | Remark(at: nat)
    | Conditional(at: nat)
    | Doctype
    | Closing(name: string)
    | Opening(tag: StartTag, tail: string)
    | TornOpening(name: string, attrs: seq<Attr>, tail: string)
    | RawElement(name: string)
    | UnclosedRaw(name: string)

  datatype Span = Span(kind: Kind, source: string, made: seq<Event>)

  // ----- names

  ghost predicate SameLetter(a: char, b: char) {
    a == b || ('A' <= a <= 'Z' && b as int == a as int + 32) || ('a' <= a <= 'z' && b as int == a as int - 32)
  }

  /** The same name, apart from upper and lower case. */
  ghost predicate SameName(a: string, b: string) {
    |a| == |b| && forall i :: 0 <= i < |a| ==> SameLetter(a[i], b[i])
  }

  ghost predicate InLowerCase(s: string) {
    forall i :: 0 <= i < |s| ==> !('A' <= s[i] <= 'Z')
  }

  // ----- open tags

  /** The open tags after some events. */
  ghost function Left(open: seq<string>, es: seq<Event>): seq<string>
    decreases |es|
  {
    if es == [] then open
    else
      match es[0]
      case Start(tag, _, unary) => Left(if unary then open else open + [tag], es[1..])
      case End(_) => Left(if open == [] then [] else open[..|open| - 1], es[1..])
      case _ => Left(open, es[1..])
  }

  /** The ends of all tags from the position `i` on, the innermost first. */
  ghost function Shut(open: seq<string>, i: nat): (r: seq<Event>)
    requires i <= |open|
  {
    seq(|open| - i, k requires 0 <= k < |open| - i => End(open[|open| - 1 - k]))
  }

  /**
   * An end tag ends everything down to the innermost open tag of its name; a stray one of br or p stands for
   * an element.
   */
  ghost predicate Shuts(open: seq<string>, name: string, made: seq<Event>) {
    || (exists i :: 0 <= i < |open| && SameName(open[i], name) && made == Shut(open, i) &&
          forall k :: i < k < |open| ==> !SameName(open[k], name))
    || ((forall k :: 0 <= k < |open| ==> !SameName(open[k], name)) &&
        made == if SameName(name, "br") then [Start(name, [], true)]
                else if SameName(name, "p") then [Start(name, [], false), End(name)]
                else [])
  }

  /** Elements that the next one of their name ends. */
  ghost predicate EndedByNext(name: string) {
    name in {"colgroup", "dd", "dt", "li", "options", "p", "td", "tfoot", "th", "thead", "tr", "source"}
  }

  /** Elements without content. */
  ghost predicate IsVoid(name: string) {
    name in {
      "area", "base", "br", "col", "embed", "frame", "hr", "img", "input", "isindex", "keygen", "link", "meta",
      "param", "source", "track", "wbr"
    }
  }

  /**
   * A start tag ends an open paragraph that may not contain it and then an open tag of its name that may be
   * left open.
   */
  ghost function Gives(c: Config, open: seq<string>, name: string): seq<Event> {
    var last := |open| - 1;
    var p := c.expectHtml && open != [] && open[last] == "p" && name in NON_PHRASING;
    var below := if p then open[..last] else open;
    var same := c.expectHtml && below != [] && below[|below| - 1] == name && EndedByNext(name);
    (if p then [End("p")] else []) + (if same then [End(name)] else [])
  }

  ghost predicate InRaw(open: seq<string>) {
    open != [] &&
    var top := open[|open| - 1];
    SameName(top, "script") || SameName(top, "style") || SameName(top, "textarea")
  }

  ghost predicate Preformatted(open: seq<string>) {
    open != [] && (SameName(open[|open| - 1], "pre") || SameName(open[|open| - 1], "textarea"))
  }

  // ----- markup

  /** The first place of `p`. */
  ghost predicate First(p: string, s: string, at: nat) {
    at <= |s| && p <= s[at..] && forall i :: 0 <= i < at ==> !(p <= s[i..])
  }

  ghost predicate Occurs(p: string, s: string) {
    exists i :: 0 <= i <= |s| && p <= s[i..]
  }

  ghost predicate Remarks(s: string) {
    "<!--" <= s && Occurs("-->", s)
  }

  ghost predicate IsConditional(s: string) {
    "<![" <= s && Occurs("]>", s)
  }

  /** A whole comment, conditional comment, doctype or end tag. */
  ghost predicate Declares(m: Matchers, s: string) {
    Remarks(s) || IsConditional(s) || m.doctype(s).Some? || m.endTag(s).Some?
  }

  /** Something begins that stops text. */
  ghost predicate Begins(m: Matchers, s: string) {
    m.endTag(s).Some? || m.startTagOpen(s).Some? || "<!--" <= s || "<![" <= s
  }

  /** The front of a start tag: its name, and as many attributes as follow each other. */
  ghost predicate TagRuns(m: Matchers, s: string, name: string, attrs: seq<Attr>, tail: string) {
    var start := m.startTagOpen(s);
    && start.Some? && start.value.captured == name && start.value.length <= |s|
    && AttrsRun(m, s[start.value.length..], attrs, tail)
  }

  ghost predicate AttrsRun(m: Matchers, s: string, attrs: seq<Attr>, tail: string)
    decreases |attrs|
  {
    var next := m.attribute(s);
    if attrs == [] then s == tail && (m.startTagClose(s).Some? || next.None?)
    else
      && m.startTagClose(s).None? && next.Some? && next.value.captured == attrs[0] && next.value.length <= |s|
      && AttrsRun(m, s[next.value.length..], attrs[1..], tail)
  }

  /** Text goes on up to `h`: there is nothing that stops it in between, and something at `h`, or no `<` behind it. */
  ghost predicate TextRuns(m: Matchers, s: string, h: nat) {
    && h <= |s|
    && (forall i :: 0 <= i < h && s[i] == '<' ==> !Begins(m, s[i..]))
    && (h < |s| ==> Begins(m, s[h..]) || '<' !in s[h + 1..])
  }

  // ----- spans

  /** The span is what the parser makes of the front of `rest` while the tags `open` are open. */
  ghost predicate Justified(c: Config, open: seq<string>, rest: string, sp: Span) {
    var m := c.matchers;
    && rest != "" && sp.source <= rest
    && (if sp.kind.RawElement? || sp.kind.UnclosedRaw? then
          InRaw(open) && InLowerCase(sp.kind.name) && SameName(open[|open| - 1], sp.kind.name)
        else !InRaw(open))
    && match sp.kind
       case Words => IsWords(m, rest, sp)
       case Remains =>
         && rest[0] == '<' && !Declares(m, rest) && m.startTagOpen(rest).None? && TextRuns(m, rest, 0)
         && sp.source == rest && sp.made == [Chars(rest)]
       case Remark(at) =>
         && "<!--" <= rest && First("-->", rest, at) && sp.source == rest[..at + 3]
         && sp.made == if !c.keepComments || open == [] then []
                       else [CommentText(if at >= 4 then rest[4..at] else rest[at..4])]
       case Conditional(at) =>
         !Remarks(rest) && "<![" <= rest && First("]>", rest, at) && sp.source == rest[..at + 2] && sp.made == []
       case Doctype =>
         && rest[0] == '<' && !Remarks(rest) && !IsConditional(rest)
         && m.doctype(rest).Some? && |sp.source| == m.doctype(rest).value.length && sp.made == []
       case Closing(name) =>
         && rest[0] == '<' && !Remarks(rest) && !IsConditional(rest) && m.doctype(rest).None?
         && m.endTag(rest) == Some(Match(|sp.source|, name)) && Shuts(open, name, sp.made)
       case Opening(tag, tail) => rest[0] == '<' && !Declares(m, rest) && IsOpening(c, open, rest, tag, tail, sp)
       case TornOpening(name, attrs, tail) =>
         && rest[0] == '<' && !Declares(m, rest)
         && TagRuns(m, rest, name, attrs, tail) && m.startTagClose(tail).None? && IsTorn(m, rest, tail, sp)
       case RawElement(name) =>
         var raw := m.rawText(name, rest);
         && raw.Some? && raw.value.endTagLength <= raw.value.length == |sp.source|
         && IsRaw(name, rest[..raw.value.length - raw.value.endTagLength], open[|open| - 1], sp.made)
       case UnclosedRaw(name) =>
         m.rawText(name, rest).None? && sp.source == rest && sp.made == [End(open[|open| - 1]), Chars(rest)]
  }

  ghost predicate IsWords(m: Matchers, rest: string, sp: Span)
    requires rest != "" && sp.source <= rest
  {
    var h := |sp.source|;
    && h > 0 && sp.made == [Chars(sp.source)]
    && (rest[0] == '<' ==> !Declares(m, rest))
    && TextRuns(m, rest, h) && (if h < |rest| then rest[h] == '<' else '<' !in rest)
  }

  ghost predicate IsOpening(c: Config, open: seq<string>, rest: string, tag: StartTag, tail: string, sp: Span) {
    var close := c.matchers.startTagClose(tail);
    && TagRuns(c.matchers, rest, tag.name, tag.attrs, tail)
    && close.Some? && close.value.captured == tag.slash && close.value.length <= |tail| <= |rest|
    && sp.made == Gives(c, open, tag.name) + [Start(tag.name, tag.attrs, IsVoid(tag.name) || tag.slash)]
    && var after := tail[close.value.length..];
       var dropped := if Preformatted(Left(open, sp.made)) && "\n" <= after then 1 else 0;
       |sp.source| == |rest| - |after| + dropped
  }

  ghost predicate IsTorn(m: Matchers, rest: string, tail: string, sp: Span) {
    && |tail| <= |rest| && |rest| - |tail| <= |sp.source| <= |rest|
    && var h := |sp.source| - (|rest| - |tail|);
       && TextRuns(m, tail, h) && (h > 0 ==> !Begins(m, tail) && h < |tail| && tail[h] == '<')
       && sp.made == if h == 0 then [] else [Chars(tail[..h])]
  }

  /** The content of the element without a newline at its front, and the end of the element. */
  ghost predicate IsRaw(name: string, content: string, open: string, made: seq<Event>) {
    made == [Chars(if name in {"pre", "textarea"} && "\n" <= content then content[1..] else content), End(open)]
  }

  /** The spans cut up all of `rest`, one after the other. */
  ghost predicate Story(c: Config, open: seq<string>, rest: string, spans: seq<Span>)
    decreases |spans|
  {
    if spans == [] then rest == ""
    else
      && Justified(c, open, rest, spans[0])
      && Story(c, Left(open, spans[0].made), rest[|spans[0].source|..], spans[1..])
  }

  ghost function Made(spans: seq<Span>): seq<Event>
    decreases |spans|
  {
    if spans == [] then [] else spans[0].made + Made(spans[1..])
  }

  ghost function Sources(spans: seq<Span>): string
    decreases |spans|
  {
    if spans == [] then "" else spans[0].source + Sources(spans[1..])
  }

  /** Nothing of the input is lost, repeated or moved. */
  lemma {:induction false} StoryCovers(c: Config, open: seq<string>, rest: string, spans: seq<Span>)
    requires Story(c, open, rest, spans)
    ensures Sources(spans) == rest
    decreases |spans|
  {
    hide Justified, Left;
    if spans == [] {
    } else {
      SourceIsFront(c, open, rest, spans[0]);
      StoryCovers(c, Left(open, spans[0].made), rest[|spans[0].source|..], spans[1..]);
    }
  }

  lemma SourceIsFront(c: Config, open: seq<string>, rest: string, sp: Span)
    requires Justified(c, open, rest, sp)
    ensures rest != "" && sp.source == rest[..|sp.source|] && |sp.source| <= |rest|
    ensures rest == sp.source + rest[|sp.source|..]
  {}

  /** An input without markup is one text. */
  lemma PlainStory(c: Config, rest: string, spans: seq<Span>)
    requires rest != "" && '<' !in rest && Story(c, [], rest, spans)
    ensures Made(spans) == [Chars(rest)]
  {
    var sp := spans[0];
    assert rest[0] in rest;
    assert sp.kind.Words? && sp.source == rest;
    assert rest[|rest|..] == "" && spans[1..] == [] ;
  }
}
