/** An input has one story only: the conditions on spans leave no choice. */
module StoryUniqueness {
  import opened Html
  import opened Nesting
  import opened Scanning
  import opened Stories

  lemma {:induction false} AttrsRunOnce(m: Matchers, s: string, attrs: seq<Attr>, tail: string,
                                        attrs': seq<Attr>, tail': string)
    requires AttrsRun(m, s, attrs, tail) && AttrsRun(m, s, attrs', tail')
    ensures attrs == attrs' && tail == tail'
    decreases |attrs|
  {
    if attrs == [] || attrs' == [] {
    } else {
      AttrsRunOnce(m, s[m.attribute(s).value.length..], attrs[1..], tail, attrs'[1..], tail');
      assert attrs == [attrs[0]] + attrs[1..] && attrs' == [attrs'[0]] + attrs'[1..];
    }
  }

  lemma ShutsOnce(open: seq<string>, name: string, made: seq<Event>, made': seq<Event>)
    requires Shuts(open, name, made) && Shuts(open, name, made')
    ensures made == made'
  {
    hide SameName, Shut;
  }

  lemma LowerCaseOnce(s: string, a: string, b: string)
    requires InLowerCase(a) && InLowerCase(b) && SameName(s, a) && SameName(s, b)
    ensures a == b
  {
    forall i | 0 <= i < |s| ensures a[i] == b[i] {
      assert SameLetter(s[i], a[i]) && SameLetter(s[i], b[i]);
    }
  }

  lemma WordsOnce(m: Matchers, rest: string, h: nat, h': nat)
    requires TextRuns(m, rest, h) && TextRuns(m, rest, h')
    requires if h < |rest| then rest[h] == '<' else '<' !in rest
    requires if h' < |rest| then rest[h'] == '<' else '<' !in rest
    ensures h == h'
  {}

  lemma TornOnce(m: Matchers, rest: string, tail: string, a: Span, b: Span)
    requires IsTorn(m, rest, tail, a) && IsTorn(m, rest, tail, b)
    ensures |a.source| == |b.source| && a.made == b.made
  {
    hide Begins;
    var h, h' := |a.source| - (|rest| - |tail|), |b.source| - (|rest| - |tail|);
    if h > 0 && h' > 0 {
      WordsOnce(m, tail, h, h');
    }
  }

  datatype Shape =
    | RawShape
    | WordShape
    | RemarkShape
    | ConditionalShape
    | DoctypeShape
    | ClosingShape
    | TagShape
    | LooseShape

  /** What is at the front. */
  ghost function ShapeOf(m: Matchers, open: seq<string>, rest: string): Shape
    requires rest != ""
  {
    if InRaw(open) then RawShape
    else if rest[0] != '<' then WordShape
    else if Remarks(rest) then RemarkShape
    else if IsConditional(rest) then ConditionalShape
    else if m.doctype(rest).Some? then DoctypeShape
    else if m.endTag(rest).Some? then ClosingShape
    else if m.startTagOpen(rest).Some? then TagShape
    else LooseShape
  }

  ghost predicate HasShape(k: Kind, shape: Shape) {
    match shape
    case RawShape => k.RawElement? || k.UnclosedRaw?
    case WordShape => k.Words?
    case RemarkShape => k.Remark?
    case ConditionalShape => k.Conditional?
    case DoctypeShape => k.Doctype?
    case ClosingShape => k.Closing?
    case TagShape => k.Opening? || k.TornOpening?
    case LooseShape => k.Words? || k.Remains?
  }

  lemma FirstOccurs(p: string, s: string, at: nat)
    requires First(p, s, at)
    ensures Occurs(p, s)
  {}

  lemma FirstOnce(p: string, s: string, at: nat, at': nat)
    requires First(p, s, at) && First(p, s, at')
    ensures at == at'
  {}

  lemma FrontOf(m: Matchers, rest: string, sp: Span)
    requires rest != "" && sp.source <= rest && IsWords(m, rest, sp)
    ensures rest[0] == '<' ==> !Declares(m, rest) && !Begins(m, rest)
  {
    hide Declares, Begins;
    assert rest[0..] == rest;
  }

  lemma TagOpens(m: Matchers, s: string, name: string, attrs: seq<Attr>, tail: string)
    requires TagRuns(m, s, name, attrs, tail)
    ensures m.startTagOpen(s).Some? && m.startTagOpen(s).value.captured == name
  {}

  lemma TagRunsOnce(m: Matchers, s: string, name: string, attrs: seq<Attr>, tail: string,
                    name': string, attrs': seq<Attr>, tail': string)
    requires TagRuns(m, s, name, attrs, tail) && TagRuns(m, s, name', attrs', tail')
    ensures name == name' && attrs == attrs' && tail == tail'
  {
    AttrsRunOnce(m, s[m.startTagOpen(s).value.length..], attrs, tail, attrs', tail');
  }

  lemma KindHasShape(c: Config, open: seq<string>, rest: string, sp: Span)
    requires Justified(c, open, rest, sp)
    ensures HasShape(sp.kind, ShapeOf(c.matchers, open, rest))
  {
    hide InRaw, SameName, InLowerCase, First, Occurs, TextRuns, TagRuns, IsTorn, IsRaw, Shuts, Gives, Left;
    match sp.kind
    case Words => FrontOf(c.matchers, rest, sp);
    case Remark(at) => FirstOccurs("-->", rest, at);
    case Conditional(at) => FirstOccurs("]>", rest, at);
    case Opening(tag, tail) => TagOpens(c.matchers, rest, tag.name, tag.attrs, tail);
    case TornOpening(name, attrs, tail) => TagOpens(c.matchers, rest, name, attrs, tail);
    case _ =>
  }

  lemma RawOnce(c: Config, open: seq<string>, rest: string, a: Span, b: Span)
    requires Justified(c, open, rest, a) && Justified(c, open, rest, b) && InRaw(open)
    ensures |a.source| == |b.source| && a.made == b.made
  {
    hide SameName, InLowerCase, IsWords, IsOpening, IsTorn, TextRuns, TagRuns, Shuts, First;
    hide Declares, Remarks, IsConditional;
    LowerCaseOnce(open[|open| - 1], a.kind.name, b.kind.name);
  }

  lemma TagOnce(c: Config, open: seq<string>, rest: string, a: Span, b: Span)
    requires Justified(c, open, rest, a) && Justified(c, open, rest, b)
    requires a.kind.Opening? || a.kind.TornOpening?
    requires b.kind.Opening? || b.kind.TornOpening?
    ensures |a.source| == |b.source| && a.made == b.made
  {
    hide InRaw, SameName, InLowerCase, TagRuns, IsTorn, Gives, Left, Declares, Preformatted;
    var m := c.matchers;
    var n, run, s := NameOf(a.kind), AttrsOf(a.kind), a.kind.tail;
    var n', run', s' := NameOf(b.kind), AttrsOf(b.kind), b.kind.tail;
    TagRunsOnce(m, rest, n, run, s, n', run', s');
    if a.kind.TornOpening? {
      TornOnce(m, rest, s, a, b);
    }
  }

  ghost function NameOf(k: Kind): string
    requires k.Opening? || k.TornOpening?
  {
    if k.Opening? then k.tag.name else k.name
  }

  ghost function AttrsOf(k: Kind): seq<Attr>
    requires k.Opening? || k.TornOpening?
  {
    if k.Opening? then k.tag.attrs else k.attrs
  }

  lemma RemainsAlone(m: Matchers, rest: string, sp: Span)
    requires rest != "" && rest[0] == '<' && sp.source <= rest && IsWords(m, rest, sp)
    ensures !TextRuns(m, rest, 0)
  {
    hide Declares, Begins;
    assert rest[0..] == rest;
    if |sp.source| < |rest| {
      assert rest[1..][|sp.source| - 1] == '<';
    }
  }

  lemma LooseOnce(c: Config, open: seq<string>, rest: string, a: Span, b: Span)
    requires Justified(c, open, rest, a) && Justified(c, open, rest, b)
    requires a.kind.Words? || a.kind.Remains?
    requires b.kind.Words? || b.kind.Remains?
    ensures |a.source| == |b.source| && a.made == [Chars(a.source)] && b.made == [Chars(b.source)]
  {
    hide InRaw, Begins, Declares, TextRuns;
    if a.kind.Words? && b.kind.Words? {
      WordsOnce(c.matchers, rest, |a.source|, |b.source|);
    } else if a.kind.Words? {
      RemainsAlone(c.matchers, rest, a);
    } else if b.kind.Words? {
      RemainsAlone(c.matchers, rest, b);
    }
  }

  /** The front of the input and the open tags determine the span. */
  lemma SpanOnce(c: Config, open: seq<string>, rest: string, a: Span, b: Span)
    requires Justified(c, open, rest, a) && Justified(c, open, rest, b)
    ensures a.source == b.source && a.made == b.made
  {
    hide InRaw, SameName, InLowerCase, First, Occurs, TextRuns, TagRuns, IsTorn, IsRaw, IsWords, IsOpening, Shuts;
    hide Remarks, IsConditional, Declares;
    KindHasShape(c, open, rest, a);
    KindHasShape(c, open, rest, b);
    FrontsEqual(rest, a, b);
    match ShapeOf(c.matchers, open, rest)
    case RawShape => RawOnce(c, open, rest, a, b);
    case RemarkShape => FirstOnce("-->", rest, a.kind.at, b.kind.at);
    case ConditionalShape => FirstOnce("]>", rest, a.kind.at, b.kind.at);
    case DoctypeShape =>
    case ClosingShape => ShutsOnce(open, a.kind.name, a.made, b.made);
    case TagShape => TagOnce(c, open, rest, a, b);
    case _ => LooseOnce(c, open, rest, a, b);
  }

  lemma FrontsEqual(rest: string, a: Span, b: Span)
    requires a.source <= rest && b.source <= rest
    ensures |a.source| == |b.source| ==> a.source == b.source
  {}

  lemma StoryHead(c: Config, open: seq<string>, rest: string, spans: seq<Span>)
    requires Story(c, open, rest, spans)
    ensures spans == [] <==> rest == ""
    ensures spans != [] ==> spans[0].source <= rest && |spans[0].source| <= |rest| && Justified(c, open, rest, spans[0])
  {
    hide Justified, Left;
    if spans != [] {
      SourceIsFront(c, open, rest, spans[0]);
    }
  }

  /** There is one story of an input. */
  lemma {:induction false} StoryOnce(c: Config, open: seq<string>, rest: string, spans: seq<Span>, spans': seq<Span>)
    requires Story(c, open, rest, spans) && Story(c, open, rest, spans')
    ensures Made(spans) == Made(spans')
    decreases |spans|
  {
    hide Justified, Left;
    StoryHead(c, open, rest, spans);
    StoryHead(c, open, rest, spans');
    if spans == [] {
    } else {
      SpanOnce(c, open, rest, spans[0], spans'[0]);
      StoryOnce(c, Left(open, spans[0].made), rest[|spans[0].source|..], spans[1..], spans'[1..]);
    }
  }
}
