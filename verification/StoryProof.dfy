/** The reference scanner tells a story: each of its turns reads one justified span. */
module StoryProofs {
  import opened Options
  import opened Html
  import opened Nesting
  import opened Scanning
  import opened Stories

  // ----- names

  lemma LowerLetter(a: char, b: char)
    ensures LowerChar(a) == LowerChar(b) <==> SameLetter(a, b)
    ensures !('A' <= LowerChar(a) <= 'Z') && LowerChar(LowerChar(a)) == LowerChar(a) && SameLetter(a, LowerChar(a))
    ensures !('A' <= a <= 'Z') ==> LowerChar(a) == a
  {}

  lemma LowerNames(a: string, b: string)
    ensures Lower(a) == Lower(b) <==> SameName(a, b)
  {
    hide LowerChar, SameLetter;
    forall i | 0 <= i < |a| && i < |b| ensures LowerChar(a[i]) == LowerChar(b[i]) <==> SameLetter(a[i], b[i]) {
      LowerLetter(a[i], b[i]);
    }
    if Lower(a) == Lower(b) {
      assert |Lower(a)| == |a| && |Lower(b)| == |b|;
      forall i | 0 <= i < |a| ensures SameLetter(a[i], b[i]) {
        assert Lower(a)[i] == LowerChar(a[i]) && Lower(b)[i] == LowerChar(b[i]);
      }
    }
  }

  lemma Lowered(s: string)
    ensures InLowerCase(Lower(s)) && SameName(s, Lower(s)) && Lower(Lower(s)) == Lower(s)
    ensures InLowerCase(s) ==> Lower(s) == s
  {
    hide LowerChar, SameLetter;
    forall i | 0 <= i < |s|
      ensures !('A' <= Lower(s)[i] <= 'Z') && SameLetter(s[i], Lower(s)[i]) && Lower(Lower(s))[i] == Lower(s)[i]
      ensures !('A' <= s[i] <= 'Z') ==> Lower(s)[i] == s[i]
    {
      LowerLetter(s[i], s[i]);
    }
  }

  lemma NameIs(s: string, name: string)
    requires InLowerCase(name)
    ensures Lower(s) == name <==> SameName(s, name)
  {
    Lowered(name);
    LowerNames(s, name);
  }

  lemma RawIs(open: seq<string>)
    ensures InRawText(open) <==> InRaw(open)
  {
    hide Lower, SameName;
    if open != [] {
      var top := open[|open| - 1];
      NameIs(top, "script");
      NameIs(top, "style");
      NameIs(top, "textarea");
    }
  }

  lemma DropIs(open: seq<string>, s: string)
    ensures DropsNewline(Top(open), s) <==> Preformatted(open) && "\n" <= s
  {
    hide Lower, SameName;
    if open != [] {
      NameIs(open[|open| - 1], "pre");
      NameIs(open[|open| - 1], "textarea");
    }
  }

  // ----- open tags

  lemma {:induction false} LeftConcat(open: seq<string>, a: seq<Event>, b: seq<Event>)
    ensures Left(open, a + b) == Left(Left(open, a), b)
    decreases |a|
  {
    if a == [] {
      assert a + b == b;
    } else {
      assert (a + b)[0] == a[0] && (a + b)[1..] == a[1..] + b;
      LeftOne(open, a[0]);
      LeftConcat(Left(open, [a[0]]), a[1..], b);
    }
  }

  lemma LeftOne(open: seq<string>, e: Event)
    ensures e.Start? ==> Left(open, [e]) == if e.unary then open else open + [e.tag]
    ensures e.End? ==> Left(open, [e]) == if open == [] then [] else open[..|open| - 1]
    ensures !e.Start? && !e.End? ==> Left(open, [e]) == open
  {
    assert [e][1..] == [];
  }

  lemma {:induction false} EndsAreShut(open: seq<string>, i: nat)
    requires i <= |open|
    ensures Ends(open[i..]) == Shut(open, i) && Left(open, Shut(open, i)) == open[..i]
    decreases |open|
  {
    if i == |open| {
      assert open[i..] == [] && open[..i] == open;
    } else {
      var n := |open| - 1;
      EndsAreShut(open[..n], i);
      assert open[i..][..n - i] == open[..n][i..] && open[i..][n - i] == open[n];
      ShutLast(open, i);
      assert ([End(open[n])] + Shut(open[..n], i))[1..] == Shut(open[..n], i) && open[..n][..i] == open[..i];
    }
  }

  lemma EndIs(open: seq<string>, name: string)
    ensures Shuts(open, name, EventsOfEnd(open, name))
    ensures Left(open, EventsOfEnd(open, name)) == OpenAfterEnd(open, name)
  {
    hide Lower, SameName, Shut, Ends, Innermost, Left;
    var i := Innermost(open, name);
    forall k | 0 <= k < |open| ensures Lower(open[k]) == Lower(name) <==> SameName(open[k], name) {
      LowerNames(open[k], name);
    }
    NameIs(name, "br");
    NameIs(name, "p");
    if i >= 0 {
      EndsAreShut(open, i);
    } else {
      StrayLeft(open, name);
    }
  }

  lemma StrayLeft(open: seq<string>, name: string)
    ensures Left(open, []) == open && Left(open, [Start(name, [], true)]) == open
    ensures Left(open, [Start(name, [], false), End(name)]) == open
  {
    LeftOne(open, Start(name, [], true));
    LeftOne(open, Start(name, [], false));
    LeftOne(open + [name], End(name));
    LeftConcat(open, [Start(name, [], false)], [End(name)]);
    assert [Start(name, [], false)] + [End(name)] == [Start(name, [], false), End(name)];
    assert (open + [name])[..|open|] == open;
  }

  /** The top tag is ended by its name in lower case. */
  lemma TopEnded(open: seq<string>)
    requires open != []
    ensures var top := open[|open| - 1];
            && EventsOfEnd(open, Lower(top)) == [End(top)] && OpenAfterEnd(open, Lower(top)) == open[..|open| - 1]
            && Left(open, [End(top)]) == open[..|open| - 1]
  {
    hide Lower, Left;
    var top := open[|open| - 1];
    Lowered(top);
    assert Innermost(open, Lower(top)) == |open| - 1;
    assert open[|open| - 1..] == [top] && [top][..0] == [];
    assert Ends([top]) == [End(top)] + Ends([]);
    LeftOne(open, End(top));
  }

  lemma NextTable(name: string)
    ensures name in CAN_BE_LEFT_OPEN <==> EndedByNext(name)
  {}

  lemma VoidTable(name: string)
    ensures name in UNARY <==> IsVoid(name)
  {}

  lemma GivesEnds(c: Config, open: seq<string>, name: string)
    ensures var open' := if c.expectHtml then Cleared(open, name) else open;
            Ends(open[|open'|..]) == Gives(c, open, name) && Left(open, Gives(c, open, name)) == open'
  {
    hide Left, Shut, Ends;
    var open' := if c.expectHtml then Cleared(open, name) else open;
    ClearedIsPrefix(open, name);
    EndsAreShut(open, |open'|);
    assert open[..|open|] == open;
    GivesShut(c, open, name);
  }

  lemma GivesShut(c: Config, open: seq<string>, name: string)
    ensures var open' := if c.expectHtml then Cleared(open, name) else open; Gives(c, open, name) == Shut(open, |open'|)
  {
    hide Shut, EndedByNext;
    NextTable(name);
    var last := |open| - 1;
    ShutAll(open);
    if open != [] {
      ShutLast(open, last);
      ShutAll(open[..last]);
      if last > 0 {
        ShutLast(open, last - 1);
        ShutLast(open[..last], last - 1);
        ShutAll(open[..last][..last - 1]);
      }
    }
  }

  lemma ShutAll(open: seq<string>)
    ensures Shut(open, |open|) == []
  {}

  lemma ShutLast(open: seq<string>, i: nat)
    requires i < |open|
    ensures Shut(open, i) == [End(open[|open| - 1])] + Shut(open[..|open| - 1], i)
  {}

  lemma StartDone(c: Config, s: Machine, tag: StartTag)
    ensures var made := Gives(c, s.open, tag.name) + [Start(tag.name, tag.attrs, IsVoid(tag.name) || tag.slash)];
            && Do(c, s, StartToken(tag)) == s.(open := Left(s.open, made), events := s.events + made)
  {
    hide Left, Gives, Cleared, IsVoid;
    VoidTable(tag.name);
    GivesEnds(c, s.open, tag.name);
    var start := Start(tag.name, tag.attrs, IsVoid(tag.name) || tag.slash);
    LeftConcat(s.open, Gives(c, s.open, tag.name), [start]);
    LeftOne(Left(s.open, Gives(c, s.open, tag.name)), start);
    assert s.events + Gives(c, s.open, tag.name) + [start] == s.events + (Gives(c, s.open, tag.name) + [start]);
  }

  // ----- matches

  lemma IndexIsFirst(s: string, p: string)
    requires p != ""
    ensures IndexOf(s, p, 0).Some? ==> First(p, s, IndexOf(s, p, 0).value) && IndexOf(s, p, 0).value + |p| <= |s|
    ensures IndexOf(s, p, 0).Some? <==> Occurs(p, s)
  {
    hide IndexOf;
    var found := IndexOf(s, p, 0);
    forall i | 0 <= i <= |s| ensures (StartsWith(s[i..], p) <==> p <= s[i..]) && (p <= s[i..] ==> i < |s|) {}
    if found.Some? {
      assert p <= s[found.value..];
    }
  }

  ghost predicate IsSuffix(t: string, s: string) {
    |t| <= |s| && t == s[|s| - |t|..]
  }

  lemma SuffixOf(t: string, s: string, n: nat)
    requires n <= |s| && IsSuffix(t, s[n..])
    ensures IsSuffix(t, s)
  {}

  lemma {:induction false} AttributesRun(m: Matchers, s: string, acc: seq<Attr>) returns (attrs: seq<Attr>)
    requires Sane(m)
    ensures var r := Attributes(m, s, acc); r.0 == acc + attrs && AttrsRun(m, s, attrs, r.1) && IsSuffix(r.1, s)
    decreases |s|
  {
    hide Sane, IsSuffix;
    if m.startTagClose(s).None? && m.attribute(s).Some? {
      AttributeFits(m, s);
      var attr := m.attribute(s).value;
      attrs := AttributesRun(m, s[attr.length..], acc + [attr.captured]);
      assert acc + [attr.captured] + attrs == acc + ([attr.captured] + attrs);
      attrs := [attr.captured] + attrs;
      AttributesNext(m, s, acc);
      SuffixOf(Attributes(m, s, acc).1, s, attr.length);
    } else {
      attrs := [];
      SuffixOf(s, s, 0);
      AttributesEnd(m, s, acc);
    }
  }

  lemma AttributeFits(m: Matchers, s: string)
    requires Sane(m)
    ensures Fits(m.attribute(s), s) && Fits(m.startTagOpen(s), s) && Fits(m.startTagClose(s), s)
    ensures Fits(m.endTag(s), s) && Fits(m.doctype(s), s)
  {}

  lemma AttributesNext(m: Matchers, s: string, acc: seq<Attr>)
    requires Sane(m) && m.startTagClose(s).None? && m.attribute(s).Some? && Fits(m.attribute(s), s)
    ensures var attr := m.attribute(s).value;
            Attributes(m, s, acc) == Attributes(m, s[attr.length..], acc + [attr.captured])
  {}

  lemma AttributesEnd(m: Matchers, s: string, acc: seq<Attr>)
    requires Sane(m) && (m.startTagClose(s).Some? || m.attribute(s).None?)
    ensures Attributes(m, s, acc) == (acc, s)
  {}

  lemma {:induction false} TextEndRuns(m: Matchers, s: string, from: nat)
    requires from <= |s|
    ensures var h := TextEndAt(m, s, from);
            && (forall i :: from <= i < h && s[i] == '<' ==> !Begins(m, s[i..]))
            && (h < |s| ==> Begins(m, s[h..]) || '<' !in s[h + 1..])
            && (from < h ==> h < |s| && s[h] == '<' && !Begins(m, s[from..]))
    decreases |s| - from
  {
    hide *;
    StopsIs(m, s[from..]);
    if TextStops(m, s[from..]) {
      TextIsOver(m, s, from);
      if from < |s| {
        assert s[from..] != "";
      }
    } else {
      TextGoesOn(m, s, from);
      NextAngle(s, from, 1);
      var x := IndexOf(s[from..], "<", 1);
      if x.Some? {
        TextEndRuns(m, s, from + x.value);
        assert forall i :: from <= i < TextEndAt(m, s, from) && s[i] == '<' ==> i == from || from + x.value <= i;
      }
    }
  }

  lemma StopsIs(m: Matchers, s: string)
    ensures TextStops(m, s) <==> s == "" || Begins(m, s)
  {}

  lemma NextAngle(s: string, from: nat, k: nat)
    requires from + k <= |s|
    ensures var x := IndexOf(s[from..], "<", k);
            if x.None? then '<' !in s[from + k..]
            else k <= x.value < |s| - from && s[from + x.value] == '<' &&
                 forall i :: from + k <= i < from + x.value ==> s[i] != '<'
  {
    hide IndexOf;
    var rest := s[from..];
    var x := IndexOf(rest, "<", k);
    forall i | k <= i < |rest| ensures StartsWith(rest[i..], "<") <==> s[from + i] == '<' {
      assert rest[i..][..1] == [s[from + i]];
    }
    if x.None? {
      forall i | from + k <= i < |s| ensures s[i] != '<' {
        assert !StartsWith(rest[i - from..], "<");
      }
    } else {
      assert StartsWith(rest[x.value..], "<");
      forall i | from + k <= i < from + x.value ensures s[i] != '<' {
        assert !StartsWith(rest[i - from..], "<");
      }
    }
  }

  // ----- turns

  /** The span is justified, and it is what the turn of the scanner reads and does. */
  ghost predicate Reads(c: Config, s: Machine, rest: string, sp: Span)
    requires Sane(c.matchers) && rest != ""
  {
    && Justified(c, s.open, rest, sp)
    && var t := Read(c, s.open, rest);
       var after := DoAll(c, s, t.tokens);
       && after.events == s.events + sp.made && after.open == Left(s.open, sp.made)
       && if t.more then t.rest == rest[|sp.source|..] else sp.source == rest
  }

  lemma TextDone(c: Config, s: Machine, text: string)
    ensures DoAll(c, s, [TextToken(text)]) == s.(events := s.events + [Chars(text)])
    ensures Left(s.open, [Chars(text)]) == s.open
  {
    DoOne(c, s, TextToken(text));
    LeftOne(s.open, Chars(text));
  }

  lemma RawDone(c: Config, s: Machine, text: string)
    requires s.open != []
    ensures var top := s.open[|s.open| - 1];
            && DoAll(c, s, [TextToken(text), EndToken(Lower(top))]) ==
               s.(open := s.open[..|s.open| - 1], events := s.events + [Chars(text), End(top)])
            && DoAll(c, s, [EndToken(Lower(top)), TextToken(text)]) ==
               s.(open := s.open[..|s.open| - 1], events := s.events + [End(top), Chars(text)])
            && Left(s.open, [Chars(text), End(top)]) == Left(s.open, [End(top), Chars(text)]) == s.open[..|s.open| - 1]
  {
    hide Lower, Left, EventsOfEnd, OpenAfterEnd;
    var top := s.open[|s.open| - 1];
    TopEnded(s.open);
    DoTwo(c, s, TextToken(text), EndToken(Lower(top)));
    DoTwo(c, s, EndToken(Lower(top)), TextToken(text));
    LeftConcat(s.open, [Chars(text)], [End(top)]);
    LeftConcat(s.open, [End(top)], [Chars(text)]);
    LeftOne(s.open, Chars(text));
    LeftOne(s.open[..|s.open| - 1], Chars(text));
    assert s.events + [Chars(text)] + [End(top)] == s.events + [Chars(text), End(top)];
    assert s.events + [End(top)] + [Chars(text)] == s.events + [End(top), Chars(text)];
    assert [Chars(text)] + [End(top)] == [Chars(text), End(top)] && [End(top)] + [Chars(text)] == [End(top), Chars(text)];
  }

  lemma RawOpen(open: seq<string>)
    requires InRawText(open)
    ensures open != []
  {}

  /** What a turn reads inside raw text. */
  lemma RawReads(c: Config, open: seq<string>, rest: string)
    requires Sane(c.matchers) && rest != "" && InRawText(open) && open != []
    ensures var name := Lower(open[|open| - 1]);
            var raw := c.matchers.rawText(name, rest);
            if raw.None? then Read(c, open, rest) == Turned([EndToken(name), TextToken(rest)], rest, false)
            else
              && 0 < raw.value.endTagLength <= raw.value.length <= |rest|
              && var content := rest[..raw.value.length - raw.value.endTagLength];
                 var text := if DropsNewline(Some(name), content) then content[1..] else content;
                 Read(c, open, rest) == Turned([TextToken(text), EndToken(name)], rest[raw.value.length..], true)
  {
    hide Lower, DropsNewline;
    var name := Lower(open[|open| - 1]);
    assert RawFits(c.matchers.rawText(name, rest), rest);
  }

  lemma RawTurn(c: Config, s: Machine, rest: string) returns (sp: Span)
    requires Sane(c.matchers) && rest != "" && InRawText(s.open)
    ensures Reads(c, s, rest, sp)
  {
    hide Lower, SameName, InLowerCase, DoAll, Do, Left, InRawText, InRaw, Read, Sane;
    RawOpen(s.open);
    RawIs(s.open);
    var top := s.open[|s.open| - 1];
    var name := Lower(top);
    Lowered(top);
    RawReads(c, s.open, rest);
    var raw := c.matchers.rawText(name, rest);
    if raw.None? {
      sp := Span(UnclosedRaw(name), rest, [End(top), Chars(rest)]);
      RawDone(c, s, rest);
    } else {
      var content := rest[..raw.value.length - raw.value.endTagLength];
      var text := if DropsNewline(Some(name), content) then content[1..] else content;
      sp := Span(RawElement(name), rest[..raw.value.length], [Chars(text), End(top)]);
      RawDone(c, s, text);
    }
  }

  // ----- text

  /** What a turn reads outside raw text when the input does not begin with `<`. */
  lemma WordsRead(c: Config, open: seq<string>, rest: string)
    requires Sane(c.matchers) && rest != "" && !InRawText(open) && rest[0] != '<'
    ensures '<' !in rest ==> Read(c, open, rest) == Turned([TextToken(rest)], "", false)
    ensures '<' in rest ==>
              var x := IndexOf(rest, "<", 0);
              && x.Some? && 0 < x.value < |rest|
              && var h := TextEndAt(c.matchers, rest, x.value);
                 0 < h && Read(c, open, rest) == Turned([TextToken(rest[..h])], rest[h..], true)
  {
    hide Sane, InRawText, IndexOf, TextEndAt, MarkupAt, MarkupTurn, StartTagAt, RawPieces;
    assert rest[0..] == rest;
    NextAngle(rest, 0, 0);
  }

  lemma WordsTurn(c: Config, s: Machine, rest: string) returns (sp: Span)
    requires Sane(c.matchers) && rest != "" && !InRawText(s.open) && rest[0] != '<'
    ensures Reads(c, s, rest, sp)
  {
    hide Sane, InRawText, InRaw, Read, Do, DoAll, Left, IndexOf, TextEndAt, Begins, Declares;
    RawIs(s.open);
    WordsRead(c, s.open, rest);
    if '<' in rest {
      assert rest[0..] == rest;
      NextAngle(rest, 0, 0);
      var x := IndexOf(rest, "<", 0).value;
      TextEndRuns(c.matchers, rest, x);
      var h := TextEndAt(c.matchers, rest, x);
      TextDone(c, s, rest[..h]);
      sp := Span(Words, rest[..h], [Chars(rest[..h])]);
    } else {
      TextDone(c, s, rest);
      sp := Span(Words, rest, [Chars(rest)]);
    }
  }

  // ----- markup

  lemma FrontRead(c: Config, open: seq<string>, rest: string)
    requires Sane(c.matchers) && rest != "" && !InRawText(open) && rest[0] == '<'
    ensures Read(c, open, rest) == if MarkupAt(c, rest).Some? then MarkupTurn(c, open, MarkupAt(c, rest).value)
                                   else TextTurn(c, rest, StartTagAt(c.matchers, rest).1, 0)
  {
    hide Sane, InRawText, IndexOf, TextTurn, MarkupAt, MarkupTurn, StartTagAt, RawPieces;
    assert rest[0..] == rest;
    NextAngle(rest, 0, 0);
  }

  lemma PrefixIs(s: string, p: string)
    ensures StartsWith(s, p) <==> p <= s
  {}

  lemma DeclarationCases(c: Config, s: string)
    requires Sane(c.matchers) && s != ""
    ensures var comment, conditional, doctype := IndexOf(s, "-->", 0), IndexOf(s, "]>", 0), c.matchers.doctype(s);
            if StartsWith(s, "<!--") && comment.Some? then
              var token := if c.keepComments then CommentToken(Substring(s, 4, comment.value)) else Skipped;
              DeclarationAt(c, s) == Some(Piece(token, s[comment.value + 3..]))
            else if StartsWith(s, "<![") && conditional.Some? then
              DeclarationAt(c, s) == Some(Piece(Skipped, s[conditional.value + 2..]))
            else if doctype.Some? then
              0 < doctype.value.length <= |s| && DeclarationAt(c, s) == Some(Piece(Skipped, s[doctype.value.length..]))
            else DeclarationAt(c, s).None?
  {
    hide IndexOf, Substring, Sane;
    AttributeFits(c.matchers, s);
  }

  /** The declaration at the front, by kind. */
  lemma DeclarationIs(c: Config, rest: string)
    requires Sane(c.matchers) && rest != ""
    ensures if Remarks(rest) then
              IndexOf(rest, "-->", 0).Some? &&
              var at := IndexOf(rest, "-->", 0).value;
              && First("-->", rest, at) && at + 3 <= |rest|
              && DeclarationAt(c, rest) ==
                 Some(Piece(if c.keepComments then CommentToken(Substring(rest, 4, at)) else Skipped, rest[at + 3..]))
            else if IsConditional(rest) then
              IndexOf(rest, "]>", 0).Some? &&
              var at := IndexOf(rest, "]>", 0).value;
              First("]>", rest, at) && at + 2 <= |rest| && DeclarationAt(c, rest) == Some(Piece(Skipped, rest[at + 2..]))
            else if c.matchers.doctype(rest).Some? then
              var n := c.matchers.doctype(rest).value.length;
              0 < n <= |rest| && DeclarationAt(c, rest) == Some(Piece(Skipped, rest[n..]))
            else DeclarationAt(c, rest).None?
  {
    hide IndexOf, First, Occurs, Sane, Substring, StartsWith, DeclarationAt;
    DeclarationCases(c, rest);
    PrefixIs(rest, "<!--");
    PrefixIs(rest, "<![");
    IndexIsFirst(rest, "-->");
    IndexIsFirst(rest, "]>");
  }

  lemma RemarkTurn(c: Config, s: Machine, rest: string) returns (sp: Span)
    requires Sane(c.matchers) && rest != "" && !InRawText(s.open) && rest[0] == '<'
    requires Remarks(rest)
    ensures Reads(c, s, rest, sp)
  {
    hide Sane, InRawText, InRaw, Read, DoAll, Left, First, Remarks, IsConditional, DeclarationAt, StartTagAt, IndexOf;
    RawIs(s.open);
    FrontRead(c, s.open, rest);
    DeclarationIs(c, rest);
    RemarkFront(rest);
    var at := IndexOf(rest, "-->", 0).value;
    var text := Substring(rest, 4, at);
    var token := if c.keepComments then CommentToken(text) else Skipped;
    DoOne(c, s, token);
    NothingLeft(s.open);
    LeftOne(s.open, CommentText(text));
    sp := Span(Remark(at), rest[..at + 3], if c.keepComments && s.open != [] then [CommentText(text)] else []);
    assert s.events + [] == s.events;
  }

  lemma DeclarationTurn(c: Config, s: Machine, rest: string) returns (sp: Span)
    requires Sane(c.matchers) && rest != "" && !InRawText(s.open) && rest[0] == '<'
    requires DeclarationAt(c, rest).Some? && !Remarks(rest)
    ensures Reads(c, s, rest, sp)
  {
    hide Sane, InRawText, InRaw, Read, DoAll, Left, First, Remarks, IsConditional, DeclarationAt, StartTagAt, IndexOf;
    RawIs(s.open);
    FrontRead(c, s.open, rest);
    DeclarationIs(c, rest);
    DoOne(c, s, Skipped);
    NothingLeft(s.open);
    if IsConditional(rest) {
      var at := IndexOf(rest, "]>", 0).value;
      ConditionalFront(rest);
      sp := Span(Conditional(at), rest[..at + 2], []);
    } else {
      sp := Span(Doctype, rest[..c.matchers.doctype(rest).value.length], []);
    }
    assert s.events + [] == s.events;
  }

  lemma NothingLeft(open: seq<string>)
    ensures Left(open, []) == open
  {}

  lemma RemarkFront(s: string)
    requires Remarks(s)
    ensures "<!--" <= s && 4 <= |s|
  {}

  lemma ConditionalFront(s: string)
    requires IsConditional(s)
    ensures "<![" <= s
  {}

  lemma NotDeclared(c: Config, rest: string)
    requires Sane(c.matchers) && rest != "" && DeclarationAt(c, rest).None?
    ensures !Remarks(rest) && !IsConditional(rest) && c.matchers.doctype(rest).None?
  {
    hide Sane, First, Remarks, IsConditional, DeclarationAt;
    DeclarationIs(c, rest);
  }

  lemma ClosingTurn(c: Config, s: Machine, rest: string) returns (sp: Span)
    requires Sane(c.matchers) && rest != "" && !InRawText(s.open) && rest[0] == '<'
    requires DeclarationAt(c, rest).None? && c.matchers.endTag(rest).Some?
    ensures Reads(c, s, rest, sp)
  {
    hide Sane, InRawText, InRaw, Read, DoAll, Left, Remarks, IsConditional, DeclarationAt, StartTagAt, Shuts;
    hide EventsOfEnd, OpenAfterEnd;
    RawIs(s.open);
    FrontRead(c, s.open, rest);
    NotDeclared(c, rest);
    AttributeFits(c.matchers, rest);
    var end := c.matchers.endTag(rest).value;
    DoOne(c, s, EndToken(end.captured));
    EndIs(s.open, end.captured);
    sp := Span(Closing(end.captured), rest[..end.length], EventsOfEnd(s.open, end.captured));
  }

  /** What is matched of a start tag, closed or not. */
  lemma StartTagRuns(m: Matchers, rest: string) returns (attrs: seq<Attr>, tail: string)
    requires Sane(m) && m.startTagOpen(rest).Some?
    ensures TagRuns(m, rest, m.startTagOpen(rest).value.captured, attrs, tail) && |tail| < |rest| && IsSuffix(tail, rest)
    ensures if m.startTagClose(tail).None? then StartTagAt(m, rest) == (None, tail)
            else
              var close := m.startTagClose(tail).value;
              && close.length <= |tail|
              && StartTagAt(m, rest) ==
                 (Some(StartTag(m.startTagOpen(rest).value.captured, attrs, close.captured)), tail[close.length..])
  {
    hide Sane, AttrsRun;
    AttributeFits(m, rest);
    var inside := rest[m.startTagOpen(rest).value.length..];
    attrs := AttributesRun(m, inside, []);
    tail := Attributes(m, inside, []).1;
    assert [] + attrs == attrs;
    AttributeFits(m, tail);
    SuffixOf(tail, rest, m.startTagOpen(rest).value.length);
  }

  lemma OpeningTurn(c: Config, s: Machine, rest: string) returns (sp: Span)
    requires Sane(c.matchers) && rest != "" && !InRawText(s.open) && rest[0] == '<'
    requires DeclarationAt(c, rest).None? && c.matchers.endTag(rest).None? && StartTagAt(c.matchers, rest).0.Some?
    ensures Reads(c, s, rest, sp)
  {
    hide Sane, InRawText, InRaw, Read, Do, DoAll, Left, Remarks, IsConditional, DeclarationAt, TagRuns;
    hide Gives, Preformatted, DropsNewline;
    RawIs(s.open);
    FrontRead(c, s.open, rest);
    NotDeclared(c, rest);
    var attrs, tail := StartTagRuns(c.matchers, rest);
    var (found, after) := StartTagAt(c.matchers, rest);
    var tag := found.value;
    var made := Gives(c, s.open, tag.name) + [Start(tag.name, tag.attrs, IsVoid(tag.name) || tag.slash)];
    StartDone(c, s, tag);
    StartDone(c, Machine(s.open, [], false), tag);
    DoOne(c, s, StartToken(tag));
    DropIs(Left(s.open, made), after);
    var dropped := if Preformatted(Left(s.open, made)) && "\n" <= after then 1 else 0;
    sp := Span(Opening(tag, tail), rest[..|rest| - |after| + dropped], made);
  }

  /** What a turn reads when there is no whole piece of markup at the front. */
  lemma NoMarkupRead(c: Config, open: seq<string>, rest: string)
    requires Sane(c.matchers) && rest != "" && !InRawText(open) && rest[0] == '<'
    requires DeclarationAt(c, rest).None? && c.matchers.endTag(rest).None? && StartTagAt(c.matchers, rest).0.None?
    ensures var tail := StartTagAt(c.matchers, rest).1;
            var h := TextEndAt(c.matchers, tail, 0);
            Read(c, open, rest) == OrAllText(rest, if h > 0 then [TextToken(tail[..h])] else [], tail[h..])
  {
    hide Sane, InRawText, Read, DeclarationAt, StartTagAt, TextEndAt;
    FrontRead(c, open, rest);
  }

  /** A start tag that is not closed, and the text after it. */
  lemma TornTurn(c: Config, s: Machine, rest: string) returns (sp: Span)
    requires Sane(c.matchers) && rest != "" && !InRawText(s.open) && rest[0] == '<'
    requires DeclarationAt(c, rest).None? && c.matchers.endTag(rest).None? && StartTagAt(c.matchers, rest).0.None?
    requires c.matchers.startTagOpen(rest).Some?
    ensures Reads(c, s, rest, sp)
  {
    hide Sane, InRawText, InRaw, Read, DoAll, Do, Left, Remarks, IsConditional, DeclarationAt, TagRuns, TextEndAt, Begins;
    hide StartTagAt;
    RawIs(s.open);
    NotDeclared(c, rest);
    NoMarkupRead(c, s.open, rest);
    var attrs, tail := StartTagRuns(c.matchers, rest);
    TextEndRuns(c.matchers, tail, 0);
    var h := TextEndAt(c.matchers, tail, 0);
    TextDone(c, s, tail[..h]);
    NothingDone(c, s);
    sp := Span(TornOpening(c.matchers.startTagOpen(rest).value.captured, attrs, tail), rest[..|rest| - |tail| + h],
               if h == 0 then [] else [Chars(tail[..h])]);
  }

  lemma NothingDone(c: Config, s: Machine)
    ensures DoAll(c, s, []) == s && Left(s.open, []) == s.open && s.events + [] == s.events
  {}

  /** No markup at all: text up to the next piece, or all the rest. */
  lemma LooseTurn(c: Config, s: Machine, rest: string) returns (sp: Span)
    requires Sane(c.matchers) && rest != "" && !InRawText(s.open) && rest[0] == '<'
    requires DeclarationAt(c, rest).None? && c.matchers.endTag(rest).None? && c.matchers.startTagOpen(rest).None?
    ensures Reads(c, s, rest, sp)
  {
    hide Sane, InRawText, InRaw, Read, DoAll, Do, Left, Remarks, IsConditional, DeclarationAt, TextEndAt, Begins;
    RawIs(s.open);
    NotDeclared(c, rest);
    NoMarkupRead(c, s.open, rest);
    TextEndRuns(c.matchers, rest, 0);
    var h := TextEndAt(c.matchers, rest, 0);
    TextDone(c, s, rest[..h]);
    TextDone(c, s, rest);
    if h > 0 {
      sp := Span(Words, rest[..h], [Chars(rest[..h])]);
    } else {
      sp := Span(Remains, rest, [Chars(rest)]);
      assert [] + [TextToken(rest)] == [TextToken(rest)];
    }
  }

  /** Every turn of the scanner reads one justified span. */
  lemma TurnReads(c: Config, s: Machine, rest: string) returns (sp: Span)
    requires Sane(c.matchers) && rest != ""
    ensures Reads(c, s, rest, sp)
  {
    hide *;
    if InRawText(s.open) {
      sp := RawTurn(c, s, rest);
    } else if rest[0] != '<' {
      sp := WordsTurn(c, s, rest);
    } else if Remarks(rest) {
      sp := RemarkTurn(c, s, rest);
    } else if DeclarationAt(c, rest).Some? {
      sp := DeclarationTurn(c, s, rest);
    } else if c.matchers.endTag(rest).Some? {
      sp := ClosingTurn(c, s, rest);
    } else if c.matchers.startTagOpen(rest).None? {
      sp := LooseTurn(c, s, rest);
    } else if StartTagAt(c.matchers, rest).0.None? {
      sp := TornTurn(c, s, rest);
    } else {
      sp := OpeningTurn(c, s, rest);
    }
  }

  lemma ReadsOn(c: Config, s: Machine, rest: string, sp: Span)
    requires Sane(c.matchers) && rest != "" && Reads(c, s, rest, sp)
    ensures sp.source <= rest && Justified(c, s.open, rest, sp)
    ensures var t := Read(c, s.open, rest);
            var after := DoAll(c, s, t.tokens);
            && after.events == s.events + sp.made && after.open == Left(s.open, sp.made)
            && (t.more ==> t.rest == rest[|sp.source|..]) && (!t.more ==> rest[|sp.source|..] == "")
  {
    hide Justified, DoAll, Read, Left;
    SourceIsFront(c, s.open, rest, sp);
  }

  /** The whole scan tells a story of its input and ends what is open at last. */
  lemma {:induction false} ScanTells(c: Config, s: Machine, rest: string) returns (spans: seq<Span>)
    requires Sane(c.matchers)
    ensures Story(c, s.open, rest, spans)
    ensures var open := Left(s.open, Made(spans)); Scan(c, s, rest).events == s.events + Made(spans) + Shut(open, 0)
    decreases |rest|
  {
    hide Sane, Read, DoAll, Reads, Justified, Left, Shut;
    if rest == "" {
      spans := [];
      EofShuts(c, s);
      NothingLeft(s.open);
      assert s.events + [] == s.events;
    } else {
      var sp := TurnReads(c, s, rest);
      ReadsOn(c, s, rest, sp);
      var t := Read(c, s.open, rest);
      var after := DoAll(c, s, t.tokens);
      var more := [];
      if t.more {
        more := ScanTells(c, after, t.rest);
      } else {
        EofShuts(c, after);
        NothingLeft(after.open);
      }
      spans := [sp] + more;
      assert spans[1..] == more;
      LeftConcat(s.open, sp.made, Made(more));
      MadeTogether(s.events, sp.made, Made(more), Shut(Left(s.open, Made(spans)), 0));
    }
  }

  lemma EofShuts(c: Config, s: Machine)
    ensures Do(c, s, Eof).events == s.events + Shut(s.open, 0)
  {
    EndsAreShut(s.open, 0);
    assert s.open[0..] == s.open;
  }

  lemma PlainLeft(text: string)
    ensures Shut(Left([], [Chars(text)]), 0) == []
  {
    LeftOne([], Chars(text));
  }

  lemma MadeTogether(es: seq<Event>, a: seq<Event>, b: seq<Event>, tail: seq<Event>)
    ensures es + a + b + tail == es + (a + b) + tail && es + a + tail == es + (a + []) + tail
  {}
}
