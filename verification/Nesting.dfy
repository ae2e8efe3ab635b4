/** Start and end events of the parser, and what it means for them to be well nested. */
module Nesting {
  import opened Options
  import opened Html

  datatype Event =
    | Start(tag: string, attrs: seq<Attr>, unary: bool)
    | End(tag: string)
    | Chars(text: string)
    | CommentText(text: string)

  function Top(s: seq<string>): Option<string> {
    if s == [] then None else Some(s[|s| - 1])
  }

  /** The tags left open by the events, or None when an end does not match the innermost open start. */
  ghost function Replay(es: seq<Event>): Option<seq<string>>
    decreases |es|
  {
    if es == [] then Some([])
    else
      var before := Replay(es[..|es| - 1]);
      if before.None? then None else After(before.value, es[|es| - 1])
  }

  ghost function After(open: seq<string>, e: Event): Option<seq<string>> {
    match e
    case Start(tag, _, unary) => Some(if unary then open else open + [tag])
    case End(tag) => if Top(open) == Some(tag) then Some(open[..|open| - 1]) else None
    case _ => Some(open)
  }

  /** The end events that close all of `tags`, from the innermost to the outermost. */
  function Ends(tags: seq<string>): seq<Event> {
    if tags == [] then [] else [End(tags[|tags| - 1])] + Ends(tags[..|tags| - 1])
  }

  /** The position of the innermost open tag with the same lower-case name, or -1. */
  function Innermost(open: seq<string>, name: string): (i: int)
    ensures -1 <= i < |open|
    ensures i >= 0 ==> Lower(open[i]) == Lower(name)
    ensures forall k :: i < k < |open| ==> Lower(open[k]) != Lower(name)
  {
    if open == [] then -1
    else if Lower(open[|open| - 1]) == Lower(name) then |open| - 1
    else Innermost(open[..|open| - 1], name)
  }

  /** What an end tag does to the open tags, and the events it causes. */
  function OpenAfterEnd(open: seq<string>, name: string): seq<string> {
    var i := Innermost(open, name);
    if i >= 0 then open[..i] else open
  }

  function EventsOfEnd(open: seq<string>, name: string): seq<Event> {
    var i := Innermost(open, name);
    if i >= 0 then Ends(open[i..])
    else if Lower(name) == "br" then [Start(name, [], true)]
    else if Lower(name) == "p" then [Start(name, [], false), End(name)]
    else []
  }

  /** The open tags once a start tag has closed what may not contain it. */
  function Cleared(open: seq<string>, tag: string): (r: seq<string>)
    ensures |r| <= |open|
  {
    var open1 := if Top(open) == Some("p") && tag in NON_PHRASING then open[..|open| - 1] else open;
    if Top(open1) == Some(tag) && tag in CAN_BE_LEFT_OPEN then open1[..|open1| - 1] else open1
  }

  lemma ReplayAppend(es: seq<Event>, e: Event)
    ensures Replay(es + [e]) == if Replay(es).None? then None else After(Replay(es).value, e)
  {}

  lemma {:induction false} ReplayPrefix(es: seq<Event>, k: nat)
    requires k <= |es| && Replay(es).Some?
    ensures Replay(es[..k]).Some?
    decreases |es|
  {
    if k == |es| {
      assert es[..k] == es;
    } else {
      ReplayPrefix(es[..|es| - 1], k);
      assert es[..|es| - 1][..k] == es[..k];
    }
  }

  /**
   * In a sequence of events that leaves nothing open, every non-unary start has one matching end: the
   * first place after it where the tags that were open before it are all that is open again.
   */
  lemma {:induction false} EveryStartIsEnded(es: seq<Event>, k: nat) returns (j: nat)
    requires Replay(es) == Some([]) && k < |es| && es[k].Start? && !es[k].unary
    ensures k < j < |es| && es[j] == End(es[k].tag)
    ensures Replay(es[..k]).Some? && Replay(es[..j + 1]) == Replay(es[..k])
    ensures forall i :: k < i <= j ==>
              Replay(es[..i]).Some? && Replay(es[..k]).value + [es[k].tag] <= Replay(es[..i]).value
  {
    hide Replay;
    hide After;
    ReplayStep(es, k);
    var base, tag := Replay(es[..k]).value, es[k].tag;
    AfterStart(base, tag, es[k].attrs);
    j := k + 1;
    while true
      invariant k < j <= |es| && Replay(es[..j]).Some? && base + [tag] <= Replay(es[..j]).value
      invariant forall i :: k < i <= j ==> Replay(es[..i]).Some? && base + [tag] <= Replay(es[..i]).value
      decreases |es| - j
    {
      assert es[..|es|] == es;
      ReplayStep(es, j);
      AfterInside(Replay(es[..j]).value, base, tag, es[j]);
      if es[j] == End(tag) && Replay(es[..j + 1]).value == base {
        return;
      }
      j := j + 1;
    }
  }

  lemma ReplayStep(es: seq<Event>, j: nat)
    requires Replay(es).Some? && j < |es|
    ensures Replay(es[..j]).Some? && Replay(es[..j + 1]).Some?
    ensures Replay(es[..j + 1]) == After(Replay(es[..j]).value, es[j])
  {
    hide Replay;
    hide After;
    ReplayPrefix(es, j);
    ReplayPrefix(es, j + 1);
    assert es[..j + 1] == es[..j] + [es[j]];
    ReplayAppend(es[..j], es[j]);
  }

  lemma AfterStart(base: seq<string>, tag: string, attrs: seq<Attr>)
    ensures After(base, Start(tag, attrs, false)) == Some(base + [tag])
  {}

  /** As long as `tag` is open, an event leaves it open or is its end. */
  lemma AfterInside(now: seq<string>, base: seq<string>, tag: string, e: Event)
    requires base + [tag] <= now && After(now, e).Some?
    ensures base + [tag] <= After(now, e).value || (e == End(tag) && After(now, e).value == base)
  {}

  /** The open tags respect the content model: no tag that closes `p` right inside one, no doubled optional tag. */
  ghost predicate ContentModel(open: seq<string>) {
    forall i :: 0 <= i < |open| - 1 ==> MayContain(open[i], open[i + 1])
  }

  predicate MayContain(outer: string, inner: string) {
    !(outer == "p" && inner in NON_PHRASING) && !(outer == inner && inner in CAN_BE_LEFT_OPEN)
  }

  lemma ContentModelPrefix(open: seq<string>, n: nat)
    requires ContentModel(open) && n <= |open|
    ensures ContentModel(open[..n])
  {}

  /**
   * One conditional close per rule is enough: once an open `p` and an equal optional tag on top are
   * closed, the new tag may be opened, because what lies below them already respected the content model.
   */
  lemma OneCloseEach(open: seq<string>, tag: string)
    requires ContentModel(open)
    ensures ContentModel(Cleared(open, tag) + [tag])
  {}

  lemma TopIsInnermost(open: seq<string>, name: string)
    requires Top(open) == Some(name)
    ensures Innermost(open, name) == |open| - 1
    ensures OpenAfterEnd(open, name) == open[..|open| - 1] && EventsOfEnd(open, name) == [End(name)]
  {
    assert open[|open| - 1..] == [name] && [name][..0] == [];
    assert Ends([name]) == [End(name)] + Ends([]);
  }

  lemma ClearedIsPrefix(open: seq<string>, tag: string)
    ensures Cleared(open, tag) == open[..|Cleared(open, tag)|] && |Cleared(open, tag)| <= |open|
  {}

  lemma {:induction false} InnermostIs(open: seq<string>, name: string, i: int)
    requires -1 <= i < |open|
    requires i >= 0 ==> Lower(open[i]) == Lower(name)
    requires forall k :: i < k < |open| ==> Lower(open[k]) != Lower(name)
    ensures Innermost(open, name) == i
  {}
}
