/** Tables and string helpers of the template parser, and the regular expressions as abstract matchers. */
module Html {
  import opened Options

  const NON_PHRASING: set<string> := {
    "address", "article", "aside", "base", "blockquote", "body", "caption", "col", "colgroup", "dd", "details",
    "dialog", "div", "dl", "dt", "fieldset", "figcaption", "figure", "footer", "form", "h1", "h2", "h3", "h4",
    "h5", "h6", "head", "header", "hgroup", "hr", "html", "legend", "li", "menuitem", "meta", "optgroup",
    "option", "param", "rp", "rt", "source", "style", "summary", "tbody", "td", "tfoot", "th", "thead", "title",
    "tr", "track"
  }

  const CAN_BE_LEFT_OPEN: set<string> := {
    "colgroup", "dd", "dt", "li", "options", "p", "td", "tfoot", "th", "thead", "tr", "source"
  }

  const UNARY: set<string> := {
    "area", "base", "br", "col", "embed", "frame", "hr", "img", "input", "isindex", "keygen", "link", "meta",
    "param", "source", "track", "wbr"
  }

  const RAW_TEXT: set<string> := { "script", "style", "textarea" }

  function LowerChar(c: char): char {
    if 'A' <= c <= 'Z' then c - 'A' + 'a' else c
  }

  function Lower(s: string): string {
    seq(|s|, i requires 0 <= i < |s| => LowerChar(s[i]))
  }

  predicate StartsWith(s: string, p: string) {
    |p| <= |s| && s[..|p|] == p
  }

  /** `indexOf` from the position `from`; None stands for -1. */
  function IndexOf(s: string, p: string, from: nat): (r: Option<nat>)
    requires from <= |s|
    ensures r.Some? ==> from <= r.value && r.value + |p| <= |s| && s[r.value..][..|p|] == p
    ensures forall i :: from <= i < (if r.Some? then r.value else |s|) ==> !StartsWith(s[i..], p)
    decreases |s| - from
  {
    if StartsWith(s[from..], p) then Some(from)
    else if from == |s| then None
    else IndexOf(s, p, from + 1)
  }

  /** `substring` swaps its bounds when they are out of order. */
  function Substring(s: string, a: nat, b: nat): string
    requires a <= |s| && b <= |s|
  {
    if a <= b then s[a..b] else s[b..a]
  }

  datatype Attr = Attr(name: string, value: string)

  /** The results of a match: how many characters it covers and what it captured. */
  datatype Match<T> = Match(length: nat, captured: T)

  datatype RawText = RawText(length: nat, endTagLength: nat)

  /** The regular expressions of the parser, each applied at the start of the remaining text. */
  datatype Matchers = Matchers(
    startTagOpen: string -> Option<Match<string>>,
    startTagClose: string -> Option<Match<bool>>,
    attribute: string -> Option<Match<Attr>>,
    endTag: string -> Option<Match<string>>,
    doctype: string -> Option<Match<()>>,
    rawText: (string, string) -> Option<RawText>)

  ghost predicate Fits<T>(m: Option<Match<T>>, s: string) {
    m.Some? ==> 0 < m.value.length <= |s|
  }

  /** A match covers at least one character and no more than there are; a start tag begins with `<`. */
  ghost predicate Sane(m: Matchers) {
    && (forall s :: Fits(m.startTagOpen(s), s))
    && (forall s :: Fits(m.startTagClose(s), s))
    && (forall s :: Fits(m.attribute(s), s))
    && (forall s :: Fits(m.endTag(s), s))
    && (forall s :: Fits(m.doctype(s), s))
    && (forall tag, s :: RawFits(m.rawText(tag, s), s))
  }

  ghost predicate RawFits(r: Option<RawText>, s: string) {
    r.Some? ==> 0 < r.value.endTagLength <= r.value.length <= |s|
  }
}
