/**
  `extract_event_from_container`: the fields of one event read from a
  container element. The element queries of the HTML library are abstracted
  as the texts they return (see `ContainerView`).
 */
module Containers {
  import opened Wrappers
  import opened Text
  import opened Events
  import opened Urls
  import opened DateSearch

  /** What the element queries on one container return. */
  datatype ContainerView = ContainerView(
    /** Stripped text of the first `div`/`span`/`p` whose text contains the time label. */
    timeText: Option<string>,
    /** Stripped text of the first `div`/`span`/`p` whose text contains the venue label. */
    locationText: Option<string>,
    /** Stripped texts of the first `h1`, `h2`, `h3`, `h4`, `strong` and `b`, `None` where missing. */
    headings: seq<Option<string>>,
    /** Stripped texts of the container's `p` elements, in document order. */
    paragraphs: seq<string>,
    /** The `href` of the first `a`, `None` when there is no link or it has no `href`. */
    href: Option<string>,
    /** The container's whole text. */
    text: string)

  /** The text carries a time or venue label. */
  predicate HasLabel(t: string) {
    Contains(t, TimeLabel) || Contains(t, LocationLabel)
  }

  /** A heading that can serve as title: present, non-empty and free of labels. */
  predicate HeadingQualifies(h: Option<string>) {
    h.Some? && h.value != "" && !HasLabel(h.value)
  }

  /** A paragraph that can serve as title: longer than ten characters and free of labels. */
  predicate ParagraphQualifies(p: string) {
    |p| > 10 && !HasLabel(p)
  }

  /** The first heading that qualifies. */
  function FirstHeading(hs: seq<Option<string>>): (r: Option<string>)
    ensures r.None? <==> forall i :: 0 <= i < |hs| ==> !HeadingQualifies(hs[i])
    ensures r.Some? ==> exists i :: 0 <= i < |hs| && HeadingQualifies(hs[i]) && r == hs[i]
                                    && forall j :: 0 <= j < i ==> !HeadingQualifies(hs[j])
    decreases |hs|
  {
    if hs == [] then None
    else if HeadingQualifies(hs[0]) then hs[0]
    else
      var r := FirstHeading(hs[1..]);
      assert forall i :: 0 < i < |hs| ==> hs[i] == hs[1..][i - 1];
      r
  }

  /** The first paragraph that qualifies. */
  function FirstParagraph(ps: seq<string>): (r: Option<string>)
    ensures r.None? <==> forall i :: 0 <= i < |ps| ==> !ParagraphQualifies(ps[i])
    ensures r.Some? ==> exists i :: 0 <= i < |ps| && ParagraphQualifies(ps[i]) && r.value == ps[i]
                                    && forall j :: 0 <= j < i ==> !ParagraphQualifies(ps[j])
    decreases |ps|
  {
    if ps == [] then None
    else if ParagraphQualifies(ps[0]) then Some(ps[0])
    else
      var r := FirstParagraph(ps[1..]);
      assert forall i :: 0 < i < |ps| ==> ps[i] == ps[1..][i - 1];
      r
  }

  /** Python's `text[:100]`. */
  function Truncate100(t: string): string {
    if |t| <= 100 then t else t[..100]
  }

  /** The title of a container: the first qualifying heading, else the first qualifying paragraph cut to 100 characters. */
  function ContainerTitle(hs: seq<Option<string>>, ps: seq<string>): (t: string)
    ensures t != "" ==> !HasLabel(t)
  {
    match FirstHeading(hs)
    case Some(h) => h
    case None =>
      match FirstParagraph(ps)
      case Some(p) =>
        PrefixHasNoLabel(p, if |p| <= 100 then |p| else 100);
        assert p[..|p|] == p;
        Truncate100(p)
      case None => ""
  }

  /** A prefix of a text without a label has no label. */
  lemma PrefixHasNoLabel(t: string, n: nat)
    requires n <= |t| && !HasLabel(t)
    ensures !HasLabel(t[..n])
  {
    if Contains(t[..n], TimeLabel) {
      ContainsInPrefix(t, n, TimeLabel);
    }
    if Contains(t[..n], LocationLabel) {
      ContainsInPrefix(t, n, LocationLabel);
    }
  }

  /**
    A container title is empty exactly when nothing qualifies; otherwise it
    carries no label and has at most 100 characters unless it is a heading.
   */
  lemma ContainerTitleShape(hs: seq<Option<string>>, ps: seq<string>)
    ensures var t := ContainerTitle(hs, ps);
      (t == "" <==> (forall i :: 0 <= i < |hs| ==> !HeadingQualifies(hs[i]))
                    && (forall i :: 0 <= i < |ps| ==> !ParagraphQualifies(ps[i])))
      && (t != "" ==> !HasLabel(t))
      && (FirstHeading(hs).None? ==> |t| <= 100)
  {
    if FirstHeading(hs).None? {
      var p := FirstParagraph(ps);
      if p.Some? {
        PrefixHasNoLabel(p.value, if |p.value| <= 100 then |p.value| else 100);
        assert p.value[..|p.value|] == p.value;
      }
    }
  }

  /**
    The two title loops of `extract_event_from_container`: the first heading
    candidate with text and no label, else the first paragraph longer than
    ten characters without a label, cut to 100 characters.
   */
  method SelectTitle(hs: seq<Option<string>>, ps: seq<string>) returns (title: string)
    ensures title == ContainerTitle(hs, ps)
  {
    title := "";
    for i := 0 to |hs|
      invariant forall j :: 0 <= j < i ==> !HeadingQualifies(hs[j])
    {
      var h := hs[i];
      if h.Some? && h.value != "" {
        if !HasLabel(h.value) {
          title := h.value;
          return;
        }
      }
    }
    for i := 0 to |ps|
      invariant forall j :: 0 <= j < i ==> !ParagraphQualifies(ps[j])
    {
      if |ps[i]| > 10 && !HasLabel(ps[i]) {
        title := Truncate100(ps[i]);
        return;
      }
    }
  }

  /** The record `extract_event_from_container` returns for a container. */
  function ContainerEvent(c: ContainerView): (e: EventInfo)
    ensures e.description == "" && (e.title != "" ==> !HasLabel(e.title))
    ensures e.date != "" ==> |e.date| >= 8
  {
    EventInfo(
      title := ContainerTitle(c.headings, c.paragraphs),
      url := if c.href.Some? then Absolutize(c.href.value) else "",
      date := FirstPatternMatch(Patterns, c.text).GetOr(""),
      time := c.timeText.GetOr(""),
      location := c.locationText.GetOr(""),
      description := "")
  }

  /** The fields of one container, read in the source's order. */
  method ExtractFromContainer(c: ContainerView) returns (e: EventInfo)
    ensures e == ContainerEvent(c)
  {
    e := Blank;
    if c.timeText.Some? {
      e := e.(time := c.timeText.value);
    }
    if c.locationText.Some? {
      e := e.(location := c.locationText.value);
    }
    var title := SelectTitle(c.headings, c.paragraphs);
    e := e.(title := title);
    if c.href.Some? {
      e := e.(url := Absolutize(c.href.value));
    }
    var date := FindDateIn(c.text);
    e := e.(date := date);
  }

  /**
    What a container yields: no description, a label-free title, a link that
    is never root-relative, and a date that is empty exactly when no pattern
    matches the container's text.
   */
  lemma ContainerEventShape(c: ContainerView)
    ensures var e := ContainerEvent(c);
      e.description == ""
      && (e.title != "" ==> !HasLabel(e.title))
      && !StartsWith(e.url, "/")
      && (e.date == "" <==> forall k :: 0 <= k < |Patterns| ==> Search(Patterns[k], c.text, 0).None?)
  {
    ContainerTitleShape(c.headings, c.paragraphs);
    var m := FirstPatternMatch(Patterns, c.text);
    if m.None? {
      forall k | 0 <= k < |Patterns| ensures Search(Patterns[k], c.text, 0).None? {
        FirstPatternWins(Patterns, c.text, k);
      }
    } else {
      if forall k :: 0 <= k < |Patterns| ==> Search(Patterns[k], c.text, 0).None? {
        NoPatternNoMatch(Patterns, c.text);
      }
    }
  }
}
