/**
  The extraction strategies of `scrape_ytu_events` whose logic is not
  element traversal: the event-card scan, the label-anchored container
  strategy, the fallback over event links, the nearest-time choice and the
  titles of time/venue groups. The HTML library's queries are abstracted as
  the texts they return.
 */
module Extraction {
  import opened Wrappers
  import opened Text
  import opened Events
  import opened Urls
  import opened DateSearch
  import opened Containers

  /** The events of `es` that `keep` accepts, in their order. */
  function Filter(es: seq<EventInfo>, keep: EventInfo -> bool): (r: seq<EventInfo>)
    ensures |r| <= |es|
    decreases |es|
  {
    if es == [] then []
    else (if keep(es[0]) then [es[0]] else []) + Filter(es[1..], keep)
  }

  /** The filtered list holds exactly the accepted events of the list. */
  lemma {:induction false} FilterMembers(es: seq<EventInfo>, keep: EventInfo -> bool)
    ensures forall e :: e in Filter(es, keep) <==> e in es && keep(e)
    decreases |es|
  {
    if es != [] {
      FilterMembers(es[1..], keep);
      assert es == [es[0]] + es[1..];
    }
  }

  /** Filtering a list with one more event at its end filters the list and then that event. */
  lemma {:induction false} FilterAppend(es: seq<EventInfo>, e: EventInfo, keep: EventInfo -> bool)
    ensures Filter(es + [e], keep) == Filter(es, keep) + (if keep(e) then [e] else [])
    decreases |es|
  {
    if es == [] {
      assert es + [e] == [e] && [e][1..] == [];
    } else {
      var head, tail := if keep(es[0]) then [es[0]] else [], if keep(e) then [e] else [];
      assert (es + [e])[0] == es[0] && (es + [e])[1..] == es[1..] + [e];
      FilterAppend(es[1..], e, keep);
      assert head + (Filter(es[1..], keep) + tail) == (head + Filter(es[1..], keep)) + tail;
    }
  }

  /** The records built from `xs` by `f`, in order. */
  function MapEvents<T>(xs: seq<T>, f: T -> EventInfo): (r: seq<EventInfo>)
    ensures |r| == |xs|
    decreases |xs|
  {
    if xs == [] then [] else [f(xs[0])] + MapEvents(xs[1..], f)
  }

  lemma {:induction false} MapEventsAppend<T>(xs: seq<T>, x: T, f: T -> EventInfo)
    ensures MapEvents(xs + [x], f) == MapEvents(xs, f) + [f(x)]
    decreases |xs|
  {
    if xs == [] {
      assert xs + [x] == [x] && [x][1..] == [];
    } else {
      assert (xs + [x])[0] == xs[0] && (xs + [x])[1..] == xs[1..] + [x];
      MapEventsAppend(xs[1..], x, f);
      assert [f(xs[0])] + (MapEvents(xs[1..], f) + [f(x)]) == ([f(xs[0])] + MapEvents(xs[1..], f)) + [f(x)];
    }
  }

  lemma PrefixStep<T>(xs: seq<T>, i: nat)
    requires i < |xs|
    ensures xs[..i + 1] == xs[..i] + [xs[i]]
  {
  }

  predicate HasTitle(e: EventInfo) {
    e.title != ""
  }

  /** What the selectors of the event-card scan return for one card. */
  datatype Card = Card(
    title: Option<string>,
    href: Option<string>,
    date: Option<string>,
    time: Option<string>,
    location: Option<string>,
    description: Option<string>)

  /** The record built from one card. */
  function CardEvent(c: Card): EventInfo {
    EventInfo(
      title := c.title.GetOr(""),
      url := if c.href.Some? then Absolutize(c.href.value) else "",
      date := c.date.GetOr(""),
      time := c.time.GetOr(""),
      location := c.location.GetOr(""),
      description := c.description.GetOr(""))
  }

  function CardEvents(cards: seq<Card>): (es: seq<EventInfo>)
    ensures |es| == |cards|
  {
    MapEvents(cards, CardEvent)
  }

  /** The record of one card, filled in field by field from what its selectors found. */
  method BuildCardRecord(c: Card) returns (info: EventInfo)
    ensures info == CardEvent(c)
  {
    info := Blank;
    if c.title.Some? {
      info := info.(title := c.title.value);
    }
    if c.href.Some? {
      info := info.(url := Absolutize(c.href.value));
    }
    if c.date.Some? {
      info := info.(date := c.date.value);
    }
    if c.time.Some? {
      info := info.(time := c.time.value);
    }
    if c.location.Some? {
      info := info.(location := c.location.value);
    }
    if c.description.Some? {
      info := info.(description := c.description.value);
    }
  }

  /**
    The event-card scan: one record per card, kept only when it has a title,
    in card order.
   */
  method ScanCards(cards: seq<Card>) returns (events: seq<EventInfo>)
    ensures events == Filter(CardEvents(cards), HasTitle)
  {
    events := [];
    for i := 0 to |cards|
      invariant events == Filter(CardEvents(cards[..i]), HasTitle)
    {
      var info := BuildCardRecord(cards[i]);
      PrefixStep(cards, i);
      MapEventsAppend(cards[..i], cards[i], CardEvent);
      FilterAppend(CardEvents(cards[..i]), info, HasTitle);
      if info.title != "" {
        events := events + [info];
      }
    }
    assert cards[..|cards|] == cards;
  }

  predicate HasTitleOrDescription(e: EventInfo) {
    e.title != "" || e.description != ""
  }

  /** The containers that were found, in order. */
  function Present(found: seq<Option<ContainerView>>): (cs: seq<ContainerView>)
    ensures |cs| <= |found|
    decreases |found|
  {
    if found == [] then []
    else (if found[0].Some? then [found[0].value] else []) + Present(found[1..])
  }

  lemma {:induction false} PresentAppend(found: seq<Option<ContainerView>>, f: Option<ContainerView>)
    ensures Present(found + [f]) == Present(found) + (if f.Some? then [f.value] else [])
    decreases |found|
  {
    if found == [] {
      assert found + [f] == [f] && [f][1..] == [];
    } else {
      var head, tail := if found[0].Some? then [found[0].value] else [], if f.Some? then [f.value] else [];
      assert (found + [f])[0] == found[0] && (found + [f])[1..] == found[1..] + [f];
      PresentAppend(found[1..], f);
      assert head + (Present(found[1..]) + tail) == (head + Present(found[1..])) + tail;
    }
  }

  /** The records of the containers found around labelled elements, `None` where no container was found. */
  function FoundEvents(found: seq<Option<ContainerView>>): (es: seq<EventInfo>)
    ensures |es| <= |found|
  {
    MapEvents(Present(found), ContainerEvent)
  }

  /**
    The label-anchored strategy: for each time- or venue-labelled element
    whose enclosing container was found, extract that container and keep the
    record when it has a title or a description.
   */
  method FromLabelledContainers(found: seq<Option<ContainerView>>) returns (events: seq<EventInfo>)
    ensures events == Filter(FoundEvents(found), HasTitleOrDescription)
  {
    events := [];
    for i := 0 to |found|
      invariant events == Filter(FoundEvents(found[..i]), HasTitleOrDescription)
    {
      PrefixStep(found, i);
      PresentAppend(found[..i], found[i]);
      if found[i].Some? {
        var info := ExtractFromContainer(found[i].value);
        MapEventsAppend(Present(found[..i]), found[i].value, ContainerEvent);
        FilterAppend(FoundEvents(found[..i]), info, HasTitleOrDescription);
        if info.title != "" || info.description != "" {
          events := events + [info];
        }
      } else {
        assert Present(found[..i]) + [] == Present(found[..i]);
      }
    }
    assert found[..|found|] == found;
  }

  /** What the fallback strategy sees of one link whose href mentions an event. */
  datatype LinkView = LinkView(
    href: string,
    /** The link's stripped text. */
    text: string,
    /** The text of the link's parent element. */
    parentText: string,
    /** The texts of the children of the parent's parent, in order. */
    parentSiblingTexts: seq<string>,
    /** What the time lookup around the parent returns. */
    nearTime: string,
    /** What the venue lookup around the parent returns. */
    nearLocation: string)

  /** The record built from one link. */
  function LinkEvent(l: LinkView): EventInfo {
    EventInfo(
      title := l.text,
      url := Absolutize(l.href),
      date := FirstDateAmong([l.parentText] + l.parentSiblingTexts).GetOr(""),
      time := l.nearTime,
      location := l.nearLocation,
      description := "")
  }

  function LinkEvents(links: seq<LinkView>): (es: seq<EventInfo>)
    ensures |es| == |links|
  {
    MapEvents(links, LinkEvent)
  }

  predicate IsEventLink(e: EventInfo) {
    !IsNavTitle(e.title)
  }

  /** The record of one link, or `None` when its title names a part of the calendar's filter. */
  method BuildLinkRecord(l: LinkView) returns (r: Option<EventInfo>)
    ensures r == if IsEventLink(LinkEvent(l)) then Some(LinkEvent(l)) else None
  {
    var url := Absolutize(l.href);
    var title := l.text;
    if IsNavTitle(title) {
      return None;
    }
    var date := FindDateNear(l.parentText, l.parentSiblingTexts);
    r := Some(EventInfo(title, url, date, l.nearTime, l.nearLocation, ""));
  }

  /**
    The link fallback: one record per event link, with navigation links of
    the calendar filter skipped.
   */
  method FromEventLinks(links: seq<LinkView>) returns (events: seq<EventInfo>)
    ensures events == Filter(LinkEvents(links), IsEventLink)
  {
    events := [];
    for i := 0 to |links|
      invariant events == Filter(LinkEvents(links[..i]), IsEventLink)
    {
      var r := BuildLinkRecord(links[i]);
      PrefixStep(links, i);
      MapEventsAppend(links[..i], links[i], LinkEvent);
      FilterAppend(LinkEvents(links[..i]), LinkEvent(links[i]), IsEventLink);
      if r.None? {
        continue;
      }
      events := events + [r.value];
    }
    assert links[..|links|] == links;
  }

  /**
    The choice of the time element nearest to a venue element: the first
    index of the smallest distance (strict comparison, so the earliest wins),
    `None` when there are no time elements.
   */
  method NearestIndex(distances: seq<int>) returns (nearest: Option<nat>)
    ensures nearest.None? <==> distances == []
    ensures nearest.Some? ==> nearest.value < |distances|
    ensures nearest.Some? ==> forall j :: 0 <= j < |distances| ==> distances[nearest.value] <= distances[j]
    ensures nearest.Some? ==> forall j :: 0 <= j < nearest.value ==> distances[j] > distances[nearest.value]
  {
    nearest := None;
    var best := 0;
    for i := 0 to |distances|
      invariant nearest.None? <==> i == 0
      invariant nearest.Some? ==> nearest.value < i && best == distances[nearest.value]
      invariant nearest.Some? ==> forall j :: 0 <= j < i ==> best <= distances[j]
      invariant nearest.Some? ==> forall j :: 0 <= j < nearest.value ==> distances[j] > best
    {
      if nearest.None? || distances[i] < best {
        nearest := Some(i);
        best := distances[i];
      }
    }
  }

  /** The title of a time/venue group: its own, else built from time and venue, else named after its key. */
  function GroupTitle(key: string, e: EventInfo): (r: string)
    ensures r != ""
    ensures e.title != "" ==> r == e.title
    ensures e.title == "" && e.time != "" ==> StartsWith(r, "Etkinlik - " + e.time)
    ensures e.title == "" && e.time != "" && e.location == "" ==> r == "Etkinlik - " + e.time
    ensures e.title == "" && e.time == "" && e.location != "" ==> r == "at " + e.location
    ensures e.title == "" && e.time == "" && e.location == "" ==> r == "YTU Event " + key
  {
    if e.title != "" then e.title
    else
      var components := (if e.time != "" then ["Etkinlik - " + e.time] else [])
                        + (if e.location != "" then ["at " + e.location] else []);
      if components != [] then
        JoinEnds(components, " ");
        Join(components, " ")
      else "YTU Event " + key
  }

  /** With both a time and a venue, the group title names both. */
  lemma GroupTitleBoth(key: string, e: EventInfo)
    requires e.title == "" && e.time != "" && e.location != ""
    ensures GroupTitle(key, e) == "Etkinlik - " + e.time + " at " + e.location
  {
    var a, b := "Etkinlik - " + e.time, "at " + e.location;
    var components := [a, b];
    assert components[1..] == [b];
    assert Join(components, " ") == a + " " + b;
  }

  /** The title pass over one group record: an untitled record gets the group title, built in place. */
  method TitleGroup(key: string, r: EventRecord)
    modifies r
    ensures r.Info() == old(r.Info()).(title := GroupTitle(key, old(r.Info())))
    ensures r.combinedDescription == old(r.combinedDescription)
  {
    if r.title == "" {
      var components: seq<string> := [];
      if r.time != "" {
        components := components + ["Etkinlik - " + r.time];
      }
      if r.location != "" {
        components := components + ["at " + r.location];
      }
      r.title := if components != [] then Join(components, " ") else "YTU Event " + key;
    }
  }

  /**
    The pass over the grouped events: each untitled group record gets its
    title in place, and the records are collected in group order.
   */
  method TitleGroups(keys: seq<string>, records: seq<EventRecord>) returns (events: seq<EventRecord>)
    requires |keys| == |records|
    requires forall i, j :: 0 <= i < j < |records| ==> records[i] != records[j]
    modifies set r | r in records
    ensures events == records
    ensures forall i :: 0 <= i < |records| ==>
      records[i].Info() == old(records[i].Info()).(title := GroupTitle(keys[i], old(records[i].Info())))
      && records[i].combinedDescription == old(records[i].combinedDescription)
  {
    events := [];
    for i := 0 to |records|
      invariant events == records[..i]
      invariant forall j :: 0 <= j < i ==>
        records[j].Info() == old(records[j].Info()).(title := GroupTitle(keys[j], old(records[j].Info())))
        && records[j].combinedDescription == old(records[j].combinedDescription)
      invariant forall j :: i <= j < |records| ==>
        records[j].Info() == old(records[j].Info())
        && records[j].combinedDescription == old(records[j].combinedDescription)
    {
      TitleGroup(keys[i], records[i]);
      events := events + [records[i]];
    }
  }
}
