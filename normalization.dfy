/**
  The normalisation loop at the end of `scrape_ytu_events`: every event gets
  a title (synthesised from its time and venue when it has none or only a
  label) and a `combined_description` built from its fields.
 */
module Normalization {
  import opened Wrappers
  import opened Text
  import opened Events

  /** The title that is replaced: empty, or starting with the time or venue label. */
  predicate NeedsTitle(title: string) {
    title == "" || StartsWith(title, TimeLabel) || StartsWith(title, LocationLabel)
  }

  /**
    What cleaning a field leaves: no whitespace at either end, never more
    than the field, and the field merely stripped when the label does not
    occur in it.
   */
  lemma CleanedValue(s: string, pat: string)
    requires pat != []
    ensures var r := Strip(RemoveAll(s, pat));
      |r| <= |s|
      && (r == [] || (!IsSpace(r[0]) && !IsSpace(r[|r| - 1])))
      && (!Contains(s, pat) ==> r == Strip(s))
  {
    var _ := StripInfix(RemoveAll(s, pat));
    if !Contains(s, pat) {
      RemoveAllAbsent(s, pat);
    }
  }

  /** A time value with every time label removed and the whitespace around it stripped. */
  function CleanTime(time: string): (r: string)
    ensures |r| <= |time|
    ensures r == [] || (!IsSpace(r[0]) && !IsSpace(r[|r| - 1]))
    ensures !Contains(time, TimeLabel) ==> r == Strip(time)
  {
    CleanedValue(time, TimeLabel);
    Strip(RemoveAll(time, TimeLabel))
  }

  /** A venue value with every venue label removed and the whitespace around it stripped. */
  function CleanLocation(location: string): (r: string)
    ensures |r| <= |location|
    ensures r == [] || (!IsSpace(r[0]) && !IsSpace(r[|r| - 1]))
    ensures !Contains(location, LocationLabel) ==> r == Strip(location)
  {
    CleanedValue(location, LocationLabel);
    Strip(RemoveAll(location, LocationLabel))
  }

  /** The placeholder title of an event with neither time nor venue. */
  const Placeholder := "YTU Etkinlik"

  /** The pieces of a synthesised title: `"Etkinlik <time>"` and `"- <venue>"`, each only when its field is set. */
  function TitleElements(time: string, location: string): seq<string> {
    (if time != "" then ["Etkinlik " + CleanTime(time)] else [])
    + (if location != "" then ["- " + CleanLocation(location)] else [])
  }

  /** A text opening with a character other than a label's first one does not start with that label. */
  lemma NotLabelled(r: string)
    requires r != [] && (r[0] == 'E' || r[0] == '-' || (|r| > 1 && r[0] == 'Y' && r[1] == 'T'))
    ensures !NeedsTitle(r)
  {
    assert |r| >= |TimeLabel| ==> r[..|TimeLabel|][0] == r[0];
    assert |r| >= |LocationLabel| ==> r[..|LocationLabel|][0] == r[0] && r[..|LocationLabel|][1] == r[1];
  }

  /**
    The synthesised title: the title elements joined by a space, or the
    placeholder when there are none. It is never empty and never needs
    replacing itself.
   */
  function SynthesizedTitle(time: string, location: string): (r: string)
    ensures r != "" && !NeedsTitle(r)
  {
    var elements := TitleElements(time, location);
    var r := if elements != [] then Join(elements, " ") else Placeholder;
    assert elements != [] ==> elements[0] != [] && r[0] == elements[0][0] by {
      if elements != [] {
        JoinEnds(elements, " ");
        assert r[..|elements[0]|][0] == r[0];
      }
    }
    NotLabelled(r);
    r
  }

  /** The synthesised title spelled out case by case. */
  lemma SynthesizedTitleCases(time: string, location: string)
    ensures time != "" && location != "" ==>
      SynthesizedTitle(time, location) == "Etkinlik " + CleanTime(time) + " - " + CleanLocation(location)
    ensures time != "" && location == "" ==>
      SynthesizedTitle(time, location) == "Etkinlik " + CleanTime(time)
    ensures time == "" && location != "" ==>
      SynthesizedTitle(time, location) == "- " + CleanLocation(location)
    ensures time == "" && location == "" ==> SynthesizedTitle(time, location) == Placeholder
  {
    var elements := TitleElements(time, location);
    if time != "" && location != "" {
      var a, b := "Etkinlik " + CleanTime(time), "- " + CleanLocation(location);
      assert elements == [a, b];
      assert elements[1..] == [b];
      assert Join(elements, " ") == a + " " + b;
    }
  }

  /** The date takes part in the description unless it is empty or the not-found sentinel. */
  predicate HasDate(e: EventInfo) {
    e.date != "" && e.date != DateNotFound
  }

  function DatePart(e: EventInfo): seq<string> {
    if HasDate(e) then ["Tarih: " + e.date] else []
  }

  function TimePart(e: EventInfo): seq<string> {
    if e.time != "" then ["Saat: " + CleanTime(e.time)] else []
  }

  function LocationPart(e: EventInfo): seq<string> {
    if e.location != "" then ["Yer: " + CleanLocation(e.location)] else []
  }

  function DescriptionPart(e: EventInfo): seq<string> {
    if e.description != "" then [e.description] else []
  }

  /** The labelled parts of the combined description, in the fixed order date, time, venue, description. */
  function DescriptionParts(e: EventInfo): (parts: seq<string>)
    ensures "" !in parts
  {
    DatePart(e) + TimePart(e) + LocationPart(e) + DescriptionPart(e)
  }

  /** The blank-line separated description of an event. */
  function CombinedDescription(e: EventInfo): string {
    Join(DescriptionParts(e), "\n\n")
  }

  /**
    One pass of the loop body: the title is replaced only when it needs to
    be, every other field is kept, and the combined description is built from
    the fields.
   */
  function Normalize(e: EventInfo): NormalizedEvent {
    var title := if NeedsTitle(e.title) then SynthesizedTitle(e.time, e.location) else e.title;
    var info := e.(title := title);
    NormalizedEvent(info, CombinedDescription(info))
  }

  /**
    After normalisation the title is set and needs no replacing; it is the
    old one when that needed none, else the synthesised one; no other field
    changes, and the combined description is built from the new fields.
   */
  lemma NormalizeSpec(e: EventInfo)
    ensures Normalize(e).info.title != "" && !NeedsTitle(Normalize(e).info.title)
    ensures Normalize(e).info == e.(title := Normalize(e).info.title)
    ensures !NeedsTitle(e.title) ==> Normalize(e).info.title == e.title
    ensures NeedsTitle(e.title) ==> Normalize(e).info.title == SynthesizedTitle(e.time, e.location)
    ensures Normalize(e).combinedDescription == CombinedDescription(Normalize(e).info)
  {
  }

  /** Normalising a normalised event changes nothing. */
  lemma NormalizeIdempotent(e: EventInfo)
    ensures Normalize(Normalize(e).info) == Normalize(e)
  {
    NormalizeSpec(e);
  }

  /** The combined description is empty exactly when the event has no date, time, venue or description. */
  lemma CombinedEmptyIff(e: EventInfo)
    ensures CombinedDescription(e) == ""
            <==> !HasDate(e) && e.time == "" && e.location == "" && e.description == ""
  {
    JoinEmptyIff(DescriptionParts(e), "\n\n");
  }

  /** A date, when present, opens the description; a description, when present, closes it. */
  lemma CombinedEnds(e: EventInfo)
    ensures HasDate(e) ==> StartsWith(CombinedDescription(e), "Tarih: " + e.date)
    ensures !HasDate(e) && e.time != "" ==> StartsWith(CombinedDescription(e), "Saat: " + CleanTime(e.time))
    ensures e.description != "" ==> EndsWith(CombinedDescription(e), e.description)
  {
    var parts := DescriptionParts(e);
    if parts != [] {
      JoinEnds(parts, "\n\n");
    }
  }

  /** Each present field contributes its labelled part, with the ones before it and a blank line in front. */
  lemma CombinedSplitsAtLocation(e: EventInfo)
    requires e.location != "" && (HasDate(e) || e.time != "")
    ensures CombinedDescription(e)
            == CombinedDescription(e.(location := "", description := "")) + "\n\n"
               + CombinedDescription(e.(date := "", time := ""))
  {
    var early, late := e.(location := "", description := ""), e.(date := "", time := "");
    assert DescriptionParts(early) == DatePart(e) + TimePart(e) by {
      assert LocationPart(early) == [] && DescriptionPart(early) == [];
      assert DatePart(early) == DatePart(e) && TimePart(early) == TimePart(e);
    }
    assert DescriptionParts(late) == LocationPart(e) + DescriptionPart(e) by {
      assert DatePart(late) == [] && TimePart(late) == [];
      assert LocationPart(late) == LocationPart(e) && DescriptionPart(late) == DescriptionPart(e);
    }
    assert DescriptionParts(e) == DescriptionParts(early) + DescriptionParts(late);
    JoinAppend(DescriptionParts(early), DescriptionParts(late), "\n\n");
  }

  /** An event with only a description keeps it verbatim as its combined description. */
  lemma CombinedOnlyDescription(e: EventInfo)
    requires !HasDate(e) && e.time == "" && e.location == ""
    ensures CombinedDescription(e) == e.description
  {
  }

  /** The time label is cut from a time text, leaving the space after it. */
  lemma ExampleLabelRemoved()
    ensures RemoveAll("Saat : 14:00", TimeLabel) == " 14:00"
  {
    var rest := " 14:00";
    assert !Contains(rest, TimeLabel) by {
      forall k | 0 <= k <= |rest| ensures !StartsWith(rest[k..], TimeLabel) {
        assert |rest[k..]| < |TimeLabel| || rest[k] != 'S';
      }
      NoOccurrence(rest, TimeLabel);
    }
    RemoveAllLeading(TimeLabel, rest);
    RemoveAllAbsent(rest, TimeLabel);
    assert TimeLabel + rest == "Saat : 14:00";
  }

  lemma ExampleStripped()
    ensures Strip(" 14:00") == "14:00"
  {
    var rest := " 14:00";
    assert IsSpace(' ') && !IsSpace('1') && !IsSpace('0');
    assert rest[1..] == "14:00";
    assert TrimStart(rest) == "14:00";
  }

  /** A time that is a label and a clock reading is cleaned to the reading. */
  lemma CleanTimeExample()
    ensures CleanTime("Saat : 14:00") == "14:00"
  {
    ExampleLabelRemoved();
    ExampleStripped();
  }

  /**
    Removal is a single left-to-right pass, as in Python: the label split
    around another one (`"Sa" + "Saat :" + "at :"`) is assembled again by
    removing the inner one, and survives. The pieces are parameters fixed
    by the precondition so that the verifier does not unfold the whole
    literal at once.
   */
  lemma RemovalIsSinglePass(front: string, back: string)
    requires front == "Sa" && back == "at :"
    ensures front + back == TimeLabel
    ensures RemoveAll(front + TimeLabel + back, TimeLabel) == TimeLabel
  {
    var s := front + TimeLabel + back;
    assert s[..|TimeLabel|] != TimeLabel by {
      assert s[2] != TimeLabel[2];
    }
    RemoveAllKeepsFirst(s, TimeLabel);
    assert s[1..][0] != TimeLabel[0];
    RemoveAllKeepsFirst(s[1..], TimeLabel);
    assert s[1..][1..] == TimeLabel + back;
    RemoveAllLeading(TimeLabel, back);
    ShortNoOccurrence(back, TimeLabel);
    RemoveAllAbsent(back, TimeLabel);
  }

  /** The first step of the loop body: replace a missing or label-only title in place. */
  method FixTitle(r: EventRecord)
    modifies r
    ensures r.Info() == Normalize(old(r.Info())).info
    ensures r.combinedDescription == old(r.combinedDescription)
  {
    var title, time, location := r.title, r.time, r.location;
    if title == "" || StartsWith(title, TimeLabel) || StartsWith(title, LocationLabel) {
      var elements: seq<string> := [];
      if time != "" {
        elements := elements + ["Etkinlik " + CleanTime(time)];
      }
      if location != "" {
        elements := elements + ["- " + CleanLocation(location)];
      }
      assert elements == TitleElements(time, location);
      title := if elements != [] then Join(elements, " ") else Placeholder;
    }
    r.title := title;
  }

  /** The second step of the loop body: store the combined description built from the fields. */
  method StoreCombinedDescription(r: EventRecord)
    modifies r
    ensures r.Info() == old(r.Info())
    ensures r.combinedDescription == Some(CombinedDescription(r.Info()))
  {
    ghost var info := r.Info();
    var parts: seq<string> := [];
    if r.date != "" && r.date != DateNotFound {
      parts := parts + ["Tarih: " + r.date];
    }
    assert parts == DatePart(info);
    if r.time != "" {
      parts := parts + ["Saat: " + CleanTime(r.time)];
    }
    assert parts == DatePart(info) + TimePart(info);
    if r.location != "" {
      parts := parts + ["Yer: " + CleanLocation(r.location)];
    }
    assert parts == DatePart(info) + TimePart(info) + LocationPart(info);
    if r.description != "" {
      parts := parts + [r.description];
    }
    assert parts == DescriptionParts(info);
    r.combinedDescription := Some(Join(parts, "\n\n"));
  }

  /** The loop body: normalise one event dictionary in place. */
  method NormalizeRecord(r: EventRecord)
    modifies r
    ensures r.Info() == Normalize(old(r.Info())).info
    ensures r.combinedDescription == Some(Normalize(old(r.Info())).combinedDescription)
  {
    FixTitle(r);
    StoreCombinedDescription(r);
  }

  /**
    The normalisation loop: each dictionary is updated in place and the same
    objects are collected, in the same order, into the processed list.
   */
  method NormalizeEvents(events: seq<EventRecord>) returns (processed: seq<EventRecord>)
    requires forall i, j :: 0 <= i < j < |events| ==> events[i] != events[j]
    modifies set e | e in events
    ensures processed == events
    ensures forall i :: 0 <= i < |events| ==>
      events[i].Info() == Normalize(old(events[i].Info())).info
      && events[i].combinedDescription == Some(Normalize(old(events[i].Info())).combinedDescription)
  {
    processed := [];
    for i := 0 to |events|
      invariant processed == events[..i]
      invariant forall j :: 0 <= j < i ==>
        events[j].Info() == Normalize(old(events[j].Info())).info
        && events[j].combinedDescription == Some(Normalize(old(events[j].Info())).combinedDescription)
      invariant forall j :: i <= j < |events| ==> events[j].Info() == old(events[j].Info())
    {
      label Before:
      NormalizeRecord(events[i]);
      forall j | 0 <= j < |events| && j != i
        ensures events[j].Info() == old@Before(events[j].Info())
        ensures events[j].combinedDescription == old@Before(events[j].combinedDescription)
      {
        assert events[j] != events[i];
      }
      processed := processed + [events[i]];
    }
  }
}
