/**
  The per-item field derivation of `generate_rss`: the item link, the guid
  and the publication date, whose text is parsed with `strptime` against
  three formats in order. The XML tree, the pretty-printing, the file and the
  current-time fallback are not modelled: a date that is not parsed is `None`.
 */
module Feed {
  import opened Wrappers
  import opened Text
  import opened Events

  /** A calendar date as `strptime` returns it (the time of day is midnight). */
  datatype Date = Date(year: int, month: int, day: int)

  predicate IsLeapYear(y: int) {
    y % 4 == 0 && (y % 100 != 0 || y % 400 == 0)
  }

  function DaysInMonth(y: int, m: int): (n: int)
    requires 1 <= m <= 12
    ensures 28 <= n <= 31
  {
    if m == 2 then (if IsLeapYear(y) then 29 else 28)
    else if m == 4 || m == 6 || m == 9 || m == 11 then 30
    else 31
  }

  /** The dates Python's `date` accepts (years 1 to 9999 of the proleptic Gregorian calendar). */
  predicate ValidDate(d: Date) {
    1 <= d.year <= 9999 && 1 <= d.month <= 12 && 1 <= d.day <= DaysInMonth(d.year, d.month)
  }

  /** The three `strptime` formats of the feed, `%d.%m.%Y`, `%d/%m/%Y` and `%Y-%m-%d`, in the order they are tried. */
  datatype DateFormat = DotFormat | SlashFormat | DashFormat

  const Formats: seq<DateFormat> := [DotFormat, SlashFormat, DashFormat]

  function Separator(f: DateFormat): char {
    match f
    case DotFormat => '.'
    case SlashFormat => '/'
    case DashFormat => '-'
  }

  /** The texts `%d` accepts: `3[01]`, `[12]\d`, `0[1-9]`, `[1-9]` or a space and `[1-9]`. */
  predicate DayToken(t: string) {
    (|t| == 1 && '1' <= t[0] <= '9')
    || (|t| == 2 && ((t[0] == '3' && '0' <= t[1] <= '1')
                     || ('1' <= t[0] <= '2' && IsDigit(t[1]))
                     || (t[0] == '0' && '1' <= t[1] <= '9')
                     || (t[0] == ' ' && '1' <= t[1] <= '9')))
  }

  /** The texts `%m` accepts: `1[0-2]`, `0[1-9]` or `[1-9]`. */
  predicate MonthToken(t: string) {
    (|t| == 1 && '1' <= t[0] <= '9')
    || (|t| == 2 && ((t[0] == '1' && '0' <= t[1] <= '2') || (t[0] == '0' && '1' <= t[1] <= '9')))
  }

  /** The texts `%Y` accepts: four digits. */
  predicate YearToken(t: string) {
    |t| == 4 && AllDigits(t)
  }

  /** `int()` of a day or month token; a leading space counts for nothing. */
  function SmallValue(t: string): (n: nat)
    requires |t| == 1 || |t| == 2
    requires IsDigit(t[|t| - 1]) && (|t| == 2 ==> IsDigit(t[0]) || t[0] == ' ')
    ensures n < 100
  {
    if |t| == 1 || t[0] == ' ' then DigitValue(t[|t| - 1])
    else DigitValue(t[0]) * 10 + DigitValue(t[1])
  }

  /** `int()` of a year token. */
  function YearValue(t: string): (n: nat)
    requires YearToken(t)
    ensures n < 10000
  {
    ((DigitValue(t[0]) * 10 + DigitValue(t[1])) * 10 + DigitValue(t[2])) * 10 + DigitValue(t[3])
  }

  /** The day, month and year tokens of a three-piece split, in that order. */
  function Fields(parts: seq<string>, f: DateFormat): (string, string, string)
    requires |parts| == 3
  {
    if f == DashFormat then (parts[2], parts[1], parts[0]) else (parts[0], parts[1], parts[2])
  }

  /**
    `datetime.strptime(s, f)` at midnight: the whole text must be a day, a
    month and a year token separated by the format's separator (the order
    the format gives), and the date must exist; `None` stands for the
    `ValueError` of either failure.
   */
  function ParseDate(s: string, f: DateFormat): (r: Option<Date>)
    ensures r.Some? ==> ValidDate(r.value)
  {
    var parts := Split(s, Separator(f));
    if |parts| != 3 then None
    else
      var (dt, mt, yt) := Fields(parts, f);
      if DayToken(dt) && MonthToken(mt) && YearToken(yt) then
        var d := Date(YearValue(yt), SmallValue(mt), SmallValue(dt));
        if ValidDate(d) then Some(d) else None
      else None
  }

  /** Two decimal digits, zero-padded. */
  function Pad2(n: nat): (t: string)
    requires n < 100
    ensures |t| == 2 && IsDigit(t[0]) && IsDigit(t[1])
  {
    [DigitChar(n / 10), DigitChar(n % 10)]
  }

  /** Four decimal digits, zero-padded. */
  function Pad4(n: nat): (t: string)
    requires n < 10000
    ensures YearToken(t)
  {
    var q1 := n / 10;
    var q2 := q1 / 10;
    [DigitChar(q2 / 10), DigitChar(q2 % 10), DigitChar(q1 % 10), DigitChar(n % 10)]
  }

  /** A date written in a format with zero padding: the text the format's `strftime` would produce. */
  function FormatDate(d: Date, f: DateFormat): (s: string)
    requires ValidDate(d)
  {
    var c := Separator(f);
    if f == DashFormat then Pad4(d.year) + [c] + Pad2(d.month) + [c] + Pad2(d.day)
    else Pad2(d.day) + [c] + Pad2(d.month) + [c] + Pad4(d.year)
  }

  lemma Pad2Value(n: nat)
    requires n < 100
    ensures SmallValue(Pad2(n)) == n
  {
  }

  lemma Pad4Value(n: nat)
    requires n < 10000
    ensures YearValue(Pad4(n)) == n
  {
    var q1 := n / 10;
    var q2 := q1 / 10;
    assert n == q1 * 10 + n % 10;
    assert q1 == q2 * 10 + q1 % 10;
    assert q2 == (q2 / 10) * 10 + q2 % 10;
  }

  /** Padded day and month numbers are tokens of their directives. */
  lemma PaddedTokens(d: Date)
    requires ValidDate(d)
    ensures DayToken(Pad2(d.day)) && MonthToken(Pad2(d.month))
  {
  }

  /** A text made only of digits and spaces holds no date separator. */
  lemma TokenHasNoSeparator(t: string, c: char)
    requires c == '.' || c == '/' || c == '-'
    requires forall i :: 0 <= i < |t| ==> IsDigit(t[i]) || t[i] == ' '
    ensures c !in t
  {
  }

  /** A three-token text splits into its three tokens. */
  lemma SplitThree(a: string, b: string, e: string, c: char)
    requires c !in a && c !in b && c !in e
    ensures Split(a + [c] + b + [c] + e, c) == [a, b, e]
  {
    assert a + [c] + b + [c] + e == a + [c] + (b + [c] + e);
    SplitFirst(a, c, b + [c] + e);
    SplitFirst(b, c, e);
    SplitNone(e, c);
  }

  /** Parsing a zero-padded date in any of the three formats gives the date back. */
  lemma ParseFormatRoundTrip(d: Date, f: DateFormat)
    requires ValidDate(d)
    ensures ParseDate(FormatDate(d, f), f) == Some(d)
  {
    var c := Separator(f);
    var dt, mt, yt := Pad2(d.day), Pad2(d.month), Pad4(d.year);
    TokenHasNoSeparator(dt, c);
    TokenHasNoSeparator(mt, c);
    TokenHasNoSeparator(yt, c);
    if f == DashFormat {
      SplitThree(yt, mt, dt, c);
    } else {
      SplitThree(dt, mt, yt, c);
    }
    PaddedTokens(d);
    Pad2Value(d.day);
    Pad2Value(d.month);
    Pad4Value(d.year);
  }

  /** Joining texts that avoid a character with a separator that avoids it gives a text that avoids it. */
  lemma {:induction false} JoinAvoids(parts: seq<string>, sep: string, c: char)
    requires c !in sep && forall i :: 0 <= i < |parts| ==> c !in parts[i]
    ensures c !in Join(parts, sep)
    decreases |parts|
  {
    if |parts| > 1 {
      JoinAvoids(parts[1..], sep, c);
    }
  }

  /** A text one format parses holds no other format's separator, so at most one format parses it. */
  lemma FormatsExclusive(s: string, f: DateFormat, g: DateFormat)
    requires f != g && ParseDate(s, f).Some?
    ensures ParseDate(s, g).None?
  {
    var parts := Split(s, Separator(f));
    var (dt, mt, yt) := Fields(parts, f);
    var c := Separator(g);
    assert forall i :: 0 <= i < 3 ==> parts[i] in {dt, mt, yt};
    TokenHasNoSeparator(dt, c);
    TokenHasNoSeparator(mt, c);
    TokenHasNoSeparator(yt, c);
    SplitJoin(s, Separator(f));
    JoinAvoids(parts, [Separator(f)], c);
    SplitNone(s, c);
  }

  /** The first format, in order, that parses the text, with its date. */
  function FirstParse(formats: seq<DateFormat>, s: string): (r: Option<Date>)
    ensures r.Some? ==> ValidDate(r.value)
    ensures r.None? <==> forall k :: 0 <= k < |formats| ==> ParseDate(s, formats[k]).None?
    ensures r.Some? ==> exists k :: 0 <= k < |formats| && r == ParseDate(s, formats[k])
                                   && forall j :: 0 <= j < k ==> ParseDate(s, formats[j]).None?
    decreases |formats|
  {
    if formats == [] then None
    else
      var p := ParseDate(s, formats[0]);
      if p.Some? then p
      else
        var r := FirstParse(formats[1..], s);
        if r.Some? then
          var k :| 0 <= k < |formats[1..]| && r == ParseDate(s, formats[1..][k])
                   && forall j :: 0 <= j < k ==> ParseDate(s, formats[1..][j]).None?;
          FailuresShift(formats, s, k);
          assert formats[k + 1] == formats[1..][k];
          r
        else
          FailuresShift(formats, s, |formats| - 1);
          r
  }

  /** Failures of the formats after the first, together with the first, are failures of a prefix. */
  lemma FailuresShift(formats: seq<DateFormat>, s: string, k: nat)
    requires k < |formats| && ParseDate(s, formats[0]).None?
    requires forall j :: 0 <= j < k ==> ParseDate(s, formats[1..][j]).None?
    ensures forall j :: 0 <= j <= k ==> ParseDate(s, formats[j]).None?
  {
    forall j | 0 < j <= k
      ensures ParseDate(s, formats[j]).None?
    {
      assert formats[j] == formats[1..][j - 1];
    }
  }

  /**
    The date of the `pubDate` element: the empty text and the not-found
    sentinel are never parsed, any other is the first successful `strptime`;
    `None` stands for the current-time fallback.
   */
  function PublicationDate(date: string): (r: Option<Date>)
    ensures r.Some? ==> ValidDate(r.value) && date != "" && date != DateNotFound
  {
    if date == "" || date == DateNotFound then None else FirstParse(Formats, date)
  }

  /** The loop over the formats that stops at the first successful parse. */
  method ParsePubDate(date: string) returns (parsed: Option<Date>)
    ensures parsed == PublicationDate(date)
  {
    parsed := None;
    if date == "" || date == DateNotFound {
      return;
    }
    var k := 0;
    while k < |Formats|
      invariant 0 <= k <= |Formats|
      invariant parsed.None? && FirstParse(Formats, date) == FirstParse(Formats[k..], date)
      decreases |Formats| - k
    {
      parsed := ParseDate(date, Formats[k]);
      assert Formats[k..][0] == Formats[k] && Formats[k..][1..] == Formats[k + 1..];
      if parsed.Some? {
        return;
      }
      k := k + 1;
    }
    assert Formats[k..] == [];
  }

  /**
    Whatever format parses a text, that parse is the publication date, since
    no other format parses the same text.
   */
  lemma PublicationDateOfParse(s: string, f: DateFormat)
    requires s != DateNotFound && ParseDate(s, f).Some?
    ensures PublicationDate(s) == ParseDate(s, f)
  {
    assert ParseDate("", f).None?;
    forall g | g != f
      ensures ParseDate(s, g).None?
    {
      FormatsExclusive(s, f, g);
    }
  }

  /** Whatever format a valid date is written in with zero padding, the feed reads it back. */
  lemma PublicationDateRoundTrip(d: Date, f: DateFormat)
    requires ValidDate(d)
    ensures PublicationDate(FormatDate(d, f)) == Some(d)
  {
    var s := FormatDate(d, f);
    ParseFormatRoundTrip(d, f);
    assert s != "" && s[2] != ' ' && |s| == 10;
    assert s != DateNotFound by {
      assert |DateNotFound| == 14;
    }
    forall g | g != f
      ensures ParseDate(s, g).None?
    {
      FormatsExclusive(s, f, g);
    }
    assert Formats[1..][1..] == [DashFormat];
  }

  /** A day-first text of three separator-free tokens is parsed by checking the tokens and the date. */
  lemma ParseDayFirst(dt: string, mt: string, yt: string, f: DateFormat)
    requires f != DashFormat
    requires Separator(f) !in dt && Separator(f) !in mt && Separator(f) !in yt
    ensures ParseDate(dt + [Separator(f)] + mt + [Separator(f)] + yt, f)
            == if DayToken(dt) && MonthToken(mt) && YearToken(yt)
                  && ValidDate(Date(YearValue(yt), SmallValue(mt), SmallValue(dt)))
               then Some(Date(YearValue(yt), SmallValue(mt), SmallValue(dt)))
               else None
  {
    SplitThree(dt, mt, yt, Separator(f));
  }

  /** A year-first text of three separator-free tokens is parsed by checking the tokens and the date. */
  lemma ParseYearFirst(yt: string, mt: string, dt: string)
    requires '-' !in yt && '-' !in mt && '-' !in dt
    ensures ParseDate(yt + "-" + mt + "-" + dt, DashFormat)
            == if DayToken(dt) && MonthToken(mt) && YearToken(yt)
                  && ValidDate(Date(YearValue(yt), SmallValue(mt), SmallValue(dt)))
               then Some(Date(YearValue(yt), SmallValue(mt), SmallValue(dt)))
               else None
  {
    SplitThree(yt, mt, dt, '-');
  }

  /*
    The examples below take the pieces of their date text as parameters
    fixed by `requires`: the verifier then reasons about the three tokens
    one by one instead of evaluating the whole literal text at once.
   */

  /** An impossible date such as 31 February is rejected. */
  lemma ThirtyFirstOfFebruaryRejected(d: string, m: string, y: string)
    requires d == "31" && m == "02" && y == "2024"
    ensures ParseDate(d + "." + m + "." + y, DotFormat).None?
  {
    ParseDayFirst(d, m, y, DotFormat);
    assert SmallValue(d) == 31 && SmallValue(m) == 2;
  }

  /** A leap day is rejected outside a leap year... */
  lemma LeapDayOfCommonYearRejected(d: string, m: string, y: string)
    requires d == "29" && m == "02" && y == "2023"
    ensures ParseDate(d + "." + m + "." + y, DotFormat).None?
  {
    ParseDayFirst(d, m, y, DotFormat);
    assert SmallValue(d) == 29 && SmallValue(m) == 2;
    assert YearToken(y) ==> YearValue(y) == 2023;
    assert DaysInMonth(2023, 2) == 28;
  }

  /** ... and accepted in one. */
  lemma LeapDayOfLeapYearAccepted(d: string, m: string, y: string)
    requires d == "29" && m == "02" && y == "2024"
    ensures ParseDate(d + "." + m + "." + y, DotFormat) == Some(Date(2024, 2, 29))
  {
    ParseDayFirst(d, m, y, DotFormat);
    assert DayToken(d) && MonthToken(m) && YearToken(y);
    assert YearValue(y) == 2024 && SmallValue(d) == 29 && SmallValue(m) == 2;
    assert DaysInMonth(2024, 2) == 29;
  }

  /**
    Unpadded day and month numbers are accepted, and so is a day written as
    a space and a digit, as `%d` allows; the feed dates the item with them.
   */
  lemma UnpaddedAccepted(d: string, m: string, y: string)
    requires (d == "5" || d == " 5") && m == "3" && y == "2024"
    ensures ParseDate(d + "." + m + "." + y, DotFormat) == Some(Date(2024, 3, 5))
    ensures PublicationDate(d + "." + m + "." + y) == Some(Date(2024, 3, 5))
  {
    ParseDayFirst(d, m, y, DotFormat);
    assert DayToken(d) && MonthToken(m) && YearToken(y);
    assert YearValue(y) == 2024 && SmallValue(d) == 5 && SmallValue(m) == 3;
    assert |d + "." + m + "." + y| != |DateNotFound|;
    PublicationDateOfParse(d + "." + m + "." + y, DotFormat);
  }

  /** An unpadded year-first date is accepted by the third format only. */
  lemma YearFirstUnpaddedAccepted(y: string, m: string, d: string)
    requires y == "2024" && m == "1" && d == "1"
    ensures ParseDate(y + "-" + m + "-" + d, DashFormat) == Some(Date(2024, 1, 1))
    ensures PublicationDate(y + "-" + m + "-" + d) == Some(Date(2024, 1, 1))
  {
    ParseYearFirst(y, m, d);
    assert DayToken(d) && MonthToken(m) && YearToken(y);
    assert YearValue(y) == 2024 && SmallValue(d) == 1 && SmallValue(m) == 1;
    assert |y + "-" + m + "-" + d| != |DateNotFound|;
    PublicationDateOfParse(y + "-" + m + "-" + d, DashFormat);
  }

  /** A fifth year digit is left over, so the text does not parse. */
  lemma OverlongYearRejected(d: string, m: string, y: string)
    requires d == "5" && m == "3" && y == "20245"
    ensures ParseDate(d + "." + m + "." + y, DotFormat).None?
  {
    ParseDayFirst(d, m, y, DotFormat);
    assert !YearToken(y);
  }

  /** The item link: the event's URL, or the landing page when it has none. */
  function ItemLink(e: EventInfo): (r: string)
    ensures r != ""
    ensures e.url != "" ==> r == e.url
    ensures e.url == "" ==> r == LandingPage
  {
    if e.url != "" then e.url else LandingPage
  }

  /** `s.replace(' ', '-')`. */
  function ReplaceSpaces(s: string): (r: string)
    ensures |r| == |s|
    ensures forall i :: 0 <= i < |s| ==> r[i] == (if s[i] == ' ' then '-' else s[i])
    decreases |s|
  {
    if s == [] then []
    else [if s[0] == ' ' then '-' else s[0]] + ReplaceSpaces(s[1..])
  }

  const GuidPrefix := "https://www.yildiz.edu.tr/event/"

  /** The guid components of an event without URL: its title, then its date and time when set. */
  function GuidComponents(e: EventInfo): seq<string> {
    [e.title] + (if e.date != "" then [e.date] else []) + (if e.time != "" then [e.time] else [])
  }

  /** The item guid: the URL, or one synthesised from the title, date and time with no spaces in it. */
  function ItemGuid(e: EventInfo): (r: string)
    ensures e.url != "" ==> r == e.url
    ensures e.url == "" ==> StartsWith(r, GuidPrefix) && ' ' !in r[|GuidPrefix|..]
    ensures e.url == "" ==> r == GuidPrefix + ReplaceSpaces(e.title + OptionalPart(e.date) + OptionalPart(e.time))
  {
    if e.url != "" then e.url
    else
      GuidJoin(e);
      var tail := ReplaceSpaces(Join(GuidComponents(e), "-"));
      assert (GuidPrefix + tail)[|GuidPrefix|..] == tail;
      GuidPrefix + tail
  }

  /** A dash and the value when it is set, nothing otherwise. */
  function OptionalPart(v: string): string {
    if v != "" then "-" + v else ""
  }

  /** The dash join of the guid components: the title, then each set value after a dash. */
  lemma GuidJoin(e: EventInfo)
    ensures Join(GuidComponents(e), "-") == e.title + OptionalPart(e.date) + OptionalPart(e.time)
  {
    var rest := (if e.date != "" then [e.date] else []) + (if e.time != "" then [e.time] else []);
    assert GuidComponents(e) == [e.title] + rest;
    JoinFront(e.title, rest, "-");
    if e.date != "" && e.time != "" {
      JoinFront(e.date, [e.time], "-");
      assert e.title + "-" + (e.date + "-" + e.time) == e.title + ("-" + e.date) + ("-" + e.time);
    }
  }

  /** Joining puts the first part in front of the join of the rest. */
  lemma JoinFront(t: string, rest: seq<string>, sep: string)
    ensures Join([t] + rest, sep) == t + (if rest == [] then "" else sep + Join(rest, sep))
  {
    assert ([t] + rest)[1..] == rest;
  }

  /** A space and a dash are replaced alike. */
  lemma ReplaceSpacesMergesDash(a: string, b: string)
    ensures ReplaceSpaces(a + " " + b) == ReplaceSpaces(a + "-" + b)
  {
    var x, y := a + " " + b, a + "-" + b;
    var rx, ry := ReplaceSpaces(x), ReplaceSpaces(y);
    assert |rx| == |x| == |y| == |ry|;
    forall i | 0 <= i < |x|
      ensures rx[i] == ry[i]
    {
      if i < |a| {
        assert x[i] == a[i] == y[i];
      } else if i > |a| {
        assert x[i] == b[i - |a| - 1] == y[i];
      }
    }
    assert rx == ry;
  }

  /**
    The synthesised guid is not unique: two events without URL whose titles
    differ only in a space where the other has a dash get the same guid.
   */
  lemma GuidCollision(e: EventInfo, a: string, b: string)
    requires e.url == ""
    ensures ItemGuid(e.(title := a + " " + b)) == ItemGuid(e.(title := a + "-" + b))
  {
    var rest := GuidComponents(e)[1..];
    var tail := if rest == [] then "" else "-" + Join(rest, "-");
    JoinFront(a + " " + b, rest, "-");
    JoinFront(a + "-" + b, rest, "-");
    assert GuidComponents(e.(title := a + " " + b)) == [a + " " + b] + rest;
    assert GuidComponents(e.(title := a + "-" + b)) == [a + "-" + b] + rest;
    assert a + " " + b + tail == a + " " + (b + tail);
    assert a + "-" + b + tail == a + "-" + (b + tail);
    ReplaceSpacesMergesDash(a, b + tail);
  }

  /** What one feed item holds; `pubDate` is `None` where the current time is used. */
  datatype Item = Item(title: string, link: string, description: string, guid: string, pubDate: Option<Date>)

  function FeedItem(e: EventInfo, combined: Option<string>): (it: Item)
    ensures it.title == e.title && it.link != "" && it.description == combined.GetOr("")
    ensures it.pubDate.Some? ==> ValidDate(it.pubDate.value)
    ensures it.link == ItemLink(e) && it.guid == ItemGuid(e) && it.pubDate == PublicationDate(e.date)
  {
    Item(e.title, ItemLink(e), combined.GetOr(""), ItemGuid(e), PublicationDate(e.date))
  }

  /** The loop over the events that adds one item per event, in order. */
  method BuildItems(events: seq<EventRecord>) returns (items: seq<Item>)
    ensures |items| == |events|
    ensures forall i :: 0 <= i < |events| ==> items[i] == FeedItem(events[i].Info(), events[i].combinedDescription)
  {
    items := [];
    for i := 0 to |events|
      invariant |items| == i
      invariant forall j :: 0 <= j < i ==> items[j] == FeedItem(events[j].Info(), events[j].combinedDescription)
    {
      var e := events[i];
      var pubDate := ParsePubDate(e.date);
      var item := Item(e.title, ItemLink(e.Info()), e.combinedDescription.GetOr(""), ItemGuid(e.Info()), pubDate);
      items := items + [item];
    }
  }
}
