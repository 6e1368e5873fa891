/**
  The date search of `extract_event_from_container` and
  `find_date_near_element`: four regular expressions tried in a fixed
  order with `re.search`, the first pattern that matches anywhere winning.

  Each pattern is deterministic at a given start position (its digit runs
  are followed by a non-digit separator and its word run must be followed by
  a space), so a match attempt is a function from the start to the end.
 */
module DateSearch {
  import opened Wrappers
  import opened Text

  /** `\d{1,2}\.\d{1,2}\.\d{4}`, `\d{1,2}/\d{1,2}/\d{4}`, `\d{4}-\d{1,2}-\d{1,2}`, `\d{1,2} \w+ \d{4}`. */
  datatype DatePattern = DayDotMonthYear | DaySlashMonthYear | YearDashMonthDay | DayWordYear

  /** The patterns in the order the source tries them. */
  const Patterns: seq<DatePattern> := [DayDotMonthYear, DaySlashMonthYear, YearDashMonthDay, DayWordYear]

  /** `\d{1,2}` followed by `next` (greedy, with backtracking): where `next` stands. */
  function ShortNumberThen(s: string, i: nat, next: char): (r: Option<nat>)
    requires !IsDigit(next)
    ensures r.Some? ==> i < r.value <= i + 2 && r.value < |s| && s[r.value] == next
    ensures r.Some? ==> IsDigit(s[i]) && IsDigit(s[r.value - 1])
  {
    if i + 2 < |s| && IsDigit(s[i]) && IsDigit(s[i + 1]) && s[i + 2] == next then Some(i + 2)
    else if i + 1 < |s| && IsDigit(s[i]) && s[i + 1] == next then Some(i + 1)
    else None
  }

  /** A trailing `\d{1,2}`: two digits when there are two, else one. */
  function ShortNumber(s: string, i: nat): (r: Option<nat>)
    ensures r.Some? ==> i < r.value <= i + 2 && r.value <= |s|
    ensures r.Some? ==> IsDigit(s[i]) && IsDigit(s[r.value - 1])
  {
    if i + 1 < |s| && IsDigit(s[i]) && IsDigit(s[i + 1]) then Some(i + 2)
    else if i < |s| && IsDigit(s[i]) then Some(i + 1)
    else None
  }

  /** `\d{4}`. */
  function FourDigits(s: string, i: nat): (r: Option<nat>)
    ensures r.Some? ==> r.value == i + 4 <= |s|
    ensures r.Some? ==> IsDigit(s[i]) && IsDigit(s[i + 3])
  {
    if i + 4 <= |s| && IsDigit(s[i]) && IsDigit(s[i + 1]) && IsDigit(s[i + 2]) && IsDigit(s[i + 3])
    then Some(i + 4) else None
  }

  /** The end of the longest run of word characters from `i`. */
  function WordEnd(s: string, i: nat): (k: nat)
    requires i <= |s|
    ensures i <= k <= |s|
    ensures forall j :: i <= j < k ==> IsWordChar(s[j])
    ensures k == |s| || !IsWordChar(s[k])
    decreases |s| - i
  {
    if i < |s| && IsWordChar(s[i]) then WordEnd(s, i + 1) else i
  }

  /** `\w+` followed by a space: where the space stands. */
  function WordThenSpace(s: string, i: nat): (r: Option<nat>)
    ensures r.Some? ==> i < r.value < |s| && s[r.value] == ' '
  {
    if i > |s| then None
    else
      var k := WordEnd(s, i);
      if i < k < |s| && s[k] == ' ' then Some(k) else None
  }

  /** `\d{1,2}` sep `\d{1,2}` sep `\d{4}` at `i`. */
  function DayMonthYearEnd(s: string, i: nat, sep: char): (r: Option<nat>)
    requires !IsDigit(sep)
    ensures r.Some? ==> i + 8 <= r.value <= |s| && IsDigit(s[i]) && IsDigit(s[r.value - 1])
  {
    var j :- ShortNumberThen(s, i, sep);
    var k :- ShortNumberThen(s, j + 1, sep);
    FourDigits(s, k + 1)
  }

  /** `\d{4}-\d{1,2}-\d{1,2}` at `i`. */
  function YearMonthDayEnd(s: string, i: nat): (r: Option<nat>)
    ensures r.Some? ==> i + 8 <= r.value <= |s| && IsDigit(s[i]) && IsDigit(s[r.value - 1])
  {
    var j :- FourDigits(s, i);
    if j < |s| && s[j] == '-' then
      var k :- ShortNumberThen(s, j + 1, '-');
      ShortNumber(s, k + 1)
    else None
  }

  /** `\d{1,2} \w+ \d{4}` at `i`. */
  function DayWordYearEnd(s: string, i: nat): (r: Option<nat>)
    ensures r.Some? ==> i + 8 <= r.value <= |s| && IsDigit(s[i]) && IsDigit(s[r.value - 1])
  {
    var j :- ShortNumberThen(s, i, ' ');
    var k :- WordThenSpace(s, j + 1);
    FourDigits(s, k + 1)
  }

  /** Where a match of `p` that starts at `i` ends, if one does. */
  function MatchEnd(p: DatePattern, s: string, i: nat): (r: Option<nat>)
    ensures r.Some? ==> i + 8 <= r.value <= |s|
    ensures r.Some? ==> IsDigit(s[i]) && IsDigit(s[r.value - 1])
  {
    match p
    case DayDotMonthYear => DayMonthYearEnd(s, i, '.')
    case DaySlashMonthYear => DayMonthYearEnd(s, i, '/')
    case YearDashMonthDay => YearMonthDayEnd(s, i)
    case DayWordYear => DayWordYearEnd(s, i)
  }

  /** `re.search(p, s[i..])`: the match at the leftmost start that has one. */
  function Search(p: DatePattern, s: string, i: nat): (r: Option<string>)
    requires i <= |s|
    ensures r.Some? ==> |r.value| >= 8
    decreases |s| - i
  {
    match MatchEnd(p, s, i)
    case Some(e) => Some(s[i..e])
    case None => if i == |s| then None else Search(p, s, i + 1)
  }

  /** A search that reports nothing found no match at any start. */
  lemma {:induction false} SearchNone(p: DatePattern, s: string, i: nat)
    requires i <= |s| && Search(p, s, i).None?
    ensures forall j :: i <= j <= |s| ==> MatchEnd(p, s, j).None?
    decreases |s| - i
  {
    if i < |s| {
      SearchNone(p, s, i + 1);
    }
  }

  /** The first start from `i` at which `p` matches, or the end of the text. */
  function LeftmostStart(p: DatePattern, s: string, i: nat): (k: nat)
    requires i <= |s|
    ensures i <= k <= |s|
    decreases |s| - i
  {
    if i == |s| || MatchEnd(p, s, i).Some? then i else LeftmostStart(p, s, i + 1)
  }

  /** No start before the leftmost one has a match. */
  lemma {:induction false} BeforeLeftmostNoMatch(p: DatePattern, s: string, i: nat)
    requires i <= |s|
    ensures forall j :: i <= j < LeftmostStart(p, s, i) ==> MatchEnd(p, s, j).None?
    decreases |s| - i
  {
    if i < |s| && MatchEnd(p, s, i).None? {
      BeforeLeftmostNoMatch(p, s, i + 1);
    }
  }

  /** The search reports the match at the leftmost start, if there is one. */
  lemma {:induction false} SearchAtLeftmost(p: DatePattern, s: string, i: nat)
    requires i <= |s|
    ensures var k := LeftmostStart(p, s, i);
            Search(p, s, i) == match MatchEnd(p, s, k) case Some(e) => Some(s[k..e]) case None => None
    decreases |s| - i
  {
    if i < |s| && MatchEnd(p, s, i).None? {
      SearchAtLeftmost(p, s, i + 1);
    }
  }

  /** What a search reports is the text of a match at its leftmost possible start. */
  lemma SearchLeftmost(p: DatePattern, s: string, i: nat, m: string) returns (start: nat)
    requires i <= |s| && Search(p, s, i) == Some(m)
    ensures i <= start && start + |m| <= |s|
    ensures MatchEnd(p, s, start) == Some(start + |m|) && m == s[start..start + |m|]
    ensures forall j :: i <= j < start ==> MatchEnd(p, s, j).None?
  {
    start := LeftmostStart(p, s, i);
    SearchAtLeftmost(p, s, i);
    BeforeLeftmostNoMatch(p, s, i);
  }

  /** The match of the first pattern, in `patterns` order, that matches anywhere in `text`. */
  function FirstPatternMatch(patterns: seq<DatePattern>, text: string): (r: Option<string>)
    ensures r.Some? ==> |r.value| >= 8
    decreases |patterns|
  {
    if patterns == [] then None
    else match Search(patterns[0], text, 0)
      case Some(m) => Some(m)
      case None => FirstPatternMatch(patterns[1..], text)
  }

  /**
    First pattern wins: the result is the match of pattern `k` exactly when
    pattern `k` matches and no earlier pattern matches anywhere.
   */
  lemma {:induction false} FirstPatternWins(patterns: seq<DatePattern>, text: string, k: nat)
    requires k < |patterns|
    ensures (forall j :: 0 <= j < k ==> Search(patterns[j], text, 0).None?)
            ==> FirstPatternMatch(patterns, text) == Search(patterns[k], text, 0)
                || Search(patterns[k], text, 0).None?
    ensures Search(patterns[k], text, 0).Some? && (forall j :: 0 <= j < k ==> Search(patterns[j], text, 0).None?)
            ==> FirstPatternMatch(patterns, text) == Search(patterns[k], text, 0)
    ensures FirstPatternMatch(patterns, text).None? ==> Search(patterns[k], text, 0).None?
    decreases k
  {
    if k > 0 {
      FirstPatternWins(patterns[1..], text, k - 1);
      if Search(patterns[0], text, 0).None? {
        assert forall j :: 0 <= j < k - 1 ==> patterns[1..][j] == patterns[j + 1];
      }
    }
  }

  /** With no pattern matching anywhere, the search finds nothing. */
  lemma {:induction false} NoPatternNoMatch(patterns: seq<DatePattern>, text: string)
    requires forall k :: 0 <= k < |patterns| ==> Search(patterns[k], text, 0).None?
    ensures FirstPatternMatch(patterns, text).None?
    decreases |patterns|
  {
    if patterns != [] {
      assert Search(patterns[0], text, 0).None?;
      NoPatternNoMatch(patterns[1..], text);
    }
  }

  /**
    The search finds nothing exactly when no pattern matches anywhere, and
    what it finds is the match of a pattern that matches when no earlier one does.
   */
  lemma {:induction false} FirstPatternMatchSpec(patterns: seq<DatePattern>, text: string)
    ensures FirstPatternMatch(patterns, text).None?
            <==> forall k :: 0 <= k < |patterns| ==> Search(patterns[k], text, 0).None?
    ensures FirstPatternMatch(patterns, text).Some? ==>
      exists k :: 0 <= k < |patterns| && Search(patterns[k], text, 0) == FirstPatternMatch(patterns, text)
                  && forall j :: 0 <= j < k ==> Search(patterns[j], text, 0).None?
    decreases |patterns|
  {
    if patterns != [] {
      FirstPatternMatchSpec(patterns[1..], text);
      assert forall j :: 0 < j < |patterns| ==> patterns[j] == patterns[1..][j - 1];
      if Search(patterns[0], text, 0).None? && FirstPatternMatch(patterns, text).Some? {
        var k :| 0 <= k < |patterns[1..]| && Search(patterns[1..][k], text, 0) == FirstPatternMatch(patterns, text)
                 && forall j :: 0 <= j < k ==> Search(patterns[1..][j], text, 0).None?;
        assert Search(patterns[k + 1], text, 0) == FirstPatternMatch(patterns, text);
      }
    }
  }

  /**
    The loop of `extract_event_from_container`: try the patterns in order,
    return the first match, or the empty string when none matches.
   */
  method FindDateIn(text: string) returns (date: string)
    ensures date == FirstPatternMatch(Patterns, text).GetOr("")
  {
    for k := 0 to |Patterns|
      invariant forall j :: 0 <= j < k ==> Search(Patterns[j], text, 0).None?
    {
      var m := Search(Patterns[k], text, 0);
      if m.Some? {
        FirstPatternWins(Patterns, text, k);
        return m.value;
      }
    }
    NoPatternNoMatch(Patterns, text);
    return "";
  }

  /** The first match of the first text, in order, in which some pattern matches. */
  function FirstDateAmong(texts: seq<string>): (r: Option<string>)
    ensures r.Some? ==> |r.value| >= 8
    decreases |texts|
  {
    if texts == [] then None
    else match FirstPatternMatch(Patterns, texts[0])
      case Some(m) => Some(m)
      case None => FirstDateAmong(texts[1..])
  }

  /** No date is found exactly when no text holds one. */
  lemma {:induction false} FirstDateAmongNone(texts: seq<string>)
    ensures FirstDateAmong(texts).None? <==> forall k :: 0 <= k < |texts| ==> FirstPatternMatch(Patterns, texts[k]).None?
    decreases |texts|
  {
    if texts != [] {
      FirstDateAmongNone(texts[1..]);
      assert forall k :: 0 < k < |texts| ==> texts[k] == texts[1..][k - 1];
    }
  }

  /** A date found is the first match in the first text that holds one. */
  lemma {:induction false} FirstDateAmongFirst(texts: seq<string>) returns (k: nat)
    requires FirstDateAmong(texts).Some?
    ensures k < |texts| && FirstPatternMatch(Patterns, texts[k]) == FirstDateAmong(texts)
    ensures forall j :: 0 <= j < k ==> FirstPatternMatch(Patterns, texts[j]).None?
    decreases |texts|
  {
    if FirstPatternMatch(Patterns, texts[0]).Some? {
      k := 0;
    } else {
      var k' := FirstDateAmongFirst(texts[1..]);
      k := k' + 1;
      assert texts[k] == texts[1..][k'];
      forall j | 0 <= j < k
        ensures FirstPatternMatch(Patterns, texts[j]).None?
      {
        if j > 0 {
          assert texts[j] == texts[1..][j - 1];
        }
      }
    }
  }

  /** The texts before the first one holding a date do not count. */
  lemma {:induction false} FirstDateAt(texts: seq<string>, k: nat)
    requires k < |texts| && FirstPatternMatch(Patterns, texts[k]).Some?
    requires forall j :: 0 <= j < k ==> FirstPatternMatch(Patterns, texts[j]).None?
    ensures FirstDateAmong(texts) == FirstPatternMatch(Patterns, texts[k])
    decreases k
  {
    if k > 0 {
      assert forall j :: 0 <= j < k - 1 ==> texts[1..][j] == texts[j + 1];
      FirstDateAt(texts[1..], k - 1);
    }
  }

  /**
    `find_date_near_element`: search the element's own text, then the texts
    of its parent's children in order; the empty string when nothing matches.
   */
  method FindDateNear(ownText: string, siblingTexts: seq<string>) returns (date: string)
    ensures date == FirstDateAmong([ownText] + siblingTexts).GetOr("")
  {
    ghost var texts := [ownText] + siblingTexts;
    date := FindDateIn(ownText);
    if date != "" {
      return;
    }
    for k := 0 to |siblingTexts|
      invariant forall j :: 0 <= j < k + 1 ==> FirstPatternMatch(Patterns, texts[j]).None?
    {
      date := FindDateIn(siblingTexts[k]);
      if date != "" {
        assert texts[k + 1] == siblingTexts[k];
        FirstDateAt(texts, k + 1);
        return;
      }
    }
    FirstDateAmongNone(texts);
    return "";
  }

  /**
    The first pattern wins even when a later pattern matches further left.
    This example and its helpers take the text as a parameter fixed by the
    precondition, so the verifier unfolds the search one position at a time.
   */
  lemma FirstPatternNotLeftmost(s: string)
    requires s == "2024-1-1 1.1.2024"
    ensures Search(YearDashMonthDay, s, 0) == Some("2024-1-1")
    ensures FirstPatternMatch(Patterns, s) == Some("1.1.2024")
  {
    assert YearMonthDayEnd(s, 0) == Some(8);
    assert s[0..8] == "2024-1-1";
    DotSearchFromStart(s);
  }

  lemma DotSearchFromStart(s: string)
    requires s == "2024-1-1 1.1.2024"
    ensures Search(DayDotMonthYear, s, 0) == Some("1.1.2024")
  {
    DotSearchFromYearEnd(s);
    assert ShortNumberThen(s, 2, '.').None? && ShortNumberThen(s, 1, '.').None? && ShortNumberThen(s, 0, '.').None?;
    assert Search(DayDotMonthYear, s, 2) == Some("1.1.2024");
    assert Search(DayDotMonthYear, s, 1) == Some("1.1.2024");
  }

  lemma DotSearchFromYearEnd(s: string)
    requires s == "2024-1-1 1.1.2024"
    ensures Search(DayDotMonthYear, s, 3) == Some("1.1.2024")
  {
    DotSearchFromMiddle(s);
    assert Search(DayDotMonthYear, s, 4) == Some("1.1.2024");
  }

  lemma DotSearchFromMiddle(s: string)
    requires s == "2024-1-1 1.1.2024"
    ensures Search(DayDotMonthYear, s, 5) == Some("1.1.2024")
  {
    assert DayMonthYearEnd(s, 9, '.') == Some(17);
    assert s[9..17] == "1.1.2024";
    assert Search(DayDotMonthYear, s, 9) == Some("1.1.2024");
    assert Search(DayDotMonthYear, s, 8) == Some("1.1.2024");
    assert Search(DayDotMonthYear, s, 7) == Some("1.1.2024");
    assert Search(DayDotMonthYear, s, 6) == Some("1.1.2024");
  }
}
