# YTU event feed — a Dafny model of `rss_generator.py`

`rss_generator.py` scrapes the event calendar of Yıldız Teknik Üniversitesi
(YTU) and writes an RSS 2.0 feed. It tries several extraction strategies in
turn:

- event cards selected by CSS class;
- containers around `Saat :` (time) and `Yer :` (venue) labels;
- links whose href mentions an event;
- time and venue groups.

Every raw record (a dict with `title`, `url`, `date`, `time`, `location`,
`description`) then goes through one normalisation loop. That loop gives it a
title and a `combined_description`. `generate_rss` turns each record into an
`<item>` with a link, a guid and a `pubDate` parsed by `strptime`.

This project models the string-level logic of those steps and proves what it
promises. The modules are:

- `Text`: the Python string operations the script relies on, as functions:
  - `str.replace(label, '')` (a single left-to-right pass) and `strip()` (the `isspace` set);
  - `sep.join`, `in` and `lower()`;
  - a separator split, used to model how `strptime` reads its three tokens.
- `Events`: the record value (`EventInfo`), the constants of the site, and
  `EventRecord`. `EventRecord` is a class for the dicts the normalisation loop
  updates in place.
- `Urls`: root-relative href resolution and the navigation-link test.
- `DateSearch`: the four date regexes as deterministic matchers, and
  `re.search` as a leftmost scan. The ordered pattern loop, in which the first
  pattern that matches anywhere wins, is written as a function plus loops
  proved against it.
- `Containers`: title selection and the record `extract_event_from_container`
  builds.
- `Extraction`:
  - the card scan;
  - the labelled-container, link and grouping strategies;
  - the minimum-distance selection;
  - the group title synthesis.
  Each extraction loop is a method proved equal to a filter or map over the
  inputs; the nearest-label choice is specified by minimal distance and
  earliest index.
- `Normalization`: the normalisation loop over `EventRecord` objects, proved
  against a pure `Normalize`.
- `Feed`:
  - the item link and the guid;
  - `strptime` for the three formats, with `datetime.date` validity (leap years, days per month, years 1 to 9999);
  - the first-success format loop and the items loop.

Main results:

- After normalisation every title is non-empty and needs no further
  replacement. Normalisation is idempotent and changes no field but the title.
- The combined description is empty exactly when the date is empty or
  `Date not found` and the time, venue and description are all empty (title
  and URL play no part).
- The pattern search returns a match of the first pattern in list order, not
  the leftmost match. `FirstPatternNotLeftmost` exhibits a text where the two
  differ.
- Every valid date written with zero padding in any of the three formats
  parses back to itself (`PublicationDateRoundTrip`). At most one format
  parses any text.
- A guid built without a URL holds no space after its prefix. Titles that
  differ only by a space versus a dash get the same guid (`GuidCollision`).

## Model

| member | source | states |
|---|---|---|
| Urls.Absolutize | rss_generator.py:55-56 | an href starting with `/` becomes the origin followed by the href; any other href is kept unchanged; the result never starts with `/` |
| Urls.NavTitleInContext | rss_generator.py:121-124 | a title containing a navigation term stays navigation whatever text surrounds it (lower-casing distributes over concatenation) |
| Urls.NavTitleExamples | rss_generator.py:121-124 | "Tümü" and "MART" are skipped as navigation after lower-casing |
| Urls.IsNavTitle | rss_generator.py:121-124 | a title is navigation exactly when its `lower()` contains one of the fourteen terms `yil`, the twelve Turkish month names and `tümü` |
| Text.Contains | rss_generator.py:121-124 | Python's `p in s` for strings (also the label tests at lines 363 and 372): `p` is a prefix of `s` or of one of its suffixes |
| Text.ContainsIff | rss_generator.py:121-124 | `p in s` holds exactly when `p` occurs at some position of `s` |
| Text.Lower | rss_generator.py:121 | `str.lower()` character by character (ASCII and Latin-1 capitals, `Ğ`, `Ş`, and `İ` to `i` with a combining dot); never shorter than its input |
| Text.LowerAppend | rss_generator.py:121 | `lower()` of a concatenation is the concatenation of the `lower()`s |
| Text.RemoveAll | rss_generator.py:285 | removing every occurrence of a label never lengthens the text |
| Text.RemoveAllAbsent | rss_generator.py:288 | a text without the label is unchanged by the removal |
| Text.Strip | rss_generator.py:285 | `str.strip()`: the leading and then the trailing `isspace` characters removed; never longer than its input |
| Text.StripInfix | rss_generator.py:285 | `strip()` returns an infix that neither starts nor ends with whitespace, and only whitespace is cut on either side |
| Text.Join | rss_generator.py:306 | `sep.join(parts)` (also at lines 238, 291 and 548): the parts in order with one separator between neighbours, the empty text for no parts |
| Text.JoinEmptyIff | rss_generator.py:306 | joining non-empty parts gives the empty text exactly when there are no parts |
| Text.JoinEnds | rss_generator.py:306 | a join starts with its first part and ends with its last |
| Text.JoinAppend | rss_generator.py:306 | joining two non-empty runs of parts puts exactly one separator between their joins |
| Text.Split | rss_generator.py:567 | the pieces of a text between occurrences of a separator, at least one; this is how the model reads the three `strptime` tokens of a date |
| Text.SplitJoin | rss_generator.py:567 | the pieces of a split hold no separator and join back to the original text |
| Normalization.CleanTime | rss_generator.py:285 | `time.replace('Saat :', '').strip()` (also line 298): the result is never longer than the value, neither starts nor ends with whitespace, and is the value merely stripped when it holds no label |
| Normalization.CleanLocation | rss_generator.py:288 | `location.replace('Yer :', '').strip()` (also line 301): the result is never longer than the value, neither starts nor ends with whitespace, and is the value merely stripped when it holds no label |
| Normalization.SynthesizedTitle | rss_generator.py:283-291 | the synthesised title is non-empty and starts with neither label |
| Normalization.SynthesizedTitleCases | rss_generator.py:283-291 | the synthesised title is `Etkinlik <time> - <venue>`, `Etkinlik <time>`, `- <venue>` or `YTU Etkinlik`, by which fields are set, with labels removed and whitespace stripped |
| Normalization.Normalize | rss_generator.py:282-306 | one pass of the loop body on a record's values: the title replaced by the synthesised one when it is empty or starts with a label, and the combined description built from the resulting fields |
| Normalization.CombinedDescription | rss_generator.py:294-306 | the `\n\n` join of `Tarih: <date>` (date set and not `Date not found`), `Saat: <cleaned time>`, `Yer: <cleaned venue>` and the raw description, each only when its field is set, in that order |
| Normalization.NormalizeSpec | rss_generator.py:280-306 | a normalised title is non-empty and needs no replacing; it is the old title when that needed none, else the synthesised one; no other field changes; the combined description is built from the new fields |
| Normalization.NormalizeIdempotent | rss_generator.py:282-306 | normalising a normalised record changes nothing |
| Normalization.CombinedEmptyIff | rss_generator.py:294-306 | the combined description is empty exactly when the date is unset or not found and time, venue and description are empty |
| Normalization.CombinedEnds | rss_generator.py:294-306 | the combined description starts with `Tarih: <date>` when the date is set, otherwise with `Saat: ` and the cleaned time when the time is set, and ends with the raw description when there is one |
| Normalization.CombinedSplitsAtLocation | rss_generator.py:294-306 | with a venue and an earlier part, the combined description is the date and time parts, a blank line, then the venue and description parts, in that order |
| Normalization.CombinedOnlyDescription | rss_generator.py:303-306 | an event with only a description gets the description verbatim |
| Normalization.CleanTimeExample | rss_generator.py:285 | `Saat : 14:00` cleans to `14:00` |
| Normalization.RemovalIsSinglePass | rss_generator.py:285 | removal is a single pass: `SaSaat :at :` leaves `Saat :` behind |
| Normalization.FixTitle | rss_generator.py:282-291 | the record's fields become those of `Normalize` on the old fields; the combined description is untouched |
| Normalization.StoreCombinedDescription | rss_generator.py:294-306 | the six fields are untouched and the stored combined description is the one built from them |
| Normalization.NormalizeRecord | rss_generator.py:281-306 | one loop pass leaves the record holding exactly `Normalize` of its old fields |
| Normalization.NormalizeEvents | rss_generator.py:279-311 | the processed list is the input list, same objects in the same order, and each record holds `Normalize` of its old fields |
| Containers.FirstHeading | rss_generator.py:355-365 | the first heading candidate that is present, non-empty and label-free; none exactly when no candidate qualifies |
| Containers.FirstParagraph | rss_generator.py:368-374 | the first paragraph longer than 10 characters and label-free; none exactly when none qualifies |
| Containers.ContainerTitle | rss_generator.py:355-374 | the first qualifying heading, else the first qualifying paragraph cut to 100 characters, else empty; a non-empty title carries no label |
| Containers.PrefixHasNoLabel | rss_generator.py:373 | cutting a label-free paragraph to 100 characters cannot create a label |
| Containers.ContainerTitleShape | rss_generator.py:355-374 | the container title is empty exactly when nothing qualifies, carries no label, and has at most 100 characters unless it comes from a heading |
| Containers.SelectTitle | rss_generator.py:360-374 | the two early-exit loops return the container title |
| Containers.ContainerEvent | rss_generator.py:333-399 | the container record: the looked-up time and venue, the container title, the resolved first link, the first-pattern date of the container text; its description is empty, its title carries no label, and a date it holds has at least 8 characters |
| Containers.ExtractFromContainer | rss_generator.py:333-399 | the fields read in order make the container's record |
| Containers.ContainerEventShape | rss_generator.py:333-399 | a container record has no description, a label-free title and a non-relative link; its date is empty exactly when no pattern matches the container text |
| DateSearch.MatchEnd | rss_generator.py:385-390 | a date match is at least 8 characters long and starts and ends with a digit |
| DateSearch.Search | rss_generator.py:394 | `re.search(pattern, text).group(0)`: the match at the leftmost position where the pattern matches, at least 8 characters long; none when no position matches |
| DateSearch.FirstPatternMatch | rss_generator.py:393-397 | the match of the first pattern in list order that matches anywhere in the text, at least 8 characters long |
| DateSearch.FirstDateAmong | rss_generator.py:412-426 | the first-pattern date of the first text, the element's own before its siblings', that holds one, at least 8 characters long |
| DateSearch.SearchNone | rss_generator.py:394 | `re.search` finds nothing only when no position starts a match |
| DateSearch.SearchLeftmost | rss_generator.py:394 | a found match starts at the leftmost position where the pattern matches, and is the text there |
| DateSearch.FirstPatternMatchSpec | rss_generator.py:393-397 | there is no date exactly when no pattern matches; otherwise the date is the match of the first pattern, in list order, that matches |
| DateSearch.FirstPatternWins | rss_generator.py:393-397 | when pattern k matches and no earlier pattern does, the date is pattern k's match; when there is no date, pattern k does not match |
| DateSearch.NoPatternNoMatch | rss_generator.py:393-397 | when no pattern matches, the date is empty |
| DateSearch.FindDateIn | rss_generator.py:392-397 | the pattern loop with its early exit returns the first-pattern match, or the empty text |
| DateSearch.FirstDateAmongNone | rss_generator.py:401-428 | the nearby search finds nothing exactly when neither the element text nor any sibling text holds a date |
| DateSearch.FirstDateAmongFirst | rss_generator.py:412-426 | a nearby date comes from the first text, element before siblings, that holds a date |
| DateSearch.FirstDateAt | rss_generator.py:417-426 | the first text holding a date supplies the nearby date |
| DateSearch.FindDateNear | rss_generator.py:401-428 | the nested early-exit loops return the first date of the element text, then the sibling texts, or the empty text |
| DateSearch.FirstPatternNotLeftmost | rss_generator.py:405-415 | in `2024-1-1 1.1.2024` the year-first pattern matches first in the text, yet the result is `1.1.2024`, the match of the earlier pattern |
| Extraction.FilterMembers | rss_generator.py:79-80 | a record is kept exactly when it is in the input and passes the test |
| Extraction.BuildCardRecord | rss_generator.py:37-76 | the card's record: each field whose selector found something holds that text, the link resolved; each other field is empty |
| Extraction.ScanCards | rss_generator.py:36-80 | the records of the cards, in order, keeping those with a title |
| Extraction.FromLabelledContainers | rss_generator.py:100-107 | the records of the found containers, in order, keeping those with a title or a description |
| Extraction.BuildLinkRecord | rss_generator.py:113-140 | no record for a navigation title; otherwise the link's record with the resolved URL and the nearby date |
| Extraction.FromEventLinks | rss_generator.py:111-140 | the records of the links, in order, with navigation links skipped |
| Extraction.NearestIndex | rss_generator.py:195-203 | none exactly when there are no time labels; otherwise an index of minimal distance, the earliest such one |
| Extraction.GroupTitle | rss_generator.py:229-240 | a set title is kept; otherwise exactly `Etkinlik - <time>` with only a time, a title starting with it when there is also a venue, exactly `at <venue>` with only a venue, or `YTU Event <key>`; never empty |
| Extraction.GroupTitleBoth | rss_generator.py:231-238 | with time and venue the title is `Etkinlik - <time> at <venue>` |
| Extraction.TitleGroup | rss_generator.py:229-240 | only the record's title changes, to its group title |
| Extraction.TitleGroups | rss_generator.py:228-243 | the records are returned in order, each with its group title and no other change |
| Feed.DaysInMonth | rss_generator.py:567 | a month has 28 to 31 days |
| Feed.ParseDate | rss_generator.py:567 | a parsed date is a valid calendar date |
| Feed.ParseFormatRoundTrip | rss_generator.py:558-567 | a valid date written zero-padded in a format parses back to itself in that format |
| Feed.FormatsExclusive | rss_generator.py:558-562 | a text one format parses is rejected by the other two |
| Feed.FirstParse | rss_generator.py:565-570 | none exactly when every format fails; otherwise the parse of the first format in order that succeeds, a valid date |
| Feed.PublicationDate | rss_generator.py:555-577 | a parsed publication date is valid, and comes from neither the empty text nor `Date not found` |
| Feed.PublicationDateOfParse | rss_generator.py:556-570 | a text other than `Date not found` that some format parses gets that parse as its publication date |
| Feed.ParsePubDate | rss_generator.py:555-573 | the format loop with its break returns the publication date |
| Feed.PublicationDateRoundTrip | rss_generator.py:556-573 | whichever format a valid date is written in, zero-padded, the feed reads it back |
| Feed.ThirtyFirstOfFebruaryRejected | rss_generator.py:567 | `31.02.2024` does not parse |
| Feed.LeapDayOfCommonYearRejected | rss_generator.py:567 | `29.02.2023` does not parse |
| Feed.LeapDayOfLeapYearAccepted | rss_generator.py:567 | `29.02.2024` parses to 29 February 2024 |
| Feed.UnpaddedAccepted | rss_generator.py:556-570 | `5.3.2024` and ` 5.3.2024` (a space before the day) parse to 5 March 2024, and that is the item's publication date |
| Feed.YearFirstUnpaddedAccepted | rss_generator.py:556-570 | `2024-1-1` parses in the third format to 1 January 2024, and that is the item's publication date |
| Feed.OverlongYearRejected | rss_generator.py:567 | `5.3.20245` does not parse |
| Feed.ItemLink | rss_generator.py:533 | the item link is the URL when set, otherwise the landing page; never empty |
| Feed.ReplaceSpaces | rss_generator.py:548 | same length; every space becomes `-` and every other character is kept |
| Feed.ItemGuid | rss_generator.py:539-549 | the guid is the URL when set; otherwise exactly the event prefix followed by the title, `-` and the date when set, `-` and the time when set, with every space made a dash, so no space follows the prefix |
| Feed.GuidJoin | rss_generator.py:543-548 | the dash join of the guid components is the title followed by `-<date>` and `-<time>` for the set ones |
| Feed.GuidCollision | rss_generator.py:548 | titles that differ only by a space versus a dash get the same guid |
| Feed.FeedItem | rss_generator.py:526-573 | the item carries the title, the item link, the combined description (empty when missing), the item guid and the publication date, which is valid when present |
| Feed.BuildItems | rss_generator.py:526-573 | one item per record, in order, each derived from that record |

## Left out

- HTTP fetching and the catch-all handlers (lines 19-24, 313-318) are network I/O. A failed fetch is not modelled.
- The CSS selection and DOM traversal of BeautifulSoup are left out:
  - `select`, `find`, `find_all`, `find_next`, `find_previous`;
  - `find_parent_container`;
  - `find_time_near_element`, `find_location_near_element` and `find_title_near_element`.
  Their results are inputs: `Card`, `ContainerView` and `LinkView` hold the texts they would return.
- `dom_distance` depends on the library's serialisation of tags. Distances are an input sequence of `NearestIndex`.
- The time and venue grouping (lines 152-225) is left out except the nearest-label selection and the title pass that follows it. It keys records by `list.index` over tag equality and mutates a dict.
- The page-text regex fallback (lines 246-276) is left out. Its backtracking title window and its negative slice start depend on Python regex and slicing details.
- The order of the strategies is left out: each strategy is modelled separately, and the rule that a later one runs only when the earlier ones found nothing is left out as well.
- The XML tree, `minidom` pretty-printing, file writing and the `__main__` block are not modelled.
- `datetime.now()` is not modelled. `pubDate` is `None` where the script falls back to the current time.
- The RFC 822 text of a date (`%a`, `%b`, the time zone) is not modelled. An item carries the parsed date.
- `\d` and `\w` are ASCII in the model; `\w` also accepts the Turkish letters. Python also accepts other Unicode digits and letters.
- `lower()` covers ASCII, Latin-1, `Ğ`, `Ş` and `İ` (which becomes `i` followed by U+0307). Other scripts are not modelled.
- The extraction strategies build fresh dicts, so they are modelled as methods that return `EventInfo` values. Only the normalisation and title loops work on `EventRecord` objects. The model does not capture that `processed_events` aliases the input dicts beyond returning the same objects.
- DateSearch.FindDateIn: its contract only ties the result to `FirstPatternMatch`. The first-pattern and leftmost properties are proved about that function in `FirstPatternMatchSpec`, `FirstPatternWins` and `SearchLeftmost`.
- DateSearch.FindDateNear: its contract only ties the result to `FirstDateAmong`. Its properties are proved in `FirstDateAmongNone`, `FirstDateAmongFirst` and `FirstDateAt`.
- Normalization.Normalize: carries no ensures of its own, because each one multiplies the cost of the loop proof; its properties are proved in `NormalizeSpec` and `NormalizeIdempotent`.
- Normalization.CombinedDescription: carries no ensures of its own for the same reason; its properties are proved in `CombinedEmptyIff`, `CombinedEnds`, `CombinedSplitsAtLocation` and `CombinedOnlyDescription`.
- DateSearch.Search: its own contract gives only the length of a match; leftmost and no-match are proved in `SearchLeftmost` and `SearchNone`.
- DateSearch.FirstPatternMatch: its own contract gives only the length of a match; first-pattern-wins is proved in `FirstPatternMatchSpec` and `FirstPatternWins`.
- DateSearch.FirstDateAmong: its own contract gives only the length of a match; the order of the texts is proved in `FirstDateAmongNone`, `FirstDateAmongFirst` and `FirstDateAt`.
- Containers.ContainerEvent: its own contract gives the empty description, the label-free title and the length of a date; the link and the no-match case are proved in `ContainerEventShape`.
- Text.Strip: its own contract gives only the length bound; what is cut is proved in `StripInfix`.
- Text.Lower: its own contract gives only the length bound; the character mapping is its definition.
- Text.Join: carries no ensures of its own, because it sits inside every combined description and title the loop proofs unfold; its properties are proved in `JoinEmptyIff`, `JoinEnds`, `JoinAppend` and `SplitJoin`.
- Text.Split: its own contract gives only that there is at least one piece; that the pieces hold no separator and join back to the text is proved in `SplitJoin`.
- Text.Contains: carries no ensures of its own; its meaning as an occurrence at some position is proved in `ContainsIff`.
- Normalization.CleanTime: the single-pass removal is its definition. Because the pass is single, a label can survive it (`RemovalIsSinglePass`), so the result is not promised to be label-free.
- Normalization.CleanLocation: the same single-pass removal with the venue label; its result is not promised to be label-free either.
- DateSearch.MatchEnd: states length and digit bounds only. The exact language of each regex is the matcher's definition.
