/**
  Link handling of rss_generator.py: resolving root-relative hrefs against
  the site origin and recognising the calendar's navigation links.
 */
module Urls {
  import opened Text
  import opened Events

  /**
    An href that starts with `/` gets the site origin in front; any other
    href is kept as it is.
   */
  function Absolutize(href: string): (r: string)
    ensures EndsWith(r, href)
    ensures r != href <==> StartsWith(href, "/")
    ensures r != href ==> StartsWith(r, Origin) && |r| == |Origin| + |href|
    ensures !StartsWith(r, "/")
  {
    var r := if StartsWith(href, "/") then Origin + href else href;
    assert r[|r| - |href|..] == href;
    assert r != href ==> r[..|Origin|] == Origin && r[0] == 'h';
    r
  }

  /** The words that mark a link of the calendar's month and year filter. */
  const NavTerms: seq<string> := ["yil", "ocak", "şubat", "mart", "nisan", "mayıs", "haziran",
                                  "temmuz", "ağustos", "eylül", "ekim", "kasım", "aralık", "tümü"]

  /** A link is navigation when its lower-cased title contains one of the terms. */
  predicate IsNavTitle(title: string) {
    exists k :: 0 <= k < |NavTerms| && Contains(Lower(title), NavTerms[k])
  }

  /** Text added around a navigation title never turns it into an event title. */
  lemma NavTitleInContext(a: string, title: string, b: string)
    requires IsNavTitle(title)
    ensures IsNavTitle(a + title + b)
  {
    var k :| 0 <= k < |NavTerms| && Contains(Lower(title), NavTerms[k]);
    LowerAppend(a + title, b);
    LowerAppend(a, title);
    ContainsInContext(Lower(a), Lower(title), Lower(b), NavTerms[k]);
  }

  /** The filter's own words are skipped, in any ASCII capitalisation. */
  lemma NavTitleExamples()
    ensures IsNavTitle("Tümü")
    ensures IsNavTitle("MART")
  {
    assert Lower("Tümü") == "tümü" by {
      assert Lower("Tümü") == LowerChar('T') + Lower("ümü");
      assert Lower("ümü") == "ümü";
    }
    assert StartsWith("tümü", NavTerms[13]);
    assert Lower("MART") == "mart" by {
      assert Lower("MART") == LowerChar('M') + Lower("ART");
      assert Lower("ART") == LowerChar('A') + Lower("RT");
      assert Lower("RT") == LowerChar('R') + Lower("T");
    }
    assert StartsWith("mart", NavTerms[3]);
  }
}
