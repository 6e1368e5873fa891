/**
  The event record of rss_generator.py: a dictionary with the keys `title`,
  `url`, `date`, `time`, `location` and `description`, to which the
  normalisation step adds `combined_description`.
 */
module Events {
  import opened Wrappers

  /** The label that marks a time text on the events page. */
  const TimeLabel := "Saat :"
  /** The label that marks a venue text on the events page. */
  const LocationLabel := "Yer :"
  /** The date sentinel that the combined description and the feed ignore. */
  const DateNotFound := "Date not found"
  /** The site origin that root-relative links are resolved against. */
  const Origin := "https://www.yildiz.edu.tr"
  /** The events landing page; the fallback link of a feed item. */
  const LandingPage := "https://www.yildiz.edu.tr/universite/haberler/ytu-etkinlik-takvimi"

  /** A snapshot of the six extracted fields of an event dictionary. */
  datatype EventInfo = EventInfo(
    title: string,
    url: string,
    date: string,
    time: string,
    location: string,
    description: string)

  /** A snapshot of a normalised event dictionary. */
  datatype NormalizedEvent = NormalizedEvent(info: EventInfo, combinedDescription: string)

  /** The empty record every extraction strategy starts from. */
  const Blank := EventInfo("", "", "", "", "", "")

  /**
    An event dictionary as a mutable object: the normalisation step and the
    group title step update its fields in place; `combinedDescription` is
    `None` while the dictionary has no `combined_description` key.
   */
  class EventRecord {
    var title: string
    var url: string
    var date: string
    var time: string
    var location: string
    var description: string
    var combinedDescription: Option<string>

    constructor (info: EventInfo)
      ensures Info() == info && combinedDescription == None
    {
      title := info.title;
      url := info.url;
      date := info.date;
      time := info.time;
      location := info.location;
      description := info.description;
      combinedDescription := None;
    }

    /** The six extracted fields as they stand now. */
    function Info(): EventInfo
      reads this
    {
      EventInfo(title, url, date, time, location, description)
    }
  }
}
