/** The article detail screen: the strings it shows, the text it shares and
    what its "open" button does. */
module NewsDetails {
  import opened Wrappers
  import opened KotlinStd
  import opened NewsModel

  const UnknownDate := "Unknown date"

  /** `formatDate`: the first ten characters (the `yyyy-MM-dd` part of an
      ISO timestamp); a null date, or a `substring(0, 10)` that throws
      because the text is too short, gives "Unknown date". */
  function FormatDate(d: Option<string>): (r: string)
    ensures d.Some? && |d.value| >= 10 ==> r == d.value[..10]
    ensures d.None? || |d.value| < 10 ==> r == UnknownDate
    ensures r == UnknownDate || (d.Some? && |r| == 10 && r <= d.value)
  {
    match d
    case None => UnknownDate
    case Some(s) =>
      match Substring(s, 0, 10)
      case Success(day) => day
      case Failure(_) => UnknownDate
  }

  /** Only the first ten characters matter, and a usable date is told apart
      from the fallback by its length. */
  lemma FormatDateReadsTenCharacters(s: string, t: string)
    requires |s| >= 10
    ensures FormatDate(Some(s + t)) == FormatDate(Some(s))
    ensures |FormatDate(Some(s))| == 10 != |UnknownDate|
  {
  }

  /** A full timestamp keeps its day. */
  lemma FormatIsoTimestamp()
    ensures FormatDate(Some("2024-01-15T10:00:00Z")) == "2024-01-15"
  {
  }

  /** The four text views of `displayArticleDetails`. */
  datatype Details = Details(title: string, description: string, source: string, published: string)

  function DisplayDetails(a: Article): (v: Details)
    ensures a.title.Some? ==> v.title == a.title.value
    ensures a.title.None? ==> v.title == "No title"
    ensures a.description.Some? ==> v.description == a.description.value
    ensures a.description.None? ==> v.description == "No description available"
    ensures SourceName(a).Some? ==> v.source == "Source: " + SourceName(a).value
    ensures SourceName(a).None? ==> v.source == "Source: Unknown"
    ensures v.published == "Published: " + FormatDate(a.publishedAt)
  {
    Details(
      a.title.GetOr("No title"),
      a.description.GetOr("No description available"),
      "Source: " + SourceName(a).GetOr("Unknown"),
      "Published: " + FormatDate(a.publishedAt))
  }

  /** The `ACTION_SEND` intent of `shareArticle`: plain text, the title as
      subject, and "title, blank line, url" as body with nulls printed as
      `null`. */
  datatype ShareIntent = ShareIntent(mimeType: string, subject: Option<string>, text: string)

  function Share(a: Article): (i: ShareIntent)
    ensures i.mimeType == "text/plain" && i.subject == a.title
    ensures |i.text| == |Interpolate(a.title)| + 2 + |Interpolate(a.url)|
    ensures Interpolate(a.title) <= i.text
    ensures i.text[|Interpolate(a.title)|..|Interpolate(a.title)| + 2] == "\n\n"
    ensures i.text[|Interpolate(a.title)| + 2..] == Interpolate(a.url)
  {
    var head := Interpolate(a.title) + "\n\n";
    assert head + Interpolate(a.url) == Interpolate(a.title) + "\n\n" + Interpolate(a.url);
    ShareIntent("text/plain", a.title, head + Interpolate(a.url))
  }

  /** The shared text cannot tell a missing title from the title "null". */
  lemma ShareTextHidesMissingTitle(a: Article)
    requires a.title.None?
    ensures Share(a).text == Share(a.(title := Some("null"))).text
    ensures Share(a).subject != Share(a.(title := Some("null"))).subject
  {
  }

  /** What `openArticleInBrowser` does. Whether a browser can handle the
      link is a property of the device, so it is a parameter. */
  datatype OpenOutcome = LaunchBrowser(url: string) | NoBrowserFound | NoUrlAvailable {

    /** The toast shown instead of a launch. */
    function Toast(): Option<string> {
      match this
      case LaunchBrowser(_) => None
      case NoBrowserFound => Some("Браузер не найден")
      case NoUrlAvailable => Some("No URL available")
    }
  }

  function OpenInBrowser(a: Article, browserAvailable: bool): (r: OpenOutcome)
    ensures r.NoUrlAvailable? <==> a.url.None?
    ensures r.LaunchBrowser? <==> a.url.Some? && browserAvailable
    ensures r.LaunchBrowser? ==> r.url == a.url.value
    ensures r.Toast().None? <==> r.LaunchBrowser?
  {
    match a.url
    case None => NoUrlAvailable
    case Some(u) => if browserAvailable then LaunchBrowser(u) else NoBrowserFound
  }
}
