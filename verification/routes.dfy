/**
  The `/stream` route of both apps: the `u` query values are stripped and
  the blank ones dropped; with none left the request is refused, otherwise
  the response is the event stream for the remaining URLs. The two apps
  differ only in how a site's raw result becomes a record and in the table
  rows sent with `init`.
 */
module Routes {
  import opened Text
  import opened Urls
  import opened Fields
  import opened Events
  import HtmlRecord
  import TextRecord

  const BadRequest: nat := 400
  const NeedUrls: string := "Need at least one ?u="

  /** What the route answers: a refusal with its status and body, or the
      `text/event-stream` response carrying the events. */
  datatype Response = Refused(status: nat, body: string) | EventStream(events: seq<Event>)

  /** `stream()` with the app's table rows and record parser. */
  function Route(args: seq<string>, rows: seq<(Field, string)>,
                 analyze: (nat, string) -> Run, parse: (string, string) -> Record): (r: Response)
    ensures r.Refused? <==> forall i :: 0 <= i < |args| ==> Strip(args[i]) == []
    ensures r.Refused? ==> r.status == BadRequest && r.body == NeedUrls
    ensures r.EventStream? ==> NonBlank(args) != [] && r.events == StreamAnalysis(NonBlank(args), rows, analyze, parse)
  {
    var urls := NonBlank(args);
    if urls == [] then Refused(BadRequest, NeedUrls) else EventStream(StreamAnalysis(urls, rows, analyze, parse))
  }

  /** The parser of `app.py`: the raw result is HTML, which `soup` turns
      into the page the record is read from. */
  function HtmlParser(soup: string -> HtmlRecord.Page): (string, string) -> Record {
    (url: string, raw: string) => HtmlRecord.ParseHtml(soup(raw), url)
  }

  /** The `/stream` route of `app.py`. */
  function AppStream(args: seq<string>, analyze: (nat, string) -> Run,
                     soup: string -> HtmlRecord.Page): Response {
    Route(args, HtmlRecord.TableRows(), analyze, HtmlParser(soup))
  }

  /** The `/stream` route of `app_complete.py`. */
  function CompleteStream(args: seq<string>, analyze: (nat, string) -> Run): Response {
    Route(args, TextRecord.TableRows, analyze, TextRecord.ParseFields)
  }

  /** An accepted request announces in `init` as many sites as there are
      non-blank query values, and starts them in request order, each with a
      URL that names its scheme: all of them when every browser run
      returns, and otherwise those up to and including the first whose run
      raised. */
  lemma RouteStarts(args: seq<string>, rows: seq<(Field, string)>,
                    analyze: (nat, string) -> Run, parse: (string, string) -> Record)
    requires NonBlank(args) != []
    ensures var t := Route(args, rows, analyze, parse).events;
            var urls := NonBlank(args);
            var n := FirstRaised(urls, 0, analyze);
            && t[0] == Init(|urls|, rows) && |urls| > 0
            && |Starts(t)| == (if n < |urls| then n + 1 else |urls|)
            && forall k :: 0 <= k < |Starts(t)| ==>
                 Starts(t)[k] == (k + 1, NormalizeUrl(urls[k])) && HasScheme(Starts(t)[k].1)
  {
    var urls := NonBlank(args);
    var t := StreamAnalysis(urls, rows, analyze, parse);
    assert Route(args, rows, analyze, parse).events == t;
    assert t[0] == Init(|urls|, rows);
    StreamStarts(urls, rows, analyze, parse);
  }

  /** A request whose only query value is blank is refused; one whose only
      value is not blank streams exactly that one site, stripped and
      normalised. */
  lemma RouteSingle(u: string, rows: seq<(Field, string)>,
                    analyze: (nat, string) -> Run, parse: (string, string) -> Record)
    ensures Strip(u) == [] ==> Route([u], rows, analyze, parse) == Refused(BadRequest, NeedUrls)
    ensures Strip(u) != [] ==>
              && Route([u], rows, analyze, parse).EventStream?
              && Starts(Route([u], rows, analyze, parse).events) == [(1, NormalizeUrl(Strip(u)))]
  {
    NonBlankSingle(u);
    if Strip(u) != [] {
      var urls := [Strip(u)];
      assert Route([u], rows, analyze, parse).events == StreamAnalysis(urls, rows, analyze, parse);
      StreamStarts(urls, rows, analyze, parse);
    }
  }

  /** In `app.py`, the sites before the first raising browser run get a
      `result` each, and every record sent carries every field but the raw
      text, the company name derived from the site's URL, that URL, and an
      overall score that is either `"-"` or a decimal. */
  lemma AppResults(args: seq<string>, analyze: (nat, string) -> Run,
                   soup: string -> HtmlRecord.Page)
    requires NonBlank(args) != []
    ensures var rs := Results(AppStream(args, analyze, soup).events);
            var urls := NonBlank(args);
            && |rs| == FirstRaised(urls, 0, analyze)
            && forall k :: 0 <= k < |rs| && rs[k].2.Data? ==>
                 var r := rs[k].2.record;
                 && (forall f :: f in r <==> !f.Raw?)
                 && r[Company] == CompanyName(NormalizeUrl(urls[k]))
                 && r[Url] == NormalizeUrl(urls[k])
                 && (r[OverallScore] == Dash || HtmlRecord.IsOverallScore(r[OverallScore]))
  {
    var urls := NonBlank(args);
    var parse := HtmlParser(soup);
    StreamResults(urls, HtmlRecord.TableRows(), analyze, parse);
    var rs := Results(AppStream(args, analyze, soup).events);
    forall k | 0 <= k < |rs| && rs[k].2.Data?
      ensures var r := rs[k].2.record;
              && (forall f :: f in r <==> !f.Raw?)
              && r[Company] == CompanyName(NormalizeUrl(urls[k]))
              && r[Url] == NormalizeUrl(urls[k])
              && (r[OverallScore] == Dash || HtmlRecord.IsOverallScore(r[OverallScore]))
    {
      var url := NormalizeUrl(urls[k]);
      assert rs[k].2.record == HtmlRecord.ParseHtml(soup(analyze(k + 1, url).analysis.raw), url);
    }
  }

  /** In `app_complete.py`, the sites before the first raising browser run
      get a `result` each: a record exactly when the site's raw text is not
      empty, the parse of that text with the site's normalised URL, and
      otherwise the error message. */
  lemma CompleteResults(args: seq<string>, analyze: (nat, string) -> Run)
    requires NonBlank(args) != []
    ensures var rs := Results(CompleteStream(args, analyze).events);
            var urls := NonBlank(args);
            && |rs| == FirstRaised(urls, 0, analyze)
            && forall k :: 0 <= k < |rs| ==>
                 var url := NormalizeUrl(urls[k]);
                 && analyze(k + 1, url).Returned?
                 && var raw := analyze(k + 1, url).analysis.raw;
                 && (rs[k].2.Data? <==> raw != [])
                 && (rs[k].2.Data? ==> rs[k].2.record == TextRecord.ParseFields(url, raw))
                 && (rs[k].2.Error? ==> rs[k].2.message == NoResults)
  {
    StreamResults(NonBlank(args), TextRecord.TableRows, analyze, TextRecord.ParseFields);
  }
}
