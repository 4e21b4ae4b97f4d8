/**
  The event stream `stream_analysis` produces for a batch of sites, in both
  apps. The browser run for a site is an opaque `analyze` parameter: it
  returns the raw result (HTML in `app.py`, text in `app_complete.py`) and
  the debug log, or raises, which ends the stream. The parser that turns a
  non-empty result into a record is a `parse` parameter. The stream is the
  list of typed events; their wire framing is in module `Sse`.
 */
module Events {
  import opened Text
  import opened Urls
  import opened Fields

  /** The payload of a `result` event: a record or an error message. */
  datatype Outcome = Data(record: Record) | Error(message: string)

  datatype Event =
    | Init(total: nat, rows: seq<(Field, string)>)
    | StartUrl(index: nat, url: string)
    | Progress(index: nat, phase: string, p: nat, of: nat)
    | Debug(index: nat, message: string)
    | Result(index: nat, url: string, outcome: Outcome)
    | Done(ok: bool)
  {
    /** The `event:` name the event is sent under. */
    function Name(): string {
      match this
      case Init(_, _) => "init"
      case StartUrl(_, _) => "start_url"
      case Progress(_, _, _, _) => "progress"
      case Debug(_, _) => "debug"
      case Result(_, _, _) => "result"
      case Done(_) => "done"
    }

    /** The site an event is about; `init` and `done` are about none. */
    predicate About(i: nat) {
      match this
      case Init(_, _) => false
      case Done(_) => false
      case StartUrl(index, _) => index == i
      case Progress(index, _, _, _) => index == i
      case Debug(index, _) => index == i
      case Result(index, _, _) => index == i
    }
  }

  /** What the browser run for one site returns: the raw result, empty when
      nothing was found, and the debug log. */
  datatype Analysis = Analysis(raw: string, log: seq<string>)

  /** How the browser run for one site ends. `_analyze_one_with_debugging`
      catches what its `try` body raises and still returns its log; an
      exception from creating the driver, from `WebDriverWait` or from
      `driver.quit()` in the `finally` escapes it, and the generator with
      it. */
  datatype Run = Returned(analysis: Analysis) | Raised

  /** The number of steps each site's progress counts to. */
  const StepTotal: nat := 5
  const NoResults: string := "No results found - check debug log"

  /** The phase names of the four progress events of a site, in order. */
  const Phases: seq<string> := ["Creating fresh browser", "Submitting to RateMySite", "Parsing output", "Done"]

  /** One `debug` event per log message, in log order. (The ensures unfold
      the body for the stream lemmas.) */
  function DebugEvents(index: nat, log: seq<string>): (evs: seq<Event>)
    ensures |evs| == |log|
    ensures forall i :: 0 <= i < |evs| ==> evs[i] == Debug(index, log[i])
  {
    seq(|log|, i requires 0 <= i < |log| => Debug(index, log[i]))
  }

  /** A `result` carries the parsed record exactly when the raw result is
      not empty, and the fixed error message otherwise. (The ensures unfold
      the body for the stream lemmas.) */
  function ResultOutcome(url: string, raw: string, parse: (string, string) -> Record): (o: Outcome)
    ensures o.Data? <==> raw != []
    ensures o.Data? ==> o.record == parse(url, raw)
    ensures o.Error? ==> o.message == NoResults
  {
    if raw != [] then Data(parse(url, raw)) else Error(NoResults)
  }

  /** The events for the site at (1-based) `index`, whose normalised URL is
      `url` and whose browser run gave `a`. */
  function SiteEvents(index: nat, url: string, a: Analysis, parse: (string, string) -> Record): seq<Event> {
    SiteHead(index, url) + DebugEvents(index, a.log) + SiteTail(index, url, ResultOutcome(url, a.raw, parse))
  }

  /** `start_url`, then progress 1 and 2: before the browser runs. */
  function SiteHead(index: nat, url: string): seq<Event> {
    [StartUrl(index, url),
     Progress(index, Phases[0], 1, StepTotal),
     Progress(index, Phases[1], 2, StepTotal)]
  }

  /** Progress 3, the `result`, progress 4: after the browser ran. */
  function SiteTail(index: nat, url: string, o: Outcome): seq<Event> {
    [Progress(index, Phases[2], 3, StepTotal),
     Result(index, url, o),
     Progress(index, Phases[3], 4, StepTotal)]
  }

  /** The site at position `k` of the batch: its 1-based index and its
      normalised URL. */
  function SiteUrl(urls: seq<string>, k: nat): string
    requires k < |urls|
  {
    NormalizeUrl(urls[k])
  }

  /** The position of the first site, from `from` on, whose browser run
      raises, or the batch size when every run returns. */
  function FirstRaised(urls: seq<string>, from: nat, analyze: (nat, string) -> Run): (n: nat)
    requires from <= |urls|
    ensures from <= n <= |urls|
    ensures n < |urls| ==> analyze(n + 1, SiteUrl(urls, n)).Raised?
    decreases |urls| - from
  {
    if from == |urls| then from
    else if analyze(from + 1, SiteUrl(urls, from)).Raised? then from
    else FirstRaised(urls, from + 1, analyze)
  }

  /** Every run before the first raising one returns. */
  lemma {:induction false} BeforeFirstRaised(urls: seq<string>, from: nat, analyze: (nat, string) -> Run, k: nat)
    requires from <= |urls| && from <= k < FirstRaised(urls, from, analyze)
    ensures analyze(k + 1, SiteUrl(urls, k)).Returned?
    decreases |urls| - from
  {
    if from < k {
      BeforeFirstRaised(urls, from + 1, analyze, k);
    }
  }

  /** No run raises exactly when the first raising position is the batch
      size. */
  lemma AllReturned(urls: seq<string>, analyze: (nat, string) -> Run)
    ensures FirstRaised(urls, 0, analyze) == |urls|
            <==> forall k :: 0 <= k < |urls| ==> analyze(k + 1, SiteUrl(urls, k)).Returned?
  {
    if FirstRaised(urls, 0, analyze) == |urls| {
      forall k | 0 <= k < |urls|
        ensures analyze(k + 1, SiteUrl(urls, k)).Returned?
      {
        BeforeFirstRaised(urls, 0, analyze, k);
      }
    }
  }

  /** The events of the loop over the sites from position `from` on: each
      site's events in batch order, then `done` once the loop has finished.
      The browser run may give different results for the same URL at
      different positions, so `analyze` sees the position too. A run that
      raises ends the generator right after its site's head, so neither the
      later sites nor `done` are sent. */
  function Sites(urls: seq<string>, from: nat, analyze: (nat, string) -> Run,
                 parse: (string, string) -> Record): seq<Event>
    requires from <= |urls|
    decreases |urls| - from
  {
    if from == |urls| then [Done(true)]
    else
      var url := SiteUrl(urls, from);
      var run := analyze(from + 1, url);
      if run.Raised? then SiteHead(from + 1, url)
      else SiteEvents(from + 1, url, run.analysis, parse) + Sites(urls, from + 1, analyze, parse)
  }

  /** One step of the loop over a site whose run returned. */
  lemma SitesReturnedStep(urls: seq<string>, from: nat, analyze: (nat, string) -> Run,
                          parse: (string, string) -> Record)
    requires from < |urls| && analyze(from + 1, SiteUrl(urls, from)).Returned?
    ensures var url := SiteUrl(urls, from);
            Sites(urls, from, analyze, parse)
            == SiteEvents(from + 1, url, analyze(from + 1, url).analysis, parse) + Sites(urls, from + 1, analyze, parse)
  {
  }

  /** `stream_analysis`: `init` with the batch size and the table rows, then
      the loop over the sites. */
  function StreamAnalysis(urls: seq<string>, rows: seq<(Field, string)>,
                          analyze: (nat, string) -> Run, parse: (string, string) -> Record): seq<Event> {
    [Init(|urls|, rows)] + Sites(urls, 0, analyze, parse)
  }

  // ---- projections of a trace ----

  /** `f` applied to each element, the results concatenated in order. */
  function FlatMap<A, B>(xs: seq<A>, f: A -> seq<B>): seq<B> {
    if xs == [] then [] else f(xs[0]) + FlatMap(xs[1..], f)
  }

  lemma {:induction false} FlatMapConcat<A, B>(a: seq<A>, b: seq<A>, f: A -> seq<B>)
    ensures FlatMap(a + b, f) == FlatMap(a, f) + FlatMap(b, f)
  {
    if a == [] {
      assert a + b == b;
    } else {
      assert (a + b)[0] == a[0];
      assert (a + b)[1..] == a[1..] + b;
      FlatMapConcat(a[1..], b, f);
    }
  }

  /** When each element maps to exactly the matching element of `ys`, the
      projection is `ys`. */
  lemma {:induction false} FlatMapSingletons<A, B>(xs: seq<A>, f: A -> seq<B>, ys: seq<B>)
    requires |xs| == |ys| && forall i :: 0 <= i < |xs| ==> f(xs[i]) == [ys[i]]
    ensures FlatMap(xs, f) == ys
  {
    if xs != [] {
      FlatMapSingletons(xs[1..], f, ys[1..]);
      assert ys == [ys[0]] + ys[1..];
    }
  }

  lemma {:induction false} FlatMapNone<A, B>(xs: seq<A>, f: A -> seq<B>)
    requires forall i :: 0 <= i < |xs| ==> f(xs[i]) == []
    ensures FlatMap(xs, f) == []
  {
    if xs != [] {
      FlatMapNone(xs[1..], f);
    }
  }

  lemma FlatMapOne<A, B>(x: A, f: A -> seq<B>)
    ensures FlatMap([x], f) == f(x)
  {
    assert [x][1..] == [];
  }

  lemma FlatMapThree<A, B>(x: A, y: A, z: A, f: A -> seq<B>)
    ensures FlatMap([x, y, z], f) == f(x) + f(y) + f(z)
  {
    assert [x, y, z] == [x] + [y] + [z];
    FlatMapConcat([x] + [y], [z], f);
    FlatMapConcat([x], [y], f);
    FlatMapOne(x, f);
    FlatMapOne(y, f);
    FlatMapOne(z, f);
  }

  function StartOf(e: Event): seq<(nat, string)> {
    if e.StartUrl? then [(e.index, e.url)] else []
  }

  function ResultOf(e: Event): seq<(nat, string, Outcome)> {
    if e.Result? then [(e.index, e.url, e.outcome)] else []
  }

  function ProgressOf(e: Event): seq<(nat, nat, string)> {
    if e.Progress? then [(e.p, e.of, e.phase)] else []
  }

  function DebugOf(e: Event): seq<string> {
    if e.Debug? then [e.message] else []
  }

  function AboutSite(i: nat): Event -> seq<Event> {
    (e: Event) => if e.About(i) then [e] else []
  }

  /** The `start_url` events of a trace, as (index, url). */
  function Starts(t: seq<Event>): seq<(nat, string)> {
    FlatMap(t, StartOf)
  }

  /** The `result` events of a trace, as (index, url, outcome). */
  function Results(t: seq<Event>): seq<(nat, string, Outcome)> {
    FlatMap(t, ResultOf)
  }

  /** The progress events of a trace, as (p, of, phase). */
  function Progresses(t: seq<Event>): seq<(nat, nat, string)> {
    FlatMap(t, ProgressOf)
  }

  /** The debug messages of a trace, in trace order. */
  function Debugs(t: seq<Event>): seq<string> {
    FlatMap(t, DebugOf)
  }

  /** The events of a trace about site `i`, in trace order. */
  function About(t: seq<Event>, i: nat): seq<Event> {
    FlatMap(t, AboutSite(i))
  }

  /** The `debug` events of a log contribute no `start_url`, no `result`
      and no progress, and their messages are the log, in order. */
  lemma DebugProjections(index: nat, log: seq<string>)
    ensures Starts(DebugEvents(index, log)) == []
    ensures Results(DebugEvents(index, log)) == []
    ensures Progresses(DebugEvents(index, log)) == []
    ensures Debugs(DebugEvents(index, log)) == log
  {
    var evs := DebugEvents(index, log);
    FlatMapNone(evs, StartOf);
    FlatMapNone(evs, ResultOf);
    FlatMapNone(evs, ProgressOf);
    FlatMapSingletons(evs, DebugOf, log);
  }

  lemma DebugAbout(index: nat, log: seq<string>, i: nat)
    ensures About(DebugEvents(index, log), i) == (if i == index then DebugEvents(index, log) else [])
  {
    var evs := DebugEvents(index, log);
    if i == index {
      FlatMapSingletons(evs, AboutSite(i), evs);
    } else {
      FlatMapNone(evs, AboutSite(i));
    }
  }

  lemma AboutConcat(a: seq<Event>, b: seq<Event>, i: nat)
    ensures About(a + b, i) == About(a, i) + About(b, i)
  {
    FlatMapConcat(a, b, AboutSite(i));
  }

  /** Each site has a single `start_url`, for this site. */
  lemma SiteStarts(index: nat, url: string, a: Analysis, parse: (string, string) -> Record)
    ensures Starts(SiteEvents(index, url, a, parse)) == [(index, url)]
  {
    var o := ResultOutcome(url, a.raw, parse);
    FlatMapConcat(SiteHead(index, url) + DebugEvents(index, a.log), SiteTail(index, url, o), StartOf);
    FlatMapConcat(SiteHead(index, url), DebugEvents(index, a.log), StartOf);
    DebugProjections(index, a.log);
    var h, t := SiteHead(index, url), SiteTail(index, url, o);
    FlatMapThree(h[0], h[1], h[2], StartOf);
    FlatMapThree(t[0], t[1], t[2], StartOf);
  }

  /** Each site has a single `result`, for this site. */
  lemma SiteResults(index: nat, url: string, a: Analysis, parse: (string, string) -> Record)
    ensures Results(SiteEvents(index, url, a, parse)) == [(index, url, ResultOutcome(url, a.raw, parse))]
  {
    var o := ResultOutcome(url, a.raw, parse);
    FlatMapConcat(SiteHead(index, url) + DebugEvents(index, a.log), SiteTail(index, url, o), ResultOf);
    FlatMapConcat(SiteHead(index, url), DebugEvents(index, a.log), ResultOf);
    DebugProjections(index, a.log);
    var h, t := SiteHead(index, url), SiteTail(index, url, o);
    FlatMapThree(h[0], h[1], h[2], ResultOf);
    FlatMapThree(t[0], t[1], t[2], ResultOf);
  }

  /** A site's progress runs through steps 1 to 4 out of 5 with their
      phase names, so the step count rises strictly and stays below the
      total. */
  lemma SiteProgress(index: nat, url: string, a: Analysis, parse: (string, string) -> Record)
    ensures var ps := Progresses(SiteEvents(index, url, a, parse));
            && ps == [(1, StepTotal, Phases[0]), (2, StepTotal, Phases[1]),
                      (3, StepTotal, Phases[2]), (4, StepTotal, Phases[3])]
            && forall i, j :: 0 <= i < j < |ps| ==> ps[i].0 < ps[j].0 < ps[j].1
  {
    var o := ResultOutcome(url, a.raw, parse);
    FlatMapConcat(SiteHead(index, url) + DebugEvents(index, a.log), SiteTail(index, url, o), ProgressOf);
    FlatMapConcat(SiteHead(index, url), DebugEvents(index, a.log), ProgressOf);
    DebugProjections(index, a.log);
    var h, t := SiteHead(index, url), SiteTail(index, url, o);
    FlatMapThree(h[0], h[1], h[2], ProgressOf);
    FlatMapThree(t[0], t[1], t[2], ProgressOf);
  }

  /** A site's debug events carry its log, in log order. */
  lemma SiteDebugs(index: nat, url: string, a: Analysis, parse: (string, string) -> Record)
    ensures Debugs(SiteEvents(index, url, a, parse)) == a.log
  {
    var o := ResultOutcome(url, a.raw, parse);
    FlatMapConcat(SiteHead(index, url) + DebugEvents(index, a.log), SiteTail(index, url, o), DebugOf);
    FlatMapConcat(SiteHead(index, url), DebugEvents(index, a.log), DebugOf);
    DebugProjections(index, a.log);
    var h, t := SiteHead(index, url), SiteTail(index, url, o);
    FlatMapThree(h[0], h[1], h[2], DebugOf);
    FlatMapThree(t[0], t[1], t[2], DebugOf);
  }

  /** Every event of a site's block is about that site and no other. */
  lemma SiteAbout(index: nat, url: string, a: Analysis, parse: (string, string) -> Record, i: nat)
    ensures About(SiteEvents(index, url, a, parse), i) == (if i == index then SiteEvents(index, url, a, parse) else [])
  {
    var o := ResultOutcome(url, a.raw, parse);
    var h, d, t := SiteHead(index, url), DebugEvents(index, a.log), SiteTail(index, url, o);
    assert SiteEvents(index, url, a, parse) == h + d + t;
    AboutConcat(h + d, t, i);
    AboutConcat(h, d, i);
    DebugAbout(index, a.log, i);
    HeadTailAbout(index, url, o, i);
  }

  lemma HeadTailAbout(index: nat, url: string, o: Outcome, i: nat)
    ensures About(SiteHead(index, url), i) == (if i == index then SiteHead(index, url) else [])
    ensures About(SiteTail(index, url, o), i) == (if i == index then SiteTail(index, url, o) else [])
  {
    var f := AboutSite(i);
    var h, t := SiteHead(index, url), SiteTail(index, url, o);
    FlatMapThree(h[0], h[1], h[2], f);
    FlatMapThree(t[0], t[1], t[2], f);
    if i == index {
      assert f(h[0]) + f(h[1]) + f(h[2]) == [h[0]] + [h[1]] + [h[2]] == h;
      assert f(t[0]) + f(t[1]) + f(t[2]) == [t[0]] + [t[1]] + [t[2]] == t;
    }
  }

  lemma HeadAbout(index: nat, url: string, i: nat)
    ensures About(SiteHead(index, url), i) == (if i == index then SiteHead(index, url) else [])
  {
    HeadTailAbout(index, url, Error(NoResults), i);
  }

  /** The head of a site holds its `start_url` and no `result`. */
  lemma HeadProjections(index: nat, url: string)
    ensures Starts(SiteHead(index, url)) == [(index, url)]
    ensures Results(SiteHead(index, url)) == []
  {
    var h := SiteHead(index, url);
    FlatMapThree(h[0], h[1], h[2], StartOf);
    FlatMapThree(h[0], h[1], h[2], ResultOf);
  }

  /** The `start_url` entries of the sites at positions `from` up to but
      not including `stop`, in order. */
  function StartsBetween(urls: seq<string>, from: nat, stop: nat): (ss: seq<(nat, string)>)
    requires from <= stop <= |urls|
    ensures |ss| == stop - from
    ensures forall k :: 0 <= k < |ss| ==> ss[k] == (from + k + 1, SiteUrl(urls, from + k))
    decreases stop - from
  {
    if from == stop then []
    else [(from + 1, SiteUrl(urls, from))] + StartsBetween(urls, from + 1, stop)
  }

  /** The last site the loop from `from` on starts: up to and including the
      first whose run raises, or every site. */
  function StartedUpTo(urls: seq<string>, from: nat, analyze: (nat, string) -> Run): (stop: nat)
    requires from <= |urls|
    ensures from <= stop <= |urls|
  {
    var n := FirstRaised(urls, from, analyze);
    if n < |urls| then n + 1 else n
  }

  lemma DoneProjections(i: nat)
    ensures Starts([Done(true)]) == [] && Results([Done(true)]) == [] && About([Done(true)], i) == []
  {
    FlatMapOne(Done(true), StartOf);
    FlatMapOne(Done(true), ResultOf);
    var f := AboutSite(i);
    assert f(Done(true)) == [];
    FlatMapOne(Done(true), f);
  }

  /** The `start_url` and `result` entries of a step of the loop whose run
      raises: the site is started and gets no result. */
  lemma ProjectionsRaisedStep(urls: seq<string>, from: nat, analyze: (nat, string) -> Run,
                              parse: (string, string) -> Record)
    requires from < |urls| && analyze(from + 1, SiteUrl(urls, from)).Raised?
    ensures Starts(Sites(urls, from, analyze, parse)) == [(from + 1, SiteUrl(urls, from))]
    ensures Results(Sites(urls, from, analyze, parse)) == []
  {
    assert Sites(urls, from, analyze, parse) == SiteHead(from + 1, SiteUrl(urls, from));
    HeadProjections(from + 1, SiteUrl(urls, from));
  }

  /** The `start_url` and `result` entries of a step of the loop whose run
      returned: the site's own, then the rest of the loop's. */
  lemma ProjectionsReturnedStep(urls: seq<string>, from: nat, analyze: (nat, string) -> Run,
                                parse: (string, string) -> Record)
    requires from < |urls| && analyze(from + 1, SiteUrl(urls, from)).Returned?
    ensures var url, later := SiteUrl(urls, from), Sites(urls, from + 1, analyze, parse);
            Starts(Sites(urls, from, analyze, parse)) == [(from + 1, url)] + Starts(later)
    ensures var url, later := SiteUrl(urls, from), Sites(urls, from + 1, analyze, parse);
            Results(Sites(urls, from, analyze, parse))
            == [(from + 1, url, ResultOutcome(url, analyze(from + 1, url).analysis.raw, parse))] + Results(later)
  {
    var url := SiteUrl(urls, from);
    var a := analyze(from + 1, url).analysis;
    var here, later := SiteEvents(from + 1, url, a, parse), Sites(urls, from + 1, analyze, parse);
    SitesReturnedStep(urls, from, analyze, parse);
    SiteStarts(from + 1, url, a, parse);
    SiteResults(from + 1, url, a, parse);
    FlatMapConcat(here, later, StartOf);
    FlatMapConcat(here, later, ResultOf);
  }

  /** What the loop from position `from` on contributes to each projection:
      every site up to and including the first whose run raises is
      started. */
  lemma {:induction false} SitesStarts(urls: seq<string>, from: nat, analyze: (nat, string) -> Run,
                                       parse: (string, string) -> Record)
    requires from <= |urls|
    ensures Starts(Sites(urls, from, analyze, parse)) == StartsBetween(urls, from, StartedUpTo(urls, from, analyze))
    decreases |urls| - from
  {
    if from == |urls| {
      DoneProjections(0);
    } else {
      var url := SiteUrl(urls, from);
      if analyze(from + 1, url).Raised? {
        ProjectionsRaisedStep(urls, from, analyze, parse);
        assert StartedUpTo(urls, from, analyze) == from + 1;
        assert StartsBetween(urls, from, from + 1) == [(from + 1, url)] + StartsBetween(urls, from + 1, from + 1);
      } else {
        var stop := StartedUpTo(urls, from + 1, analyze);
        assert StartedUpTo(urls, from, analyze) == stop;
        ProjectionsReturnedStep(urls, from, analyze, parse);
        SitesStarts(urls, from + 1, analyze, parse);
        assert StartsBetween(urls, from, stop) == [(from + 1, url)] + StartsBetween(urls, from + 1, stop);
      }
    }
  }

  /** `r` is the `result` entry of the site at position `k`: its run
      returned, and the entry carries the outcome of that run's raw result. */
  predicate ResultAt(urls: seq<string>, k: nat, analyze: (nat, string) -> Run, parse: (string, string) -> Record,
                     r: (nat, string, Outcome))
    requires k < |urls|
  {
    var url := SiteUrl(urls, k);
    && analyze(k + 1, url).Returned?
    && r == (k + 1, url, ResultOutcome(url, analyze(k + 1, url).analysis.raw, parse))
  }

  /** Exactly the sites before the first raising run get a `result`, each
      built from that site's analysis. */
  lemma {:induction false} SitesResults(urls: seq<string>, from: nat, analyze: (nat, string) -> Run,
                                        parse: (string, string) -> Record)
    requires from <= |urls|
    ensures var rs := Results(Sites(urls, from, analyze, parse));
            && |rs| == FirstRaised(urls, from, analyze) - from
            && forall k :: 0 <= k < |rs| ==> ResultAt(urls, from + k, analyze, parse, rs[k])
    decreases |urls| - from
  {
    if from == |urls| {
      DoneProjections(0);
    } else {
      var url := SiteUrl(urls, from);
      if analyze(from + 1, url).Raised? {
        ProjectionsRaisedStep(urls, from, analyze, parse);
      } else {
        var rs, rest := Results(Sites(urls, from, analyze, parse)), Results(Sites(urls, from + 1, analyze, parse));
        ProjectionsReturnedStep(urls, from, analyze, parse);
        assert FirstRaised(urls, from, analyze) == FirstRaised(urls, from + 1, analyze);
        SitesResults(urls, from + 1, analyze, parse);
        ResultsShift(urls, from, analyze, parse, rs, rest);
      }
    }
  }

  lemma ResultsShift(urls: seq<string>, from: nat, analyze: (nat, string) -> Run, parse: (string, string) -> Record,
                     rs: seq<(nat, string, Outcome)>, rest: seq<(nat, string, Outcome)>)
    requires from + 1 + |rest| <= |urls|
    requires var url := SiteUrl(urls, from);
             && analyze(from + 1, url).Returned?
             && rs == [(from + 1, url, ResultOutcome(url, analyze(from + 1, url).analysis.raw, parse))] + rest
    requires forall k :: 0 <= k < |rest| ==> ResultAt(urls, from + 1 + k, analyze, parse, rest[k])
    ensures forall k :: 0 <= k < |rs| ==> ResultAt(urls, from + k, analyze, parse, rs[k])
  {
    forall k | 0 <= k < |rs|
      ensures ResultAt(urls, from + k, analyze, parse, rs[k])
    {
      if k > 0 {
        assert rs[k] == rest[k - 1];
        assert from + 1 + (k - 1) == from + k;
      }
    }
  }

  /** What a `result` entry of the site at position `k` says. */
  lemma ResultAtMeans(urls: seq<string>, k: nat, analyze: (nat, string) -> Run, parse: (string, string) -> Record,
                      r: (nat, string, Outcome))
    requires k < |urls| && ResultAt(urls, k, analyze, parse, r)
    ensures var url := NormalizeUrl(urls[k]);
            && analyze(k + 1, url).Returned?
            && var raw := analyze(k + 1, url).analysis.raw;
            && r.0 == k + 1 && r.1 == url
            && (r.2.Data? <==> raw != [])
            && (raw != [] ==> r.2.record == parse(url, raw))
            && (raw == [] ==> r.2.message == NoResults)
  {
  }

  /** A run that raises leaves only its site's head. */
  lemma AboutRaisedStep(urls: seq<string>, from: nat, analyze: (nat, string) -> Run,
                        parse: (string, string) -> Record, i: nat)
    requires from < |urls| && analyze(from + 1, SiteUrl(urls, from)).Raised?
    ensures About(Sites(urls, from, analyze, parse), i) == if i == from + 1 then SiteHead(from + 1, SiteUrl(urls, from)) else []
  {
    assert Sites(urls, from, analyze, parse) == SiteHead(from + 1, SiteUrl(urls, from));
    HeadAbout(from + 1, SiteUrl(urls, from), i);
  }

  /** A run that returned puts its site's block in front of the rest of
      the loop. */
  lemma AboutReturnedStep(urls: seq<string>, from: nat, analyze: (nat, string) -> Run,
                          parse: (string, string) -> Record, i: nat)
    requires from < |urls| && analyze(from + 1, SiteUrl(urls, from)).Returned?
    ensures var url := SiteUrl(urls, from);
            var here := SiteEvents(from + 1, url, analyze(from + 1, url).analysis, parse);
            About(Sites(urls, from, analyze, parse), i)
            == (if i == from + 1 then here else []) + About(Sites(urls, from + 1, analyze, parse), i)
  {
    var url := SiteUrl(urls, from);
    var here := SiteEvents(from + 1, url, analyze(from + 1, url).analysis, parse);
    SitesReturnedStep(urls, from, analyze, parse);
    AboutConcat(here, Sites(urls, from + 1, analyze, parse), i);
    SiteAbout(from + 1, url, analyze(from + 1, url).analysis, parse, i);
  }

  /** The loop from position `from` on says nothing about earlier sites. */
  lemma {:induction false} SitesAboutEarlier(urls: seq<string>, from: nat, analyze: (nat, string) -> Run,
                                             parse: (string, string) -> Record, i: nat)
    requires from <= |urls| && 0 < i <= from
    ensures About(Sites(urls, from, analyze, parse), i) == []
    decreases |urls| - from
  {
    if from == |urls| {
      DoneProjections(i);
    } else {
      if analyze(from + 1, SiteUrl(urls, from)).Raised? {
        AboutRaisedStep(urls, from, analyze, parse, i);
      } else {
        AboutReturnedStep(urls, from, analyze, parse, i);
        SitesAboutEarlier(urls, from + 1, analyze, parse, i);
      }
    }
  }

  /** A site before the first raising run: the events about it are its
      whole block. */
  lemma {:induction false} SitesAboutReturned(urls: seq<string>, from: nat, analyze: (nat, string) -> Run,
                                              parse: (string, string) -> Record, k: nat)
    requires from <= |urls| && from <= k < FirstRaised(urls, from, analyze)
    ensures var url := SiteUrl(urls, k);
            && analyze(k + 1, url).Returned?
            && About(Sites(urls, from, analyze, parse), k + 1) == SiteEvents(k + 1, url, analyze(k + 1, url).analysis, parse)
    decreases |urls| - from
  {
    assert analyze(from + 1, SiteUrl(urls, from)).Returned?;
    assert FirstRaised(urls, from, analyze) == FirstRaised(urls, from + 1, analyze);
    AboutReturnedStep(urls, from, analyze, parse, k + 1);
    if from < k {
      SitesAboutReturned(urls, from + 1, analyze, parse, k);
    } else {
      SitesAboutEarlier(urls, from + 1, analyze, parse, k + 1);
    }
  }

  /** The site whose run is the first to raise: the events about it are its
      head. */
  lemma {:induction false} SitesAboutRaised(urls: seq<string>, from: nat, analyze: (nat, string) -> Run,
                                            parse: (string, string) -> Record, k: nat)
    requires from <= |urls| && k == FirstRaised(urls, from, analyze) && k < |urls|
    ensures About(Sites(urls, from, analyze, parse), k + 1) == SiteHead(k + 1, SiteUrl(urls, k))
    decreases |urls| - from
  {
    if analyze(from + 1, SiteUrl(urls, from)).Raised? {
      assert k == from;
      AboutRaisedStep(urls, from, analyze, parse, k + 1);
    } else {
      assert k == FirstRaised(urls, from + 1, analyze);
      SitesAboutRaised(urls, from + 1, analyze, parse, k);
      AboutReturnedStep(urls, from, analyze, parse, k + 1);
    }
  }

  /** A site after the first raising run: no event is about it. */
  lemma {:induction false} SitesAboutLater(urls: seq<string>, from: nat, analyze: (nat, string) -> Run,
                                           parse: (string, string) -> Record, k: nat)
    requires from <= |urls| && FirstRaised(urls, from, analyze) < k < |urls|
    ensures About(Sites(urls, from, analyze, parse), k + 1) == []
    decreases |urls| - from
  {
    var n := FirstRaised(urls, from, analyze);
    if analyze(from + 1, SiteUrl(urls, from)).Raised? {
      assert n == from < k;
      AboutRaisedStep(urls, from, analyze, parse, k + 1);
    } else {
      assert n == FirstRaised(urls, from + 1, analyze);
      SitesAboutLater(urls, from + 1, analyze, parse, k);
      AboutReturnedStep(urls, from, analyze, parse, k + 1);
    }
  }

  /** The events about site `k + 1` of the batch: its whole block when its
      run and every earlier one returned, only its head when its run is the
      first to raise, and nothing when an earlier run raised. */
  lemma SitesAbout(urls: seq<string>, analyze: (nat, string) -> Run,
                   parse: (string, string) -> Record, k: nat)
    requires k < |urls|
    ensures var n, url := FirstRaised(urls, 0, analyze), SiteUrl(urls, k);
            var ab := About(Sites(urls, 0, analyze, parse), k + 1);
            && (k < n ==> analyze(k + 1, url).Returned? && ab == SiteEvents(k + 1, url, analyze(k + 1, url).analysis, parse))
            && (k == n ==> ab == SiteHead(k + 1, url))
            && (k > n ==> ab == [])
  {
    var n := FirstRaised(urls, 0, analyze);
    if k < n {
      SitesAboutReturned(urls, 0, analyze, parse, k);
    } else if k == n {
      SitesAboutRaised(urls, 0, analyze, parse, k);
    } else {
      SitesAboutLater(urls, 0, analyze, parse, k);
    }
  }

  /** The last event of a non-empty trace. */
  function Last(t: seq<Event>): Event
    requires |t| > 0
  {
    t[|t| - 1]
  }

  /** A non-empty trace with no `init` after its start and `done`, if at
      all, only as its last event. */
  ghost predicate DoneOnlyLast(t: seq<Event>) {
    |t| > 0 && forall i :: 0 <= i < |t| ==> !t[i].Init? && (t[i].Done? ==> i == |t| - 1)
  }

  /** The loop never sends `init`; it sends `done` only as its last event,
      and does so exactly when no run raised; otherwise its last event is
      progress 2 of the site whose run raised first. */
  lemma {:induction false} SitesFrame(urls: seq<string>, from: nat, analyze: (nat, string) -> Run,
                                      parse: (string, string) -> Record)
    requires from <= |urls|
    ensures DoneOnlyLast(Sites(urls, from, analyze, parse))
    ensures FirstRaised(urls, from, analyze) == |urls| ==> Last(Sites(urls, from, analyze, parse)) == Done(true)
    ensures FirstRaised(urls, from, analyze) < |urls| ==>
              Last(Sites(urls, from, analyze, parse)) == Progress(FirstRaised(urls, from, analyze) + 1, Phases[1], 2, StepTotal)
    decreases |urls| - from
  {
    var n := FirstRaised(urls, from, analyze);
    if from == |urls| {
      assert n == |urls| && Sites(urls, from, analyze, parse) == [Done(true)];
    } else if analyze(from + 1, SiteUrl(urls, from)).Raised? {
      assert n == from;
      FrameRaisedStep(urls, from, analyze, parse);
    } else {
      assert n == FirstRaised(urls, from + 1, analyze);
      SitesFrame(urls, from + 1, analyze, parse);
      FrameReturnedStep(urls, from, analyze, parse);
    }
  }

  /** A step of the loop whose run raises ends on the site's progress 2. */
  lemma FrameRaisedStep(urls: seq<string>, from: nat, analyze: (nat, string) -> Run,
                        parse: (string, string) -> Record)
    requires from < |urls| && analyze(from + 1, SiteUrl(urls, from)).Raised?
    ensures DoneOnlyLast(Sites(urls, from, analyze, parse))
    ensures Last(Sites(urls, from, analyze, parse)) == Progress(from + 1, Phases[1], 2, StepTotal)
  {
    var t := Sites(urls, from, analyze, parse);
    assert t == SiteHead(from + 1, SiteUrl(urls, from));
    assert DoneOnlyLast(t);
  }

  /** A step of the loop whose run returned keeps the shape and the last
      event of the rest of the loop. */
  lemma FrameReturnedStep(urls: seq<string>, from: nat, analyze: (nat, string) -> Run,
                          parse: (string, string) -> Record)
    requires from < |urls| && analyze(from + 1, SiteUrl(urls, from)).Returned?
    requires DoneOnlyLast(Sites(urls, from + 1, analyze, parse))
    ensures DoneOnlyLast(Sites(urls, from, analyze, parse))
    ensures Last(Sites(urls, from, analyze, parse)) == Last(Sites(urls, from + 1, analyze, parse))
  {
    var url := SiteUrl(urls, from);
    var a := analyze(from + 1, url).analysis;
    SitesReturnedStep(urls, from, analyze, parse);
    BlockHasNoInitOrDone(from + 1, url, a, parse);
    FrameConcat(SiteEvents(from + 1, url, a, parse), Sites(urls, from + 1, analyze, parse));
  }

  /** Events with no `init` or `done` in front of a tail that sends `done`
      only last keep that shape and that last event. */
  lemma FrameConcat(here: seq<Event>, rest: seq<Event>)
    requires forall i :: 0 <= i < |here| ==> !here[i].Init? && !here[i].Done?
    requires DoneOnlyLast(rest)
    ensures DoneOnlyLast(here + rest) && Last(here + rest) == Last(rest)
  {
    var t := here + rest;
    forall i | 0 <= i < |t|
      ensures !t[i].Init? && (t[i].Done? ==> i == |t| - 1)
    {
      if i >= |here| {
        assert t[i] == rest[i - |here|];
      }
    }
  }

  lemma BlockHasNoInitOrDone(index: nat, url: string, a: Analysis, parse: (string, string) -> Record)
    ensures var b := SiteEvents(index, url, a, parse);
            forall i :: 0 <= i < |b| ==> !b[i].Init? && !b[i].Done?
  {
    var h, d, t := SiteHead(index, url), DebugEvents(index, a.log), SiteTail(index, url, ResultOutcome(url, a.raw, parse));
    var b := h + d + t;
    forall i | 0 <= i < |b|
      ensures !b[i].Init? && !b[i].Done?
    {
      if i < |h| {
        assert b[i] == h[i];
      } else if i < |h| + |d| {
        assert b[i] == d[i - |h|];
      } else {
        assert b[i] == t[i - |h| - |d|];
      }
    }
  }

  // ---- properties of the whole stream ----

  /** The stream opens with the one `init`, carrying the batch size and the
      table rows. It closes with the one `done` exactly when every browser
      run returned; otherwise it stops at progress 2 of the first site whose
      run raised. */
  lemma StreamFrame(urls: seq<string>, rows: seq<(Field, string)>,
                    analyze: (nat, string) -> Run, parse: (string, string) -> Record)
    ensures var t := StreamAnalysis(urls, rows, analyze, parse);
            && |t| >= 2 && t[0] == Init(|urls|, rows)
            && (t[|t| - 1] == Done(true) <==> forall k :: 0 <= k < |urls| ==> analyze(k + 1, NormalizeUrl(urls[k])).Returned?)
            && (FirstRaised(urls, 0, analyze) < |urls| ==>
                  t[|t| - 1] == Progress(FirstRaised(urls, 0, analyze) + 1, Phases[1], 2, StepTotal))
            && forall i :: 0 < i < |t| ==> !t[i].Init? && (t[i].Done? ==> i == |t| - 1)
  {
    var t, mid := StreamAnalysis(urls, rows, analyze, parse), Sites(urls, 0, analyze, parse);
    var n := FirstRaised(urls, 0, analyze);
    SitesFrame(urls, 0, analyze, parse);
    assert t == [Init(|urls|, rows)] + mid;
    forall i | 0 < i < |t|
      ensures !t[i].Init? && (t[i].Done? ==> i == |t| - 1)
    {
      assert t[i] == mid[i - 1];
    }
    assert t[|t| - 1] == mid[|mid| - 1];
    assert t[|t| - 1].Done? <==> n == |urls|;
    if n == |urls| {
      forall k | 0 <= k < |urls|
        ensures analyze(k + 1, NormalizeUrl(urls[k])).Returned?
      {
        BeforeFirstRaised(urls, 0, analyze, k);
      }
    } else {
      assert analyze(n + 1, NormalizeUrl(urls[n])).Raised?;
    }
  }

  /** A projection that ignores `init` sees only the loop. */
  lemma FramedFlatMap<B>(total: nat, rows: seq<(Field, string)>, mid: seq<Event>, f: Event -> seq<B>)
    requires f(Init(total, rows)) == []
    ensures FlatMap([Init(total, rows)] + mid, f) == FlatMap(mid, f)
  {
    FlatMapConcat([Init(total, rows)], mid, f);
    FlatMapOne(Init(total, rows), f);
  }

  lemma FramedAbout(total: nat, rows: seq<(Field, string)>, mid: seq<Event>, i: nat)
    ensures About([Init(total, rows)] + mid, i) == About(mid, i)
  {
    var f := AboutSite(i);
    assert f(Init(total, rows)) == [];
    FramedFlatMap(total, rows, mid, f);
  }

  /** The stream starts the sites in batch order, with indices 1 to n and
      the normalised URLs: every site when every run returns, and otherwise
      the sites up to and including the first whose run raised. */
  lemma StreamStarts(urls: seq<string>, rows: seq<(Field, string)>,
                     analyze: (nat, string) -> Run, parse: (string, string) -> Record)
    ensures var n, ss := FirstRaised(urls, 0, analyze), Starts(StreamAnalysis(urls, rows, analyze, parse));
            && |ss| == (if n < |urls| then n + 1 else |urls|)
            && forall k :: 0 <= k < |ss| ==> ss[k] == (k + 1, NormalizeUrl(urls[k]))
  {
    var mid := Sites(urls, 0, analyze, parse);
    assert Starts(StreamAnalysis(urls, rows, analyze, parse)) == Starts(mid) by {
      FramedFlatMap(|urls|, rows, mid, StartOf);
    }
    SitesStarts(urls, 0, analyze, parse);
  }

  /** The stream has one `result` for each site before the first raising
      run, in batch order, with indices 1 to n; it carries the parsed record
      exactly when the site's raw result is not empty, and the error message
      otherwise. When every run returns, every site has its `result`. */
  lemma StreamResults(urls: seq<string>, rows: seq<(Field, string)>,
                      analyze: (nat, string) -> Run, parse: (string, string) -> Record)
    ensures var rs := Results(StreamAnalysis(urls, rows, analyze, parse));
            && |rs| == FirstRaised(urls, 0, analyze)
            && forall k :: 0 <= k < |rs| ==>
                 var url := NormalizeUrl(urls[k]);
                 && analyze(k + 1, url).Returned?
                 && var raw := analyze(k + 1, url).analysis.raw;
                 && rs[k].0 == k + 1 && rs[k].1 == url
                 && (rs[k].2.Data? <==> raw != [])
                 && (raw != [] ==> rs[k].2.record == parse(url, raw))
                 && (raw == [] ==> rs[k].2.message == NoResults)
  {
    var mid := Sites(urls, 0, analyze, parse);
    assert Results(StreamAnalysis(urls, rows, analyze, parse)) == Results(mid) by {
      FramedFlatMap(|urls|, rows, mid, ResultOf);
    }
    SitesResults(urls, 0, analyze, parse);
    ResultsMean(urls, analyze, parse, Results(mid));
  }

  lemma ResultsMean(urls: seq<string>, analyze: (nat, string) -> Run, parse: (string, string) -> Record,
                    rs: seq<(nat, string, Outcome)>)
    requires |rs| <= |urls| && forall k :: 0 <= k < |rs| ==> ResultAt(urls, 0 + k, analyze, parse, rs[k])
    ensures forall k :: 0 <= k < |rs| ==>
              var url := NormalizeUrl(urls[k]);
              && analyze(k + 1, url).Returned?
              && var raw := analyze(k + 1, url).analysis.raw;
              && rs[k].0 == k + 1 && rs[k].1 == url
              && (rs[k].2.Data? <==> raw != [])
              && (raw != [] ==> rs[k].2.record == parse(url, raw))
              && (raw == [] ==> rs[k].2.message == NoResults)
  {
    forall k | 0 <= k < |rs|
      ensures var url := NormalizeUrl(urls[k]);
              && analyze(k + 1, url).Returned?
              && var raw := analyze(k + 1, url).analysis.raw;
              && rs[k].0 == k + 1 && rs[k].1 == url
              && (rs[k].2.Data? <==> raw != [])
              && (raw != [] ==> rs[k].2.record == parse(url, raw))
              && (raw == [] ==> rs[k].2.message == NoResults)
    {
      assert 0 + k == k;
      ResultAtMeans(urls, k, analyze, parse, rs[k]);
    }
  }

  /** The events about the site at position `k`: when it and every earlier
      run returned, its whole block in order (`start_url`, progress 1 and 2,
      its debug messages, progress 3, `result`, progress 4); when its run is
      the first to raise, only `start_url` and progress 1 and 2; after an
      earlier raise, nothing. */
  lemma StreamSite(urls: seq<string>, rows: seq<(Field, string)>,
                   analyze: (nat, string) -> Run, parse: (string, string) -> Record, k: nat)
    requires k < |urls|
    ensures var n, url := FirstRaised(urls, 0, analyze), NormalizeUrl(urls[k]);
            var ab := About(StreamAnalysis(urls, rows, analyze, parse), k + 1);
            && (k < n ==> analyze(k + 1, url).Returned? && ab == SiteEvents(k + 1, url, analyze(k + 1, url).analysis, parse))
            && (k == n ==> ab == SiteHead(k + 1, url))
            && (k > n ==> ab == [])
  {
    var mid := Sites(urls, 0, analyze, parse);
    assert About(StreamAnalysis(urls, rows, analyze, parse), k + 1) == About(mid, k + 1) by {
      FramedAbout(|urls|, rows, mid, k + 1);
    }
    SitesAbout(urls, analyze, parse, k);
  }
}
