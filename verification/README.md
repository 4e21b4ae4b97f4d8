# RateMySite batch analyser: a Dafny model of its pure core

The two Flask apps `app.py` and `app_complete.py` take a batch of site URLs
from the `u` query values of `/stream`. They drive a browser through the
RateMySite form for each site, and stream the progress and one result
record per site back as server-sent events. This project models everything
around the browser:

- **`Urls`** (`urls.dfy`):
  - normalisation of schemeless URLs to `https://`;
  - the company name `app.py` derives from the host part.
- **`Events`** (`events.dfy`) and **`Sse`** (`sse.dfy`): the event stream
  `stream_analysis` produces, and the `event:`/`data:` framing of `sse()`.
- **`Routes`** (`routes.dfy`): the `/stream` route of both apps. It refuses
  a request without URLs and otherwise streams the batch.
- **`HtmlRecord`** (`htmlrecord.dfy`): `app.py`'s record.
  - It covers `_clean_text`, the overall-score number test, and the card
    loops of `_parse_ratemysite_html`.
  - The page is given as the parts the parser reads (an abstract `Page` of
    cards).
- **`TextRecord`** (`textrecord.dfy`) and **`LabelSearch`**
  (`labelsearch.dfy`): `app_complete.py`'s record.
  - It covers `_grab_score`, `_grab_block` and `_parse_fields`.
  - The three label-keyed regular expressions are modelled as
    `re.search` runs them: leftmost start position, then the split the
    backtracking matcher tries first.
- **`Locator`** (`locator.dfy`): the selector cascade `_find_first` and
  `_collect_result_text`, over abstract lookup outcomes and element texts.
- **Shared modules:**
  - `Fields` (`fields.dfy`): the record's fields and their dictionary keys;
  - `Text` (`text.dfy`): Python's `strip`, `join`, `replace` and
    `split(...)[0]`, and the strip-and-drop-blanks filter that both the
    query values and the container texts go through;
  - `Wrappers` (`wrappers.dfy`): `Option`.

The browser run of a site is the parameter `analyze: (nat, string) -> Run`
for the site at a 1-based position. It either returns the raw result and
the debug log, or raises. `_analyze_one_with_debugging` catches what its
`try` body raises. An exception from `_make_driver`, from `WebDriverWait`
or from `driver.quit()` escapes it and ends the stream. The record parser
is a parameter of the stream, and `Routes` instantiates it with each app's
parser. JSON serialisation is a parameter of `Sse.Encode`.

## Model

| member | source | states |
|---|---|---|
| Text.Strip | app.py:220 | `strip()` returns the part of the text between a leading and a trailing whitespace margin, and that part has no whitespace at either end |
| Text.StripOfMargins | app.py:225 | for any split into whitespace margin, stripped middle and whitespace margin, `strip()` returns exactly the middle |
| Text.StripIdempotent | app.py:225 | stripping twice is stripping once |
| Text.JoinOfStrippedParts | app_complete.py:91-92 | joining non-empty stripped texts gives a non-empty stripped text, so the `.strip()` after the join is a no-op |
| Text.Before | app.py:232 | `split("/")[0]` is the longest prefix without the separator, and it ends where the first separator stands |
| Urls.NormalizeUrl | app.py:389 | a URL starting with `http://` or `https://` is kept, any other gets `https://` prepended, so the result always names a scheme |
| Urls.NormalizeIdempotent | app_complete.py:277 | normalising an already normalised URL changes nothing |
| Text.NonBlank | app.py:428 | the kept items (query values here, container texts at `app_complete.py` line 90) are stripped and non-empty, and none are kept exactly when every item is blank |
| Text.NonBlankConcat | app_complete.py:90 | the filter treats each item on its own: filtering a concatenation concatenates the filtered parts, so what one container contributes does not depend on the others |
| Text.NonBlankSingle | app_complete.py:736 | one query value yields its stripped text, or nothing when it is blank |
| Urls.CompanyName | app.py:232 | the company name contains no `/` and is the host-path text (schemes and `www.` removed) up to its first `/` |
| Urls.CompanyOfConventionalUrl | app.py:232 | for an optional scheme, optional `www.`, a plain host and a path starting with `/`, the company name is exactly the host |
| Fields.KeyInjective | app.py:234-258 | two fields have the same dictionary key exactly when they are the same field, so a record holds one entry per field |
| HtmlRecord.CollapseSpaces | app.py:220 | collapsing whitespace runs leaves no whitespace but plain spaces, never two in a row, and starts with a space exactly when the input starts with whitespace |
| HtmlRecord.CollapseNotLonger | app.py:220 | collapsing never lengthens the text |
| HtmlRecord.CollapseKeepsNonSpaces | app.py:220 | collapsing keeps every non-whitespace character, in order |
| HtmlRecord.CollapseOfSpaces | app.py:220 | a whitespace run on its own becomes exactly one space |
| HtmlRecord.CollapseConcat | app.py:220 | where a cut does not fall inside a whitespace run, collapsing the whole is collapsing the pieces and putting them back together |
| HtmlRecord.CollapseBetweenWords | app.py:220 | a whitespace run between two non-whitespace characters becomes exactly one space, so word boundaries survive |
| HtmlRecord.KeepAllowed | app.py:223 | the character filter keeps only word characters, whitespace and the listed punctuation, and invents nothing |
| HtmlRecord.KeepAllowedConcat | app.py:223 | the filter works character by character: filtering a concatenation concatenates the filtered parts |
| HtmlRecord.KeepAllowedSingle | app.py:223 | one character survives the filter exactly when it is a word character, whitespace or one of the listed punctuation marks |
| HtmlRecord.CleanText | app.py:214-225 | an empty or `"-"` text gives `"-"`; otherwise the result is stripped, holds only allowed characters, and its only whitespace is plain spaces |
| HtmlRecord.CleanTextContent | app.py:219-225 | apart from whitespace, the cleaned text is exactly the allowed characters of the input, in order |
| HtmlRecord.CleanTextOfCleanText | app.py:214-225 | a text that is already clean comes back unchanged |
| HtmlRecord.CleanTextJoinsWords | app.py:219-225 | two clean texts with any whitespace run between them clean to the two texts joined by one space |
| HtmlRecord.CleanTextCanBeEmpty | app.py:216-225 | a text made only of removed characters cleans to the empty string, not to `"-"` |
| HtmlRecord.OverallScoreIsDecimal | app.py:266 | the overall-score test accepts exactly one or more digits, optionally a point followed by zero or more digits (so `12.` passes), possibly followed by one newline |
| HtmlRecord.ReadScore | app.py:263-267 | the page's overall score is taken, unchanged, exactly when it is present and is one or more digits, optionally a point followed by zero or more digits, optionally followed by one newline |
| HtmlRecord.ReadHeadline | app.py:270-272 | a description is read exactly when the headline is present; it is `"-"` for an empty or `"-"` headline, and otherwise a stripped text of allowed characters and plain spaces whose non-whitespace is exactly the allowed characters of the headline |
| HtmlRecord.Slot | app.py:297-345 | a card title names a criterion only within that criterion's own section |
| HtmlRecord.EveryCriterionHasTitle | app.py:297-345 | each of the eight criteria is named by some card title of its section |
| HtmlRecord.ApplyCardEffect | app.py:281-305 | one card sets its criterion's score and description and leaves every other field and the key set as they were |
| HtmlRecord.ApplyCardsKeeps | app.py:315-345 | the card loop keeps the key set and never touches a field that is not a criterion's score or description |
| HtmlRecord.ApplyCardsLastWins | app.py:281-305 | after the card loop a criterion holds the score and description of the last card that fills it, or its earlier values when no card does |
| HtmlRecord.InitialRecord | app.py:232-258 | the starting record has every field but the raw text, the company name and URL, and `"-"` in every other field |
| HtmlRecord.Header | app.py:261-272 | after the header reads the record has the same key set, the score and description found (or `"-"`), and `"-"` for every criterion |
| HtmlRecord.ParseHtml | app.py:227-350 | the parsed record has exactly the 20 fields, its company is derived from the URL, its URL field is the URL, and its overall score is `"-"` or passes the number test |
| HtmlRecord.ParseHtmlHeader | app.py:261-272 | the overall score and description in the result are the page's when present (the score only if numeric) and `"-"` otherwise, whatever the cards |
| HtmlRecord.ParseHtmlCriterion | app.py:274-345 | each criterion's score and description come from the last card of its own section that fills it, and are `"-"` when no card does |
| HtmlRecord.OtherSectionFillsNothing | app.py:297-345 | a card in the other section never fills a criterion |
| HtmlRecord.EmptyPage | app.py:234-258 | a page with nothing on it yields the initial record |
| HtmlRecord.TableRows | app.py:354-379 | the table has 20 rows; every field but the raw text has exactly one row, headed by that field's own key, and no two rows share a heading |
| HtmlRecord.TableRowsDistinct | app.py:354-379 | no field has two table rows |
| HtmlRecord.TableRowsCoverFields | app.py:354-379 | the table columns are exactly the fields of the parsed record |
| LabelSearch.TailIsGreatestSplit | app_complete.py:220-223 | after a label, a way of matching is found whenever one exists, and no matching split is tried before it |
| LabelSearch.Search | app_complete.py:219-223 | the reported match starts at the leftmost position where the pattern matches, and there is none only when it matches nowhere |
| LabelSearch.Group | app_complete.py:220-231 | a captured group is never empty; for the score pattern it is one to three digits, and for the single-line pattern it has no newline |
| LabelSearch.GroupNoneIffNoMatch | app_complete.py:224 | there is no group exactly when no start position and no split let the pattern match |
| LabelSearch.GroupIsFirstMatch | app_complete.py:220-225 | the group comes from the leftmost match position and from the split the backtracking matcher prefers there |
| LabelSearch.CapturedShape | app_complete.py:229 | any matching split captures at least one character: one to three digits for scores, no newline for single lines |
| TextRecord.FirstLabel | app_complete.py:219-225 | labels are tried in order: the chosen one matches and none before it does, and there is none only when no label matches |
| TextRecord.GrabScore | app_complete.py:228-233 | the score text is `"-"` or one to three digits |
| TextRecord.GrabScoreFirstMatch | app_complete.py:228-233 | the score is the group of the first label whose pattern matches |
| TextRecord.GrabScoreDash | app_complete.py:228-233 | the score is `"-"` exactly when no label matches |
| TextRecord.GrabBlock | app_complete.py:218-226 | the block is stripped, and in single-line mode it contains no newline |
| TextRecord.GrabBlockFirstMatch | app_complete.py:218-226 | the block is the stripped group of the first label whose pattern matches |
| TextRecord.GrabBlockFallback | app_complete.py:226 | when no label matches the block is `"-"` |
| TextRecord.ParseFields | app_complete.py:235-250 | the record has exactly the 12 named fields plus the raw text; URL and raw text are the arguments; scores are `"-"` or 1 to 3 digits; the company is one stripped line |
| TextRecord.ScoreFieldFromLabels | app_complete.py:239-247 | each criterion score is the group of the first of its labels that matches, and `"-"` exactly when none does |
| TextRecord.TableRowsDistinct | app_complete.py:254-267 | no field has two table rows |
| TextRecord.TableRowsMatchRecord | app_complete.py:235-267 | the table columns are exactly the record's fields except the raw text |
| Locator.FirstUsable | app_complete.py:30-38 | the reference choice: the first lookup that found a displayed element, with none before it, or none at all |
| Locator.FindFirst | app_complete.py:30-38 | the cascade returns the element of the first usable lookup, and returns one exactly when some lookup is usable |
| Locator.FindFirstIsFirstUsable | app_complete.py:30-38 | a usable lookup with no usable one before it is the one chosen |
| Locator.CollectResultText | app_complete.py:85-97 | the result is stripped, and empty exactly when every container is blank and the body is unreadable or blank |
| Locator.CollectJoinsContainers | app_complete.py:91-92 | with any non-blank container the result is the stripped container texts joined by a blank line |
| Locator.CollectFallsBackToBody | app_complete.py:93-97 | with every container blank the result is the stripped body text, or `""` when the body cannot be read |
| Events.StreamAnalysis | app.py:384-420 | `stream_analysis` as a trace: `init`, then the loop over the sites; its contract is carried by Events.StreamFrame, Events.StreamStarts, Events.StreamResults and Events.StreamSite |
| Events.Sites | app.py:388-420 | the `for` loop from a position on, stopping after the head of a site whose run raises; its contract is carried by Events.SitesFrame, Events.SitesStarts, Events.SitesResults and Events.SitesAbout |
| Events.DebugProjections | app.py:404-405 | the `debug` events of a log carry its messages in log order and contribute no `start_url`, no `result` and no progress |
| Events.SiteStarts | app.py:394 | a site's events hold exactly one `start_url`, with its index and URL |
| Events.SiteResults | app.py:410-414 | a site's events hold exactly one `result`, for this site |
| Events.SiteProgress | app.py:395-417 | a site's progress events are steps 1 to 4 of 5 with their phase names, so the step strictly rises and stays below the total |
| Events.SiteDebugs | app.py:404-405 | a site's debug messages are its log, in order |
| Events.SiteAbout | app.py:388-418 | every event of a site's block is about that site and no other |
| Events.FirstRaised | app.py:128-131 | the position found is a site whose browser run raises, or the batch size |
| Events.BeforeFirstRaised | app.py:128-131 | every site before the first raising run has a run that returned |
| Events.AllReturned | app.py:206-212 | the first raising position is the batch size exactly when every site's run returns |
| Events.SitesStarts | app.py:388-402 | the loop from a position on sends one `start_url` per site, in order, up to and including the first site whose run raises |
| Events.SitesResults | app.py:402-414 | the loop from a position on sends one `result` per site before the first raising run, each built from that site's run, and none after |
| Events.SitesAboutEarlier | app.py:388-418 | the loop from a position on sends nothing about earlier sites |
| Events.SitesAboutReturned | app.py:388-418 | a site before the first raising run gets its whole block |
| Events.SitesAboutRaised | app.py:397-402 | the site whose run raises first gets only `start_url` and progress 1 and 2 |
| Events.SitesAboutLater | app.py:402 | no event is about a site after the first raising run |
| Events.SitesAbout | app.py:388-418 | the events about a site are its whole block when no run up to it raised, only its head when its own run is the first to raise, and none after that |
| Events.SitesFrame | app.py:388-420 | the loop sends no `init`, and `done` only last; it ends with `done` when no run raised, and otherwise with progress 2 of the site whose run raised first |
| Events.StreamFrame | app.py:384-420 | the stream opens with the one `init` carrying the batch size and the table rows; it ends with `done` exactly when every browser run returns, and otherwise stops at progress 2 of the first site whose run raises |
| Events.StreamStarts | app.py:388-402 | the stream has a `start_url` for every site up to and including the first whose run raises (every site when none does), in input order, with indices from 1 and normalised URLs |
| Events.StreamResults | app_complete.py:290-302 | the stream has one `result` per site before the first raising run, in input order; it has data exactly when that site's raw result is non-empty, and the error message otherwise |
| Events.StreamSite | app.py:388-418 | the events about site k are its whole block (start, progress 1 and 2, its debug messages, progress 3, result, progress 4) when no run up to it raised, only the first three when its own run raises first, and none after that |
| Sse.ParseFrameOfFrame | app.py:381-382 | a frame with a one-line name and payload reads back as that name and payload, whatever follows |
| Sse.Encode | app.py:381-382 | `sse()` applied to each event of a trace, frames concatenated in order; its contract is carried by Sse.DecodeEncode |
| Sse.DecodeEncode | app_complete.py:269-270 | the wire text of any trace reads back as the events' names and payloads, in order, when the serialiser writes single lines |
| Routes.Route | app.py:426-431 | the request is refused with status 400 and "Need at least one ?u=" exactly when every query value is blank, and otherwise streams the kept URLs |
| Routes.RouteStarts | app_complete.py:734-739 | an accepted request announces as many sites as there are non-blank query values, and starts each of them in order (up to and including the first whose browser run raises) with a URL that names its scheme |
| Routes.RouteSingle | app.py:428-430 | a lone blank query value is refused; a lone non-blank one streams exactly that site, stripped and normalised |
| Routes.AppResults | app.py:410-412 | `app.py` sends a `result` for each site before the first raising run, and every record it sends has the 20 fields, the company derived from the site's URL, that URL, and a `"-"` or numeric overall score |
| Routes.CompleteResults | app_complete.py:298-302 | `app_complete.py` sends a `result` for each site before the first raising run; it carries a record exactly when the raw text is non-empty, and that record is the parse of the text with the site's URL |

## Left out

- Browser automation is I/O and is not modelled. This covers `_make_driver`, `_analyze_one_with_debugging`, `_click_best_button`, `_maybe_close_cookie_banner`, `_wait_for_content_growth` and `_collect_result_html`. A site's browser run is the `analyze` parameter. Its outcome is either the returned raw result and log, or an exception that escapes and ends the stream. Which exception it was, and the partial log it leaves behind, are not modelled.
- Locator.FindFirst: exceptions other than a missing or stale element propagate out of `_find_first`. The model has no such outcome.
- Locator.CollectResultText: a container whose `text` is `None` is given as the empty string. The XPath query for the containers is not modelled. An exception from the container query or from reading a container's `text` (a stale element, say) propagates out of `_collect_result_text`, and the model has no such outcome. The caller `_analyze_one_with_debugging` catches it and reports an empty raw result, which the `analyze` parameter already allows.
- BeautifulSoup tree search is not modelled.
  - This covers `find`, `find_next`, `find_all` and class matching. The page is given as the parts the parser reads, with `get_text(strip=True)` already applied.
  - The two sections choose their cards differently (direct `div` children, or `div`s of class `p-6`); this is folded into the given card lists.
- The `try`/`except` around the HTML parsing is not modelled. An exception partway through would leave a partly filled record.
- `json.dumps` inside `sse()` is a parameter of `Sse.Encode`. Its only stated property is that it writes one line, which the default settings guarantee.
- Flask is not modelled: routing, `Response` headers, `stream_with_context`, the inline HTML page, `app.run` and the `print` logging.
- `rate_site_terminal.py` is not part of this model. It is a command-line wrapper around the same browser steps.
- Character classes cover only part of what Python matches:
  - `\d` and `\w` are the ASCII classes. `KeepAllowed` removes non-ASCII letters and digits that Python keeps (the model cleans "café" to "caf"), and `\d{1,3}` in the label patterns does not match non-ASCII digits;
  - `\s` and `str.strip` use Python's full whitespace set;
  - case-insensitive label matching covers ASCII and the four non-ASCII letters that fold onto ASCII ones.
- HtmlRecord.TableRows: `app.py`'s table is written out literally in the source. The model derives it from the column list and each field's key, which yields the same 20 pairs.
- `app.py` repeats `_find_first` and `_collect_result_text` from `app_complete.py` verbatim. The one model covers both.
