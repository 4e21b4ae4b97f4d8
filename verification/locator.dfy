/**
  The two element lookups of `app_complete.py` that decide what is read from
  the browser: the selector cascade that picks the first usable element of a
  list of XPaths, and the collection of the result text from the result
  containers, falling back to the page body.
 */
module Locator {
  import opened Wrappers
  import opened Text

  /** What looking up one XPath gives: no element (`NoSuchElementException`),
      an element that went stale while it was inspected
      (`StaleElementReferenceException`), or an element and whether it is
      displayed. */
  datatype Probe<E> = Missing | Stale | Found(element: E, displayed: bool)

  /** The lookup yields an element that can be used. */
  predicate Usable<E>(p: Probe<E>) {
    p.Found? && p.displayed
  }

  /** The position of the first usable lookup. */
  function FirstUsable<E>(probes: seq<Probe<E>>): (r: Option<nat>)
    ensures r.Some? ==> r.value < |probes| && Usable(probes[r.value])
                        && forall j :: 0 <= j < r.value ==> !Usable(probes[j])
    ensures r.None? ==> forall j :: 0 <= j < |probes| ==> !Usable(probes[j])
  {
    if probes == [] then None
    else if Usable(probes[0]) then Some(0)
    else match FirstUsable(probes[1..])
      case None => None
      case Some(i) => Some(i + 1)
  }

  /** `_find_first`: the XPaths are tried in order; missing and stale
      elements are skipped, a hidden one is passed over, and the first
      displayed element is returned. */
  method FindFirst<E>(probes: seq<Probe<E>>) returns (found: Option<E>)
    ensures found == match FirstUsable(probes)
                     case None => None
                     case Some(i) => Some(probes[i].element)
    ensures found.Some? <==> exists i :: 0 <= i < |probes| && Usable(probes[i])
    ensures found.Some? ==> exists i :: 0 <= i < |probes| && Usable(probes[i])
                                        && probes[i].element == found.value
                                        && forall j :: 0 <= j < i ==> !Usable(probes[j])
  {
    var k := 0;
    while k < |probes|
      invariant 0 <= k <= |probes|
      invariant forall j :: 0 <= j < k ==> !Usable(probes[j])
    {
      match probes[k] {
        case Missing =>
        case Stale =>
        case Found(el, shown) =>
          if shown {
            return Some(el);
          }
      }
      k := k + 1;
    }
    return None;
  }

  /** The cascade picks the element of the first usable lookup. */
  lemma FindFirstIsFirstUsable<E>(probes: seq<Probe<E>>, i: nat)
    requires i < |probes| && Usable(probes[i])
    requires forall j :: 0 <= j < i ==> !Usable(probes[j])
    ensures FirstUsable(probes) == Some(i)
  {
  }

  const Separator: string := "\n\n"

  /** `_collect_result_text`: the non-blank container texts joined by a
      blank line; with none, the stripped body text; `""` when the body
      cannot be read (`body` is `None`). */
  function CollectResultText(containers: seq<string>, body: Option<string>): (r: string)
    ensures Stripped(r)
    ensures r == [] <==> NonBlank(containers) == [] && (body.None? || Strip(body.value) == [])
  {
    var texts := NonBlank(containers);
    if texts != [] then
      JoinOfStrippedParts(texts, Separator);
      Strip(Join(texts, Separator))
    else match body
      case None => []
      case Some(b) => Strip(b)
  }

  /** The final `.strip()` after the join changes nothing: with any
      non-blank container, the result is exactly the stripped container
      texts joined by blank lines. */
  lemma CollectJoinsContainers(containers: seq<string>, body: Option<string>)
    requires NonBlank(containers) != []
    ensures CollectResultText(containers, body) == Join(NonBlank(containers), Separator)
  {
    var texts := NonBlank(containers);
    JoinOfStrippedParts(texts, Separator);
    StripOfStripped(Join(texts, Separator));
  }

  /** The body is read only when every container is blank. */
  lemma CollectFallsBackToBody(containers: seq<string>, body: Option<string>)
    requires forall i :: 0 <= i < |containers| ==> Strip(containers[i]) == []
    ensures CollectResultText(containers, body) == (if body.Some? then Strip(body.value) else [])
  {
  }
}
