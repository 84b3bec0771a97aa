/** The element search of the export scraper, abstracted from the browser: a page answers a
    query with a list of elements, and each element reports whether it is displayed, enabled
    and what its `type` attribute is. */
module Locators {
  import opened Options
  import opened Text

  /** What the scraper reads of a web element; `inputType` is "" when there is no attribute. */
  datatype Element = Element(displayed: bool, enabled: bool, inputType: string)

  /** The three ways the scraper asks the driver for elements. */
  datatype Query = XPath(expr: string) | Css(selector: string) | TagName(tag: string)

  /** The page: the elements each query returns. A query the page does not answer stands for a
      lookup that found nothing or raised (both are skipped by the search loops). */
  type Page = map<Query, seq<Element>>

  function Find(page: Page, q: Query): seq<Element> {
    if q in page then page[q] else []
  }

  /** A selector string is sent to the driver as XPath exactly when it begins with "//". */
  function Dispatch(selector: string): (q: Query)
    ensures q.XPath? <==> StartsWith(selector, "//")
    ensures q.XPath? || q.Css?
    ensures (if q.XPath? then q.expr else q.selector) == selector
  {
    if StartsWith(selector, "//") then XPath(selector) else Css(selector)
  }

  function DispatchAll(selectors: seq<string>): (qs: seq<Query>)
    ensures |qs| == |selectors|
    ensures forall i :: 0 <= i < |qs| ==> qs[i] == Dispatch(selectors[i])
  {
    seq(|selectors|, i requires 0 <= i < |selectors| => Dispatch(selectors[i]))
  }

  /** The acceptance tests the search loops apply to a candidate element. */
  datatype Criterion =
    | UsernameCandidate   // displayed, enabled, and not of type "password"
    | Interactive         // displayed and enabled
    | UsernameFallback    // displayed, enabled, and not a password, hidden, submit or button input
    | PasswordFallback    // of type "password" and displayed
    | Visible             // displayed

  predicate Accepts(c: Criterion, e: Element) {
    match c
    case UsernameCandidate => e.displayed && e.enabled && e.inputType != "password"
    case Interactive => e.displayed && e.enabled
    case UsernameFallback =>
      e.displayed && e.enabled && e.inputType !in {"password", "hidden", "submit", "button"}
    case PasswordFallback => e.inputType == "password" && e.displayed
    case Visible => e.displayed
  }

  /** The first element of the list that passes the test. */
  function FirstAccepted(els: seq<Element>, c: Criterion): (r: Option<Element>)
    ensures r.None? <==> forall i :: 0 <= i < |els| ==> !Accepts(c, els[i])
    ensures r.Some? ==> exists i :: 0 <= i < |els| && els[i] == r.value && Accepts(c, r.value)
                          && forall j :: 0 <= j < i ==> !Accepts(c, els[j])
  {
    if |els| == 0 then None
    else if Accepts(c, els[0]) then Some(els[0])
    else
      var rest := FirstAccepted(els[1..], c);
      if rest.Some? then
        var i :| 0 <= i < |els[1..]| && els[1..][i] == rest.value && Accepts(c, rest.value)
                 && forall j :: 0 <= j < i ==> !Accepts(c, els[1..][j]);
        assert els[i + 1] == rest.value;
        rest
      else rest
  }

  /** Which query of the list produced the element. */
  datatype Hit = Hit(index: nat, element: Element)

  /** The selector loop: the first accepted element of the earliest query that has one. */
  function FirstMatch(page: Page, queries: seq<Query>, c: Criterion): (r: Option<Hit>)
    ensures r.None? <==> forall i :: 0 <= i < |queries| ==> FirstAccepted(Find(page, queries[i]), c).None?
    ensures r.Some? ==> r.value.index < |queries|
                        && FirstAccepted(Find(page, queries[r.value.index]), c) == Some(r.value.element)
                        && forall j :: 0 <= j < r.value.index ==> FirstAccepted(Find(page, queries[j]), c).None?
  {
    if |queries| == 0 then None
    else
      var head := FirstAccepted(Find(page, queries[0]), c);
      if head.Some? then Some(Hit(0, head.value)) else Shifted(FirstMatch(page, queries[1..], c))
  }

  /** A hit in the tail of a query list, renumbered for the whole list. */
  function Shifted(h: Option<Hit>): Option<Hit> {
    match h
    case Some(hit) => Some(Hit(hit.index + 1, hit.element))
    case None => None
  }

  /** The element FirstMatch found, if any. */
  function Found(h: Option<Hit>): Option<Element> {
    match h
    case Some(hit) => Some(hit.element)
    case None => None
  }

  /** Once a query has produced an element, the queries after it are never consulted. */
  lemma {:induction false} LaterQueriesIgnored(page: Page, queries: seq<Query>, more: seq<Query>, c: Criterion)
    requires FirstMatch(page, queries, c).Some?
    ensures FirstMatch(page, queries + more, c) == FirstMatch(page, queries, c)
  {
    if FirstAccepted(Find(page, queries[0]), c).Some? {
      HeadStep(page, queries, more, c);
    } else {
      TailStep(page, queries, c);
      LaterQueriesIgnored(page, queries[1..], more, c);
      AppendedTailStep(page, queries, more, c);
    }
  }

  lemma HeadStep(page: Page, queries: seq<Query>, more: seq<Query>, c: Criterion)
    requires |queries| > 0 && FirstAccepted(Find(page, queries[0]), c).Some?
    ensures FirstMatch(page, queries + more, c) == FirstMatch(page, queries, c)
  {
    assert (queries + more)[0] == queries[0];
  }

  lemma AppendedTailStep(page: Page, queries: seq<Query>, more: seq<Query>, c: Criterion)
    requires |queries| > 0 && FirstAccepted(Find(page, queries[0]), c).None?
    ensures FirstMatch(page, queries + more, c) == Shifted(FirstMatch(page, queries[1..] + more, c))
  {
    var qs := queries + more;
    assert qs[0] == queries[0];
    assert qs[1..] == queries[1..] + more;
    TailStep(page, qs, c);
  }

  lemma TailStep(page: Page, queries: seq<Query>, c: Criterion)
    requires |queries| > 0 && FirstAccepted(Find(page, queries[0]), c).None?
    ensures FirstMatch(page, queries, c) == Shifted(FirstMatch(page, queries[1..], c))
  {
  }
}
