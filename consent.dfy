/**
 * handleCookiesConsent: dismissing a cookie dialog, first through a list of known
 * selectors, then by the visible text of the page's buttons.
 */
module Consent {
  import opened JsText

  const CookieSelectors: seq<string> := [
    "button[id*=\"accept\"]",
    "button[id*=\"cookie\"]",
    "button[id*=\"consent\"]",
    "button[class*=\"cookie\"]",
    "button[class*=\"consent\"]",
    "a[id*=\"accept\"]",
    ".cookie-consent-accept",
    ".accept-cookies",
    "[data-testid=\"cookie-policy-dialog-accept-button\"]"
  ]

  /** The words that mark a button as accepting, looked for in its lower-cased text. */
  const AcceptWords: seq<string> := ["accept", "acepto", "aceptar"]

  /** page.$(selector): no element, an element whose click succeeds or raises,
      or the lookup itself raises. */
  datatype Lookup = Absent | Found(clickSucceeds: bool) | LookupRaises

  /** One element of page.$$('button'): its innerText (None: reading it raised)
      and whether clicking it succeeds. */
  datatype Button = Button(text: Option<string>, clickSucceeds: bool)

  /** What the consent step sees: the lookups per selector (a missing key finds
      nothing) and the buttons of the page (None: listing them raised). */
  datatype ConsentPage = ConsentPage(lookups: map<string, Lookup>, buttons: Option<seq<Button>>)

  /** How the dialog was dismissed: by the i-th known selector, by the j-th
      button's text, or not at all (the function then returns false). */
  datatype Outcome = BySelector(i: nat) | ByText(j: nat) | NotHandled

  function LookupAt(page: ConsentPage, sel: string): Lookup {
    if sel in page.lookups then page.lookups[sel] else Absent
  }

  /** A known selector that dismisses the dialog: it finds an element and the click succeeds. */
  predicate Dismisses(page: ConsentPage, i: nat)
    requires i < |CookieSelectors|
  {
    LookupAt(page, CookieSelectors[i]) == Found(true)
  }

  /** The first known selector from position i on that dismisses the dialog; the
      ones that find nothing, raise, or whose click raises are passed over. */
  function FirstDismissing(page: ConsentPage, i: nat): (r: Option<nat>)
    requires i <= |CookieSelectors|
    ensures r.Some? ==> i <= r.value < |CookieSelectors| && Dismisses(page, r.value)
    ensures r.Some? ==> forall k :: i <= k < r.value ==> !Dismisses(page, k)
    ensures r.None? ==> forall k :: i <= k < |CookieSelectors| ==> !Dismisses(page, k)
    decreases |CookieSelectors| - i
  {
    if i == |CookieSelectors| then None
    else if Dismisses(page, i) then Some(i)
    else FirstDismissing(page, i + 1)
  }

  /** The lower-cased text contains one of the accept words. */
  predicate Accepts(text: string) {
    var lower := ToLower(text);
    Contains(lower, AcceptWords[0]) || Contains(lower, AcceptWords[1]) || Contains(lower, AcceptWords[2])
  }

  /** The text pass over the buttons from position j on: the first button whose
      text accepts is clicked, and its click decides; a text that cannot be read
      or a failed click ends the pass without success. */
  function TextPass(buttons: seq<Button>, j: nat): (r: Option<nat>)
    requires j <= |buttons|
    ensures r.Some? ==> j <= r.value < |buttons|
    ensures r.Some? ==> var b := buttons[r.value]; b.text.Some? && Accepts(b.text.value) && b.clickSucceeds
    ensures r.Some? ==> forall k :: j <= k < r.value ==> buttons[k].text.Some? && !Accepts(buttons[k].text.value)
    decreases |buttons| - j
  {
    if j == |buttons| then None
    else
      match buttons[j].text
      case None => None
      case Some(t) =>
        if Accepts(t) then (if buttons[j].clickSucceeds then Some(j) else None)
        else TextPass(buttons, j + 1)
  }

  /** A button whose text accepts and whose click succeeds, preceded only by
      readable, non-accepting buttons, is the one the text pass clicks. */
  lemma {:induction false} TextPassFindsFirstAccepting(buttons: seq<Button>, j: nat, k: nat)
    requires j <= k < |buttons|
    requires buttons[k].text.Some? && Accepts(buttons[k].text.value) && buttons[k].clickSucceeds
    requires forall m :: j <= m < k ==> buttons[m].text.Some? && !Accepts(buttons[m].text.value)
    ensures TextPass(buttons, j) == Some(k)
    decreases k - j
  {
    if j < k {
      TextPassFindsFirstAccepting(buttons, j + 1, k);
    }
  }

  /** The outcome of handleCookiesConsent on a page. */
  function ConsentOutcome(page: ConsentPage): (r: Outcome)
    ensures r.BySelector? <==> FirstDismissing(page, 0).Some?
    ensures r.BySelector? ==> r.i < |CookieSelectors| && Dismisses(page, r.i)
    ensures r.ByText? ==> page.buttons.Some? && r.j < |page.buttons.value|
    ensures r.ByText? ==> forall k :: 0 <= k < |CookieSelectors| ==> !Dismisses(page, k)
    ensures r.BySelector? ==> FirstDismissing(page, 0) == Some(r.i)
    ensures r.ByText? <==>
      FirstDismissing(page, 0).None? && page.buttons.Some? && TextPass(page.buttons.value, 0).Some?
    ensures r.ByText? ==> TextPass(page.buttons.value, 0) == Some(r.j)
    ensures r.NotHandled? <==>
      FirstDismissing(page, 0).None? && (page.buttons.None? || TextPass(page.buttons.value, 0).None?)
  {
    match FirstDismissing(page, 0)
    case Some(i) => BySelector(i)
    case None =>
      if page.buttons.None? then NotHandled
      else
        match TextPass(page.buttons.value, 0)
        case Some(j) => ByText(j)
        case None => NotHandled
  }

  /** handleCookiesConsent(page): returns the outcome; the function's boolean
      result is `outcome != NotHandled`. */
  method HandleCookiesConsent(page: ConsentPage) returns (outcome: Outcome)
    ensures outcome == ConsentOutcome(page)
  {
    for i := 0 to |CookieSelectors|
      invariant FirstDismissing(page, 0) == FirstDismissing(page, i)
    {
      var lookup := LookupAt(page, CookieSelectors[i]);
      if lookup.Found? && lookup.clickSucceeds {
        return BySelector(i);
      }
    }
    if page.buttons.None? {
      return NotHandled;
    }
    var buttons := page.buttons.value;
    for j := 0 to |buttons|
      invariant TextPass(buttons, 0) == TextPass(buttons, j)
    {
      var text := buttons[j].text;
      if text.None? {
        return NotHandled;
      }
      if Accepts(text.value) {
        if buttons[j].clickSucceeds {
          return ByText(j);
        }
        return NotHandled;
      }
    }
    outcome := NotHandled;
  }
}
