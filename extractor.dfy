/**
 * extractData: choosing the listing container selector by match counts, then
 * turning every matched listing element into a record, with the three ways the
 * extraction reports an error instead of a list.
 */
module Extractor {
  import opened JsText
  import opened Fields

  /** What the listing page offers extractData. `matches` is
      document.querySelectorAll per selector (a missing key matches nothing);
      `bridgeFault` is an exception raised by one of the page.evaluate calls
      themselves; `evalFault` is the text of an exception raised inside the final
      in-page function outside the per-listing handler. */
  datatype Page = Page(
    matches: map<string, seq<Article>>,
    resolve: Resolver,
    bridgeFault: Option<string>,
    evalFault: Option<string>)

  /** What extractData hands back: the list of records, an object carrying an
      error, or (for callers that receive any value) something that is neither. */
  datatype Extraction =
    | Records(data: seq<Record>)
    | ExtractionError(error: string, message: Option<string>)
    | NotAList

  const PrimarySelector: string := "article.ma-AdCardV2"
  const FallbackSelectors: seq<string> := [
    "article[class*=\"AdCard\"]",
    "[class*=\"AdCard\"]:not(nav):not(header):not(footer)",
    ".list-item-card"
  ]
  /** Below this many primary matches the fallbacks are tried. */
  const Threshold: nat := 5

  const NoArticlesError: string := "No se encontraron artículos"
  const EvaluateError: string := "Error durante la extracción de datos en page.evaluate"
  const GeneralErrorPrefix: string := "Error general en extractData: "

  function Matched(page: Page, sel: string): seq<Article> {
    if sel in page.matches then page.matches[sel] else []
  }

  /** How many elements of the page a selector matches. */
  function Count(page: Page, sel: string): nat {
    |Matched(page, sel)|
  }

  /** The container selector in use and the count it was chosen with. */
  datatype Choice = Choice(selector: string, count: nat)

  /** The first fallback from position i on that matches more than `floor` elements. */
  function FirstAbove(page: Page, floor: nat, i: nat): (r: Option<nat>)
    requires i <= |FallbackSelectors|
    ensures r.Some? ==> i <= r.value < |FallbackSelectors| && Count(page, FallbackSelectors[r.value]) > floor
    ensures r.Some? ==> forall j :: i <= j < r.value ==> Count(page, FallbackSelectors[j]) <= floor
    ensures r.None? ==> forall j :: i <= j < |FallbackSelectors| ==> Count(page, FallbackSelectors[j]) <= floor
    decreases |FallbackSelectors| - i
  {
    if i == |FallbackSelectors| then None
    else if Count(page, FallbackSelectors[i]) > floor then Some(i)
    else FirstAbove(page, floor, i + 1)
  }

  /** The selector choice: the primary selector when it matches at least
      Threshold elements, else the first fallback that matches strictly more than
      it, else the primary selector with its own count. */
  function ContainerSelector(page: Page): (r: Choice)
    ensures r.count == Count(page, r.selector)
    ensures r.count >= Count(page, PrimarySelector)
    ensures r.selector == PrimarySelector || r.selector in FallbackSelectors
    ensures Count(page, PrimarySelector) >= Threshold ==> r == Choice(PrimarySelector, Count(page, PrimarySelector))
    ensures Count(page, PrimarySelector) < Threshold && FirstAbove(page, Count(page, PrimarySelector), 0).Some? ==>
      r.selector == FallbackSelectors[FirstAbove(page, Count(page, PrimarySelector), 0).value]
    ensures Count(page, PrimarySelector) < Threshold && FirstAbove(page, Count(page, PrimarySelector), 0).None? ==>
      r == Choice(PrimarySelector, Count(page, PrimarySelector))
    ensures r.count == 0 <==>
      Count(page, PrimarySelector) == 0 && forall j :: 0 <= j < |FallbackSelectors| ==> Count(page, FallbackSelectors[j]) == 0
  {
    var primary := Count(page, PrimarySelector);
    if primary >= Threshold then Choice(PrimarySelector, primary)
    else
      match FirstAbove(page, primary, 0)
      case Some(k) => Choice(FallbackSelectors[k], Count(page, FallbackSelectors[k]))
      case None => Choice(PrimarySelector, primary)
  }

  /** The first fallback that beats a weak primary selector wins, even when a
      later fallback matches more elements. */
  lemma {:induction false} FirstImprovementWins(page: Page, floor: nat, i: nat, k: nat)
    requires i <= k < |FallbackSelectors|
    requires Count(page, FallbackSelectors[k]) > floor
    requires forall j :: i <= j < k ==> Count(page, FallbackSelectors[j]) <= floor
    ensures FirstAbove(page, floor, i) == Some(k)
    decreases k - i
  {
    if i < k {
      FirstImprovementWins(page, floor, i + 1, k);
    }
  }

  lemma ContainerIsFirstImprovement(page: Page, k: nat)
    requires Count(page, PrimarySelector) < Threshold
    requires k < |FallbackSelectors| && Count(page, FallbackSelectors[k]) > Count(page, PrimarySelector)
    requires forall j :: 0 <= j < k ==> Count(page, FallbackSelectors[j]) <= Count(page, PrimarySelector)
    ensures ContainerSelector(page) == Choice(FallbackSelectors[k], Count(page, FallbackSelectors[k]))
  {
    FirstImprovementWins(page, Count(page, PrimarySelector), 0, k);
  }

  /** The counting phase of extractData: the primary count, then the fallbacks
      in order until one beats it. */
  method ChooseContainer(page: Page) returns (selector: string, count: nat)
    ensures Choice(selector, count) == ContainerSelector(page)
  {
    selector := PrimarySelector;
    count := Count(page, PrimarySelector);
    if count < Threshold {
      var i := 0;
      while i < |FallbackSelectors|
        invariant i <= |FallbackSelectors|
        invariant selector == PrimarySelector && count == Count(page, PrimarySelector)
        invariant FirstAbove(page, count, 0) == FirstAbove(page, count, i)
      {
        var fallbackCount := Count(page, FallbackSelectors[i]);
        if fallbackCount > count {
          selector := FallbackSelectors[i];
          count := fallbackCount;
          break;
        }
        i := i + 1;
      }
    }
  }

  /** The result of applying `record` to every element with its index, in order. */
  function Indexed(articles: seq<Article>, record: (Article, nat) -> Record): (data: seq<Record>)
    ensures |data| == |articles|
    ensures forall i :: 0 <= i < |data| ==> data[i] == record(articles[i], i)
  {
    seq(|articles|, i requires 0 <= i < |articles| => record(articles[i], i))
  }

  lemma IndexedStep(articles: seq<Article>, record: (Article, nat) -> Record, i: nat)
    requires i < |articles|
    ensures Indexed(articles[..i + 1], record) == Indexed(articles[..i], record) + [record(articles[i], i)]
  {
    var a := Indexed(articles[..i + 1], record);
    var b := Indexed(articles[..i], record) + [record(articles[i], i)];
    forall j | 0 <= j < |a| ensures a[j] == b[j] {
      assert articles[..i + 1][j] == articles[j];
    }
  }

  /** The per-listing record function of the in-page code, for one page's resolver. */
  function Recorder(resolve: Resolver): (Article, nat) -> Record {
    (a: Article, i: nat) => RecordFor(a, i, resolve)
  }

  /** The records of a list of listing elements, one per element, in order. */
  function RecordsOf(articles: seq<Article>, resolve: Resolver): (data: seq<Record>)
    ensures |data| == |articles|
    ensures forall i :: 0 <= i < |data| ==> data[i] == RecordFor(articles[i], i, resolve)
  {
    Indexed(articles, Recorder(resolve))
  }

  /** articles.forEach over the chosen container's elements, pushing one record per element. */
  method ExtractAll(articles: seq<Article>, resolve: Resolver) returns (data: seq<Record>)
    ensures data == RecordsOf(articles, resolve)
  {
    data := [];
    for i := 0 to |articles|
      invariant data == Indexed(articles[..i], Recorder(resolve))
    {
      var record := ExtractArticle(articles[i], i, resolve);
      IndexedStep(articles, Recorder(resolve), i);
      data := data + [record];
    }
    assert articles[..|articles|] == articles;
  }

  /** What extractData returns for a page. */
  function ExtractionOf(page: Page): (r: Extraction)
    ensures !r.NotAList?
    ensures r.ExtractionError? ==> r.error != []
    ensures r.ExtractionError? && r.error == NoArticlesError <==>
      page.bridgeFault.None? && ContainerSelector(page).count == 0
    ensures r.Records? ==>
      page.bridgeFault.None? && page.evalFault.None? &&
      |r.data| == ContainerSelector(page).count > 0
    ensures page.bridgeFault.Some? ==> r == ExtractionError(GeneralErrorPrefix + page.bridgeFault.value, None)
    ensures page.bridgeFault.None? && ContainerSelector(page).count > 0 && page.evalFault.Some? ==>
      r == ExtractionError(EvaluateError, page.evalFault)
    ensures page.bridgeFault.None? && page.evalFault.None? && ContainerSelector(page).count > 0 ==>
      r == Records(RecordsOf(Matched(page, ContainerSelector(page).selector), page.resolve))
  {
    match page.bridgeFault
    case Some(m) => ExtractionError(GeneralErrorPrefix + m, None)
    case None =>
      var choice := ContainerSelector(page);
      if choice.count == 0 then ExtractionError(NoArticlesError, None)
      else
        match page.evalFault
        case Some(m) => ExtractionError(EvaluateError, Some(m))
        case None => Records(RecordsOf(Matched(page, choice.selector), page.resolve))
  }

  /** The in-page extraction: the result the page evaluation hands back. */
  method ExtractData(page: Page) returns (result: Extraction)
    ensures result == ExtractionOf(page)
  {
    if page.bridgeFault.Some? {
      return ExtractionError(GeneralErrorPrefix + page.bridgeFault.value, None);
    }
    var selector, count := ChooseContainer(page);
    if count == 0 {
      return ExtractionError(NoArticlesError, None);
    }
    if page.evalFault.Some? {
      return ExtractionError(EvaluateError, page.evalFault);
    }
    var data := ExtractAll(Matched(page, selector), page.resolve);
    result := Records(data);
  }
}
