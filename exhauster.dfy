/**
 * The page-exhausting phase before extraction: the capped coarse scroll, the
 * "load more" clicking loop and countVisibleElements. The browser is reduced to
 * what these loops observe, given as functions of the step number.
 */
module Exhauster {
  import opened JsText

  // ---------------------------------------------------------------------------
  // Coarse scroll

  /** Pixels scrolled per timer tick. */
  const Distance: nat := 300
  /** The safety cap on timer ticks. */
  const MaxIterations: nat := 50

  /** The number of ticks the coarse scroll runs when `atBottom(k)` tells whether
      the window has reached the bottom of the document after tick k, looking
      from tick k on. */
  function TicksFrom(atBottom: nat -> bool, k: nat): (r: nat)
    requires 1 <= k <= MaxIterations
    ensures k <= r <= MaxIterations
    ensures atBottom(r) || r == MaxIterations
    ensures forall j :: k <= j < r ==> !atBottom(j)
    decreases MaxIterations - k
  {
    if atBottom(k) || k == MaxIterations then k else TicksFrom(atBottom, k + 1)
  }

  /** The coarse scroll: scroll by Distance per tick until the bottom is reached
      or MaxIterations ticks have run; the bottom check follows each scroll. */
  method CoarseScroll(atBottom: nat -> bool) returns (iterations: nat, totalHeight: nat)
    ensures 1 <= iterations <= MaxIterations
    ensures iterations == TicksFrom(atBottom, 1)
    ensures totalHeight == iterations * Distance
  {
    iterations := 0;
    totalHeight := 0;
    var done := false;
    while !done
      invariant iterations <= MaxIterations
      invariant totalHeight == iterations * Distance
      invariant !done ==> iterations < MaxIterations && forall j :: 1 <= j <= iterations ==> !atBottom(j)
      invariant done ==> 1 <= iterations && iterations == TicksFrom(atBottom, 1)
      decreases MaxIterations - iterations, if done then 0 else 1
    {
      totalHeight := totalHeight + Distance;
      iterations := iterations + 1;
      if atBottom(iterations) || iterations >= MaxIterations {
        TicksFromIsFirst(atBottom, 1, iterations);
        done := true;
      }
    }
  }

  /** The tick count is the first tick at the bottom, or the cap. */
  lemma {:induction false} TicksFromIsFirst(atBottom: nat -> bool, k: nat, t: nat)
    requires 1 <= k <= t <= MaxIterations
    requires atBottom(t) || t == MaxIterations
    requires forall j :: k <= j < t ==> !atBottom(j)
    ensures TicksFrom(atBottom, k) == t
    decreases t - k
  {
    if k < t {
      TicksFromIsFirst(atBottom, k + 1, t);
    }
  }

  // ---------------------------------------------------------------------------
  // Load more

  const LoadMoreSelectors: seq<string> := [
    "button[class*=\"more\"]",
    "a[class*=\"more\"]",
    "[class*=\"load-more\"]",
    "[class*=\"show-more\"]",
    "button[class*=\"siguiente\"]",
    "a[class*=\"siguiente\"]",
    ".pagination a[class*=\"next\"]",
    "button[class*=\"next\"]"
  ]

  /** The selector the listing elements are counted with around each click. */
  const ArticleCountSelector: string := "article, [class*=\"AdCard\"], [class*=\"result-item\"]"

  /** Consecutive clicks without growth after which the clicking stops. */
  const MaxNoGrowth: nat := 5

  /**
   * What the load-more phase observes. `present`: the selectors with at least
   * one match. `articleCount(0)` and `articleCount(1)`: the listing count before
   * and after the first click; `articleCount(n + 2)`: after the click of
   * iteration n of the repeat loop. `visible(n)`: whether the control is still
   * present and visible at the start of iteration n. `firstClickRaises`: the
   * first click raised, which ends the phase.
   */
  datatype LoadMorePage = LoadMorePage(
    present: set<string>,
    articleCount: nat -> nat,
    visible: nat -> bool,
    firstClickRaises: bool)

  /** The index of the first load-more selector from position i on that is present. */
  function FirstPresent(present: set<string>, i: nat): (r: Option<nat>)
    requires i <= |LoadMoreSelectors|
    ensures r.Some? ==> i <= r.value < |LoadMoreSelectors| && LoadMoreSelectors[r.value] in present
    ensures r.Some? ==> forall j :: i <= j < r.value ==> LoadMoreSelectors[j] !in present
    ensures r.None? ==> forall j :: i <= j < |LoadMoreSelectors| ==> LoadMoreSelectors[j] !in present
    decreases |LoadMoreSelectors| - i
  {
    if i == |LoadMoreSelectors| then None
    else if LoadMoreSelectors[i] in present then Some(i)
    else FirstPresent(present, i + 1)
  }

  /** Every listing count the page can show is at most `bound`. */
  ghost predicate Bounded(articleCount: nat -> nat, bound: nat) {
    forall k :: articleCount(k) <= bound
  }

  /** The clicks the repeat loop makes from iteration n on, with the highest
      count so far `previous` and `noGrowth` clicks since the count last grew.
      It makes none once MaxNoGrowth clicks in a row brought nothing or the
      control is gone, and never more than the room left for growth allows. */
  function RepeatClicks(page: LoadMorePage, bound: nat, n: nat, previous: nat, noGrowth: nat): (r: nat)
    requires Bounded(page.articleCount, bound) && previous <= bound && noGrowth <= MaxNoGrowth
    ensures r == 0 <==> noGrowth == MaxNoGrowth || !page.visible(n)
    ensures r <= MaxNoGrowth * (bound - previous) + (MaxNoGrowth - noGrowth)
    decreases bound - previous, MaxNoGrowth - noGrowth
  {
    if noGrowth == MaxNoGrowth || !page.visible(n) then 0
    else
      var newCount := page.articleCount(n + 2);
      if newCount <= previous then 1 + RepeatClicks(page, bound, n + 1, previous, noGrowth + 1)
      else 1 + RepeatClicks(page, bound, n + 1, newCount, 0)
  }

  /** With the count never growing and the control always visible, the repeat
      loop stops after exactly the clicks left before MaxNoGrowth. */
  lemma {:induction false} StopsAfterFiveWithoutGrowth(page: LoadMorePage, bound: nat, n: nat, previous: nat, noGrowth: nat)
    requires Bounded(page.articleCount, bound) && previous <= bound && noGrowth <= MaxNoGrowth
    requires forall k :: page.articleCount(k) <= previous
    requires forall k :: page.visible(k)
    ensures RepeatClicks(page, bound, n, previous, noGrowth) == MaxNoGrowth - noGrowth
    decreases MaxNoGrowth - noGrowth
  {
    if noGrowth < MaxNoGrowth {
      StopsAfterFiveWithoutGrowth(page, bound, n + 1, previous, noGrowth + 1);
    }
  }

  /** A click that grows the count resets the no-growth counter: the loop then
      has a full MaxNoGrowth further chances. */
  lemma GrowthResetsCounter(page: LoadMorePage, bound: nat, n: nat, previous: nat, noGrowth: nat)
    requires Bounded(page.articleCount, bound) && previous <= bound && noGrowth < MaxNoGrowth
    requires page.visible(n) && page.articleCount(n + 2) > previous
    ensures RepeatClicks(page, bound, n, previous, noGrowth) ==
      1 + RepeatClicks(page, bound, n + 1, page.articleCount(n + 2), 0)
  {
  }

  /** The clicks the whole load-more phase makes. */
  function LoadMoreClicks(page: LoadMorePage, bound: nat): (r: nat)
    requires Bounded(page.articleCount, bound)
    ensures r == 0 <==> FirstPresent(page.present, 0).None?
    ensures r >= 2 ==> !page.firstClickRaises && page.articleCount(1) > page.articleCount(0)
    ensures r <= MaxNoGrowth * bound + MaxNoGrowth + 1
  {
    if FirstPresent(page.present, 0).None? then 0
    else if page.firstClickRaises || page.articleCount(1) <= page.articleCount(0) then 1
    else 1 + RepeatClicks(page, bound, 0, page.articleCount(1), 0)
  }

  /** The load-more phase: the load-more selectors in order; the first present one
      is clicked, and clicked again while that grew the count, until the control
      disappears or MaxNoGrowth clicks in a row bring nothing; the later
      selectors are not tried. Returns the index acted on and the clicks made. */
  method LoadMore(page: LoadMorePage, bound: nat) returns (acted: Option<nat>, clicks: nat)
    requires Bounded(page.articleCount, bound)
    ensures acted == FirstPresent(page.present, 0)
    ensures clicks == LoadMoreClicks(page, bound)
  {
    acted := None;
    clicks := 0;
    var i := 0;
    while i < |LoadMoreSelectors|
      invariant i <= |LoadMoreSelectors|
      invariant FirstPresent(page.present, 0) == FirstPresent(page.present, i)
      invariant acted.None? && clicks == 0
    {
      if LoadMoreSelectors[i] in page.present {
        acted := Some(i);
        var countBefore := page.articleCount(0);
        clicks := 1;
        if page.firstClickRaises {
          break;
        }
        var countAfter := page.articleCount(1);
        if countAfter > countBefore {
          var previous := countAfter;
          var noGrowth := 0;
          var n := 0;
          while noGrowth < MaxNoGrowth
            invariant previous <= bound && noGrowth <= MaxNoGrowth
            invariant clicks + RepeatClicks(page, bound, n, previous, noGrowth) ==
              1 + RepeatClicks(page, bound, 0, countAfter, 0)
            decreases bound - previous, MaxNoGrowth - noGrowth
          {
            if !page.visible(n) {
              break;
            }
            clicks := clicks + 1;
            var newCount := page.articleCount(n + 2);
            if newCount <= previous {
              noGrowth := noGrowth + 1;
            } else {
              previous := newCount;
              noGrowth := 0;
            }
            n := n + 1;
          }
        }
        break;
      }
      i := i + 1;
    }
  }

  // ---------------------------------------------------------------------------
  // countVisibleElements

  const CountSelectors: seq<string> := [
    "article.ma-AdCardV2",
    "article[class*=\"AdCard\"]",
    "article",
    ".ma-AdCardV2",
    "[class*=\"AdCard\"]",
    "[class*=\"listing-item\"]",
    "[class*=\"result-item\"]"
  ]

  /** countVisibleElements: the largest match count over CountSelectors, or 0
      when a count raises. */
  method CountVisibleElements(count: string -> nat, raises: bool) returns (total: nat)
    ensures raises ==> total == 0
    ensures !raises ==> forall i :: 0 <= i < |CountSelectors| ==> count(CountSelectors[i]) <= total
    ensures !raises ==> exists i :: 0 <= i < |CountSelectors| && total == count(CountSelectors[i])
  {
    if raises {
      return 0;
    }
    total := 0;
    for i := 0 to |CountSelectors|
      invariant forall j :: 0 <= j < i ==> count(CountSelectors[j]) <= total
      invariant i == 0 ==> total == 0
      invariant i > 0 ==> exists j :: 0 <= j < i && total == count(CountSelectors[j])
    {
      var c := count(CountSelectors[i]);
      if c > total {
        total := c;
      }
    }
  }
}
