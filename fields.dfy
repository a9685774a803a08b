/**
 * Per-listing field extraction of the scraper (the body of the in-page function
 * of extractData in scrap.js): ordered selector fallback with price and location
 * normalisation, placeholder defaults, the details filter, link and image URLs,
 * the id rule, and the placeholder record for an item whose processing raised.
 *
 * The listing's DOM is an oracle: for each sub-selector, what querySelector
 * finds inside the listing element.
 */
module Fields {
  import opened JsText

  /** What article.querySelector(sel) gives: no element, an element and its
      innerText, or an exception (which getText ignores). */
  datatype Probe = NoMatch | Match(innerText: string) | SelectorRaises

  /** The fieldName argument of getText. */
  datatype FieldName = Title | Price | Location | Description

  type Query = map<string, Probe>

  const TitleSelectors: seq<string> :=
    ["h2.ma-AdCardV2-title", "a[class*=\"AdCard-title-link\"]", "h2[class*=\"title\"]", "[itemprop=\"name\"]"]
  const PriceSelectors: seq<string> :=
    [".ma-AdPrice-value", "[class*=\"Price-value\"]", "[itemprop=\"price\"]", "[class*=\"price\"] strong", "[class*=\"AdPrice\"]"]
  const LocationSelectors: seq<string> :=
    [".ma-AdLocation-text", "[class*=\"Location-text\"]", ".ma-AdCard-location", "[itemprop=\"addressLocality\"]", "[class*=\"location\"] span"]
  const DescriptionSelectors: seq<string> :=
    [".ma-AdCardV2-description", "p[class*=\"description\"]", "[itemprop=\"description\"]", ".ma-AdCard-description"]

  const NoPrice := "Precio no disponible"
  const NoLocation := "Ubicación no disponible"
  const NoDescription := "Sin descripción"
  const ItemErrorText := "Error procesando artículo individual"

  function ProbeAt(query: Query, sel: string): Probe {
    if sel in query then query[sel] else NoMatch
  }

  // ---------------------------------------------------------------------------
  // Price and location normalisation

  /** The price text before its numeric test: the first line of the trimmed
      innerText, every € removed, trimmed again. */
  function Amount(innerText: string): string {
    Trim(RemoveAll(FirstLine(Trim(innerText)), '€'))
  }

  /** The numeric test: non-empty, and a number once every '.' (thousands
      separator) is removed. */
  predicate IsAmount(amount: string) {
    amount != [] && IsNumeric(RemoveAll(amount, '.'))
  }

  /** The price rule for one matched element; None sends getText on to the next
      selector. A price it yields is never blank. */
  function PriceOf(innerText: string): (r: Option<string>)
    ensures r.Some? ==> r.value != []
    ensures IsAmount(Amount(innerText)) ==> r == Some(Amount(innerText) + " €")
    ensures !IsAmount(Amount(innerText)) && '€' in innerText ==> r == Some(FirstLine(Trim(innerText)))
    ensures r.None? <==> !IsAmount(Amount(innerText)) && '€' !in innerText
  {
    var amount := Amount(innerText);
    if IsAmount(amount) then Some(amount + " €")
    else if '€' in innerText then
      EuroLineIsNotBlank(innerText);
      Some(FirstLine(Trim(innerText)))
    else None
  }

  /** Text holding a euro sign has a non-empty first line once trimmed. */
  lemma EuroLineIsNotBlank(innerText: string)
    requires '€' in innerText
    ensures FirstLine(Trim(innerText)) != []
  {
    var i :| 0 <= i < |innerText| && innerText[i] == '€';
    assert !IsSpace(innerText[i]);
    var text := Trim(innerText);
    assert text != [];
    assert !IsSpace(text[0]) && text[0] != '\n';
  }

  /** The location rule: collapse two identical leading lines, else take the
      first line, trimmed. Both branches give the trimmed first line. */
  function LocationOf(text: string): (r: string)
    ensures r == Trim(FirstLine(text))
  {
    var parts := SplitOn(text, '\n');
    if |parts| > 1 && Trim(parts[0]) == Trim(parts[1]) then Trim(parts[0])
    else Trim(FirstLine(text))
  }

  /** What getText makes of a truthy match for a field; None: keep looking. */
  function Normalize(field: FieldName, innerText: string): Option<string> {
    match field
    case Price => PriceOf(innerText)
    case Location => Some(LocationOf(Trim(innerText)))
    case _ => Some(Trim(innerText))
  }

  /** The selector decides getText: its match has truthy innerText and the field
      rule accepts that text. */
  predicate Decides(query: Query, sel: string, field: FieldName) {
    var p := ProbeAt(query, sel);
    p.Match? && p.innerText != [] && Normalize(field, p.innerText).Some?
  }

  /** getText(article, selectors, fieldName): the selectors in order; the first
      deciding one gives the result, '' when none does. */
  function GetText(query: Query, selectors: seq<string>, field: FieldName): (r: string)
    ensures r != [] ==> exists i :: 0 <= i < |selectors| && Decides(query, selectors[i], field)
  {
    if selectors == [] then []
    else if Decides(query, selectors[0], field) then Normalize(field, ProbeAt(query, selectors[0]).innerText).value
    else GetText(query, selectors[1..], field)
  }

  /** The first deciding selector gives getText's result; later selectors are not consulted. */
  lemma {:induction false} GetTextTakesFirstDecider(query: Query, selectors: seq<string>, field: FieldName, k: nat)
    requires k < |selectors| && Decides(query, selectors[k], field)
    requires forall j :: 0 <= j < k ==> !Decides(query, selectors[j], field)
    ensures GetText(query, selectors, field) == Normalize(field, ProbeAt(query, selectors[k]).innerText).value
  {
    if k > 0 {
      GetTextTakesFirstDecider(query, selectors[1..], field, k - 1);
    }
  }

  /** Appending " €" to a trimmed amount keeps it trimmed and on one line. */
  lemma PriceTextIsOneTrimmedLine(amount: string)
    requires Trimmed(amount) && amount != []
    requires '\n' !in amount
    ensures Trim(amount + " €") == amount + " €"
    ensures FirstLine(amount + " €") == amount + " €"
  {
    var r := amount + " €";
    assert r[0] == amount[0] && r[|r| - 1] == '€';
    TrimOfTrimmed(r);
    assert '\n' !in r by {
      assert forall i :: 0 <= i < |r| ==> r[i] != '\n' by {
        forall i | 0 <= i < |r| ensures r[i] != '\n' {
          if i < |amount| { assert r[i] == amount[i]; }
        }
      }
    }
    UpToWithoutSep(r, '\n');
  }

  /** Removing the euro sign from a price text leaves the amount and a blank. */
  lemma RemoveEuroFromPrice(amount: string)
    requires '€' !in amount
    ensures RemoveAll(amount + " €", '€') == amount + " "
  {
    RemoveAllDistributes(amount, " €", '€');
    assert RemoveAll(" €", '€') == " " by {
      assert " €"[1..] == "€";
      assert "€"[1..] == [];
    }
  }

  /** The first trimmed line of a built price is the whole price. */
  lemma PriceLine(amount: string)
    requires Trimmed(amount) && amount != []
    requires '\n' !in amount
    ensures FirstLine(Trim(amount + " €")) == amount + " €"
  {
    PriceTextIsOneTrimmedLine(amount);
  }

  /** Trimming drops the one blank the numeric branch puts before the euro sign. */
  lemma TrimOneBlank(amount: string)
    requires Trimmed(amount) && amount != []
    ensures Trim(amount + " ") == amount
  {
    assert IsSpace(" "[0]);
    TrimDropsTrailingSpace(amount, " ");
  }

  /** The price text of a price the numeric branch produced is the amount it was built from. */
  lemma AmountOfPrice(amount: string)
    requires Trimmed(amount) && amount != []
    requires '€' !in amount && '\n' !in amount
    ensures Amount(amount + " €") == amount
  {
    PriceLine(amount);
    RemoveEuroFromPrice(amount);
    TrimOneBlank(amount);
  }

  /** Re-normalising a price the numeric branch produced (such as "120 €") gives it back. */
  lemma PriceFixedPoint(amount: string)
    requires Trimmed(amount) && IsAmount(amount)
    requires '€' !in amount && '\n' !in amount
    ensures PriceOf(amount + " €") == Some(amount + " €")
  {
    AmountOfPrice(amount);
  }

  /** The price text is trimmed, on one line and without a euro sign. */
  lemma AmountShape(innerText: string)
    ensures Trimmed(Amount(innerText))
    ensures '€' !in Amount(innerText) && '\n' !in Amount(innerText)
  {
    var line := FirstLine(Trim(innerText));
    assert '\n' !in line;
    var bare := RemoveAll(line, '€');
    assert '\n' !in bare && '€' !in bare;
    assert Amount(innerText) == Trim(bare);
  }

  /** The price rule is idempotent on the prices of its numeric branch. */
  lemma PriceIsIdempotent(innerText: string)
    requires IsAmount(Amount(innerText))
    ensures PriceOf(innerText) == Some(Amount(innerText) + " €")
    ensures PriceOf(PriceOf(innerText).value) == PriceOf(innerText)
  {
    AmountShape(innerText);
    PriceFixedPoint(Amount(innerText));
  }

  // ---------------------------------------------------------------------------
  // Titles and placeholders

  function TitlePlaceholder(index: nat): string {
    "Artículo " + NatToString(index + 1)
  }

  /** The four text fields of a listing after the placeholder defaults. */
  datatype Resolved = Resolved(title: string, price: string, location: string, description: string)

  function ResolveFields(query: Query, index: nat): (f: Resolved)
    ensures f.title != [] && f.price != [] && f.location != [] && f.description != []
    ensures GetText(query, TitleSelectors, Title) != [] ==> f.title == GetText(query, TitleSelectors, Title)
    ensures GetText(query, TitleSelectors, Title) == [] ==> f.title == TitlePlaceholder(index)
    ensures GetText(query, PriceSelectors, Price) != [] ==> f.price == GetText(query, PriceSelectors, Price)
    ensures GetText(query, PriceSelectors, Price) == [] ==> f.price == NoPrice
    ensures GetText(query, LocationSelectors, Location) != [] ==> f.location == GetText(query, LocationSelectors, Location)
    ensures GetText(query, LocationSelectors, Location) == [] ==> f.location == NoLocation
    ensures GetText(query, DescriptionSelectors, Description) != [] ==>
      f.description == GetText(query, DescriptionSelectors, Description)
    ensures GetText(query, DescriptionSelectors, Description) == [] ==> f.description == NoDescription
    ensures f.price != NoPrice ==> exists k :: 0 <= k < |PriceSelectors| && Decides(query, PriceSelectors[k], Price)
  {
    var price := GetText(query, PriceSelectors, Price);
    Resolved(
      Or(GetText(query, TitleSelectors, Title), TitlePlaceholder(index)),
      Or(price, NoPrice),
      Or(GetText(query, LocationSelectors, Location), NoLocation),
      Or(GetText(query, DescriptionSelectors, Description), NoDescription))
  }

  /** The first title match with truthy innerText wins even when it trims to '':
      later title selectors are not tried and the placeholder is used. */
  lemma BlankTitleGetsPlaceholder(query: Query, index: nat, k: nat)
    requires k < |TitleSelectors|
    requires ProbeAt(query, TitleSelectors[k]).Match?
    requires ProbeAt(query, TitleSelectors[k]).innerText != []
    requires Trim(ProbeAt(query, TitleSelectors[k]).innerText) == []
    requires forall j :: 0 <= j < k ==> !Decides(query, TitleSelectors[j], Title)
    ensures ResolveFields(query, index).title == TitlePlaceholder(index)
  {
    GetTextTakesFirstDecider(query, TitleSelectors, Title, k);
  }

  // ---------------------------------------------------------------------------
  // Details

  /** The details filter for one trimmed candidate, given the record's resolved fields. */
  predicate KeepsDetail(text: string, f: Resolved)
    ensures KeepsDetail(text, f) ==>
      text != f.title && text != f.price && text != f.location && text != f.description
    ensures KeepsDetail(text, f) ==> exists i :: 0 <= i < |text| && !IsDigit(text[i])
  {
    && text != []
    && 1 < |text| < 50
    && text != f.title
    && !Contains(f.price, UpTo(text, ' '))
    && !Contains(f.location, text)
    && !StartsWith(f.description, Prefix(text, 10))
    && !AllDigits(text)
  }

  /** The trimmed innerText of each detail element in document order; an element
      without innerText (its trim raises) is skipped. */
  function Candidates(texts: seq<Option<string>>): seq<string> {
    if texts == [] then []
    else Candidates(texts[..|texts| - 1]) + CandidateOf(texts[|texts| - 1])
  }

  function CandidateOf(text: Option<string>): seq<string> {
    match text
    case Some(t) => [Trim(t)]
    case None => []
  }

  lemma CandidatesStep(texts: seq<Option<string>>, i: nat)
    requires i < |texts|
    ensures Candidates(texts[..i + 1]) == Candidates(texts[..i]) + CandidateOf(texts[i])
  {
    assert texts[..i + 1][..i] == texts[..i];
  }

  /** The candidates the filter keeps, in order, repetitions included. */
  function Kept(cands: seq<string>, f: Resolved): (r: seq<string>)
    ensures forall x :: x in r <==> x in cands && KeepsDetail(x, f)
  {
    if cands == [] then []
    else
      var last := cands[|cands| - 1];
      assert cands == cands[..|cands| - 1] + [last];
      Kept(cands[..|cands| - 1], f) + (if KeepsDetail(last, f) then [last] else [])
  }

  predicate NoDuplicates(s: seq<string>) {
    forall i, j :: 0 <= i < j < |s| ==> s[i] != s[j]
  }

  /** The first occurrence of each element, in order of first occurrence. */
  function Dedup(s: seq<string>): (r: seq<string>)
    ensures NoDuplicates(r)
    ensures forall x :: x in r <==> x in s
  {
    if s == [] then []
    else
      var init := Dedup(s[..|s| - 1]);
      var x := s[|s| - 1];
      assert s == s[..|s| - 1] + [x];
      if x in init then init else init + [x]
  }

  /** A sequence without repetitions is its own de-duplication: order is kept. */
  lemma {:induction false} DedupOfDistinct(s: seq<string>)
    requires NoDuplicates(s)
    ensures Dedup(s) == s
  {
    if s != [] {
      var init := s[..|s| - 1];
      assert NoDuplicates(init);
      DedupOfDistinct(init);
      assert s[|s| - 1] !in init;
      assert s == init + [s[|s| - 1]];
    }
  }

  /** The details of a record: kept candidates, each once, in encounter order. */
  function DetailsOf(texts: seq<Option<string>>, f: Resolved): (r: seq<string>)
    ensures NoDuplicates(r)
    ensures forall d :: d in r <==> d in Candidates(texts) && KeepsDetail(d, f)
  {
    Dedup(Kept(Candidates(texts), f))
  }

  lemma KeptStep(cands: seq<string>, x: string, f: Resolved)
    ensures Kept(cands + [x], f) == Kept(cands, f) + (if KeepsDetail(x, f) then [x] else [])
  {
    assert (cands + [x])[..|cands|] == cands;
  }

  lemma DedupStep(s: seq<string>, x: string)
    ensures Dedup(s + [x]) == if x in Dedup(s) then Dedup(s) else Dedup(s) + [x]
  {
    assert (s + [x])[..|s|] == s;
  }

  /** The filter commutes with concatenation, so it keeps the candidates' order. */
  lemma {:induction false} KeptAppend(a: seq<string>, b: seq<string>, f: Resolved)
    ensures Kept(a + b, f) == Kept(a, f) + Kept(b, f)
    decreases |b|
  {
    if b == [] {
      assert a + b == a;
    } else {
      var init := b[..|b| - 1];
      var x := b[|b| - 1];
      var e := if KeepsDetail(x, f) then [x] else [];
      assert b == init + [x];
      assert a + b == (a + init) + [x];
      calc {
        Kept(a + b, f);
        { KeptStep(a + init, x, f); }
        Kept(a + init, f) + e;
        { KeptAppend(a, init, f); }
        Kept(a, f) + Kept(init, f) + e;
        { KeptStep(init, x, f); }
        Kept(a, f) + Kept(b, f);
      }
    }
  }

  /** The position of the first occurrence of x in s. */
  function FirstIndex(s: seq<string>, x: string): (i: nat)
    requires x in s
    ensures i < |s| && s[i] == x
    ensures forall j :: 0 <= j < i ==> s[j] != x
  {
    if s[0] == x then 0 else 1 + FirstIndex(s[1..], x)
  }

  /** Appending does not move the first occurrence of an element already present,
      and a new element first occurs at the end. */
  lemma FirstIndexAppend(p: seq<string>, z: string, x: string)
    requires x in p + [z]
    ensures x in p ==> FirstIndex(p + [z], x) == FirstIndex(p, x)
    ensures x !in p ==> FirstIndex(p + [z], x) == |p|
  {
    var s := p + [z];
    var k := FirstIndex(s, x);
    if x in p {
      var m := FirstIndex(p, x);
      assert s[m] == x;
      assert k < |p| ==> p[k] == s[k];
      assert k <= m;
      assert !(k < m);
    } else {
      assert forall j :: 0 <= j < |p| ==> s[j] == p[j];
      assert !(k < |p|);
    }
  }

  /** Dedup lists its elements in the order of their first occurrence in s. */
  lemma {:induction false} DedupOrder(s: seq<string>)
    ensures forall i, j :: 0 <= i < j < |Dedup(s)| ==>
      FirstIndex(s, Dedup(s)[i]) < FirstIndex(s, Dedup(s)[j])
  {
    if s != [] {
      var init := s[..|s| - 1];
      var x := s[|s| - 1];
      assert s == init + [x];
      DedupOrder(init);
      DedupStep(init, x);
      var d := Dedup(init);
      forall i, j | 0 <= i < j < |Dedup(s)|
        ensures FirstIndex(s, Dedup(s)[i]) < FirstIndex(s, Dedup(s)[j])
      {
        var r := Dedup(s);
        assert r[i] in d;
        assert r[i] == d[i];
        FirstIndexAppend(init, x, r[i]);
        FirstIndexAppend(init, x, r[j]);
        if j < |d| {
          assert r[j] == d[j];
        } else {
          assert r[j] == x && x !in init;
        }
      }
    }
  }

  /** Kept candidates keep their relative order of first occurrence. */
  lemma {:induction false} KeptKeepsOrder(c: seq<string>, f: Resolved, x: string, y: string)
    requires x in Kept(c, f) && y in Kept(c, f)
    requires FirstIndex(Kept(c, f), x) < FirstIndex(Kept(c, f), y)
    ensures FirstIndex(c, x) < FirstIndex(c, y)
    decreases |c|
  {
    var init := c[..|c| - 1];
    var z := c[|c| - 1];
    assert c == init + [z];
    KeptStep(init, z, f);
    var k := Kept(init, f);
    var kc := Kept(c, f);
    FirstIndexAppend(init, z, x);
    FirstIndexAppend(init, z, y);
    if x in k && y in k {
      if KeepsDetail(z, f) {
        FirstIndexAppend(k, z, x);
        FirstIndexAppend(k, z, y);
      } else {
        assert kc == k;
      }
      KeptKeepsOrder(init, f, x, y);
    } else if x in k {
      assert y == z && y !in init;
    } else {
      assert false;
    }
  }

  /** The details come out in the order their texts are first met among the
      detail elements. */
  lemma DetailsOrder(texts: seq<Option<string>>, f: Resolved)
    ensures forall i, j :: 0 <= i < j < |DetailsOf(texts, f)| ==>
      FirstIndex(Candidates(texts), DetailsOf(texts, f)[i]) < FirstIndex(Candidates(texts), DetailsOf(texts, f)[j])
  {
    var c := Candidates(texts);
    var kept := Kept(c, f);
    var r := DetailsOf(texts, f);
    DedupOrder(kept);
    forall i, j | 0 <= i < j < |r|
      ensures FirstIndex(c, r[i]) < FirstIndex(c, r[j])
    {
      assert r[i] in kept && r[j] in kept;
      KeptKeepsOrder(c, f, r[i], r[j]);
    }
  }

  /** The details loop: each detail element in turn, pushing an accepted text the
      Set of added texts does not hold yet. */
  method CollectDetails(texts: seq<Option<string>>, f: Resolved) returns (details: seq<string>)
    ensures details == DetailsOf(texts, f)
    ensures NoDuplicates(details)
    ensures forall d :: d in details ==> KeepsDetail(d, f)
    ensures forall t :: t in Candidates(texts) && KeepsDetail(t, f) ==> t in details
  {
    details := [];
    var added: set<string> := {};
    for i := 0 to |texts|
      invariant details == Dedup(Kept(Candidates(texts[..i]), f))
      invariant forall d :: d in added <==> d in details
    {
      ghost var cands := Candidates(texts[..i]);
      ghost var kept := Kept(cands, f);
      CandidatesStep(texts, i);
      if texts[i].Some? {
        var text := Trim(texts[i].value);
        assert Candidates(texts[..i + 1]) == cands + [text];
        KeptStep(cands, text, f);
        if KeepsDetail(text, f) {
          assert Kept(Candidates(texts[..i + 1]), f) == kept + [text];
          DedupStep(kept, text);
          if text !in added {
            details := details + [text];
            added := added + {text};
          }
        } else {
          assert Kept(Candidates(texts[..i + 1]), f) == kept + [];
          assert kept + [] == kept;
        }
      } else {
        assert Candidates(texts[..i + 1]) == cands + [];
        assert cands + [] == cands;
      }
    }
    assert texts[..|texts|] == texts;
  }

  // ---------------------------------------------------------------------------
  // Link, image and id

  /** The first img[src] of a listing: its src property and its lazy-loading attributes. */
  datatype Image = Image(src: string, dataSrc: Option<string>, dataLazySrc: Option<string>)

  /** One listing element as the in-page function sees it. */
  datatype Article = Article(
    query: Query,                      // querySelector per field sub-selector
    detailTexts: seq<Option<string>>,  // innerText of each detail element, in document order
    cardLink: Option<string>,          // href of the first title/card link
    anyLink: Option<string>,           // href of the first a[href]
    image: Option<Image>,              // the first img[src]
    dataId: Option<string>,            // the data-id attribute
    elementId: string,                 // the element's id
    fault: Option<string>)             // message of an exception raised while processing this listing

  /** A link resolved against the page's origin; None when it cannot be parsed as a URL. */
  type Resolver = string -> Option<string>

  /** An href that is not absolute is resolved against the page origin; when the
      resolution raises the href stays as it was. */
  function Absolute(href: string, resolve: Resolver): string {
    if href != [] && !StartsWith(href, "http") then
      match resolve(href) case Some(u) => u case None => href
    else href
  }

  /** The href the URL is taken from: the card link when there is one, else any link. */
  function Link(a: Article): Option<string> {
    if a.cardLink.Some? then a.cardLink else a.anyLink
  }

  /** The listing URL: the link's href, resolved against the origin when it is
      not absolute and the resolution succeeds; '' without a link. */
  function UrlOf(a: Article, resolve: Resolver): (r: string)
    ensures Link(a).None? ==> r == []
    ensures Link(a).Some? && (Link(a).value == [] || StartsWith(Link(a).value, "http")) ==> r == Link(a).value
    ensures Link(a).Some? && Link(a).value != [] && !StartsWith(Link(a).value, "http") ==>
      (resolve(Link(a).value).Some? ==> r == resolve(Link(a).value).value) &&
      (resolve(Link(a).value).None? ==> r == Link(a).value)
  {
    match a.cardLink
    case Some(href) => Absolute(href, resolve)
    case None =>
      match a.anyLink
      case Some(href) => Absolute(href, resolve)
      case None => []
  }

  /** An image address that starts with plain http is moved to https; any other
      address is kept. */
  function Upgrade(u: string): (r: string)
    ensures !StartsWith(r, "http://")
    ensures StartsWith(u, "http://") ==> r == "https://" + u[7..]
    ensures !StartsWith(u, "http://") ==> r == u
  {
    if StartsWith(u, "http://") then
      var r := "https://" + u[7..];
      assert r[4] == 's';
      r
    else u
  }

  /** data-src || data-lazy-src, '' when neither is set. */
  function LazySrc(img: Image): string {
    Or(match img.dataSrc case Some(v) => v case None => [],
       match img.dataLazySrc case Some(v) => v case None => [])
  }

  /** A src that is neither protocol-relative nor absolute. */
  predicate IsRelative(src: string) {
    src != [] && !StartsWith(src, "//") && !StartsWith(src, "http")
  }

  /** The image URL rule. */
  function ImageUrlOf(image: Option<Image>, resolve: Resolver): (r: string)
    ensures image.None? ==> r == []
    ensures !StartsWith(r, "http://")
    ensures image.Some? && image.value.src == [] ==> r == []
    ensures image.Some? && StartsWith(image.value.src, "//") ==> r == "https:" + image.value.src
    ensures image.Some? && StartsWith(image.value.src, "http") ==> r == Upgrade(image.value.src)
    ensures image.Some? && IsRelative(image.value.src) && LazySrc(image.value) != [] ==>
      r == Upgrade(LazySrc(image.value))
    ensures image.Some? && IsRelative(image.value.src) && LazySrc(image.value) == [] ==>
      (resolve(image.value.src).Some? ==> r == Upgrade(resolve(image.value.src).value)) &&
      (resolve(image.value.src).None? ==> r == image.value.src)
  {
    match image
    case None => []
    case Some(img) =>
      var src := img.src;
      if src == [] then []
      else if StartsWith(src, "//") then
        var r := "https:" + src;
        assert !StartsWith(r, "http://") by { assert r[4] == 's'; }
        assert !StartsWith(src, "http://") by { assert src[0] == '/'; }
        r
      else if !StartsWith(src, "http") then
        var lazy := LazySrc(img);
        if lazy != [] then Upgrade(lazy)
        else
          match resolve(src)
          case Some(u) => Upgrade(u)
          case None => src
      else Upgrade(src)
  }

  /** The regex /\/(\d+)\.htm/ matches at position i (the run of digits is
      maximal, as '.' is not a digit). */
  predicate HtmIdAt(s: string, i: nat) {
    i < |s| && s[i] == '/' &&
    var d := LeadingDigits(s[i + 1..]);
    d != [] && StartsWith(s[i + 1 + |d|..], ".htm")
  }

  /** The regex /id=(\d+)/ matches at position i. */
  predicate QueryIdAt(s: string, i: nat) {
    i + 3 < |s| && s[i..i + 3] == "id=" && IsDigit(s[i + 3])
  }

  /** The regex /\/(\d+)$/ matches at position i. */
  predicate TailIdAt(s: string, i: nat) {
    i < |s| && s[i] == '/' && AllDigits(s[i + 1..])
  }

  /** The leftmost position from i on where a pattern matches. */
  function Leftmost(s: string, matchesAt: (string, nat) -> bool, i: nat): (k: Option<nat>)
    requires i <= |s|
    ensures k.Some? ==> i <= k.value < |s| && matchesAt(s, k.value)
    ensures k.Some? ==> forall j :: i <= j < k.value ==> !matchesAt(s, j)
    ensures k.None? ==> forall j :: i <= j < |s| ==> !matchesAt(s, j)
    decreases |s| - i
  {
    if i == |s| then None
    else if matchesAt(s, i) then Some(i)
    else Leftmost(s, matchesAt, i + 1)
  }

  /** A position where the pattern matches, with no match before it, is the leftmost one. */
  lemma {:induction false} LeftmostFinds(s: string, matchesAt: (string, nat) -> bool, i: nat, k: nat)
    requires i <= k < |s| && matchesAt(s, k)
    requires forall j :: i <= j < k ==> !matchesAt(s, j)
    ensures Leftmost(s, matchesAt, i) == Some(k)
    decreases k - i
  {
    if i < k {
      LeftmostFinds(s, matchesAt, i + 1, k);
    }
  }

  /** The digits the listing address yields, trying three patterns in turn: a
      number before ".htm", an id query parameter, a number closing the path. */
  function UrlId(url: string): (r: Option<string>)
    ensures r.Some? ==> AllDigits(r.value)
    ensures Leftmost(url, HtmIdAt, 0).Some? ==> r == Some(LeadingDigits(url[Leftmost(url, HtmIdAt, 0).value + 1..]))
    ensures Leftmost(url, HtmIdAt, 0).None? && Leftmost(url, QueryIdAt, 0).Some? ==>
      r == Some(LeadingDigits(url[Leftmost(url, QueryIdAt, 0).value + 3..]))
    ensures Leftmost(url, HtmIdAt, 0).None? && Leftmost(url, QueryIdAt, 0).None? && Leftmost(url, TailIdAt, 0).Some? ==>
      r == Some(url[Leftmost(url, TailIdAt, 0).value + 1..])
    ensures r.None? <==>
      Leftmost(url, HtmIdAt, 0).None? && Leftmost(url, QueryIdAt, 0).None? && Leftmost(url, TailIdAt, 0).None?
  {
    match Leftmost(url, HtmIdAt, 0)
    case Some(k) => Some(LeadingDigits(url[k + 1..]))
    case None =>
      match Leftmost(url, QueryIdAt, 0)
      case Some(k) =>
        var d := LeadingDigits(url[k + 3..]);
        assert d != [] && d[0] == url[k + 3];
        Some(d)
      case None =>
        match Leftmost(url, TailIdAt, 0)
        case Some(k) => Some(url[k + 1..])
        case None => None
  }

  /** The id rule: data-id, else the element id, else digits from the URL, else
      the first ten title characters without blanks, '_' and the index. */
  function IdOf(a: Article, url: string, title: string, index: nat): (r: string)
    ensures r != []
    ensures a.dataId.Some? && a.dataId.value != [] ==> r == a.dataId.value
    ensures (a.dataId.None? || a.dataId.value == []) && a.elementId != [] ==> r == a.elementId
    ensures (a.dataId.None? || a.dataId.value == []) && a.elementId == [] && url != [] && UrlId(url).Some? ==>
      r == UrlId(url).value
    ensures (a.dataId.None? || a.dataId.value == []) && a.elementId == [] && (url == [] || UrlId(url).None?) ==>
      r == RemoveSpaces(Prefix(title, 10)) + "_" + NatToString(index)
  {
    if a.dataId.Some? && a.dataId.value != [] then a.dataId.value
    else if a.elementId != [] then a.elementId
    else
      match (if url != [] then UrlId(url) else None)
      case Some(digits) => digits
      case None => RemoveSpaces(Prefix(title, 10)) + "_" + NatToString(index)
  }

  /** The id of a URL with /N.htm comes from it when the listing has no id attributes. */
  lemma HtmUrlGivesId(a: Article, url: string, title: string, index: nat, k: nat)
    requires (a.dataId.None? || a.dataId.value == []) && a.elementId == []
    requires HtmIdAt(url, k) && forall j :: 0 <= j < k ==> !HtmIdAt(url, j)
    ensures IdOf(a, url, title, index) == LeadingDigits(url[k + 1..])
  {
    LeftmostFinds(url, HtmIdAt, 0, k);
  }

  // ---------------------------------------------------------------------------
  // Records

  datatype Record =
    | Listing(id: string, title: string, price: string, location: string, description: string,
              details: seq<string>, url: string, imageUrl: string)
    | ItemError(id: string, error: string, message: string, partial: bool)

  /** The record one listing element yields. */
  function RecordFor(a: Article, index: nat, resolve: Resolver): (r: Record)
    ensures a.fault.Some? ==> r == ItemError("error_" + NatToString(index), ItemErrorText, a.fault.value, true)
    ensures a.fault.None? ==> var f := ResolveFields(a.query, index);
      && r.Listing?
      && r.title == f.title && r.price == f.price && r.location == f.location && r.description == f.description
      && r.details == DetailsOf(a.detailTexts, f)
      && r.url == UrlOf(a, resolve) && r.imageUrl == ImageUrlOf(a.image, resolve)
      && r.id == IdOf(a, r.url, f.title, index)
  {
    match a.fault
    case Some(message) => ItemError("error_" + NatToString(index), ItemErrorText, message, true)
    case None =>
      var f := ResolveFields(a.query, index);
      var url := UrlOf(a, resolve);
      Listing(IdOf(a, url, f.title, index), f.title, f.price, f.location, f.description,
              DetailsOf(a.detailTexts, f), url, ImageUrlOf(a.image, resolve))
  }

  /** Every record has an id; the error placeholder appears exactly for the
      elements whose processing raised; a listing has all four text fields, no
      repeated detail and no plain-http image. */
  lemma RecordShape(a: Article, index: nat, resolve: Resolver)
    ensures var r := RecordFor(a, index, resolve);
      && r.id != []
      && (r.ItemError? <==> a.fault.Some?)
      && (r.ItemError? ==> r.partial && r.id == "error_" + NatToString(index) && r.error == ItemErrorText)
      && (r.Listing? ==> r.title != [] && r.price != [] && r.location != [] && r.description != [])
      && (r.Listing? ==> NoDuplicates(r.details) && !StartsWith(r.imageUrl, "http://"))
  {
  }

  /** One iteration of articles.forEach: the fields, the details loop, the
      links and the id, or the error placeholder when processing raised. */
  method ExtractArticle(a: Article, index: nat, resolve: Resolver) returns (r: Record)
    ensures r == RecordFor(a, index, resolve)
  {
    if a.fault.Some? {
      return ItemError("error_" + NatToString(index), ItemErrorText, a.fault.value, true);
    }
    var f := ResolveFields(a.query, index);
    var details := CollectDetails(a.detailTexts, f);
    var url := UrlOf(a, resolve);
    var imageUrl := ImageUrlOf(a.image, resolve);
    var id := IdOf(a, url, f.title, index);
    r := Listing(id, f.title, f.price, f.location, f.description, details, url, imageUrl);
  }
}
