# Milanuncios scraper and health check, modelled in Dafny

This project models the core of a scraper for the classified-ads site
milanuncios.com, together with its health check.

The scraper side (`scrap.js`) covers:

- building the search address from the caller's parameters, and deleting `categoria` from the caller's object;
- choosing a random user agent from a fixed pool;
- dismissing the cookie dialog;
- exhausting the result page: the capped coarse scroll, the "load more" clicking loop and `countVisibleElements`;
- `extractData`: choosing the listing container by match counts, then turning each listing element into a record. A record carries the title, price, location and description, with their fallbacks and placeholders. It also carries the de-duplicated and filtered details, the link and image URLs, and the id. A listing whose processing raised becomes a placeholder record;
- the retry loop of `scrapeMilanuncios`. Up to three attempts are made. An extraction that reports an error is retried at once. An exception is retried after 5 s and then 10 s. The last attempt turns either failure into the final answer.

The health-check side (`checkSystemStatus` in `health-check.js`) covers:

- each probe setting its component's status, including the parsing of `df -h .`;
- the roll-up of the component statuses into the overall status.

The browser, the DOM, the shell and the network do not appear in the model. They are reduced to what the code observes, passed in as parameters:

- match counts and element texts per selector, as maps;
- bottom-of-page, visibility and listing-count observations, indexed by step;
- the outcome of each scraping attempt;
- the results of the probes.

Modules, one per file:

| file | module | models |
|---|---|---|
| text.dfy | JsText | the JavaScript string operations the code relies on (trim, split, includes, startsWith, replace, `\s`/`\d`, String(n), isNaN, parseInt) |
| search_url.dfy | SearchUrl | `buildUrl`; the caller's parameter object is a class, because `buildUrl` deletes from it |
| session.dfy | Session | `getRandomUserAgent` |
| consent.dfy | Consent | `handleCookiesConsent` |
| exhauster.dfy | Exhauster | `exhaustiveScroll` (coarse scroll and load-more loop), `countVisibleElements` |
| fields.dfy | Fields | the per-listing body of `extractData`'s in-page function |
| extractor.dfy | Extractor | `extractData` |
| orchestrator.dfy | Orchestrator | `scrapeMilanuncios` |
| health.dfy | Health | `checkSystemStatus` |

Where the code loops, the model has a method with a loop. Most such methods (CoarseScroll, LoadMore, ExtractAll, CollectDetails, ScrapeMilanuncios) are proved equal to a specification function, and the properties are proved about that function. CountVisibleElements and AppendAll instead state their result directly: the largest count over the selectors, and the entries appended in order.

## Model

| member | source | states |
|---|---|---|
| JsText.Trim | scrap.js:348 | the result is a prefix of what follows the leading white space, so it is the slice of the input between a run of leading and a run of trailing white space. It has no white space at either end, holds only characters of the input, and is empty exactly when the input is all white space |
| JsText.UpTo | scrap.js:353 | `split(sep)[0]` is a prefix of the input without the separator, ending just before the first separator |
| JsText.SplitOn | health-check.js:111 | `split(sep)` yields at least one piece, none holds the separator, the first is the text before the first separator, and joining the pieces gives the input back |
| JsText.ContainsIffOccurs | scrap.js:268 | `includes` holds exactly when the substring occurs at some position |
| JsText.RemoveAll | scrap.js:353 | a global one-character replace by '' removes every occurrence, keeps every other character, and leaves text without the character unchanged |
| JsText.RemoveAllDistributes | scrap.js:353 | the replace works piece by piece: on a concatenation it is the concatenation of the two results. With RemoveAll's own contract on a single character, this fixes the result, in order |
| JsText.RemoveAllCount | scrap.js:353 | the replace keeps every other character exactly as often as it occurs, and no occurrence of the removed one |
| JsText.NatToString | scrap.js:502 | String(n) is a string of decimal digits whose value is n, with no leading zero |
| JsText.LeadingDigits | scrap.js:495 | the captured `\d+` is the longest prefix made of digits |
| JsText.ParseInt | health-check.js:122 | parseInt yields a number exactly when, after leading blanks, the text starts with a digit or with a sign followed by a digit. The number is the value of the leading digits, negated after '-' |
| JsText.IsNumeric | scrap.js:354 | text the numeric test accepts holds only white space, digits and signs, and when not blank it starts, after its blanks, with a digit or a signed digit, so parseInt reads it as a number too |
| JsText.ParseIntOfNatToString | health-check.js:122 | parseInt reads String(n) back as n |
| JsText.ToLower | scrap.js:267 | toLowerCase maps each character separately and keeps the length |
| JsText.Or | scrap.js:417-420 | `a \|\| b` on strings gives a when a is non-empty and b when a is empty, so it is non-empty exactly when either operand is |
| SearchUrl.Lookup | scrap.js:194 | `params[key]` is absent exactly when no entry has the key, and otherwise is the value of an entry with that key |
| SearchUrl.Remove | scrap.js:196 | `delete params[key]` leaves exactly the entries with other keys, adds no key, changes nothing when the key is absent, and keeps keys distinct. A single entry is dropped exactly when it has the key |
| SearchUrl.RemoveAppend | scrap.js:196 | deleting a key from two runs of entries deletes it from each run: the survivors keep their order and their number |
| SearchUrl.Category | scrap.js:194 | the truthy test succeeds exactly when categoria is present and non-empty, and then gives its value |
| SearchUrl.Params.constructor | scrap.js:190 | the parameter object holds the given entries, with distinct keys |
| SearchUrl.Params.CategoryParam | scrap.js:194 | the truthy test on the object's current entries: a value exactly when categoria is present and not empty, and then that value |
| SearchUrl.Params.Delete | scrap.js:196 | deleting a key leaves the object's entries without it, with keys still distinct |
| SearchUrl.TargetOf | scrap.js:190-206 | the path is the base address plus the category, or "motor" when there is none, plus "/". With a category, the query is the entries with categoria deleted, in their order; without one it is the entries unchanged. Every other entry is a query parameter, and every query parameter is an entry |
| SearchUrl.EmptyCategoryStaysInQuery | scrap.js:194-206 | an empty categoria is not truthy: the path falls back to motor/ and `categoria=` stays in the query |
| SearchUrl.CategoryNotDuplicated | scrap.js:194-206 | a category used as the path segment never also appears as a query parameter |
| SearchUrl.BuildUrl | scrap.js:190-208 | the address built is TargetOf of the object's entries on entry. A truthy categoria is deleted from the caller's object and nothing else changes |
| SearchUrl.AppendAll | scrap.js:204-206 | the forEach appends the remaining entries to the search parameters in key order |
| SearchUrl.Href | scrap.js:208 | the serialised address is the path alone when there are no parameters, and otherwise the path, "?" and the serialised parameters joined by '&' in order |
| SearchUrl.Pairs | scrap.js:204-208 | one serialised name=value pair per query parameter, in order |
| SearchUrl.QueryString | scrap.js:204-208 | the query string is the serialised pairs joined by '&' |
| SearchUrl.MotorByDefault | scrap.js:190-208 | without categoria, `{marca: "fiat"}` gives `https://www.milanuncios.com/motor/?marca=fiat` |
| SearchUrl.CategoryTarget | scrap.js:190-196 | `{categoria: "coches", marca: "fiat"}` gives the path `https://www.milanuncios.com/coches/` and the query `marca=fiat` alone |
| SearchUrl.CategoryInPath | scrap.js:190-208 | `{categoria: "coches", marca: "fiat"}` gives `https://www.milanuncios.com/coches/?marca=fiat` |
| Session.UserAgentIndex | scrap.js:223 | Math.floor(roll * 7) is a valid index into the pool for every roll in [0, 1) |
| Session.RandomUserAgent | scrap.js:212-224 | the user agent is always one of the seven in the pool |
| Consent.FirstDismissing | scrap.js:245-261 | the selector pass stops at the first selector that finds an element whose click succeeds. The selectors before it found nothing, raised, or failed to click |
| Consent.TextPass | scrap.js:264-278 | the text pass clicks the first button whose lower-cased text contains accept, acepto or aceptar. All earlier buttons were readable and did not match. It succeeds only if that click does |
| Consent.TextPassFindsFirstAccepting | scrap.js:266-275 | conversely, an accepting button with a successful click, preceded only by readable non-accepting buttons, is the one the text pass reports |
| Consent.ConsentOutcome | scrap.js:227-286 | the dialog is dismissed by the first dismissing selector exactly when one exists. Otherwise it is dismissed by the button TextPass reports exactly when the buttons could be listed and TextPass reports one. In every other case it is not handled |
| Consent.HandleCookiesConsent | scrap.js:227-286 | the two passes, as loops, give ConsentOutcome |
| Exhauster.TicksFrom | scrap.js:18-33 | the coarse scroll runs until the first tick at the bottom of the page, or until 50 ticks |
| Exhauster.TicksFromIsFirst | scrap.js:23-32 | conversely, the first tick at the bottom, or the cap, is the tick count |
| Exhauster.CoarseScroll | scrap.js:16-35 | the timer loop runs between 1 and 50 ticks, equal to TicksFrom, and scrolls 300 px per tick |
| Exhauster.FirstPresent | scrap.js:81-87 | the first load-more selector with a match, and none before it has one |
| Exhauster.RepeatClicks | scrap.js:109-139 | the repeat loop makes no click exactly when five clicks in a row did not grow the count or the control is gone. While the count is bounded, it makes at most five clicks per unit of growth still possible, plus the ones left |
| Exhauster.StopsAfterFiveWithoutGrowth | scrap.js:113-138 | with a visible control and no growth, the loop stops after exactly the remaining of the five chances |
| Exhauster.GrowthResetsCounter | scrap.js:133-138 | a click that grows the count resets the no-growth counter to zero |
| Exhauster.LoadMoreClicks | scrap.js:81-144 | no click is made exactly when no selector is present. More than one click only follows a first click that grew the count. The number of clicks is bounded by the bound on the count |
| Exhauster.LoadMore | scrap.js:69-147 | the selector loop acts on the first present selector and makes LoadMoreClicks clicks |
| Exhauster.CountVisibleElements | scrap.js:158-187 | the total is the largest of the seven selector counts, attained by one of them, and 0 when counting raises |
| Fields.PriceOf | scrap.js:351-360 | an amount-shaped cleaned text gives the amount plus " €". Otherwise text holding € gives its trimmed first line. Otherwise the rule passes, which happens exactly when the text is neither. A price it yields is never blank |
| Fields.EuroLineIsNotBlank | scrap.js:356-358 | text holding € has a non-empty first line once trimmed |
| Fields.PriceTextIsOneTrimmedLine | scrap.js:353-355 | a trimmed one-line amount with " €" appended is still trimmed and one line |
| Fields.RemoveEuroFromPrice | scrap.js:353 | removing € from an amount plus " €" leaves the amount and one blank |
| Fields.AmountOfPrice | scrap.js:353-355 | the price text of amount + " €" is the amount again |
| Fields.PriceFixedPoint | scrap.js:353-355 | a numeric price such as "120 €" normalises to itself |
| Fields.AmountShape | scrap.js:353 | the cleaned price text is trimmed, on one line and without € |
| Fields.PriceIsIdempotent | scrap.js:351-358 | for text whose cleaned first line is numeric, the price is that amount plus " €", and normalising it again changes nothing |
| Fields.LocationOf | scrap.js:361-367 | both branches of the location rule give the trimmed first line |
| Fields.GetText | scrap.js:342-375 | getText gives a non-empty text only when some selector's match has truthy text and is accepted by the field rule; when no selector does, it gives '' |
| Fields.GetTextTakesFirstDecider | scrap.js:342-375 | getText's result comes from the first selector whose match has truthy text and is accepted by the field rule; later selectors are not consulted |
| Fields.ResolveFields | scrap.js:417-420 | each of the four fields is getText's result when that is non-empty and the field's placeholder otherwise, so all four are non-empty |
| Fields.BlankTitleGetsPlaceholder | scrap.js:342-417 | a first title match whose text trims to '' stops the search, and the placeholder title is used |
| Fields.KeepsDetail | scrap.js:428-434 | a text that passes the details filter repeats none of the record's title, price, location and description, and holds a non-digit |
| Fields.Kept | scrap.js:428-434 | a text is kept exactly when it is a candidate and passes the filter |
| Fields.Dedup | scrap.js:423-437 | the result has no repetitions and the same elements as the input |
| Fields.DedupOfDistinct | scrap.js:423-437 | a sequence without repetitions is unchanged by de-duplication |
| Fields.KeptAppend | scrap.js:428-434 | the filter commutes with concatenation, so the kept texts stay in candidate order |
| Fields.DedupOrder | scrap.js:423-437 | the de-duplicated texts are listed in the order of their first occurrence |
| Fields.KeptKeepsOrder | scrap.js:423-437 | two kept texts keep the order of their first occurrences among the candidates |
| Fields.DetailsOrder | scrap.js:423-440 | the details come out in the order their texts are first met among the detail elements |
| Fields.DetailsOf | scrap.js:423-440 | the details have no repetitions and are exactly the trimmed texts that pass the filter |
| Fields.CollectDetails | scrap.js:423-440 | the forEach with its Set gives DetailsOf: no repetitions, every detail passes the filter, and every accepted text is present |
| Fields.UrlOf | scrap.js:443-462 | without a link the URL is ''. The link is the card link, or any link without one. An empty or absolute link is kept as it is. A relative one is resolved against the origin, and kept as it is when resolution raises |
| Fields.Upgrade | scrap.js:481-483 | an http:// URL becomes https:// with the rest unchanged, and any other URL is unchanged |
| Fields.ImageUrlOf | scrap.js:464-485 | no image or an empty src gives ''. A protocol-relative src gets "https:". An absolute src is upgraded. A relative src gives the upgraded data-src or data-lazy-src when either is set; else the upgraded resolved src; else the src as it is when resolution raises. The result never starts with http:// |
| Fields.Leftmost | scrap.js:495 | the match position a regex finds is the leftmost one |
| Fields.LeftmostFinds | scrap.js:495 | conversely, a matching position with no match before it is the one found |
| Fields.UrlId | scrap.js:495-498 | the first of the three patterns that matches gives the id: the digits after the leftmost /N.htm, else after the leftmost id=, else the leftmost trailing /N. There is no id exactly when none matches, and an id is all digits |
| Fields.IdOf | scrap.js:488-504 | a non-empty data-id wins, else a non-empty element id. Else the URL id when the URL is non-empty and has one. Else the blank-free ten-character title prefix, '_' and the index. The id is never empty |
| Fields.HtmUrlGivesId | scrap.js:494-498 | a URL with /N.htm gives N as the id when the element has no id attributes |
| Fields.RecordFor | scrap.js:339-524 | a listing that raised gives the placeholder with id error_index, the fixed error text and its message. Any other listing gives a record whose text fields come from the field rules, whose details come from the details filter, and whose link, image and id come from their rules |
| Fields.RecordShape | scrap.js:506-524 | every record has an id. The error placeholder appears exactly for listings whose processing raised, with id error_index. A listing has four non-empty text fields, no repeated detail and no http:// image |
| Fields.ExtractArticle | scrap.js:339-524 | one iteration of the forEach produces RecordFor of the listing |
| Extractor.FirstAbove | scrap.js:310-321 | the first fallback matching more than the current count, with none before it doing so |
| Extractor.ContainerSelector | scrap.js:293-322 | a primary with at least 5 matches is kept with its count. Below that, the first fallback beating it is chosen, and when none does the primary is kept with its count. The count belongs to the selector and is at least the primary count. It is 0 exactly when every selector matches nothing |
| Extractor.FirstImprovementWins | scrap.js:315-320 | a fallback that beats the floor, with none before it doing so, is the one chosen |
| Extractor.ContainerIsFirstImprovement | scrap.js:304-322 | with a weak primary, the first fallback that beats it wins, even if a later one matches more |
| Extractor.ChooseContainer | scrap.js:293-322 | the counting loop with its break gives ContainerSelector |
| Extractor.RecordsOf | scrap.js:334-527 | one record per listing element, in order, each RecordFor of its element and index |
| Extractor.ExtractAll | scrap.js:334-527 | the forEach pushing records gives RecordsOf |
| Extractor.ExtractionOf | scrap.js:289-542 | a fault of page.evaluate itself gives the general error with its message. Without it, no match anywhere gives "No se encontraron artículos" (and only then). An in-page exception gives the evaluate error with its message. Otherwise the result is the records of the chosen container's elements. The result is never NotAList |
| Extractor.ExtractData | scrap.js:289-542 | the method gives ExtractionOf |
| Orchestrator.Settle | scrap.js:632-677 | the last attempt always settles, an earlier one is retried exactly when it raised or its value carries an error. A value without error gives its records (or none when it is not a list). The partial failure carries the last value's error, the exception the prefixed message |
| Orchestrator.Outcome | scrap.js:552-684 | between 1 and 3 attempts are made. The last one settles with the result. Every earlier one was retried |
| Orchestrator.FinishAttempt | scrap.js:632-683 | one pass after an attempt's outcome gives Settle, the attempt's steps and the new browser flag |
| Orchestrator.ScrapeMilanuncios | scrap.js:549-684 | the retry loop gives Outcome's result and attempt count, and Trace's steps |
| Orchestrator.ResultKinds | scrap.js:636-677 | records come from the settling attempt's error-free value and are its records. The partial failure carries the third attempt's error. The final exception carries "Error después de 3 intentos: " and the third attempt's message |
| Orchestrator.NoBackoffWithoutThrow | scrap.js:632-682 | extraction errors are retried at once: when no attempt raises, no back-off is taken |
| Orchestrator.AttemptSteps | scrap.js:560-682 | an attempt connects first. It closes its page exactly when it returned. After a raise, it closes every page exactly when a browser is set, and that close comes before the back-off. A raise before the last attempt ends with the back-off of (k + 1) * 5000 ms, and the last attempt does not back off |
| Orchestrator.AttemptBackoff | scrap.js:680-682 | attempt k waits (k + 1) * 5000 ms exactly when it raised and is not the last, and waits at most once |
| Orchestrator.BackoffsIncrease | scrap.js:675-682 | the back-offs strictly increase from attempt to attempt and never exceed 10000 ms |
| Health.Overall | health-check.js:141-163 | never pending. Error exactly when some component is error. Warning exactly when none is error and some is warning |
| Health.MaxRank | health-check.js:141-163 | the worst component severity, as an independent reference definition |
| Health.OverallIsWorst | health-check.js:141-163 | the overall status is the worst component status, with pending ranked as ok |
| Health.SplitWs | health-check.js:113 | `split(/\s+/)` yields at least one piece and no piece holds white space; text without white space is one piece |
| Health.SplitWsRoundTrip | health-check.js:113 | the pieces interleaved with the white-space runs they were cut at give the input back; every run is non-empty white space |
| Health.RemoveFirst | health-check.js:122 | replace('%', '') shortens the text by one when it holds '%' and changes nothing otherwise |
| Health.RemoveFirstSplicesFirst | health-check.js:122 | the character removed is the first '%': the text before it and the text after it are kept |
| Health.Field | health-check.js:114-120 | a field past the end of the line is undefined |
| Health.Disk | health-check.js:109-128 | a failed command gives error without details. Without a second line the status stays pending. Otherwise the details are the first five fields of the second line, undefined past its end, and the status is error exactly when field 4 is missing. Warning means field 4 without its first '%' parses to more than 90, ok that it does not |
| Health.UnparsableUsageIsOk | health-check.js:122-123 | a percentage that does not parse (NaN > 90 is false) gives ok |
| Health.DiskWarnsAboveLimit | health-check.js:109-124 | a second line whose field 4 is "N%" gives warning exactly when N > 90, else ok |
| Health.PercentRoundTrip | health-check.js:122 | parseInt of String(n) + "%" with the '%' removed is n |
| Health.CheckSystemStatus | health-check.js:54-163 | the Chromium service and Puppeteer share one status: ok, or error with the probe's message as the Chromium error and the fixed failure text as the Puppeteer error. The version information is the endpoint's answer, and the connection is "connected" exactly when there is one. The dependencies are the devDependencies over the dependencies, with a warning and no details when the manifest cannot be read. The disk follows Disk. The network is ok or warning by the ping, with the matching message. The overall status is Overall of the five |
| Health.ChromiumFailureIsError | health-check.js:85-158 | a failed Chromium probe always makes the report an error overall |

## Left out

- server.js (the HTTP layer) is not part of this model.
- Puppeteer, the DOM, axios, `child_process` and the file system are not modelled. What the code observes of them is given as parameters.
- The sleeps and their random jitter are left out, because time is not modelled. So are the page and navigation timeouts, the extra HTTP headers, the initial cookie and `page.goto`. Each attempt's preparation is summarised by its outcome.
- `exhaustiveScroll` as a whole is not a member: its coarse scroll (Exhauster.CoarseScroll) and its load-more phase (Exhauster.LoadMore) are modelled apart. A scroll that raises sends the function to its outer catch, which returns false without running the load-more phase (scrap.js:151-153). Raising scrolls are not modelled.
- The fine second scroll of `exhaustiveScroll` is left out: it has no branch and no result the rest of the code reads. So is the boolean that `exhaustiveScroll` returns, which the caller ignores.
- Exhauster.LoadMore: evaluate failures while probing or counting are not modelled. Only a raising first click ends the phase early.
- Exhauster.LoadMore requires that the listing counts are bounded. Without a bound, a page whose count grows forever keeps the source's repeat loop clicking forever.
- Exhauster.CoarseScroll: the `innerHeight + scrollY >= scrollHeight` test is an observation per tick (`atBottom`), not computed from pixel sizes.
- SearchUrl.Href: the WHATWG URL form-encoding of names and values is a parameter (`encode`), and the path segment is used as given, without percent-encoding.
- SearchUrl.Params: the order of keys is the order of the entries. JavaScript's `Object.keys` puts integer-like keys first, and that ordering is not modelled.
- JsText.IsNumeric: `isNaN` is approximated as blank text, or an optional sign followed by decimal digits. Exponents, hexadecimal, binary and octal literals and "Infinity" are not recognised.
- JsText.ParseInt: a "0x" prefix reads as 0, not as hexadecimal.
- JsText.ToLower: only ASCII letters are lowered.
- Lengths (detail length bounds, the ten-character title prefix) count code points, where JavaScript counts UTF-16 units.
- `imgElement.src` and `a.href` are taken as the browser reports them, already resolved. URL resolution against the origin is a parameter (`Resolver`) that may raise.
- Fields.PriceIsIdempotent covers the numeric branch only. A price from the €-branch can keep inner blanks and text that re-normalise differently.
- Orchestrator.FinishAttempt: a failing `page.close()` after an extraction is not modelled. It would send the attempt into the exception path.
- Orchestrator.ScrapeMilanuncios: the code never calls `browser.disconnect()`, and the model follows the code. Pages left open after a successful attempt are not tracked.
- Orchestrator.RetryFailurePrefix is the literal "Error después de 3 intentos: ", which is `maxRetries + 1` written out.
- Extractor.ExtractionOf never yields NotAList. The in-page function always returns either an array or an error object, so `Array.isArray(scrapedData) ? scrapedData : []` only ever takes its first branch.
- Health.CheckSystemStatus: the system and Node.js information (platform, memory, CPUs, pid), the timestamp, the Puppeteer and browser versions and the debugging URL are left out. They are OS and process probes that no status depends on.
- Health.CheckSystemStatus: the outer catch is not modelled. Every probe has its own catch, so no step outside them can raise.
- Session.RandomUserAgent: `Math.random()` is a parameter `roll` in [0, 1).
