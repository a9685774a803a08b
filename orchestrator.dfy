/**
 * scrapeMilanuncios: up to MaxRetries + 1 attempts, each of which connects to the
 * browser, loads and prepares the page and runs extractData. An extraction that
 * reports an error is retried at once; an exception is retried after a growing
 * back-off; the last attempt turns either into the final answer.
 *
 * Everything an attempt does before extractData returns (connecting, opening the
 * page, navigation, consent, scrolling) is summarised by the attempt's outcome,
 * which is given per attempt number.
 */
module Orchestrator {
  import opened JsText
  import opened Fields
  import opened Extractor

  /** Retries after the first attempt. */
  const MaxRetries: nat := 2
  /** The back-off after a failed attempt k is (k + 1) * BackoffUnit milliseconds. */
  const BackoffUnit: nat := 5000

  const RetryExhaustedMessage: string := "No se pudieron extraer datos después de múltiples intentos"
  /** The prefix of the final exception's message; it names MaxRetries + 1 attempts. */
  const RetryFailurePrefix: string := "Error después de 3 intentos: "

  /** One attempt: it raised (with the exception's message, and whether its
      puppeteer.connect had returned by then), or extractData returned a value. */
  datatype Attempt = Threw(message: string, connected: bool) | Returned(value: Extraction)

  /** The observable steps that follow an attempt's outcome. */
  datatype Step = Connect | ClosePage | CloseAllPages | Backoff(ms: nat)

  /** What scrapeMilanuncios settles on: the records, the partial-failure object,
      or the exception it throws. */
  datatype ScrapeResult =
    | Listings(data: seq<Record>)
    | Failure(error: string, message: string, partial: bool)
    | Raised(message: string)

  datatype Verdict = Retry | Done(result: ScrapeResult)

  /** The result and the number of attempts made. */
  datatype Run = Run(result: ScrapeResult, attempts: nat)

  /** The value carries an error: `scrapedData && scrapedData.error` is truthy. */
  predicate CarriesError(x: Extraction) {
    x.ExtractionError? && x.error != []
  }

  /** How attempt k ends. */
  function Settle(a: Attempt, k: nat): (v: Verdict)
    ensures k >= MaxRetries ==> v.Done?
    ensures v.Retry? <==> k < MaxRetries && (a.Threw? || CarriesError(a.value))
    ensures v.Done? && v.result.Listings? ==> a.Returned? && !CarriesError(a.value)
    ensures a.Returned? && !CarriesError(a.value) ==>
      v == Done(Listings(if a.value.Records? then a.value.data else []))
    ensures v.Done? && v.result.Failure? ==>
      k >= MaxRetries && a.Returned? && CarriesError(a.value) &&
      v.result == Failure(a.value.error, RetryExhaustedMessage, true)
    ensures v.Done? && v.result.Raised? ==>
      k >= MaxRetries && a.Threw? && v.result == Raised(RetryFailurePrefix + a.message)
  {
    match a
    case Returned(x) =>
      if CarriesError(x) then
        if k >= MaxRetries then Done(Failure(x.error, RetryExhaustedMessage, true)) else Retry
      else Done(Listings(if x.Records? then x.data else []))
    case Threw(m, _) =>
      if k >= MaxRetries then Done(Raised(RetryFailurePrefix + m)) else Retry
  }

  /** The attempts from k on until one settles. */
  function Outcome(run: nat -> Attempt, k: nat): (r: Run)
    requires k <= MaxRetries
    ensures k < r.attempts <= MaxRetries + 1
    ensures Settle(run(r.attempts - 1), r.attempts - 1) == Done(r.result)
    ensures forall j :: k <= j < r.attempts - 1 ==> Settle(run(j), j).Retry?
    decreases MaxRetries - k
  {
    match Settle(run(k), k)
    case Done(result) => Run(result, k + 1)
    case Retry => Outcome(run, k + 1)
  }

  /** `browser` after attempt k: set once any connect has returned. */
  function BrowserAfter(a: Attempt, browserSet: bool): bool {
    browserSet || a.Returned? || a.connected
  }

  /** The steps of attempt k, given whether `browser` was already set. */
  function AttemptSteps(a: Attempt, k: nat, browserSet: bool): (r: seq<Step>)
    ensures |r| > 0 && r[0] == Connect
    ensures ClosePage in r <==> a.Returned?
    ensures CloseAllPages in r <==> a.Threw? && BrowserAfter(a, browserSet)
    ensures CloseAllPages in r ==> r[1] == CloseAllPages
    ensures a.Threw? && k < MaxRetries ==> r[|r| - 1] == Backoff((k + 1) * BackoffUnit)
    ensures k == MaxRetries ==> forall i :: 0 <= i < |r| ==> !r[i].Backoff?
  {
    [Connect] +
    match a
    case Returned(_) => [ClosePage]
    case Threw(_, _) =>
      (if BrowserAfter(a, browserSet) then [CloseAllPages] else []) +
      (if k < MaxRetries then [Backoff((k + 1) * BackoffUnit)] else [])
  }

  /** The steps of the attempts from k on. */
  function Trace(run: nat -> Attempt, k: nat, browserSet: bool): seq<Step>
    requires k <= MaxRetries
    decreases MaxRetries - k
  {
    AttemptSteps(run(k), k, browserSet) +
    if Settle(run(k), k).Retry? then Trace(run, k + 1, BrowserAfter(run(k), browserSet)) else []
  }

  lemma TraceStep(run: nat -> Attempt, k: nat, browserSet: bool)
    requires k <= MaxRetries
    ensures Settle(run(k), k).Retry? ==>
      Trace(run, k, browserSet) == AttemptSteps(run(k), k, browserSet) + Trace(run, k + 1, BrowserAfter(run(k), browserSet))
    ensures Settle(run(k), k).Done? ==> Trace(run, k, browserSet) == AttemptSteps(run(k), k, browserSet)
  {
  }

  lemma AppendAssociates(a: seq<Step>, b: seq<Step>, c: seq<Step>)
    ensures a + b + c == a + (b + c)
  {
  }

  /** One pass of the attempt loop after the attempt's outcome is known: close the
      page (or, after an exception, every page of a connected browser), and wait
      before the next attempt after an exception. */
  method FinishAttempt(a: Attempt, attempt: nat, browserSet: bool)
    returns (verdict: Verdict, steps: seq<Step>, browserNow: bool)
    requires attempt <= MaxRetries
    ensures verdict == Settle(a, attempt)
    ensures steps == AttemptSteps(a, attempt, browserSet)
    ensures browserNow == BrowserAfter(a, browserSet)
  {
    steps := [Connect];
    match a
    case Returned(x) =>
      browserNow := true;
      steps := steps + [ClosePage];
      if !CarriesError(x) {
        verdict := Done(Listings(if x.Records? then x.data else []));
      } else if attempt == MaxRetries {
        verdict := Done(Failure(x.error, RetryExhaustedMessage, true));
      } else {
        verdict := Retry;
      }
    case Threw(m, connected) =>
      browserNow := browserSet || connected;
      if browserNow {
        steps := steps + [CloseAllPages];
      }
      if attempt == MaxRetries {
        verdict := Done(Raised(RetryFailurePrefix + m));
      } else {
        steps := steps + [Backoff((attempt + 1) * BackoffUnit)];
        verdict := Retry;
      }
  }

  /** scrapeMilanuncios, from the attempt outcomes: the result, the attempts made
      and the steps taken. */
  method ScrapeMilanuncios(run: nat -> Attempt) returns (result: ScrapeResult, attempts: nat, trace: seq<Step>)
    ensures Run(result, attempts) == Outcome(run, 0)
    ensures trace == Trace(run, 0, false)
  {
    var browserSet := false;
    trace := [];
    var attempt := 0;
    while true
      invariant attempt <= MaxRetries
      invariant Outcome(run, 0) == Outcome(run, attempt)
      invariant trace + Trace(run, attempt, browserSet) == Trace(run, 0, false)
      decreases MaxRetries - attempt
    {
      var verdict, steps, browserNow := FinishAttempt(run(attempt), attempt, browserSet);
      TraceStep(run, attempt, browserSet);
      ghost var before := trace;
      trace := trace + steps;
      if verdict.Done? {
        return verdict.result, attempt + 1, trace;
      }
      ghost var rest := Trace(run, attempt + 1, browserNow);
      AppendAssociates(before, steps, rest);
      browserSet := browserNow;
      attempt := attempt + 1;
    }
  }

  /** The three kinds of result: records come from an attempt whose value carries
      no error; the partial failure and the exception only from the last attempt. */
  lemma ResultKinds(run: nat -> Attempt)
    ensures Outcome(run, 0).result.Listings? ==>
      run(Outcome(run, 0).attempts - 1).Returned? && !CarriesError(run(Outcome(run, 0).attempts - 1).value)
    ensures Outcome(run, 0).result.Listings? ==>
      var x := run(Outcome(run, 0).attempts - 1).value;
      Outcome(run, 0).result.data == (if x.Records? then x.data else [])
    ensures Outcome(run, 0).result.Failure? ==>
      Outcome(run, 0).attempts == MaxRetries + 1 && CarriesError(run(MaxRetries).value) &&
      Outcome(run, 0).result == Failure(run(MaxRetries).value.error, RetryExhaustedMessage, true)
    ensures Outcome(run, 0).result.Raised? ==>
      Outcome(run, 0).attempts == MaxRetries + 1 && run(MaxRetries).Threw? &&
      Outcome(run, 0).result.message == RetryFailurePrefix + run(MaxRetries).message
  {
  }

  /** An extraction error is retried at once: when no attempt raises, no
      back-off is taken. */
  lemma {:induction false} NoBackoffWithoutThrow(run: nat -> Attempt, k: nat, browserSet: bool)
    requires k <= MaxRetries
    requires forall j :: k <= j <= MaxRetries ==> run(j).Returned?
    ensures forall s :: s in Trace(run, k, browserSet) ==> !s.Backoff?
    decreases MaxRetries - k
  {
    if Settle(run(k), k).Retry? {
      NoBackoffWithoutThrow(run, k + 1, BrowserAfter(run(k), browserSet));
    }
  }

  /** The back-offs of a trace strictly increase. */
  predicate IncreasingBackoffs(t: seq<Step>) {
    forall i, j :: 0 <= i < j < |t| && t[i].Backoff? && t[j].Backoff? ==> t[i].ms < t[j].ms
  }

  /** Every back-off of a trace waits between lo and hi ms. */
  predicate BackoffsWithin(t: seq<Step>, lo: nat, hi: nat) {
    forall i :: 0 <= i < |t| && t[i].Backoff? ==> lo <= t[i].ms <= hi
  }

  lemma ConcatBackoffs(a: seq<Step>, b: seq<Step>, lo: nat, hi: nat)
    requires IncreasingBackoffs(a) && BackoffsWithin(a, lo, lo)
    requires IncreasingBackoffs(b) && BackoffsWithin(b, lo + 1, hi)
    requires lo <= hi
    ensures IncreasingBackoffs(a + b) && BackoffsWithin(a + b, lo, hi)
  {
    var t := a + b;
    forall i | 0 <= i < |t| && t[i].Backoff? ensures lo <= t[i].ms <= hi {
      if i >= |a| {
        assert t[i] == b[i - |a|];
      }
    }
    forall i, j | 0 <= i < j < |t| && t[i].Backoff? && t[j].Backoff? ensures t[i].ms < t[j].ms {
      if i >= |a| {
        assert t[i] == b[i - |a|] && t[j] == b[j - |a|];
      } else if j >= |a| {
        assert t[j] == b[j - |a|];
      }
    }
  }

  /** An attempt takes at most one back-off, exactly when it raised and is not the
      last, and after attempt k it waits (k + 1) * BackoffUnit ms. */
  lemma AttemptBackoff(a: Attempt, k: nat, browserSet: bool)
    ensures Backoff((k + 1) * BackoffUnit) in AttemptSteps(a, k, browserSet) <==> a.Threw? && k < MaxRetries
    ensures IncreasingBackoffs(AttemptSteps(a, k, browserSet))
    ensures BackoffsWithin(AttemptSteps(a, k, browserSet), (k + 1) * BackoffUnit, (k + 1) * BackoffUnit)
  {
  }

  /** The back-offs strictly increase from attempt to attempt: the one after
      attempt k waits (k + 1) * BackoffUnit ms, none waits longer than
      MaxRetries * BackoffUnit ms. */
  lemma {:induction false} BackoffsIncrease(run: nat -> Attempt, k: nat, browserSet: bool)
    requires k <= MaxRetries
    ensures BackoffsWithin(Trace(run, k, browserSet), (k + 1) * BackoffUnit, MaxRetries * BackoffUnit)
    ensures IncreasingBackoffs(Trace(run, k, browserSet))
    decreases MaxRetries - k
  {
    var steps := AttemptSteps(run(k), k, browserSet);
    AttemptBackoff(run(k), k, browserSet);
    TraceStep(run, k, browserSet);
    if Settle(run(k), k).Retry? {
      var next := BrowserAfter(run(k), browserSet);
      BackoffsIncrease(run, k + 1, next);
      var rest := Trace(run, k + 1, next);
      WithinWidens(rest, k + 1, (k + 1) * BackoffUnit + 1);
      ConcatBackoffs(steps, rest, (k + 1) * BackoffUnit, MaxRetries * BackoffUnit);
    }
  }

  /** The back-offs after attempt k + 1 wait longer than the one after attempt k. */
  lemma WithinWidens(t: seq<Step>, k: nat, lo: nat)
    requires BackoffsWithin(t, k * BackoffUnit + BackoffUnit, MaxRetries * BackoffUnit)
    requires lo <= k * BackoffUnit + 1
    ensures BackoffsWithin(t, lo, MaxRetries * BackoffUnit)
  {
  }
}
