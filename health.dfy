/**
 * checkSystemStatus: the health report. Each probe (the Chromium service, the
 * package manifest, the disk usage reported by `df -h .`, and a ping) sets its
 * component's status; the overall status is the worst of them.
 * The probes' results are parameters.
 */
module Health {
  import opened JsText

  datatype Status = Pending | Ok | Warning | Error

  /** The outcome of something that either yields a value or raises with a message. */
  datatype Outcome<T> = Success(value: T) | Raised(message: string)

  /** How far the Chromium probe got: the HTTP version endpoint (its answer), the
      websocket connection with the blank-page round trip, and the error
      message of the step that raised, if one did. */
  datatype ChromiumProbe = ChromiumProbe(versionInfo: Option<string>, failure: Option<string>)

  /** The dependencies and devDependencies of the package manifest. */
  datatype Manifest = Manifest(dependencies: map<string, string>, devDependencies: map<string, string>)

  datatype Probes = Probes(
    chromium: ChromiumProbe,
    manifest: Outcome<Manifest>,
    df: Outcome<string>,
    ping: Outcome<()>)

  /** The first five fields of the second line of `df -h .`; a field the line
      does not have is undefined (None). */
  datatype DiskDetails = DiskDetails(
    filesystem: Option<string>,
    size: Option<string>,
    used: Option<string>,
    available: Option<string>,
    usedPercentage: Option<string>)

  datatype Report = Report(
    chromiumStatus: Status,
    connectionStatus: Option<string>,
    versionInfo: Option<string>,
    chromiumError: Option<string>,
    puppeteerStatus: Status,
    puppeteerError: Option<string>,
    dependenciesStatus: Status,
    dependencyDetails: map<string, string>,
    diskStatus: Status,
    diskDetails: Option<DiskDetails>,
    networkStatus: Status,
    networkDetails: Option<string>,
    overall: Status)

  const ChromiumFailureText: string := "No se pudo conectar al servicio de Chromium"
  const ConnectivityOk: string := "Internet connectivity confirmed"
  const ConnectivityIssue: string := "Internet connectivity issue detected"
  /** Disk usage above this percentage is a warning. */
  const DiskUsageLimit: int := 90

  // ---------------------------------------------------------------------------
  // Roll-up

  /** The components' statuses in the order the roll-up lists them. */
  function Components(r: Report): seq<Status> {
    [r.chromiumStatus, r.puppeteerStatus, r.dependenciesStatus, r.diskStatus, r.networkStatus]
  }

  /** error if any component is error, else warning if any is warning, else ok
      (a component still pending counts as ok). */
  function Overall(statuses: seq<Status>): (r: Status)
    ensures r != Pending
    ensures r == Error <==> Error in statuses
    ensures r == Warning <==> Error !in statuses && Warning in statuses
  {
    if Error in statuses then Error
    else if Warning in statuses then Warning
    else Ok
  }

  /** The severity order: pending ranks with ok. */
  function Rank(s: Status): nat {
    match s
    case Pending => 0
    case Ok => 0
    case Warning => 1
    case Error => 2
  }

  function MaxRank(statuses: seq<Status>): (r: nat)
    ensures forall i :: 0 <= i < |statuses| ==> Rank(statuses[i]) <= r
    ensures statuses != [] ==> exists i :: 0 <= i < |statuses| && Rank(statuses[i]) == r
    ensures statuses == [] ==> r == 0
  {
    if statuses == [] then 0
    else
      var rest := MaxRank(statuses[1..]);
      assert forall i :: 1 <= i < |statuses| ==> statuses[i] == statuses[1..][i - 1];
      if Rank(statuses[0]) >= rest then Rank(statuses[0]) else rest
  }

  /** The overall status is the worst component status. */
  lemma OverallIsWorst(statuses: seq<Status>)
    ensures Rank(Overall(statuses)) == MaxRank(statuses)
  {
    var r := MaxRank(statuses);
    if Error in statuses {
      var i :| 0 <= i < |statuses| && statuses[i] == Error;
      assert Rank(statuses[i]) == 2;
    } else if Warning in statuses {
      var i :| 0 <= i < |statuses| && statuses[i] == Warning;
      assert Rank(statuses[i]) == 1;
    } else if statuses != [] {
      var j :| 0 <= j < |statuses| && Rank(statuses[j]) == r;
      assert statuses[j] in statuses;
    }
  }

  // ---------------------------------------------------------------------------
  // Disk space

  /** The index of the first white-space character of s, or |s|. */
  function FirstSpace(s: string): (i: nat)
    ensures i <= |s| && (i < |s| ==> IsSpace(s[i]))
    ensures forall j :: 0 <= j < i ==> !IsSpace(s[j])
  {
    if s == [] || IsSpace(s[0]) then 0 else 1 + FirstSpace(s[1..])
  }

  /** The first cut of s at white space: the text before the first blank, the
      maximal blank run after it, and the rest. */
  function Cut(s: string): (c: (string, string, string))
    requires FirstSpace(s) < |s|
    ensures s == c.0 + c.1 + c.2
    ensures c.0 == s[..FirstSpace(s)]
    ensures c.1 != [] && forall j :: 0 <= j < |c.1| ==> IsSpace(c.1[j])
    ensures c.2 == [] || !IsSpace(c.2[0])
    ensures |c.2| < |s|
  {
    var i := FirstSpace(s);
    var rest := TrimStart(s[i..]);
    BlankRunAt(s, i);
    (s[..i], s[i..|s| - |rest|], rest)
  }

  /** From a blank at position i, TrimStart skips a non-empty run of blanks. */
  lemma BlankRunAt(s: string, i: nat)
    requires i < |s| && IsSpace(s[i])
    ensures var rest := TrimStart(s[i..]);
      && i < |s| - |rest|
      && s == s[..i] + s[i..|s| - |rest|] + rest
      && forall j :: i <= j < |s| - |rest| ==> IsSpace(s[j])
  {
    var tail := s[i..];
    var rest := TrimStart(tail);
    var k := |tail| - |rest|;
    assert tail[0] == s[i];
    assert rest == tail[k..];
    assert s[i..|s| - |rest|] == tail[..k];
    assert s == s[..i] + tail[..k] + tail[k..];
  }

  /** s.split(/\s+/): the pieces between maximal runs of white space; a leading
      or trailing run gives an empty first or last piece. */
  function SplitWs(s: string): (parts: seq<string>)
    ensures |parts| >= 1
    ensures forall p :: p in parts ==> forall j :: 0 <= j < |p| ==> !IsSpace(p[j])
    ensures (forall j :: 0 <= j < |s| ==> !IsSpace(s[j])) ==> parts == [s]
    decreases |s|
  {
    if FirstSpace(s) == |s| then
      assert s[..|s|] == s;
      [s]
    else
      var c := Cut(s);
      var rest := SplitWs(c.2);
      assert IsSpace(s[FirstSpace(s)]);
      assert forall j :: 0 <= j < |c.0| ==> !IsSpace(c.0[j]);
      assert forall p :: p in [c.0] + rest ==> p == c.0 || p in rest;
      [c.0] + rest
  }

  /** The blank runs SplitWs splits at, in order. */
  function WsRuns(s: string): seq<string>
    decreases |s|
  {
    if FirstSpace(s) == |s| then [] else [Cut(s).1] + WsRuns(Cut(s).2)
  }

  /** The pieces with the runs between them: the inverse of SplitWs. */
  function Interleave(parts: seq<string>, runs: seq<string>): string
    requires |parts| == |runs| + 1
  {
    if runs == [] then parts[0] else parts[0] + runs[0] + Interleave(parts[1..], runs[1..])
  }

  /** SplitWs cuts s at maximal blank runs: the pieces, rejoined by the non-empty
      blank runs between them in order, give s back. */
  lemma {:induction false} SplitWsRoundTrip(s: string)
    ensures |SplitWs(s)| == |WsRuns(s)| + 1
    ensures Interleave(SplitWs(s), WsRuns(s)) == s
    ensures forall run :: run in WsRuns(s) ==> run != [] && forall j :: 0 <= j < |run| ==> IsSpace(run[j])
    decreases |s|
  {
    if FirstSpace(s) == |s| {
      assert s[..|s|] == s;
    } else {
      var c := Cut(s);
      SplitWsRoundTrip(c.2);
      var parts := SplitWs(s);
      var runs := WsRuns(s);
      assert parts == [c.0] + SplitWs(c.2);
      assert runs == [c.1] + WsRuns(c.2);
      assert parts[1..] == SplitWs(c.2) && runs[1..] == WsRuns(c.2);
      assert Interleave(parts, runs) == c.0 + c.1 + Interleave(SplitWs(c.2), WsRuns(c.2));
      assert forall run :: run in runs ==> run == c.1 || run in WsRuns(c.2);
    }
  }

  /** replace('%', '') on field 4 (Use%): the first c removed. */
  function RemoveFirst(s: string, c: char): (r: string)
    ensures c in s ==> |r| == |s| - 1
    ensures c !in s ==> r == s
  {
    if s == [] then []
    else if s[0] == c then s[1..]
    else [s[0]] + RemoveFirst(s[1..], c)
  }

  /** The removed character is the first c: what remains is the text before it
      followed by the text after it. */
  lemma {:induction false} RemoveFirstSplicesFirst(s: string, c: char)
    ensures var i := |UpTo(s, c)|; RemoveFirst(s, c) == s[..i] + (if i < |s| then s[i + 1..] else [])
    decreases |s|
  {
    if s != [] && s[0] != c {
      RemoveFirstSplicesFirst(s[1..], c);
      var i := |UpTo(s[1..], c)|;
      assert UpTo(s, c) == [s[0]] + UpTo(s[1..], c);
      assert s[..i + 1] == [s[0]] + s[1..][..i];
      assert i < |s[1..]| ==> s[i + 2..] == s[1..][i + 1..];
    }
  }

  /** diskInfo[k]: undefined past the end. */
  function Field(info: seq<string>, k: nat): (r: Option<string>)
    ensures r.Some? <==> k < |info|
  {
    if k < |info| then Some(info[k]) else None
  }

  /** The disk status and details from the output of `df -h .`: pending, without
      details, when the output has no second line; otherwise the details are set
      from the second line's fields, and the status is error when the command
      fails or the line has fewer than five fields (reading field 4 raises),
      warning when the used percentage parses to more than DiskUsageLimit, and
      ok otherwise. */
  function Disk(df: Outcome<string>): (r: (Status, Option<DiskDetails>))
    ensures df.Raised? ==> r == (Error, None)
    ensures df.Success? && |SplitOn(df.value, '\n')| >= 2 ==>
      var info := SplitWs(SplitOn(df.value, '\n')[1]);
      && r.1 == Some(DiskDetails(Field(info, 0), Field(info, 1), Field(info, 2), Field(info, 3), Field(info, 4)))
      && (r.0 == Error <==> |info| < 5)
    ensures r.0 == Pending <==> df.Success? && |SplitOn(df.value, '\n')| < 2
    ensures r.0 == Pending ==> r.1.None?
    ensures df.Success? && r.0 != Pending ==> r.1.Some?
    ensures r.0 == Error && df.Success? ==> r.1.Some? && r.1.value.usedPercentage.None?
    ensures r.0 == Warning ==> (
      && df.Success? && r.1.Some? && r.1.value.usedPercentage.Some?
      && var used := ParseInt(RemoveFirst(r.1.value.usedPercentage.value, '%'));
         used.Some? && used.value > DiskUsageLimit)
    ensures r.0 == Ok ==> (
      && df.Success? && r.1.Some? && r.1.value.usedPercentage.Some?
      && var used := ParseInt(RemoveFirst(r.1.value.usedPercentage.value, '%'));
         used.None? || used.value <= DiskUsageLimit)
  {
    match df
    case Raised(_) => (Error, None)
    case Success(stdout) =>
      var lines := SplitOn(stdout, '\n');
      if |lines| < 2 then (Pending, None)
      else
        var info := SplitWs(lines[1]);
        var details := DiskDetails(Field(info, 0), Field(info, 1), Field(info, 2), Field(info, 3), Field(info, 4));
        if |info| < 5 then (Error, Some(details))
        else
          var used := ParseInt(RemoveFirst(info[4], '%'));
          if used.Some? && used.value > DiskUsageLimit then (Warning, Some(details))
          else (Ok, Some(details))
  }

  /** A Use% of n% on the second line is a warning exactly when n > 90. */
  lemma DiskWarnsAboveLimit(df: Outcome<string>, n: nat)
    requires df.Success? && |SplitOn(df.value, '\n')| >= 2
    requires |SplitWs(SplitOn(df.value, '\n')[1])| >= 5
    requires SplitWs(SplitOn(df.value, '\n')[1])[4] == NatToString(n) + "%"
    ensures Disk(df).0 == (if n > DiskUsageLimit then Warning else Ok)
  {
    PercentRoundTrip(n);
  }

  /** Removing the '%' from "n%" and parsing gives n back. */
  lemma PercentRoundTrip(n: nat)
    ensures ParseInt(RemoveFirst(NatToString(n) + "%", '%')) == Some(n)
  {
    var digits := NatToString(n);
    var field := digits + "%";
    assert '%' !in digits by {
      assert forall j :: 0 <= j < |digits| ==> IsDigit(digits[j]);
    }
    UpToWithoutSep(digits, '%');
    UpToAppend(digits, "%", '%');
    assert field[..|digits|] == digits;
    RemoveFirstSplicesFirst(field, '%');
    ParseIntOfNatToString(n);
  }

  /** A usage that does not parse (NaN > 90 is false) counts as ok. */
  lemma UnparsableUsageIsOk(df: Outcome<string>)
    requires Disk(df).1.Some? && Disk(df).1.value.usedPercentage.Some?
    requires ParseInt(RemoveFirst(Disk(df).1.value.usedPercentage.value, '%')).None?
    ensures Disk(df).0 == Ok
  {
  }

  // ---------------------------------------------------------------------------
  // The report

  /** checkSystemStatus, from the probes' results: every status starts pending
      and each probe settles its own component. */
  method CheckSystemStatus(probes: Probes) returns (report: Report)
    ensures report.chromiumStatus == report.puppeteerStatus
    ensures report.chromiumStatus == (if probes.chromium.failure.None? then Ok else Error)
    ensures report.chromiumError == probes.chromium.failure
    ensures report.puppeteerError.Some? <==> probes.chromium.failure.Some?
    ensures probes.chromium.failure.Some? ==> report.puppeteerError == Some(ChromiumFailureText)
    ensures report.connectionStatus.Some? <==> probes.chromium.versionInfo.Some?
    ensures report.connectionStatus.Some? ==> report.connectionStatus == Some("connected")
    ensures report.versionInfo == probes.chromium.versionInfo
    ensures report.dependenciesStatus == (if probes.manifest.Success? then Ok else Warning)
    ensures probes.manifest.Success? ==>
      (report.dependencyDetails == probes.manifest.value.dependencies + probes.manifest.value.devDependencies)
    ensures probes.manifest.Raised? ==> report.dependencyDetails == map[]
    ensures (report.diskStatus, report.diskDetails) == Disk(probes.df)
    ensures report.networkStatus == (if probes.ping.Success? then Ok else Warning)
    ensures report.networkDetails == Some(if probes.ping.Success? then ConnectivityOk else ConnectivityIssue)
    ensures report.overall == Overall(Components(report))
  {
    report := Report(Pending, None, None, None, Pending, None, Pending, map[], Pending, None, Pending, None, Pending);

    // Chromium: the HTTP endpoint first, then the websocket round trip.
    if probes.chromium.versionInfo.Some? {
      report := report.(versionInfo := probes.chromium.versionInfo, connectionStatus := Some("connected"));
    }
    match probes.chromium.failure {
      case None =>
        report := report.(puppeteerStatus := Ok, chromiumStatus := Ok);
      case Some(message) =>
        report := report.(chromiumStatus := Error, chromiumError := Some(message),
                          puppeteerStatus := Error, puppeteerError := Some(ChromiumFailureText));
    }

    // Dependencies: dependencies, then devDependencies over them.
    match probes.manifest {
      case Success(m) =>
        report := report.(dependencyDetails := m.dependencies + m.devDependencies, dependenciesStatus := Ok);
      case Raised(_) =>
        report := report.(dependenciesStatus := Warning);
    }

    // Disk space.
    var disk := Disk(probes.df);
    report := report.(diskStatus := disk.0, diskDetails := disk.1);

    // Network.
    if probes.ping.Success? {
      report := report.(networkStatus := Ok, networkDetails := Some(ConnectivityOk));
    } else {
      report := report.(networkStatus := Warning, networkDetails := Some(ConnectivityIssue));
    }

    // Roll-up.
    var statuses := Components(report);
    var hasErrors := false;
    var hasWarnings := false;
    for i := 0 to |statuses|
      invariant hasErrors <==> Error in statuses[..i]
      invariant hasWarnings <==> Warning in statuses[..i]
    {
      assert statuses[..i + 1] == statuses[..i] + [statuses[i]];
      hasErrors := hasErrors || statuses[i] == Error;
      hasWarnings := hasWarnings || statuses[i] == Warning;
    }
    assert statuses[..|statuses|] == statuses;
    if hasErrors {
      report := report.(overall := Error);
    } else if hasWarnings {
      report := report.(overall := Warning);
    } else {
      report := report.(overall := Ok);
    }
  }

  /** A failed Chromium probe always makes the report an error overall. */
  lemma ChromiumFailureIsError(r: Report)
    requires r.chromiumStatus == Error
    ensures Overall(Components(r)) == Error
  {
    assert Components(r)[0] == Error;
  }
}
