/** Listing the sessions: running `tmux list-sessions`, telling "no server / no sessions"
    apart from real failures, parsing the listing and filling in each session's process and
    resource details. */
module SessionListing {
  import opened Wrappers
  import opened RustStr
  import opened SessionParser

  /** What a finished `tmux` command reported: whether it exited successfully, and its
      standard output and standard error decoded as text. */
  datatype CommandOutput = CommandOutput(success: bool, stdout: string, stderr: string)

  /** The error returned when the `tmux` process cannot be started at all. */
  const SpawnFailed: string := "Failed to execute tmux command"

  /** The prefix of the error returned when `list-sessions` fails for another reason. */
  const ListFailed: string := "tmux command failed: "

  /** The phrases by which tmux says that there is no server, or nothing to list. */
  const NoServerPhrases: seq<string> :=
    ["no server running", "no sessions", "no current client", "can't find session", "server not found"]

  /** A failed `list-sessions` whose standard error names one of the no-server phrases
      means "there are no sessions" rather than a failure. */
  predicate IsNoServerError(stderr: string)
    ensures IsNoServerError(stderr) ==> |stderr| >= 11
  {
    || Contains(stderr, "no server running")
    || Contains(stderr, "no sessions")
    || Contains(stderr, "no current client")
    || Contains(stderr, "can't find session")
    || Contains(stderr, "server not found")
  }

  /** The classification in terms of positions: a failure is a no-server report exactly when
      one of the phrases occurs somewhere in its standard error. */
  lemma NoServerIffPhraseOccurs(stderr: string)
    ensures IsNoServerError(stderr) <==>
      exists k, i :: 0 <= k < |NoServerPhrases| && OccursAt(stderr, NoServerPhrases[k], i)
  {
    forall k | 0 <= k < |NoServerPhrases| {
      ContainsIffOccurs(stderr, NoServerPhrases[k]);
    }
    if IsNoServerError(stderr) {
      assert NoServerPhrases[0] == "no server running" && NoServerPhrases[1] == "no sessions";
      assert NoServerPhrases[2] == "no current client" && NoServerPhrases[3] == "can't find session";
      assert NoServerPhrases[4] == "server not found";
      var k :| 0 <= k < |NoServerPhrases| && Contains(stderr, NoServerPhrases[k]);
      var i :| OccursAt(stderr, NoServerPhrases[k], i);
    }
  }

  /** Any message that embeds one of the phrases, wherever it sits, is a no-server report. */
  lemma PhraseAnywhereIsNoServer(before: string, k: nat, after: string)
    requires k < |NoServerPhrases|
    ensures IsNoServerError(before + NoServerPhrases[k] + after)
  {
    ContainsInfix(before, NoServerPhrases[k], after);
  }

  /** A message shorter than every phrase (the shortest has eleven characters) is a real failure. */
  lemma ShortMessageIsFailure(stderr: string)
    requires |stderr| < 11
    ensures !IsNoServerError(stderr)
  {
    forall k | 0 <= k < |NoServerPhrases| ensures !Contains(stderr, NoServerPhrases[k]) {
      ContainsNeedsRoom(stderr, NoServerPhrases[k]);
    }
    assert !Contains(stderr, NoServerPhrases[0]) && !Contains(stderr, NoServerPhrases[1]);
    assert !Contains(stderr, NoServerPhrases[2]) && !Contains(stderr, NoServerPhrases[3]);
    assert !Contains(stderr, NoServerPhrases[4]);
  }

  /** The outcome of `list-sessions` before enrichment: a spawn failure or an unexplained
      non-zero exit is an error, a no-server report is the empty list, and a success is the
      parse of the standard output. `exec` is `None` when the process could not be started. */
  function Listing(exec: Option<CommandOutput>): (r: Result<seq<Session>>)
    ensures exec.None? ==> r == Err(SpawnFailed)
    ensures exec.Some? && !exec.value.success ==>
      (IsNoServerError(exec.value.stderr) <==> r == Ok([]))
    ensures exec.Some? && !exec.value.success && !IsNoServerError(exec.value.stderr) ==>
      r == Err(ListFailed + Trim(exec.value.stderr))
    ensures exec.Some? && exec.value.success ==> r == Ok(ParseSessions(exec.value.stdout))
  {
    match exec
    case None => Err(SpawnFailed)
    case Some(out) =>
      if !out.success then
        if IsNoServerError(out.stderr) then Ok([])
        else Err(ListFailed + Trim(out.stderr))
      else
        Ok(ParseSessions(out.stdout))
  }

  // ---------------------------------------------------------------------------
  // Enrichment

  /** What the process-table scan found for one session: the first matching process, and
      the summed memory and CPU of all matching processes when there was at least one.
      Both are `None` when the per-session `tmux` call failed or nothing matched. */
  datatype Sample = Sample(process: Option<ProcessInfo>, resource: Option<ResourceInfo>)

  /** The process details used when the scan found none. `user` is the `USER` variable. */
  function FallbackProcess(user: Option<string>): ProcessInfo {
    ProcessInfo(None, "tmux", user.GetOr("unknown"))
  }

  /** The resource figures used when the scan found none. */
  const FallbackResource: ResourceInfo := ResourceInfo(0.0, 0.0)

  /** Fills in a session's process and resource details. The scan sets the process only when
      the session has none yet and replaces the resources whenever it found any; a detail still
      missing afterwards gets its fallback. The listing fields are untouched. */
  function Enrich(s: Session, found: Sample, user: Option<string>): (r: Session)
    ensures r.processInfo.Some? && r.resourceInfo.Some?
    ensures r.name == s.name && r.windows == s.windows && r.attached == s.attached
    ensures r.created == s.created && r.activity == s.activity
    ensures s.processInfo.Some? ==> r.processInfo == s.processInfo
    ensures s.processInfo.None? && found.process.Some? ==> r.processInfo == found.process
    ensures s.processInfo.None? && found.process.None? ==> r.processInfo == Some(FallbackProcess(user))
    ensures found.resource.Some? ==> r.resourceInfo == found.resource
    ensures found.resource.None? && s.resourceInfo.Some? ==> r.resourceInfo == s.resourceInfo
    ensures found.resource.None? && s.resourceInfo.None? ==> r.resourceInfo == Some(FallbackResource)
  {
    var process := if s.processInfo.Some? then s.processInfo else found.process;
    var resource := if found.resource.Some? then found.resource else s.resourceInfo;
    s.(processInfo := Some(process.GetOr(FallbackProcess(user))),
       resourceInfo := Some(resource.GetOr(FallbackResource)))
  }

  /** A session whose details are both known keeps them when a scan finds nothing. */
  lemma EnrichFillsGapsOnly(s: Session, user: Option<string>)
    requires s.processInfo.Some? && s.resourceInfo.Some?
    ensures Enrich(s, Sample(None, None), user) == s
  {
  }

  /** Enriching twice with nothing new found is the same as enriching once. */
  lemma EnrichSettles(s: Session, found: Sample, user: Option<string>)
    ensures Enrich(Enrich(s, found, user), Sample(None, None), user) == Enrich(s, found, user)
  {
    EnrichFillsGapsOnly(Enrich(s, found, user), user);
  }

  /** `get_tmux_sessions`: the listing, with every parsed session enriched in order.
      `probe(i)` is what the scan found for the i-th session. */
  method GetSessions(exec: Option<CommandOutput>, probe: nat -> Sample, user: Option<string>)
    returns (r: Result<seq<Session>>)
    ensures Listing(exec).Err? ==> r == Listing(exec)
    ensures Listing(exec).Ok? ==> r.Ok? && |r.value| == |Listing(exec).value|
    ensures Listing(exec).Ok? ==>
      forall i :: 0 <= i < |r.value| ==> r.value[i] == Enrich(Listing(exec).value[i], probe(i), user)
  {
    var listed := Listing(exec);
    if listed.Err? {
      return listed;
    }
    var sessions := listed.value;
    var i := 0;
    while i < |sessions|
      invariant 0 <= i <= |sessions| && |sessions| == |listed.value|
      invariant forall j :: 0 <= j < i ==> sessions[j] == Enrich(listed.value[j], probe(j), user)
      invariant forall j :: i <= j < |sessions| ==> sessions[j] == listed.value[j]
    {
      sessions := sessions[i := Enrich(sessions[i], probe(i), user)];
      i := i + 1;
    }
    return Ok(sessions);
  }

  /** Every listed session comes back with both details filled in and its listing fields as
      parsed, in the order of the listing. */
  lemma ListedSessionsComplete(exec: Option<CommandOutput>, probe: nat -> Sample, user: Option<string>,
                               r: seq<Session>)
    requires exec.Some? && exec.value.success
    requires |r| == |ParseSessions(exec.value.stdout)|
    requires forall i :: 0 <= i < |r| ==> r[i] == Enrich(ParseSessions(exec.value.stdout)[i], probe(i), user)
    ensures forall i :: 0 <= i < |r| ==> r[i].processInfo.Some? && r[i].resourceInfo.Some?
    ensures forall i :: 0 <= i < |r| ==> r[i].name == ParseSessions(exec.value.stdout)[i].name
    ensures |r| <= multiset(exec.value.stdout)['\n'] + 1
  {
    var lines := Lines(exec.value.stdout);
    ParseLinesLength(lines);
    LinesCount(exec.value.stdout);
  }

  /** With no server running the listing is empty, whatever else the message says. */
  lemma NoServerListsNothing(before: string, after: string, stdout: string)
    ensures Listing(Some(CommandOutput(false, stdout, before + "no server running" + after))) == Ok([])
  {
    PhraseAnywhereIsNoServer(before, 0, after);
  }

  /** A failure with an empty standard error is an error with an empty explanation. */
  lemma SilentFailureIsError(stdout: string)
    ensures Listing(Some(CommandOutput(false, stdout, ""))) == Err(ListFailed)
  {
    ShortMessageIsFailure("");
    assert TrimStart("") == "" && TrimEnd("") == "";
    assert ListFailed + Trim("") == ListFailed;
  }
}
