/** The GitHub Action's driver (lib/src/index.js): it normalises the
    action's inputs, triggers a deployment event, resolves the workspace of
    the application or environment, polls the execution results until no
    plan is pending, and turns the final journey counters into a verdict.
    Everything the driver reads from outside (inputs, environment variables,
    HTTP responses) is a parameter; what it reports is a value. */
module Driver {
  import opened Wrappers
  import opened Strings
  import opened JsValues
  import opened Entities
  import opened MablApiClient

  // ----- Input normalisers -------------------------------------------------

  /** The separators of a list input: the regular expression `/[,\n]/`. */
  const ListSeparators: set<char> := {',', '\n'}

  /** Keeps the pieces of non-zero length, in order. */
  function NonEmptyPieces(pieces: seq<string>): (kept: seq<string>)
    ensures |kept| <= |pieces|
    ensures forall i | 0 <= i < |kept| :: kept[i] != "" && kept[i] in pieces
    ensures forall p | p in pieces && p != "" :: p in kept
    ensures Concat(kept) == Concat(pieces)
    ensures Subsequence(kept, pieces)
  {
    if |pieces| == 0 then []
    else
      var rest := NonEmptyPieces(pieces[1..]);
      if pieces[0] == "" then rest else [pieces[0]] + rest
  }

  function TrimAll(pieces: seq<string>): (trimmed: seq<string>)
    ensures |trimmed| == |pieces|
    ensures forall i | 0 <= i < |pieces| :: trimmed[i] == Trim(pieces[i])
  {
    seq(|pieces|, i requires 0 <= i < |pieces| => Trim(pieces[i]))
  }

  /** `optionalArrayInput`: the raw input split on commas and newlines, the
      zero-length pieces dropped before trimming, the survivors trimmed. */
  function OptionalArrayInput(raw: string): (items: seq<string>)
    ensures raw == "" ==> items == []
    ensures |items| <= Count(raw, ListSeparators) + 1
    ensures forall i | 0 <= i < |items| :: NoneIn(items[i], ListSeparators)
  {
    var kept := NonEmptyPieces(Split(raw, ListSeparators));
    SplitCount(raw, ListSeparators);
    forall i | 0 <= i < |kept| ensures NoneIn(Trim(kept[i]), ListSeparators) {
      TrimKeepsNoneIn(kept[i], ListSeparators);
    }
    TrimAll(kept)
  }

  /** What `optionalArrayInput` keeps: the non-empty pieces between
      separators, which together are the input with its separators deleted,
      each trimmed and in input order. A piece of only blanks is kept as `""`. */
  lemma OptionalArrayInputPieces(raw: string)
    ensures var kept := NonEmptyPieces(Split(raw, ListSeparators));
            && Concat(kept) == Remove(raw, ListSeparators)
            && (forall i | 0 <= i < |kept| :: kept[i] != "")
            && |OptionalArrayInput(raw)| == |kept|
            && forall i | 0 <= i < |kept| :: OptionalArrayInput(raw)[i] == Trim(kept[i])
  {
    SplitConcat(raw, ListSeparators);
  }

  /** A list written out with one separator between its items reads back as
      the list, when no item is empty, holds a separator, or has blanks to trim. */
  lemma ArrayInputRoundTrip(items: seq<string>, sep: char)
    requires sep in ListSeparators
    requires forall i | 0 <= i < |items| ::
               items[i] != "" && NoneIn(items[i], ListSeparators) && Trim(items[i]) == items[i]
    ensures OptionalArrayInput(Join(items, sep)) == items
  {
    if |items| > 0 {
      SplitJoin(items, sep, ListSeparators);
      NonEmptyPiecesKeepsAll(items);
    }
  }

  lemma {:induction false} NonEmptyPiecesKeepsAll(pieces: seq<string>)
    requires forall i | 0 <= i < |pieces| :: pieces[i] != ""
    ensures NonEmptyPieces(pieces) == pieces
  {
    if |pieces| > 0 {
      NonEmptyPiecesKeepsAll(pieces[1..]);
    }
  }

  /** `optionalInput`: `undefined` for an empty input, the raw text otherwise. */
  function OptionalInput(raw: string): (r: Option<string>)
    ensures r.None? <==> raw == ""
    ensures r.Some? ==> r.value == raw
  {
    if |raw| > 0 then Some(raw) else None
  }

  /** `booleanInput`: whether the input lower-cases to `true`. */
  function BooleanInput(raw: string): (b: bool)
    ensures b <==> |raw| == 4
                   && (raw[0] == 't' || raw[0] == 'T') && (raw[1] == 'r' || raw[1] == 'R')
                   && (raw[2] == 'u' || raw[2] == 'U') && (raw[3] == 'e' || raw[3] == 'E')
  {
    var lower := ToLower(raw);
    assert |raw| == 4 ==> lower == [lower[0], lower[1], lower[2], lower[3]];
    lower == "true"
  }

  // ----- Precedence rules --------------------------------------------------

  /** `appUrl ?? uri`: the app URL when it is set, otherwise the deprecated uri. */
  function EffectiveAppUrl(appUrl: Option<string>, uri: Option<string>): (r: Option<string>)
    ensures appUrl.Some? ==> r == appUrl
    ensures appUrl.None? ==> r == uri
  {
    if appUrl.Some? then appUrl else uri
  }

  /** With both read through `optionalInput`, the effective URL is the first
      non-empty one of app URL and uri, and absent when both are empty. */
  lemma EffectiveAppUrlOfInputs(appUrl: string, uri: string)
    ensures var r := EffectiveAppUrl(OptionalInput(appUrl), OptionalInput(uri));
            && (appUrl != "" ==> r == Some(appUrl))
            && (appUrl == "" && uri != "" ==> r == Some(uri))
            && (appUrl == "" && uri == "" ==> r == None)
  {
  }

  /** `workspace_id ?? organization_id`: the workspace id unless it is
      `null` or absent, else the organization id as it stands. */
  function EffectiveWorkspaceId(w: Workspace): (id: Nullable<string>)
    ensures w.workspaceId.Present? ==> id == w.workspaceId
    ensures !w.workspaceId.Present? ==> id == w.organizationId
  {
    if w.workspaceId.Present? then w.workspaceId else w.organizationId
  }

  const DefaultMablAppUrl := "https://app.mabl.com"

  /** The workspace id as the link's template literal shows it: `null`
      and absent render as `null` and `undefined`. */
  function WorkspaceSegment(w: Workspace): (segment: string)
    ensures EffectiveWorkspaceId(w).Present? ==> segment == EffectiveWorkspaceId(w).value
    ensures EffectiveWorkspaceId(w).Null? ==> segment == "null"
    ensures EffectiveWorkspaceId(w).Absent? ==> segment == "undefined"
  {
    match EffectiveWorkspaceId(w)
    case Present(id) => id
    case Null => "null"
    case Absent => "undefined"
  }

  /** The link's base: `MABL_APP_URL ?? DEFAULT_MABL_APP_URL`. */
  function AppBase(mablAppUrl: Option<string>): (base: string)
    ensures mablAppUrl.Some? ==> base == mablAppUrl.value
    ensures mablAppUrl.None? ==> base == DefaultMablAppUrl
  {
    if mablAppUrl.Some? then mablAppUrl.value else DefaultMablAppUrl
  }

  /** The link to the deployment's output in the mabl app: `MABL_APP_URL`
      (or the default app URL when it is unset), then the effective
      workspace id as rendered, then the deployment id, and nothing else. */
  function OutputLink(mablAppUrl: Option<string>, w: Workspace, deploymentId: string): (link: string)
    ensures AppBase(mablAppUrl) <= link
    ensures EndsWith(link, "/workspaces/" + WorkspaceSegment(w) + "/events/" + deploymentId)
    ensures |link| == |AppBase(mablAppUrl)| + |"/workspaces/" + WorkspaceSegment(w) + "/events/" + deploymentId|
  {
    var tail := "/workspaces/" + WorkspaceSegment(w) + "/events/" + deploymentId;
    PrefixAndSuffix(AppBase(mablAppUrl), tail);
    AppBase(mablAppUrl) + tail
  }

  /** Under one app URL, the link names exactly one workspace and one
      deployment: two links that agree agree on both, as long as the
      workspace segments hold no `/`. */
  lemma OutputLinkDeterminesIds(mablAppUrl: Option<string>, w1: Workspace, d1: string, w2: Workspace, d2: string)
    requires NoneIn(WorkspaceSegment(w1), {'/'}) && NoneIn(WorkspaceSegment(w2), {'/'})
    requires OutputLink(mablAppUrl, w1, d1) == OutputLink(mablAppUrl, w2, d2)
    ensures WorkspaceSegment(w1) == WorkspaceSegment(w2) && d1 == d2
  {
    var head := OutputLinkShape(mablAppUrl, w1, d1);
    var _ := OutputLinkShape(mablAppUrl, w2, d2);
    SegmentsDetermined(head, WorkspaceSegment(w1), d1, WorkspaceSegment(w2), d2, '/', "events/");
  }

  /** The link as a head fixed by the app URL, the workspace segment, a
      `/`, and `events/` before the deployment id. */
  lemma OutputLinkShape(mablAppUrl: Option<string>, w: Workspace, d: string) returns (head: string)
    ensures head == AppBase(mablAppUrl) + "/workspaces/"
    ensures OutputLink(mablAppUrl, w, d) == head + WorkspaceSegment(w) + (['/'] + "events/") + d
  {
    head := AppBase(mablAppUrl) + "/workspaces/";
    assert ['/'] + "events/" == "/events/";
  }

  /** Behind a common head, a separator-free segment and the separator, the
      segment and what follows the separator are determined. */
  lemma SegmentsDetermined(head: string, a1: string, d1: string, a2: string, d2: string, c: char, rest: string)
    requires NoneIn(a1, {c}) && NoneIn(a2, {c})
    requires head + a1 + ([c] + rest) + d1 == head + a2 + ([c] + rest) + d2
    ensures a1 == a2 && d1 == d2
  {
    assert head + a1 + ([c] + rest) + d1 == head + (a1 + [c] + (rest + d1));
    assert head + a2 + ([c] + rest) + d2 == head + (a2 + [c] + (rest + d2));
    SameHeadSameTail(head, a1 + [c] + (rest + d1), a2 + [c] + (rest + d2));
    UpToFirstSeparator(a1, rest + d1, a2, rest + d2, c);
    SameHeadSameTail(rest, d1, d2);
  }

  /** A separator-free head ends at the first separator. */
  lemma UpToFirstSeparator(a1: string, b1: string, a2: string, b2: string, c: char)
    requires NoneIn(a1, {c}) && NoneIn(a2, {c})
    requires a1 + [c] + b1 == a2 + [c] + b2
    ensures a1 == a2 && b1 == b2
  {
    var s := a1 + [c] + b1;
    assert s[0..|a1|] == a1 && s[|a1|] == c;
    assert s[0..|a2|] == a2 && s[|a2|] == c;
    SepFromFree(s, {c}, 0, |a1|);
    SepFromFree(s, {c}, 0, |a2|);
    assert a1 == s[..|a1|] == a2;
    SameHeadSameTail(a1 + [c], b1, b2);
  }

  lemma SameHeadSameTail(head: string, t1: string, t2: string)
    requires head + t1 == head + t2
    ensures t1 == t2
  {
    assert t1 == (head + t1)[|head|..];
  }


  // ----- Pending executions -----------------------------------------------

  /** The statuses after which an execution makes no further progress. */
  const ExecutionCompletedStatuses: set<string> :=
    {"succeeded", "failed", "cancelled", "completed", "terminated"}

  /** An execution is still pending unless its status is terminal AND its
      stop time is truthy (present and non-zero). */
  function IsPending(e: Execution): (pending: bool)
    ensures e.status !in ExecutionCompletedStatuses ==> pending
    ensures e.stopTime.None? || e.stopTime == Some(0) ==> pending
    ensures e.status in ExecutionCompletedStatuses && e.stopTime.Some? && e.stopTime.value != 0 ==> !pending
  {
    !(e.status in ExecutionCompletedStatuses && e.stopTime.Some? && e.stopTime.value != 0)
  }

  /** `a` is `b` with some elements left out, the rest kept in order. */
  ghost predicate Subsequence<T>(a: seq<T>, b: seq<T>) {
    if |a| == 0 then true
    else if |b| == 0 then false
    else (a[0] == b[0] && Subsequence(a[1..], b[1..])) || Subsequence(a, b[1..])
  }

  /** `getExecutionsStillPending`: the pending executions, in order. */
  function ExecutionsStillPending(executions: seq<Execution>): (pending: seq<Execution>)
    ensures |pending| <= |executions|
    ensures forall e | e in pending :: e in executions && IsPending(e)
    ensures forall e | e in executions && IsPending(e) :: e in pending
    ensures Subsequence(pending, executions)
    ensures forall x :: multiset(pending)[x] == if IsPending(x) then multiset(executions)[x] else 0
  {
    if |executions| == 0 then []
    else
      var rest := ExecutionsStillPending(executions[1..]);
      assert executions == [executions[0]] + executions[1..];
      if IsPending(executions[0]) then [executions[0]] + rest else rest
  }

  /** No execution is pending exactly when every one is terminal with a
      truthy stop time; in particular an empty list has none pending. */
  lemma NothingPendingIffAllComplete(executions: seq<Execution>)
    ensures |ExecutionsStillPending(executions)| == 0 <==>
            forall i | 0 <= i < |executions| ::
              executions[i].status in ExecutionCompletedStatuses
              && executions[i].stopTime.Some? && executions[i].stopTime.value != 0
  {
    var pending := ExecutionsStillPending(executions);
    if |pending| == 0 {
      forall i | 0 <= i < |executions|
        ensures executions[i].status in ExecutionCompletedStatuses
                && executions[i].stopTime.Some? && executions[i].stopTime.value != 0
      {
        assert executions[i] in executions;
      }
    } else {
      assert pending[0] in pending;
    }
  }

  // ----- The poll loop -----------------------------------------------------

  /** The loop's flag `executionComplete`, as a two-state machine. */
  datatype PollState = Polling | Complete

  /** The snapshot ends the wait: it carries an `executions` array and none
      of its executions is pending. */
  predicate SnapshotComplete(snapshot: ExecutionResult) {
    snapshot.executions.Some? && |ExecutionsStillPending(snapshot.executions.value)| == 0
  }

  /** One iteration of the loop body after a successful fetch. */
  function PollStep(state: PollState, snapshot: ExecutionResult): (next: PollState)
    ensures state == Complete ==> next == Complete
    ensures state == Polling ==>
              (next == Complete <==>
                 (snapshot.executions.Some? && forall e | e in snapshot.executions.value :: !IsPending(e)))
  {
    if state == Polling && SnapshotComplete(snapshot) then
      assert snapshot.executions.Some?;
      NothingPendingIffAllComplete(snapshot.executions.value);
      Complete
    else if state == Polling && snapshot.executions.Some? then
      NothingPendingIffAllComplete(snapshot.executions.value);
      var es := snapshot.executions.value;
      assert exists i | 0 <= i < |es| :: IsPending(es[i]);
      state
    else state
  }

  /** How the loop ended, given the responses its fetches receive:
      complete after `fetches` fetches, stopped by a fetch that threw, or
      still polling when the given responses run out. */
  datatype PollOutcome = Completed(fetches: nat) | PollFailed(error: Thrown, fetches: nat) | Unfinished

  /** The loop from fetch `k` on, in state `state`: once complete it stops
      at once; otherwise it completes only right after a fetch returned a
      complete snapshot, fails only with the error of the fetch that threw,
      and is unfinished only when it is still polling. */
  function PollFrom(state: PollState, eventId: string, responses: seq<Response<ExecutionResult>>, k: nat)
    : (out: PollOutcome)
    requires k <= |responses|
    ensures state == Complete ==> out == Completed(k)
    ensures out.Unfinished? ==> state.Polling?
    ensures state == Polling && out.Completed? ==>
              && k < out.fetches <= |responses|
              && EndsWait(eventId, responses[out.fetches - 1])
    ensures out.PollFailed? ==>
              && k < out.fetches <= |responses|
              && GetExecutionResults(eventId, responses[out.fetches - 1]) == Failure(out.error)
    decreases |responses| - k
  {
    if state == Complete then Completed(k)
    else if k == |responses| then Unfinished
    else
      match GetExecutionResults(eventId, responses[k])
      case Failure(e) => PollFailed(e, k + 1)
      case Success(snapshot) => PollFrom(PollStep(state, snapshot), eventId, responses, k + 1)
  }

  /** The poll loop `while (!executionComplete) { sleep; fetch; … }`: every
      fetch before the last one it makes neither threw nor returned a
      complete snapshot; it completes after a fetch that returned one, fails
      with the error of a fetch that threw, and is unfinished exactly when
      every given fetch kept it polling. */
  function Poll(eventId: string, responses: seq<Response<ExecutionResult>>): (out: PollOutcome)
    ensures out.Unfinished? <==> forall j | 0 <= j < |responses| :: KeepsPolling(eventId, responses[j])
    ensures out.Completed? ==>
              && 1 <= out.fetches <= |responses|
              && (forall j | 0 <= j < out.fetches - 1 :: KeepsPolling(eventId, responses[j]))
              && EndsWait(eventId, responses[out.fetches - 1])
    ensures out.PollFailed? ==>
              && 1 <= out.fetches <= |responses|
              && (forall j | 0 <= j < out.fetches - 1 :: KeepsPolling(eventId, responses[j]))
              && GetExecutionResults(eventId, responses[out.fetches - 1]) == Failure(out.error)
  {
    PollStopsAtFirstDecisiveFetch(eventId, responses, 0);
    PollFrom(Polling, eventId, responses, 0)
  }

  /** The fetch returned a complete snapshot. */
  predicate EndsWait(eventId: string, resp: Response<ExecutionResult>) {
    var r := GetExecutionResults(eventId, resp);
    r.Success? && SnapshotComplete(r.value)
  }

  /** Fetch `k` neither threw nor ended the wait. */
  predicate KeepsPolling(eventId: string, resp: Response<ExecutionResult>) {
    var r := GetExecutionResults(eventId, resp);
    r.Success? && !SnapshotComplete(r.value)
  }

  /** The first fetch from `k` on that does not keep the loop polling, or
      `|responses|` when every one does. */
  function FirstDecisiveFetch(eventId: string, responses: seq<Response<ExecutionResult>>, k: nat): (d: nat)
    requires k <= |responses|
    ensures k <= d <= |responses|
    ensures forall j | k <= j < d :: KeepsPolling(eventId, responses[j])
    ensures d < |responses| ==> !KeepsPolling(eventId, responses[d])
    decreases |responses| - k
  {
    if k == |responses| || !KeepsPolling(eventId, responses[k]) then k
    else FirstDecisiveFetch(eventId, responses, k + 1)
  }

  /** The loop stops at the first fetch that throws or returns a complete
      snapshot, and only there: it fails with that fetch's error, or
      completes after it; it is unfinished exactly when every given fetch
      kept it polling. */
  lemma {:induction false} PollStopsAtFirstDecisiveFetch(
    eventId: string, responses: seq<Response<ExecutionResult>>, k: nat)
    requires k <= |responses|
    ensures var d := FirstDecisiveFetch(eventId, responses, k);
            PollFrom(Polling, eventId, responses, k) ==
              if d == |responses| then Unfinished
              else match GetExecutionResults(eventId, responses[d])
                case Failure(e) => PollFailed(e, d + 1)
                case Success(_) => Completed(d + 1)
    decreases |responses| - k
  {
    if k < |responses| && KeepsPolling(eventId, responses[k]) {
      PollStopsAtFirstDecisiveFetch(eventId, responses, k + 1);
    }
  }

  /** In particular, an empty `executions` array completes the wait at once,
      while a snapshot without one keeps the loop polling. */
  lemma EmptyOrMissingExecutions(snapshot: ExecutionResult)
    ensures snapshot.executions == Some([]) ==> PollStep(Polling, snapshot) == Complete
    ensures snapshot.executions.None? ==> PollStep(Polling, snapshot) == Polling
  {
  }

  // ----- The run -----------------------------------------------------------

  /** The environment variables the run reads. */
  datatype ActionEnv = ActionEnv(mablApiKey: Option<string>, mablAppUrl: Option<string>)

  /** The raw `core.getInput` texts the verdict depends on. */
  datatype ActionInputs = ActionInputs(applicationId: string, environmentId: string, continueOnFailure: string)

  /** The response each API call of the run receives. */
  datatype ApiResponses = ApiResponses(
    deployment: Response<Deployment>,
    application: Response<Option<Workspace>>,
    environment: Response<Option<Workspace>>,
    polls: seq<Response<ExecutionResult>>,
    finalResult: Response<ExecutionResult>)

  /** The API calls of a run, in order. */
  datatype ApiCall = PostDeploymentEventCall | GetApplicationCall(id: string)
                   | GetEnvironmentCall(id: string) | GetExecutionResultsCall(eventId: string)

  /** How a run ends: passed, passed with a warning, failed with a message,
      or still polling when the given responses run out. */
  datatype Verdict = Passed | PassedWithWarning(warning: string) | Failed(message: string) | StillPolling

  /** What a run reports: its verdict, the message handed to
      `core.setFailed` (if any), the API calls it made, the outputs it set and
      the output link it announced. */
  datatype RunReport = RunReport(
    verdict: Verdict,
    setFailed: Option<string>,
    calls: seq<ApiCall>,
    outputs: seq<(string, string)>,
    outputLink: Option<string>)

  const ApiKeyRequired := "env var MABL_API_KEY required"
  const InvalidConfiguration :=
    "Invalid configuration. Valid \"application-id\" or \"environment-id\" must be set. No tests started."
  const TaskFailedPrefix := "mabl deployment task failed for the following reason: "

  /** The top-level `catch`: any thrown error fails the run with its
      rendering after a fixed prefix, and nothing else. */
  function TaskFailed(e: Thrown): (message: string)
    ensures TaskFailedPrefix <= message && EndsWith(message, e.text)
    ensures |message| == |TaskFailedPrefix| + |e.text|
  {
    PrefixAndSuffix(TaskFailedPrefix, e.text);
    TaskFailedPrefix + e.text
  }

  /** The verdict on the final journey counters: pass when no journey
      failed, else pass with a warning when continue-on-failure is set, else
      fail with `<n> mabl test(s) failed`. */
  function FinalVerdict(failed: nat, continueOnPlanFailure: bool): (v: Verdict)
    ensures v.Passed? <==> failed == 0
    ensures v.PassedWithWarning? <==> failed != 0 && continueOnPlanFailure
    ensures v.Failed? <==> failed != 0 && !continueOnPlanFailure
    ensures v.Failed? ==> v.message == NatToString(failed) + " mabl test(s) failed"
    ensures !v.StillPolling?
  {
    if failed == 0 then Passed
    else if continueOnPlanFailure then
      PassedWithWarning("There were " + NatToString(failed)
        + " test failures but the continueOnPlanFailure flag is set so the task has been marked as passing")
    else Failed(NatToString(failed) + " mabl test(s) failed")
  }

  /** `wrappedFailed`: a failure reaches `core.setFailed` only when failure
      exit codes are enabled. */
  function Finish(enableFailureExitCodes: bool, verdict: Verdict, calls: seq<ApiCall>,
                  outputs: seq<(string, string)>, link: Option<string>): (r: RunReport)
    ensures r.verdict == verdict && r.calls == calls && r.outputs == outputs && r.outputLink == link
    ensures r.setFailed.Some? <==> enableFailureExitCodes && verdict.Failed?
    ensures r.setFailed.Some? ==> r.setFailed.value == verdict.message
  {
    RunReport(verdict, if enableFailureExitCodes && verdict.Failed? then Some(verdict.message) else None,
              calls, outputs, link)
  }

  /** The outputs set from the final results, in the order the run sets
      them: the plan counters, then the journey counters, each written in
      decimal so that it reads back as the counter. */
  function CounterOutputs(result: ExecutionResult): (outs: seq<(string, string)>)
    ensures |outs| == 6
    ensures outs[0].0 == "plans_run" && ReadsAs(outs[0].1, result.planMetrics.total)
    ensures outs[1].0 == "plans_passed" && ReadsAs(outs[1].1, result.planMetrics.passed)
    ensures outs[2].0 == "plans_failed" && ReadsAs(outs[2].1, result.planMetrics.failed)
    ensures outs[3].0 == "tests_run" && ReadsAs(outs[3].1, result.journeyMetrics.total)
    ensures outs[4].0 == "tests_passed" && ReadsAs(outs[4].1, result.journeyMetrics.passed)
    ensures outs[5].0 == "tests_failed" && ReadsAs(outs[5].1, result.journeyMetrics.failed)
  {
    [Counter("plans_run", result.planMetrics.total),
     Counter("plans_passed", result.planMetrics.passed),
     Counter("plans_failed", result.planMetrics.failed),
     Counter("tests_run", result.journeyMetrics.total),
     Counter("tests_passed", result.journeyMetrics.passed),
     Counter("tests_failed", result.journeyMetrics.failed)]
  }

  /** One counter output: `setOutput(name, '' + n)`. */
  function Counter(name: string, n: nat): (output: (string, string))
    ensures output.0 == name && ReadsAs(output.1, n)
  {
    ParseNatToString(n);
    (name, NatToString(n))
  }


  function FetchCalls(eventId: string, n: nat): (calls: seq<ApiCall>)
    ensures |calls| == n
    ensures forall i | 0 <= i < n :: calls[i] == GetExecutionResultsCall(eventId)
  {
    seq(n, i => GetExecutionResultsCall(eventId))
  }

  /** The run from the start of the poll loop on: it only adds fetches of
      the event's results to the calls made so far, and only the six counter
      outputs to the outputs set so far. */
  function AwaitResults(enableFailureExitCodes: bool, continueOnPlanFailure: bool, deploymentId: string,
                        responses: ApiResponses, calls: seq<ApiCall>, outputs: seq<(string, string)>,
                        link: string): (r: RunReport)
    ensures r.setFailed.Some? <==> enableFailureExitCodes && r.verdict.Failed?
    ensures r.setFailed.Some? ==> r.setFailed.value == r.verdict.message
    ensures var poll := Poll(deploymentId, responses.polls);
            var final := GetExecutionResults(deploymentId, responses.finalResult);
            && (poll.Unfinished? ==> r.verdict == StillPolling)
            && (poll.PollFailed? ==> r.verdict == Failed(TaskFailed(poll.error)))
            && (poll.Completed? && final.Failure? ==> r.verdict == Failed(TaskFailed(final.error)))
            && (poll.Completed? && final.Success? && final.value.executions.None? ==>
                  r.verdict == Failed(TaskFailed(MissingExecutions)))
            && (poll.Completed? && final.Success? && final.value.executions.Some? ==>
                  r.verdict == FinalVerdict(final.value.journeyMetrics.failed, continueOnPlanFailure))
    ensures r.outputLink == Some(link)
    ensures |r.calls| > |calls| || (r.verdict == StillPolling && |responses.polls| == 0)
    ensures |r.calls| >= |calls| && r.calls[..|calls|] == calls
    ensures forall i | |calls| <= i < |r.calls| :: r.calls[i] == GetExecutionResultsCall(deploymentId)
    ensures r.outputs == outputs
            || (Accepted(responses.finalResult) && r.outputs == outputs + CounterOutputs(responses.finalResult.data))
  {
    PollStopsAtFirstDecisiveFetch(deploymentId, responses.polls, 0);
    match Poll(deploymentId, responses.polls)
    case Unfinished =>
      Finish(enableFailureExitCodes, StillPolling,
             calls + FetchCalls(deploymentId, |responses.polls|), outputs, Some(link))
    case PollFailed(e, n) =>
      Finish(enableFailureExitCodes, Failed(TaskFailed(e)), calls + FetchCalls(deploymentId, n), outputs, Some(link))
    case Completed(n) =>
      var calls := calls + FetchCalls(deploymentId, n + 1);
      match GetExecutionResults(deploymentId, responses.finalResult)
      case Failure(e) => Finish(enableFailureExitCodes, Failed(TaskFailed(e)), calls, outputs, Some(link))
      case Success(result) =>
        if result.executions.None? then
          Finish(enableFailureExitCodes, Failed(TaskFailed(MissingExecutions)), calls, outputs, Some(link))
        else
          Finish(enableFailureExitCodes, FinalVerdict(result.journeyMetrics.failed, continueOnPlanFailure),
                 calls, outputs + CounterOutputs(result), Some(link))
  }

  /** The lookup the run makes: the application when an application id is
      given, else the environment when an environment id is given, else none. */
  function TargetCalls(applicationId: Option<string>, environmentId: Option<string>): (calls: seq<ApiCall>)
    ensures applicationId.Some? ==> calls == [GetApplicationCall(applicationId.value)]
    ensures applicationId.None? && environmentId.Some? ==> calls == [GetEnvironmentCall(environmentId.value)]
    ensures calls == [] <==> applicationId.None? && environmentId.None?
  {
    if applicationId.Some? then [GetApplicationCall(applicationId.value)]
    else if environmentId.Some? then [GetEnvironmentCall(environmentId.value)]
    else []
  }

  /** The result of that lookup; no lookup counts as a missing target. */
  function LookupTarget(applicationId: Option<string>, environmentId: Option<string>, responses: ApiResponses)
    : (r: Result<Option<Workspace>, Thrown>)
    ensures applicationId.Some? ==> r == MablApiClient.GetApplication(applicationId.value, responses.application)
    ensures applicationId.None? && environmentId.Some? ==>
              r == MablApiClient.GetEnvironment(environmentId.value, responses.environment)
    ensures applicationId.None? && environmentId.None? ==> r == Success(None)
  {
    if applicationId.Some? then MablApiClient.GetApplication(applicationId.value, responses.application)
    else if environmentId.Some? then MablApiClient.GetEnvironment(environmentId.value, responses.environment)
    else Success(None)
  }

  /** The run once the deployment event exists: the target lookup, then the
      wait. Its calls are the event, the lookup, then only fetches of the
      event's results. */
  function AfterDeployment(enableFailureExitCodes: bool, continueOnPlanFailure: bool,
                           applicationId: Option<string>, environmentId: Option<string>,
                           mablAppUrl: Option<string>, responses: ApiResponses, deploymentId: string)
    : (r: RunReport)
    ensures r.setFailed.Some? <==> enableFailureExitCodes && r.verdict.Failed?
    ensures r.setFailed.Some? ==> r.setFailed.value == r.verdict.message
    ensures var lookup := LookupTarget(applicationId, environmentId, responses);
            && (lookup.Failure? ==> r.verdict == Failed(TaskFailed(lookup.error)))
            && (lookup == Success(None) ==> r.verdict == Failed(InvalidConfiguration))
    ensures |r.calls| >= 1 && r.calls[0] == PostDeploymentEventCall
    ensures var calls := [PostDeploymentEventCall] + TargetCalls(applicationId, environmentId);
            && |r.calls| >= |calls| && r.calls[..|calls|] == calls
            && forall i | |calls| <= i < |r.calls| :: r.calls[i] == GetExecutionResultsCall(deploymentId)
  {
    var outputs := [("mabl-deployment-id", deploymentId)];
    var calls := [PostDeploymentEventCall] + TargetCalls(applicationId, environmentId);
    assert calls[0] == PostDeploymentEventCall;
    match LookupTarget(applicationId, environmentId, responses)
    case Failure(e) => Finish(enableFailureExitCodes, Failed(TaskFailed(e)), calls, outputs, None)
    case Success(None) => Finish(enableFailureExitCodes, Failed(InvalidConfiguration), calls, outputs, None)
    case Success(Some(workspace)) =>
      var r := AwaitResults(enableFailureExitCodes, continueOnPlanFailure, deploymentId, responses, calls, outputs,
                            OutputLink(mablAppUrl, workspace, deploymentId));
      assert r.calls[0] == r.calls[..|calls|][0];
      r
  }

  /** `run(enableFailureExitCodes)`. */
  function Run(enableFailureExitCodes: bool, inputs: ActionInputs, env: ActionEnv, responses: ApiResponses)
    : (r: RunReport)
    ensures r.setFailed.Some? <==> enableFailureExitCodes && r.verdict.Failed?
    ensures r.setFailed.Some? ==> r.setFailed.value == r.verdict.message
    ensures r.calls != [] ==> TruthyText(env.mablApiKey) && r.calls[0] == PostDeploymentEventCall
    ensures TruthyText(env.mablApiKey) && PostDeploymentEvent(responses.deployment).Failure? ==>
              r.verdict == Failed(TaskFailed(PostDeploymentEvent(responses.deployment).error))
  {
    if !TruthyText(env.mablApiKey) then
      Finish(enableFailureExitCodes, Failed(ApiKeyRequired), [], [], None)
    else
      match PostDeploymentEvent(responses.deployment)
      case Failure(e) => Finish(enableFailureExitCodes, Failed(TaskFailed(e)), [PostDeploymentEventCall], [], None)
      case Success(deployment) =>
        AfterDeployment(enableFailureExitCodes, BooleanInput(inputs.continueOnFailure),
                        OptionalInput(inputs.applicationId), OptionalInput(inputs.environmentId),
                        env.mablAppUrl, responses, deployment.id)
  }

  /** Without an API key the run fails with the key message before any API call. */
  lemma MissingApiKeyFailsFirst(enable: bool, inputs: ActionInputs, env: ActionEnv, responses: ApiResponses)
    requires !TruthyText(env.mablApiKey)
    ensures var r := Run(enable, inputs, env, responses);
            r.verdict == Failed(ApiKeyRequired) && r.calls == [] && r.outputs == []
  {
  }

  /** With neither an application id nor an environment id, the run posts the
      event, then fails with the invalid-configuration message and never polls. */
  lemma NoTargetNeverPolls(enable: bool, inputs: ActionInputs, env: ActionEnv, responses: ApiResponses)
    requires TruthyText(env.mablApiKey) && Accepted(responses.deployment)
    requires inputs.applicationId == "" && inputs.environmentId == ""
    ensures var r := Run(enable, inputs, env, responses);
            && r.verdict == Failed(InvalidConfiguration)
            && r.calls == [PostDeploymentEventCall]
            && r.outputLink.None?
  {
  }

  /** Once the deployment event is created, the run's calls are the event,
      the target lookup, and then only fetches of the event's results. */
  lemma RunCallsAfterDeployment(enable: bool, inputs: ActionInputs, env: ActionEnv, responses: ApiResponses)
    requires TruthyText(env.mablApiKey) && Accepted(responses.deployment)
    ensures var r := Run(enable, inputs, env, responses);
            var calls := [PostDeploymentEventCall]
                         + TargetCalls(OptionalInput(inputs.applicationId), OptionalInput(inputs.environmentId));
            && |r.calls| >= |calls| && r.calls[..|calls|] == calls
            && forall i | |calls| <= i < |r.calls| :: r.calls[i] == GetExecutionResultsCall(responses.deployment.data.id)
  {
  }

  /** The application id takes precedence: when it is given, the run looks up
      the application and never the environment. */
  lemma ApplicationIdTakesPrecedence(enable: bool, inputs: ActionInputs, env: ActionEnv, responses: ApiResponses)
    requires TruthyText(env.mablApiKey) && Accepted(responses.deployment)
    requires inputs.applicationId != ""
    ensures var r := Run(enable, inputs, env, responses);
            && |r.calls| >= 2
            && r.calls[1] == GetApplicationCall(inputs.applicationId)
            && NoEnvironmentLookup(r.calls)
  {
    var calls := [PostDeploymentEventCall, GetApplicationCall(inputs.applicationId)];
    RunCallsAfterDeployment(enable, inputs, env, responses);
    var r := Run(enable, inputs, env, responses);
    assert OptionalInput(inputs.applicationId) == Some(inputs.applicationId);
    assert [PostDeploymentEventCall]
           + TargetCalls(OptionalInput(inputs.applicationId), OptionalInput(inputs.environmentId)) == calls;
    assert r.calls[..2] == calls;
    assert NoEnvironmentLookup(calls) by {
      assert forall i | 0 <= i < 2 :: calls[i] == PostDeploymentEventCall || calls[i].GetApplicationCall?;
    }
    NoEnvironmentCall(r.calls, calls, responses.deployment.data.id);
    assert r.calls[1] == calls[1];
  }

  /** None of the calls looks up an environment. */
  predicate NoEnvironmentLookup(calls: seq<ApiCall>) {
    forall i | 0 <= i < |calls| :: !calls[i].GetEnvironmentCall?
  }

  /** Calls that start with a prefix free of environment lookups and go on
      with fetches only hold no environment lookup. */
  lemma NoEnvironmentCall(calls: seq<ApiCall>, prefix: seq<ApiCall>, eventId: string)
    requires |calls| >= |prefix| && calls[..|prefix|] == prefix
    requires NoEnvironmentLookup(prefix)
    requires forall i | |prefix| <= i < |calls| :: calls[i] == GetExecutionResultsCall(eventId)
    ensures NoEnvironmentLookup(calls)
  {
    forall i | 0 <= i < |calls| ensures !calls[i].GetEnvironmentCall? {
      if i < |prefix| {
        assert calls[i] == prefix[i];
      }
    }
  }

  /** Once the lookup found a workspace, the rest of the run is the wait for
      the event's results. */
  lemma RunAwaitsAfterLookup(enable: bool, inputs: ActionInputs, env: ActionEnv, responses: ApiResponses,
                             workspace: Workspace)
    requires TruthyText(env.mablApiKey) && Accepted(responses.deployment)
    requires LookupTarget(OptionalInput(inputs.applicationId), OptionalInput(inputs.environmentId), responses)
             == Success(Some(workspace))
    ensures var id := responses.deployment.data.id;
            Run(enable, inputs, env, responses)
            == AwaitResults(enable, BooleanInput(inputs.continueOnFailure), id, responses,
                            [PostDeploymentEventCall]
                            + TargetCalls(OptionalInput(inputs.applicationId), OptionalInput(inputs.environmentId)),
                            [("mabl-deployment-id", id)], OutputLink(env.mablAppUrl, workspace, id))
  {
  }

  /** A wait whose polling completes and whose final fetch carries
      executions ends with the verdict on the final journey counters. */
  lemma AwaitCompleted(enable: bool, continueOnPlanFailure: bool, deploymentId: string, responses: ApiResponses,
                       calls: seq<ApiCall>, outputs: seq<(string, string)>, link: string, n: nat)
    requires Poll(deploymentId, responses.polls) == Completed(n)
    requires Accepted(responses.finalResult) && responses.finalResult.data.executions.Some?
    ensures AwaitResults(enable, continueOnPlanFailure, deploymentId, responses, calls, outputs, link)
            == Finish(enable, FinalVerdict(responses.finalResult.data.journeyMetrics.failed, continueOnPlanFailure),
                      calls + FetchCalls(deploymentId, n + 1),
                      outputs + CounterOutputs(responses.finalResult.data), Some(link))
  {
  }

  /** A run whose target lookup (by application or by environment) found a
      workspace, whose polling completes and whose final fetch carries executions
      ends with the verdict on the final journey counters, and reports a
      failure exactly when that verdict fails and exit codes are enabled. */
  lemma CompletedRunVerdict(enable: bool, inputs: ActionInputs, env: ActionEnv, responses: ApiResponses,
                            workspace: Workspace, n: nat)
    requires TruthyText(env.mablApiKey) && Accepted(responses.deployment)
    requires LookupTarget(OptionalInput(inputs.applicationId), OptionalInput(inputs.environmentId), responses)
             == Success(Some(workspace))
    requires Poll(responses.deployment.data.id, responses.polls) == Completed(n)
    requires Accepted(responses.finalResult) && responses.finalResult.data.executions.Some?
    ensures var r := Run(enable, inputs, env, responses);
            var failed := responses.finalResult.data.journeyMetrics.failed;
            && r.verdict == FinalVerdict(failed, BooleanInput(inputs.continueOnFailure))
            && (r.setFailed.Some? <==> enable && failed != 0 && !BooleanInput(inputs.continueOnFailure))
            && r.calls == [PostDeploymentEventCall]
                          + TargetCalls(OptionalInput(inputs.applicationId), OptionalInput(inputs.environmentId))
                          + FetchCalls(responses.deployment.data.id, n + 1)
            && r.outputs[0] == ("mabl-deployment-id", responses.deployment.data.id)
  {
    var id := responses.deployment.data.id;
    var outputs := [("mabl-deployment-id", id)];
    RunAwaitsAfterLookup(enable, inputs, env, responses, workspace);
    AwaitCompleted(enable, BooleanInput(inputs.continueOnFailure), id, responses,
                   [PostDeploymentEventCall]
                   + TargetCalls(OptionalInput(inputs.applicationId), OptionalInput(inputs.environmentId)),
                   outputs, OutputLink(env.mablAppUrl, workspace, id), n);
    assert (outputs + CounterOutputs(responses.finalResult.data))[0] == outputs[0];
  }

  /** Every error thrown after the key check reaches the top-level `catch`
      and fails the run with the task-failed message: a failed deployment
      post, a failed lookup, a failed poll fetch, a failed final fetch, and
      final results without an `executions` array. */
  lemma ThrownErrorFailsRun(enable: bool, inputs: ActionInputs, env: ActionEnv, responses: ApiResponses)
    requires TruthyText(env.mablApiKey)
    ensures var r := Run(enable, inputs, env, responses);
            var post := PostDeploymentEvent(responses.deployment);
            var lookup := LookupTarget(OptionalInput(inputs.applicationId), OptionalInput(inputs.environmentId),
                                       responses);
            && (post.Failure? ==> r.verdict == Failed(TaskFailed(post.error)))
            && (post.Success? && lookup.Failure? ==> r.verdict == Failed(TaskFailed(lookup.error)))
            && (post.Success? && lookup.Success? && lookup.value.Some? ==>
                  var poll := Poll(post.value.id, responses.polls);
                  var final := GetExecutionResults(post.value.id, responses.finalResult);
                  && (poll.PollFailed? ==> r.verdict == Failed(TaskFailed(poll.error)))
                  && (poll.Completed? && final.Failure? ==> r.verdict == Failed(TaskFailed(final.error)))
                  && (poll.Completed? && final.Success? && final.value.executions.None? ==>
                        r.verdict == Failed(TaskFailed(MissingExecutions))))
  {
    var lookup := LookupTarget(OptionalInput(inputs.applicationId), OptionalInput(inputs.environmentId), responses);
    if PostDeploymentEvent(responses.deployment).Success? && lookup.Success? && lookup.value.Some? {
      RunAwaitsAfterLookup(enable, inputs, env, responses, lookup.value.value);
    }
  }

  /** With failure exit codes disabled, no run ever reaches `core.setFailed`. */
  lemma DisabledExitCodesNeverFail(inputs: ActionInputs, env: ActionEnv, responses: ApiResponses)
    ensures Run(false, inputs, env, responses).setFailed.None?
  {
  }
}
