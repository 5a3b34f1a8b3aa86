# mabl deployment GitHub Action — a Dafny model

This project models the core of the mabl "run tests" GitHub Action: the
driver that reads the action's inputs, triggers a mabl deployment event,
resolves the workspace of the target application or environment, polls the
execution results until no plan run is pending and turns the final journey
counters into a verdict (`lib/src/index.js`); the mabl API client that checks
response statuses, wraps errors and builds the sparse deployment-event
payload (`lib/src/mablApiClient.js`, and its earlier revision
`lib/mablApiClient.js`); and the JUnit feed object of the deploy-and-test
action (`deploy-and-test/src/testOutput.ts`).

Modules, one file each:

- `Wrappers` — `Option` (a value or `undefined`) and `Result` (a value or a thrown error).
- `Strings` — the JavaScript string operations the code relies on:
  `split` with a character class and with a limit, `trim`, ASCII
  `toLowerCase`, and the decimal rendering of counters.
- `JsValues` — JSON values, truthiness, and the `${err}` rendering of a thrown `Error`.
- `Entities` — the API records the action reads.
- `MablApiClient` — status check, error wrapping, header parsing, `buildRequestBody`.
- `LegacyMablApiClient` — the earlier client revision.
- `Driver` — input normalisers, pending classification, the poll loop and the run.
- `TestOutput` — the JUnit feed object.
- `Examples` — the cases the repository's tests pin down.

The outside world is a parameter. Every API call receives a given
`Response` (a status, a status text and a body, or a rejection). A run gets
the deployment, lookup, poll and final responses as one value. The API key,
the app URL variable and the raw input texts are inputs too. What a run
does is a `RunReport`: its verdict, the message handed to `core.setFailed`,
the API calls in order, the outputs set, and the output link. A JavaScript
object with optional keys is a record whose `Option` fields are `None` when
the key is absent.

The earlier client's `getExecutionResults` and `postDeploymentEvent`
(lib/mablApiClient.js:73-93) wrap errors exactly as the current client's do,
so `MablApiClient.GetExecutionResults` and `MablApiClient.PostDeploymentEvent`
model both revisions.

## Model

| member | source | states |
|---|---|---|
| MablApiClient.CheckStatus | lib/src/mablApiClient.js:40-44 | a response passes exactly when its status is present and below 400 (a missing status counts as 400), and then yields its body unchanged; otherwise the error is `Error: [<status> - <statusText>]`, where a `null` status reads `null` and an absent one `undefined`, and both count as 400; a rejected request passes its error on |
| MablApiClient.StatusText | lib/src/mablApiClient.js:42 | a numeric status is written as canonical decimal (non-empty digits, no leading zero) that reads back as the status, which by Strings.CanonicalDecimalUnique is the one text `${status}` gives; `null` is written `null` and an absent status `undefined` |
| MablApiClient.Rethrow | lib/src/mablApiClient.js:69-71 | the `catch` shared by the four public operations (also lines 79-81, 89-91, 100-102): a success passes through unchanged, and a failure becomes one error whose message is the operation's context followed by the inner error's rendering |
| MablApiClient.GetApplication | lib/src/mablApiClient.js:64-73 | succeeds exactly when the status check passes, with the body; otherwise throws `Error: failed to get mabl application (<id>) from the API ` followed by the status error |
| MablApiClient.GetEnvironment | lib/src/mablApiClient.js:74-83 | as for the application, with `failed to get mabl environment (<id>) from the API ` |
| MablApiClient.GetExecutionResults | lib/src/mablApiClient.js:84-93 | as above, with `failed to get mabl execution results for event <eventId> from the API ` |
| MablApiClient.PostDeploymentEvent | lib/src/mablApiClient.js:94-104 | as above, with `failed to create deployment through mabl API ` |
| MablApiClient.ApplicationErrorNamesId | lib/src/mablApiClient.js:69-71 | a failed application lookup names the id in parentheses, so two different ids never give the same message |
| MablApiClient.EnvironmentErrorNamesId | lib/src/mablApiClient.js:79-81 | a failed environment lookup names the id, and distinct ids give distinct messages |
| MablApiClient.ExecutionResultsErrorNamesEvent | lib/src/mablApiClient.js:89-91 | a failed results fetch names the event id, and distinct events give distinct messages |
| MablApiClient.ParseHeader | lib/src/mablApiClient.js:124-130 | `header.split(':', 2)`: the name is the longest colon-free prefix; the value is absent exactly when the header has no colon, and otherwise is the colon-free text after the first colon, up to the next colon or the end |
| MablApiClient.ParseHeaderWithoutColon | lib/src/mablApiClient.js:124-130 | a header with no colon is all name and has no value |
| MablApiClient.ParseHeaderWithColon | lib/src/mablApiClient.js:124-130 | `name:value` parses back to that name and value, and anything after a second colon is dropped |
| MablApiClient.HeaderEntries | lib/src/mablApiClient.js:122-133 | one header entry per header string, in order, each with `log_header_value` false and the parsed name and value |
| MablApiClient.BuildRequestBody | lib/src/mablApiClient.js:105-156 | `environment_id`, `application_id`, `source_control_tag`, `uri` and `revision` are present exactly when their input is a non-empty string, and then hold it; `browser_types` and `plan_labels` exactly when the list is non-empty; `http_headers` and `http_headers_required` (true) exactly when there are headers, one parsed entry per header in order; `event_time` exactly when it is non-zero; `properties` exactly when truthy; `plan_overrides` and `actions` always, and an action key only for a set flag, always `true` |
| LegacyMablApiClient.GetApplication | lib/mablApiClient.js:63-72 | succeeds exactly when the status check passes; otherwise the message carries the literal text `($applicationId)` and not the id |
| LegacyMablApiClient.ApplicationErrorIgnoresId | lib/mablApiClient.js:68-70 | two lookups with different ids that fail alike give the same message, which quotes `($applicationId)` verbatim |
| LegacyMablApiClient.BrowserList | lib/mablApiClient.js:103-105 | `browserTypes.split(',')` gives one more piece than there are commas, no piece holds a comma, and joining the pieces with commas gives the input back (nothing is trimmed) |
| LegacyMablApiClient.BuildRequestBody | lib/mablApiClient.js:94-128 | the ids, `uri` and `revision` are present exactly when non-empty; `browser_types` exactly when the browser string is non-empty, split on every comma; `event_time` exactly when non-zero; `properties` when truthy; action keys only for set flags; never a branch tag, labels or header keys |
| LegacyMablApiClient.AgreesWithCurrentBuilder | lib/mablApiClient.js:94-128 | the earlier builder is the current one given the comma-split browser list and no labels, headers or branch |
| Strings.SplitLimit | lib/src/mablApiClient.js:125 | `split(':', 2)`: the first `limit` pieces of the full split, in order, or all of them when there are fewer |
| Strings.Split | lib/src/index.js:64 | every piece is free of the separators and there is at least one piece |
| Strings.SplitCount | lib/src/index.js:64 | there is exactly one more piece than there are separators |
| Strings.SplitConcat | lib/src/index.js:64 | the pieces together are the input with its separators deleted |
| Strings.JoinSplit | lib/mablApiClient.js:104 | joining the pieces of a split on one character with that character gives the input back |
| Strings.SplitJoin | lib/mablApiClient.js:104 | splitting separator-free pieces joined with a separator gives the pieces back |
| Strings.Trim | lib/src/index.js:66 | the result is empty exactly when the input is all whitespace; otherwise it starts and ends with a non-whitespace character and is the input with whitespace cut from both ends only |
| Strings.TrimFramed | lib/src/index.js:66 | trimming text framed by whitespace returns the text |
| Strings.NatToString | lib/src/index.js:187-200 | the rendering of a counter is a non-empty digit string without a leading zero; it starts with `0` only when it is `0` itself |
| Strings.ParseNatToString | lib/src/index.js:187-200 | the rendering of a counter reads back as the same number |
| Strings.CanonicalDecimalUnique | lib/src/index.js:187-192 | any non-empty digit string without a leading zero that reads back as a number is exactly that number's rendering, so a text pinned this way is the one `'' + n` writes |
| Driver.NonEmptyPieces | lib/src/index.js:65 | `filter(item => item.length)`: keeps exactly the non-empty pieces, in their original order, so their concatenation is unchanged |
| Driver.OptionalArrayInput | lib/src/index.js:59-67 | an empty input gives an empty list; no item contains a comma or a newline; there are at most as many items as separators plus one |
| Driver.OptionalArrayInputPieces | lib/src/index.js:59-67 | the items are the non-empty pieces between separators, trimmed, in input order, and those pieces together are the input without its separators; a piece of blanks survives as an empty item |
| Driver.ArrayInputRoundTrip | lib/src/index.js:59-67 | a list written out with one separator between non-empty, separator-free, untrimmable items reads back as the same list |
| Driver.OptionalInput | lib/src/index.js:68-76 | absent exactly when the input is empty, otherwise the input itself |
| Driver.BooleanInput | lib/src/index.js:77-83 | true exactly when the input is `true` in any mix of upper and lower case |
| Driver.EffectiveAppUrl | lib/src/index.js:118 | the app URL when set, otherwise the deprecated uri |
| Driver.EffectiveAppUrlOfInputs | lib/src/index.js:102-118 | with both read as optional inputs, the first non-empty of app URL and uri, and none when both are empty |
| Driver.EffectiveWorkspaceId | lib/src/index.js:162 | the workspace id unless it is `null` or absent, otherwise the organization id as it stands (a value, `null` or absent) |
| Driver.OutputLink | lib/src/index.js:138-163 | the link starts with `MABL_APP_URL`, or the default app URL when it is unset, and ends with `/workspaces/<workspace>/events/<deployment id>`, with nothing between the two; the workspace is the effective workspace id, rendered `null` when it is `null` and `undefined` when it is absent |
| Driver.OutputLinkDeterminesIds | lib/src/index.js:163 | under one app URL two equal links name the same workspace segment and the same deployment, provided the workspace segments hold no `/` |
| Driver.IsPending | lib/src/index.js:219-221 | an execution whose status is not terminal, or whose stop time is absent or zero, is pending; a terminal one with a non-zero stop time is not |
| Driver.ExecutionsStillPending | lib/src/index.js:218-223 | the pending executions, in their original order: an execution is kept exactly when it is not both in a terminal status and stopped at a non-zero time, so a terminal execution without a stop time stays pending; each pending execution appears as often as in the input, and no other one appears |
| Driver.NothingPendingIffAllComplete | lib/src/index.js:218-223 | nothing is pending exactly when every execution is terminal with a non-zero stop time; an empty list has nothing pending |
| Driver.PollStep | lib/src/index.js:170-178 | a polling loop completes on a snapshot exactly when the snapshot has an executions array with no pending execution; completion is permanent |
| Driver.EmptyOrMissingExecutions | lib/src/index.js:170-174 | an empty executions array completes the wait; a snapshot without one keeps polling |
| Driver.PollFrom | lib/src/index.js:166-179 | once complete the loop stops at once; otherwise it completes only right after a fetch returned a complete snapshot, fails only with the error of the fetch that threw, and is unfinished only while still polling |
| Driver.Poll | lib/src/index.js:166-179 | every fetch before the last one made kept the loop polling; it completes after a fetch that returned a complete snapshot, fails with the error of a fetch that threw, and is unfinished exactly when every given fetch kept it polling |
| Driver.FirstDecisiveFetch | lib/src/index.js:166-179 | the first fetch that throws or brings a complete snapshot, every earlier fetch having kept the loop polling |
| Driver.PollStopsAtFirstDecisiveFetch | lib/src/index.js:166-179 | the loop stops at the first fetch that throws (failing with its error) or brings a complete snapshot (completing), and is still polling exactly when every fetch so far kept it polling |
| Driver.FinalVerdict | lib/src/index.js:193-201 | pass when no journey failed; otherwise pass with a warning when continue-on-failure is set, else fail with `<n> mabl test(s) failed` |
| Driver.CounterOutputs | lib/src/index.js:187-192 | six outputs in the order `plans_run`, `plans_passed`, `plans_failed`, `tests_run`, `tests_passed`, `tests_failed`, each the canonical decimal text (non-empty digits, no leading zero) that reads back as the matching plan or journey counter, and so, by Strings.CanonicalDecimalUnique, exactly `'' + n` |
| Driver.Finish | lib/src/index.js:85-89 | a failure reaches `core.setFailed`, with its message, exactly when failure exit codes are enabled |
| Driver.AwaitResults | lib/src/index.js:165-206 | from the poll loop on the run only adds fetches of the event's results to the calls, and only the six counters to the outputs; a poll fetch that throws, a final fetch that throws and final results without `executions` each fail the run with the task-failed message of that error; a completed wait with executions ends with the verdict on the final failed-journey count; running out of responses leaves it still polling |
| Driver.TargetCalls | lib/src/index.js:152-157 | the application is looked up when its id is given, else the environment when its id is given, else nothing |
| Driver.LookupTarget | lib/src/index.js:151-158 | the lookup's result is that of the application call, else the environment call, else no target |
| Driver.AfterDeployment | lib/src/index.js:150-206 | once the deployment event exists, a lookup that throws fails the run with the task-failed message of its error, a lookup without a target fails it with the invalid-configuration message, a failure reaches `core.setFailed`, with its message, exactly when exit codes are enabled, and the calls are the event, the target lookup made, then only fetches of the event's results |
| Driver.RunCallsAfterDeployment | lib/src/index.js:149-183 | a run whose deployment event was created calls the event, then the application or environment lookup, then nothing but fetches of that event's results |
| Driver.TaskFailed | lib/src/index.js:204-206 | the failure message of a thrown error is `mabl deployment task failed for the following reason: ` followed by the error's rendering, and nothing else |
| Driver.Run | lib/src/index.js:84-206 | the run reports a failure exactly when it fails with exit codes enabled, every API call it makes comes after the API key check, starting with the deployment event, and a deployment post that throws fails the run with the task-failed message of its error |
| Driver.ThrownErrorFailsRun | lib/src/index.js:90-206 | with an API key, every error thrown inside the `try` (a failed post, a failed lookup, a failed poll fetch, a failed final fetch, final results without `executions`) fails the run with the task-failed message of that error |
| Driver.MissingApiKeyFailsFirst | lib/src/index.js:94-98 | without an API key the run fails with `env var MABL_API_KEY required` and makes no API call |
| Driver.NoTargetNeverPolls | lib/src/index.js:152-161 | with neither id the run posts the event, then fails with the invalid-configuration message and never polls |
| Driver.ApplicationIdTakesPrecedence | lib/src/index.js:152-157 | when an application id is given the run looks up the application and never the environment |
| Driver.CompletedRunVerdict | lib/src/index.js:151-201 | when the lookup of the application, or of the environment when no application id is given, yields a workspace, polling completes and the final fetch has executions, the verdict is the one on the final failed-journey count, a failure is reported exactly when that verdict fails with exit codes enabled, and the calls are exactly the event, that lookup, the poll fetches and the final fetch |
| Driver.DisabledExitCodesNeverFail | lib/test/suite.test.js:17-22 | with failure exit codes disabled no run reaches `core.setFailed` |
| TestOutput.FindJourney | deploy-and-test/src/testOutput.ts:20-22 | the first journey with the given id, or none exactly when no journey has it |
| TestOutput.CaseName | deploy-and-test/src/testOutput.ts:20-26 | the case is named after the first listed journey with the run's journey id, or after the journey id when no listed journey has it |
| TestOutput.CaseFor | deploy-and-test/src/testOutput.ts:24-39 | the case is `Failed` with the error `View Output: <app_href>` exactly when the journey run did not succeed, and `Passed` without error otherwise |
| TestOutput.EmptyStatusCount | deploy-and-test/src/testOutput.ts:47-49 | counts the journey runs with an empty status: zero exactly when every status is non-empty, all exactly when every one is empty |
| TestOutput.EmptyStatusCountAppend | deploy-and-test/src/testOutput.ts:47-49 | the count adds up over concatenated lists |
| TestOutput.SuiteFor | deploy-and-test/src/testOutput.ts:43-53 | a suite carries the plan's name and id, an empty disabled flag, one case per journey run in order, as many tests as journey runs, and failures that never exceed them |
| TestOutput.Feed | deploy-and-test/src/testOutput.ts:16-74 | one suite per execution in order; the top level is named `mabl Deployment event: <eventId>`, takes its failures and tests from the journey counters and has the single output-link property; a result without executions throws |
| TestOutput.FeedCase | deploy-and-test/src/testOutput.ts:19-39 | case j of suite i reports journey run j of execution i, failed exactly when the run did not succeed, named after the first listed journey with its id or else the id |
| TestOutput.SuiteFailuresIgnoreSuccess | deploy-and-test/src/testOutput.ts:47-49 | a run with status `failed` that did not succeed gives a failed case but no suite failure |
| Examples.ArrayInputSingle | lib/test/suite.test.js:24-27 | an empty list input is the empty list; one item with a trailing blank is that item |
| Examples.ArrayInputCommas | lib/test/suite.test.js:28-29 | `a, b ` reads as the items `a` and `b` |
| Examples.ArrayInputNewlines | lib/test/suite.test.js:30-31 | three lines read as three items |
| Examples.BooleanInputCases | lib/test/suite.test.js:33-46 | empty, `false` and `False` are false; `True`, `true` and `TRUE` are true |
| Examples.OptionalInputCases | lib/test/suite.test.js:47-54 | empty is absent; `baz` and `BAZ` are kept verbatim |
| Examples.CurrentBuilderAllOptions | lib/test/suite.test.js:97-136 | the exact payload of the test with every option |
| Examples.CurrentBuilderSomeOptions | lib/test/suite.test.js:137-186 | the exact payload of the test with labels and two headers |
| Examples.HeaderCases | lib/src/mablApiClient.js:124-130 | `A:b:c` gives name `A` and value `b`; a header without a colon has no value |
| Examples.LegacyBuilderAllOptions | lib/tests/_suite.js:27-67 | the exact payload of the earlier revision's test with every option, the blanks after commas kept |
| Examples.LegacyBuilderSomeOptions | lib/tests/_suite.js:68-104 | the exact payload of the earlier revision's test with some options |
| Examples.VerdictMessage | lib/src/index.js:193-201 | two failed journeys fail the run with `2 mabl test(s) failed`; none passes it |

## Left out

- HTTP transport, the base URLs and request paths, authentication and `async-retry`'s three retries: each API call receives one given response, read as the response of its last attempt.
- `throwHumanizedError` and its messages: its body is not part of this model.
- `getRelatedPullRequest`, the GitHub environment variables, `parseInt` of the event time and `Date.now()`: the `properties` object and the event time are inputs of the builder, and `Run` does not build the payload.
- The argument binding of the `postDeploymentEvent` call at lib/src/index.js:149; `Run` takes the deployment response as given.
- `core.getInput`'s own trimming of the raw input: the normalisers take the text it returns.
- `core.info`, `core.warning`, `core.debug`, log groups and the table printing (`prettyFormatExecution`): they do not affect the verdict.
- `sleep` between polls; `Run` is finite by taking a finite list of poll responses and reports `StillPolling` when they run out.
- A `null` or absent response body where the code reads a field of it without a guard: the deployment (`deployment.id`) is always a record here. The lookup body is `Option<Workspace>`, so a falsy one fails as the invalid configuration, and a poll body without `executions` (including a `null` one, read through `?.`) keeps the loop polling, as in the source.
- Driver.AwaitResults: a `null` or absent final results body is modelled like a body without `executions`, failing with the `forEach` TypeError; the source's TypeError for it names `executions` instead. An `executions` field that is `null` rather than absent is modelled the same way, while the source's TypeError for it says `null` where the model's says `undefined`.
- TestOutput.Feed: an `executions` field that is `null` rather than absent throws with the same text as an absent one; the source's TypeError for it says `null` where the model's says `undefined`.
- Strings.NatToString: counters are unbounded naturals, not JavaScript doubles; `'' + n` writes a number of 1e21 or more in exponent form, which this rendering does not. Counters, `stop_time`, status codes and the event time are `nat` or `int` throughout.
- MablApiClient.BuildRequestBody: the event time is an `int`, omitted only when 0; a `parseInt` that yields `NaN` (falsy at lib/src/mablApiClient.js:141, so also omitted) is not a value of the model.
- Strings are sequences of Unicode scalar values, not the UTF-16 code units of JavaScript strings; lengths, indices and `split` agree with the source only on text without surrogate pairs.
- The text of the `TypeError` thrown when the final results carry no `executions` array is the wording of current Node.js releases; other engines word it differently.
- Strings.ToLower: maps only the ASCII letters; non-ASCII case mapping of JavaScript's `toLowerCase` cannot change whether the result equals `true`.
- The `@time` attributes of the JUnit feed (floating-point durations), the XML rendering with `xmlbuilder`, and writing the file.
- Key order of the payload objects: records have none.
- `value: undefined` of a header entry without a colon is `None`.
- Earlier and later revisions of the action other than the two client revisions modelled (src/, deploy-and-test/src/index.ts, mabl-deployment-test/).

## Findings

| source | as written | input that shows it | evidently intended | confidence | as-written member | corrected member |
|---|---|---|---|---|---|---|
| lib/mablApiClient.js:69 | the error text of a failed application lookup is `failed to get mabl application ($applicationId) from the API ...`: the placeholder lacks its braces, so the id is never substituted | any failing lookup, e.g. id `app-1` with a 404 response: the message reads `($applicationId)` | the id in parentheses, as the current revision renders it (lib/src/mablApiClient.js:70) | high, not executed | LegacyMablApiClient.ApplicationErrorIgnoresId | MablApiClient.ApplicationErrorNamesId |
