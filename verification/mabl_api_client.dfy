/** The current mabl API client (lib/src/mablApiClient.js): the sparse
    deployment-event request body, the response-status check every request
    goes through, and the error each public operation rethrows. HTTP itself is
    not modelled: each operation receives the response its request produced. */
module MablApiClient {
  import opened Wrappers
  import opened Strings
  import opened JsValues
  import opened Entities

  /** The `status` field of a response: a number, `null`, or absent. */
  datatype Status = Code(code: nat) | NullStatus | NoStatus

  /** What a request resolved to: a response with its status, status text
      and body, or a rejection (a network failure, or any error the HTTP
      library raised). */
  datatype Response<D> =
    | Response(status: Status, statusText: string, data: D)
    | Rejected(error: Thrown)

  /** The status as a template literal shows it. */
  function StatusText(status: Status): (text: string)
    ensures status.Code? ==> ReadsAs(text, status.code)
    ensures status.NullStatus? ==> text == "null"
    ensures status.NoStatus? ==> text == "undefined"
  {
    match status
    case Code(n) => ParseNatToString(n); NatToString(n)
    case NullStatus => "null"
    case NoStatus => "undefined"
  }

  /** A response is accepted when its status, read as 400 when `null` or
      absent (`status ?? 400`), is below 400. */
  predicate Accepted<D>(resp: Response<D>) {
    resp.Response? && resp.status.Code? && resp.status.code < 400
  }

  /** The check `makeGetRequest` and `makePostRequest` apply to a response:
      an accepted response yields its data unchanged, any other yields the
      error `[<status> - <statusText>]`, and a rejection passes through. */
  function CheckStatus<D>(resp: Response<D>): (r: Result<D, Thrown>)
    ensures r.Success? <==> Accepted(resp)
    ensures r.Success? ==> r.value == resp.data
    ensures resp.Response? && !Accepted(resp) ==>
              r == Failure(ErrorOf("[" + StatusText(resp.status) + " - " + resp.statusText + "]"))
    ensures resp.Rejected? ==> r == Failure(resp.error)
  {
    match resp
    case Rejected(e) => Failure(e)
    case Response(status, statusText, data) =>
      var effective := match status case Code(n) => n case _ => 400;
      if effective >= 400 then Failure(ErrorOf("[" + StatusText(status) + " - " + statusText + "]"))
      else Success(data)
  }

  /** The `catch` of a public operation: a failure becomes one new error whose
      message is `context` followed by the rendering of the inner error. */
  function Rethrow<D>(inner: Result<D, Thrown>, context: string): (r: Result<D, Thrown>)
    ensures r.Success? <==> inner.Success?
    ensures inner.Success? ==> r.value == inner.value
    ensures inner.Failure? ==> r.error == ErrorOf(context + inner.error.text)
  {
    match inner
    case Success(v) => Success(v)
    case Failure(e) => Failure(ErrorOf(context + e.text))
  }

  function ApplicationContext(id: string): string {
    "failed to get mabl application (" + id + ") from the API "
  }

  function EnvironmentContext(id: string): string {
    "failed to get mabl environment (" + id + ") from the API "
  }

  function ExecutionResultsContext(eventId: string): string {
    "failed to get mabl execution results for event " + eventId + " from the API "
  }

  const DeploymentContext := "failed to create deployment through mabl API "

  /** `getApplication(id)`: the application, or an error naming it. */
  function GetApplication<D>(id: string, resp: Response<D>): (r: Result<D, Thrown>)
    ensures r.Success? <==> Accepted(resp)
    ensures r.Success? ==> r.value == resp.data
    ensures r.Failure? ==> r.error == ErrorOf(ApplicationContext(id) + CheckStatus(resp).error.text)
  {
    Rethrow(CheckStatus(resp), ApplicationContext(id))
  }

  /** `getEnvironment(id)`: the environment, or an error naming it. */
  function GetEnvironment<D>(id: string, resp: Response<D>): (r: Result<D, Thrown>)
    ensures r.Success? <==> Accepted(resp)
    ensures r.Success? ==> r.value == resp.data
    ensures r.Failure? ==> r.error == ErrorOf(EnvironmentContext(id) + CheckStatus(resp).error.text)
  {
    Rethrow(CheckStatus(resp), EnvironmentContext(id))
  }

  /** `getExecutionResults(eventId)`: a results snapshot, or an error naming the event. */
  function GetExecutionResults<D>(eventId: string, resp: Response<D>): (r: Result<D, Thrown>)
    ensures r.Success? <==> Accepted(resp)
    ensures r.Success? ==> r.value == resp.data
    ensures r.Failure? ==> r.error == ErrorOf(ExecutionResultsContext(eventId) + CheckStatus(resp).error.text)
  {
    Rethrow(CheckStatus(resp), ExecutionResultsContext(eventId))
  }

  /** `postDeploymentEvent(...)`: the created deployment, or an error naming
      the operation. The request body is not part of this function: it is
      built by `BuildRequestBody`, and only the response is modelled here. */
  function PostDeploymentEvent<D>(resp: Response<D>): (r: Result<D, Thrown>)
    ensures r.Success? <==> Accepted(resp)
    ensures r.Success? ==> r.value == resp.data
    ensures r.Failure? ==> r.error == ErrorOf(DeploymentContext + CheckStatus(resp).error.text)
  {
    Rethrow(CheckStatus(resp), DeploymentContext)
  }

  /** Any message of the form `Error: <open><id><close><cause>` carries the
      id at a fixed offset, so two ids never share a message for one cause. */
  lemma FramedMessageNamesId(open: string, close: string, id: string, other: string, cause: Thrown)
    ensures var msg := ErrorOf(open + id + close + cause.text).text;
            |msg| >= 7 + |open| + |id| && msg[7 + |open|..7 + |open| + |id|] == id
    ensures id != other ==> ErrorOf(open + id + close + cause.text) != ErrorOf(open + other + close + cause.text)
  {
    var p := "Error: " + open;
    var q := close + cause.text;
    assert ErrorOf(open + id + close + cause.text).text == p + id + q;
    assert ErrorOf(open + other + close + cause.text).text == p + other + q;
    MiddleOf(p, id, q);
    MiddleOf(p, other, q);
  }

  /** A failed `getApplication` names the application id it was asked for:
      the id sits right after the opening parenthesis, and different ids give
      different errors for the same cause. */
  lemma ApplicationErrorNamesId(id: string, other: string, cause: Thrown)
    ensures var msg := Rethrow<Workspace>(Failure(cause), ApplicationContext(id)).error.text;
            |msg| >= 39 + |id| && msg[39..39 + |id|] == id
    ensures id != other ==>
              Rethrow<Workspace>(Failure(cause), ApplicationContext(id)).error
              != Rethrow<Workspace>(Failure(cause), ApplicationContext(other)).error
  {
    FramedMessageNamesId("failed to get mabl application (", ") from the API ", id, other, cause);
  }

  /** A failed `getEnvironment` names the environment id it was asked for. */
  lemma EnvironmentErrorNamesId(id: string, other: string, cause: Thrown)
    ensures var msg := Rethrow<Workspace>(Failure(cause), EnvironmentContext(id)).error.text;
            |msg| >= 39 + |id| && msg[39..39 + |id|] == id
    ensures id != other ==>
              Rethrow<Workspace>(Failure(cause), EnvironmentContext(id)).error
              != Rethrow<Workspace>(Failure(cause), EnvironmentContext(other)).error
  {
    FramedMessageNamesId("failed to get mabl environment (", ") from the API ", id, other, cause);
  }

  /** A failed `getExecutionResults` names the deployment event it polled. */
  lemma ExecutionResultsErrorNamesEvent(eventId: string, other: string, cause: Thrown)
    ensures var msg := Rethrow<ExecutionResult>(Failure(cause), ExecutionResultsContext(eventId)).error.text;
            |msg| >= 54 + |eventId| && msg[54..54 + |eventId|] == eventId
    ensures eventId != other ==>
              Rethrow<ExecutionResult>(Failure(cause), ExecutionResultsContext(eventId)).error
              != Rethrow<ExecutionResult>(Failure(cause), ExecutionResultsContext(other)).error
  {
    FramedMessageNamesId("failed to get mabl execution results for event ", " from the API ", eventId, other, cause);
  }

  /** One HTTP header override, as the API expects it. */
  datatype HeaderOverride = HeaderOverride(name: string, value: Option<string>)

  /** `header.split(':', 2)`: the name is the text before the first colon and
      the value the text between the first and the second colon (the rest is
      dropped); without a colon there is no value. */
  function ParseHeader(header: string): (h: HeaderOverride)
    ensures NoneIn(h.name, {':'}) && h.name <= header
    ensures |h.name| == |header| || header[|h.name|] == ':'
    ensures h.value.None? <==> NoneIn(header, {':'})
    ensures h.value.Some? ==>
              var v := h.value.value;
              && NoneIn(v, {':'})
              && h.name + ":" + v <= header
              && (|h.name| + 1 + |v| == |header| || header[|h.name| + 1 + |v|] == ':')
  {
    HeaderParts(header);
    var parts := SplitLimit(header, ':', 2);
    HeaderOverride(parts[0], if |parts| >= 2 then Some(parts[1]) else None)
  }

  /** The two pieces `split(':', 2)` keeps: the text up to the first colon
      and, when there is one, the text from it up to the next colon. */
  lemma HeaderParts(header: string)
    ensures var parts := SplitLimit(header, ':', 2);
            var i := SepFrom(header, {':'}, 0);
            if i == |header| then parts == [header]
            else
              var rest := header[i + 1..];
              parts == [header[..i], rest[..SepFrom(rest, {':'}, 0)]]
  {
    FirstSeparator(header, {':'});
    var i := SepFrom(header, {':'}, 0);
    if i < |header| {
      var rest := header[i + 1..];
      FirstSeparator(rest, {':'});
      var j := SepFrom(rest, {':'}, 0);
      if j == |rest| {
        assert rest[..j] == rest;
      }
    }
  }

  /** A header without a colon is all name and has no value. */
  lemma ParseHeaderWithoutColon(name: string)
    requires NoneIn(name, {':'})
    ensures ParseHeader(name) == HeaderOverride(name, None)
  {
    SplitFree(name, {':'});
  }

  /** `name:value` parses to that name and value, and anything after a
      second colon is dropped. */
  lemma ParseHeaderWithColon(name: string, value: string, rest: Option<string>)
    requires NoneIn(name, {':'}) && NoneIn(value, {':'})
    ensures var header := if rest.Some? then name + ":" + value + ":" + rest.value else name + ":" + value;
            ParseHeader(header) == HeaderOverride(name, Some(value))
  {
    if rest.Some? {
      var tail := value + [':'] + rest.value;
      assert name + ":" + value + ":" + rest.value == name + [':'] + tail;
      SplitCons(name, ':', tail, {':'});
      SplitCons(value, ':', rest.value, {':'});
    } else {
      assert name + ":" + value == name + [':'] + value;
      SplitCons(name, ':', value, {':'});
      SplitFree(value, {':'});
    }
  }

  /** The `http_headers` entry for one header string. The source object holds
      `value: undefined` when there is no colon; `None` stands for that. */
  datatype HeaderEntry = HeaderEntry(name: string, value: Option<string>, logHeaderValue: bool)

  function ToHeaderEntry(header: string): (e: HeaderEntry)
    ensures !e.logHeaderValue
    ensures e.name == ParseHeader(header).name && e.value == ParseHeader(header).value
  {
    var h := ParseHeader(header);
    HeaderEntry(h.name, h.value, false)
  }

  /** The `plan_overrides` object. Each field is one key of the source's
      object; `None` means the key is absent. */
  datatype PlanOverrides = PlanOverrides(
    browserTypes: Option<seq<string>>,
    uri: Option<string>,
    httpHeaders: Option<seq<HeaderEntry>>,
    httpHeadersRequired: Option<bool>)

  /** The `actions` object; a present flag always holds `true`. */
  datatype Actions = Actions(rebaselineImages: Option<bool>, setStaticBaseline: Option<bool>)

  /** The deployment-event payload: `environment_id`, `application_id`,
      `source_control_tag`, `plan_overrides`, `plan_labels`, `revision`,
      `event_time`, `properties` and `actions`, in that order of assignment.
      A field that is `None` is a key the object does not have; the object has
      no other keys. */
  datatype RequestBody = RequestBody(
    environmentId: Option<string>,
    applicationId: Option<string>,
    sourceControlTag: Option<string>,
    planOverrides: PlanOverrides,
    planLabels: Option<seq<string>>,
    revision: Option<string>,
    eventTime: Option<int>,
    properties: Option<Json>,
    actions: Actions)

  /** The arguments of `buildRequestBody`, in the source's order. */
  datatype EventOptions = EventOptions(
    browserTypes: seq<string>,
    planLabels: seq<string>,
    httpHeaders: seq<string>,
    rebaselineImages: bool,
    setStaticBaseline: bool,
    eventTime: int,
    properties: Option<Json>,
    applicationId: Option<string>,
    environmentId: Option<string>,
    uri: Option<string>,
    revision: Option<string>,
    mablBranch: Option<string>)

  /** `if (x) { obj.key = x; }` for a `string | undefined` input. */
  function IfTruthy(o: Option<string>): (r: Option<string>)
    ensures r.Some? <==> TruthyText(o)
    ensures r.Some? ==> r.value == o.value
  {
    if TruthyText(o) then o else None
  }

  /** `if (list.length) { obj.key = list; }`. */
  function IfNonEmpty<T>(list: seq<T>): (r: Option<seq<T>>)
    ensures r.Some? <==> |list| > 0
    ensures r.Some? ==> r.value == list
  {
    if |list| > 0 then Some(list) else None
  }

  /** `if (flag) { obj.key = flag; }` for a boolean flag. */
  function IfSet(flag: bool): (r: Option<bool>)
    ensures r.Some? <==> flag
    ensures r.Some? ==> r.value
  {
    if flag then Some(true) else None
  }

  /** The header entries, one per header string, in order. */
  function HeaderEntries(headers: seq<string>): (es: seq<HeaderEntry>)
    ensures |es| == |headers|
    ensures forall i | 0 <= i < |headers| :: es[i] == ToHeaderEntry(headers[i])
  {
    seq(|headers|, i requires 0 <= i < |headers| => ToHeaderEntry(headers[i]))
  }

  /** `buildRequestBody`: the sparse deployment-event payload. */
  function BuildRequestBody(o: EventOptions): (body: RequestBody)
    ensures body.environmentId.Some? <==> o.environmentId.Some? && o.environmentId.value != ""
    ensures body.environmentId.Some? ==> body.environmentId == o.environmentId
    ensures body.applicationId.Some? <==> o.applicationId.Some? && o.applicationId.value != ""
    ensures body.applicationId.Some? ==> body.applicationId == o.applicationId
    ensures body.sourceControlTag.Some? <==> o.mablBranch.Some? && o.mablBranch.value != ""
    ensures body.sourceControlTag.Some? ==> body.sourceControlTag == o.mablBranch
    ensures body.planOverrides.browserTypes.Some? <==> o.browserTypes != []
    ensures body.planOverrides.browserTypes.Some? ==> body.planOverrides.browserTypes.value == o.browserTypes
    ensures body.planOverrides.uri.Some? <==> o.uri.Some? && o.uri.value != ""
    ensures body.planOverrides.uri.Some? ==> body.planOverrides.uri == o.uri
    ensures body.planOverrides.httpHeaders.Some? <==> o.httpHeaders != []
    ensures body.planOverrides.httpHeadersRequired.Some? <==> o.httpHeaders != []
    ensures body.planOverrides.httpHeadersRequired.Some? ==> body.planOverrides.httpHeadersRequired.value
    ensures body.planOverrides.httpHeaders.Some? ==>
              var es := body.planOverrides.httpHeaders.value;
              && |es| == |o.httpHeaders|
              && forall i | 0 <= i < |es| ::
                   && !es[i].logHeaderValue
                   && es[i].name == ParseHeader(o.httpHeaders[i]).name
                   && es[i].value == ParseHeader(o.httpHeaders[i]).value
    ensures body.planLabels.Some? <==> o.planLabels != []
    ensures body.planLabels.Some? ==> body.planLabels.value == o.planLabels
    ensures body.revision.Some? <==> o.revision.Some? && o.revision.value != ""
    ensures body.revision.Some? ==> body.revision == o.revision
    ensures body.eventTime.Some? <==> o.eventTime != 0
    ensures body.eventTime.Some? ==> body.eventTime.value == o.eventTime
    ensures body.properties.Some? <==> o.properties.Some? && Truthy(o.properties.value)
    ensures body.properties.Some? ==> body.properties == o.properties
    ensures body.actions.rebaselineImages.Some? <==> o.rebaselineImages
    ensures body.actions.setStaticBaseline.Some? <==> o.setStaticBaseline
    ensures body.actions.rebaselineImages != Some(false) && body.actions.setStaticBaseline != Some(false)
  {
    RequestBody(
      environmentId := IfTruthy(o.environmentId),
      applicationId := IfTruthy(o.applicationId),
      sourceControlTag := IfTruthy(o.mablBranch),
      planOverrides := PlanOverrides(
        browserTypes := IfNonEmpty(o.browserTypes),
        uri := IfTruthy(o.uri),
        httpHeaders := if |o.httpHeaders| > 0 then Some(HeaderEntries(o.httpHeaders)) else None,
        httpHeadersRequired := IfSet(|o.httpHeaders| > 0)),
      planLabels := IfNonEmpty(o.planLabels),
      revision := IfTruthy(o.revision),
      eventTime := if o.eventTime != 0 then Some(o.eventTime) else None,
      properties := if o.properties.Some? && Truthy(o.properties.value) then o.properties else None,
      actions := Actions(IfSet(o.rebaselineImages), IfSet(o.setStaticBaseline)))
  }
}
