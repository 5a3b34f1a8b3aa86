/** The earlier revision of the mabl API client (lib/mablApiClient.js). It
    shares the response-status check with the current client, and its
    `getExecutionResults` and `postDeploymentEvent` wrap errors exactly as the
    current client's do (`MablApiClient.GetExecutionResults` and
    `MablApiClient.PostDeploymentEvent` model both). Its application lookup
    loses the id from the error message; its builder takes the browser types
    as one comma-separated string and has no branch tag, labels or header
    overrides. */
module LegacyMablApiClient {
  import opened Wrappers
  import opened Strings
  import opened JsValues
  import opened Entities
  import opened MablApiClient

  /** The literal text of the application error: the template placeholder
      lacks its braces, so the id is never substituted. */
  const ApplicationContext := "failed to get mabl application ($applicationId) from the API "

  /** `getApplication(applicationId)`: the application, or an error whose
      message does not depend on the id. */
  function GetApplication<D>(applicationId: string, resp: Response<D>): (r: Result<D, Thrown>)
    ensures r.Success? <==> Accepted(resp)
    ensures r.Success? ==> r.value == resp.data
    ensures r.Failure? ==> r.error == ErrorOf(ApplicationContext + CheckStatus(resp).error.text)
  {
    Rethrow(CheckStatus(resp), ApplicationContext)
  }

  /** Whatever the application id, a failed lookup for one cause reports the
      same message, and that message is not a function of the id. */
  lemma ApplicationErrorIgnoresId(id: string, other: string, resp: Response<Option<Workspace>>)
    requires !Accepted(resp)
    ensures GetApplication(id, resp).error == GetApplication(other, resp).error
    ensures GetApplication(id, resp).error.text[7..7 + |ApplicationContext|] == ApplicationContext
  {
    var msg := GetApplication(id, resp).error.text;
    assert msg == "Error: " + ApplicationContext + CheckStatus(resp).error.text;
    assert msg[7..7 + |ApplicationContext|] == ApplicationContext;
  }

  /** `browserTypes.split(',')`, used when the string is non-empty: every
      comma cuts and nothing is trimmed. */
  function BrowserList(browserTypes: string): (list: seq<string>)
    ensures |list| == Count(browserTypes, {','}) + 1
    ensures forall i | 0 <= i < |list| :: NoneIn(list[i], {','})
    ensures Join(list, ',') == browserTypes
  {
    SplitCount(browserTypes, {','});
    JoinSplit(browserTypes, ',');
    Split(browserTypes, {','})
  }

  /** `buildRequestBody` of this revision, with its own argument order. */
  function BuildRequestBody(
    applicationId: Option<string>, environmentId: Option<string>, browserTypes: Option<string>,
    uri: Option<string>, rebaselineImages: bool, setStaticBaseline: bool, eventTime: int,
    properties: Option<Json>, revision: Option<string>): (body: RequestBody)
    ensures body.environmentId.Some? <==> TruthyText(environmentId)
    ensures body.environmentId.Some? ==> body.environmentId == environmentId
    ensures body.applicationId.Some? <==> TruthyText(applicationId)
    ensures body.applicationId.Some? ==> body.applicationId == applicationId
    ensures body.planOverrides.browserTypes.Some? <==> TruthyText(browserTypes)
    ensures body.planOverrides.browserTypes.Some? ==>
              var list := body.planOverrides.browserTypes.value;
              |list| == Count(browserTypes.value, {','}) + 1 && Join(list, ',') == browserTypes.value
    ensures body.planOverrides.uri.Some? <==> TruthyText(uri)
    ensures body.planOverrides.uri.Some? ==> body.planOverrides.uri == uri
    ensures body.revision.Some? <==> TruthyText(revision)
    ensures body.revision.Some? ==> body.revision == revision
    ensures body.eventTime.Some? <==> eventTime != 0
    ensures body.properties.Some? <==> properties.Some? && Truthy(properties.value)
    ensures body.actions.rebaselineImages.Some? <==> rebaselineImages
    ensures body.actions.setStaticBaseline.Some? <==> setStaticBaseline
    ensures body.sourceControlTag.None? && body.planLabels.None?
    ensures body.planOverrides.httpHeaders.None? && body.planOverrides.httpHeadersRequired.None?
  {
    RequestBody(
      environmentId := IfTruthy(environmentId),
      applicationId := IfTruthy(applicationId),
      sourceControlTag := None,
      planOverrides := PlanOverrides(
        browserTypes := if TruthyText(browserTypes) then Some(BrowserList(browserTypes.value)) else None,
        uri := IfTruthy(uri),
        httpHeaders := None,
        httpHeadersRequired := None),
      planLabels := None,
      revision := IfTruthy(revision),
      eventTime := if eventTime != 0 then Some(eventTime) else None,
      properties := if properties.Some? && Truthy(properties.value) then properties else None,
      actions := Actions(IfSet(rebaselineImages), IfSet(setStaticBaseline)))
  }

  /** The two revisions build the same payload when the current one is given
      the comma-split browser list and no labels, headers or branch tag. */
  lemma AgreesWithCurrentBuilder(
    applicationId: Option<string>, environmentId: Option<string>, browserTypes: Option<string>,
    uri: Option<string>, rebaselineImages: bool, setStaticBaseline: bool, eventTime: int,
    properties: Option<Json>, revision: Option<string>)
    ensures var list := if TruthyText(browserTypes) then BrowserList(browserTypes.value) else [];
            BuildRequestBody(applicationId, environmentId, browserTypes, uri, rebaselineImages,
                             setStaticBaseline, eventTime, properties, revision)
            == MablApiClient.BuildRequestBody(EventOptions(
                 list, [], [], rebaselineImages, setStaticBaseline, eventTime, properties,
                 applicationId, environmentId, uri, revision, None))
  {
  }
}
