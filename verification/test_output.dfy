/** The JUnit feed of the deploy-and-test action
    (deploy-and-test/src/testOutput.ts): one test suite per plan execution,
    one test case per journey execution, and a top-level element carrying
    the deployment's journey counters and a link to its output. The timing
    attributes and the XML rendering are not modelled. */
module TestOutput {
  import opened Wrappers
  import opened JsValues
  import opened Entities

  /** A `testcase` element; `error` is the message of its `error` child. */
  datatype TestCase = TestCase(name: string, status: string, error: Option<string>)

  /** A `testsuite` element for one plan execution. */
  datatype TestSuite = TestSuite(
    name: string, id: string, disabled: string, failures: nat, tests: nat, cases: seq<TestCase>)

  datatype Property = Property(name: string, value: string)

  /** The top-level `testsuites` element. */
  datatype TestSuites = TestSuites(
    name: string, disabled: string, properties: seq<Property>, failures: nat, tests: nat,
    suites: seq<TestSuite>)

  const FailedStatus := "Failed"
  const PassedStatus := "Passed"
  const OutputLinkProperty := "mabl View Output"

  /** `journeys.find(j => j.id === id)`: the first journey with that id. */
  function FindJourney(journeys: seq<JourneyInfo>, id: string): (found: Option<JourneyInfo>)
    ensures found.None? <==> forall i | 0 <= i < |journeys| :: journeys[i].id != id
    ensures found.Some? ==>
              exists k | 0 <= k < |journeys| ::
                && journeys[k] == found.value
                && journeys[k].id == id
                && forall i | 0 <= i < k :: journeys[i].id != id
  {
    if |journeys| == 0 then None
    else if journeys[0].id == id then Some(journeys[0])
    else
      var rest := FindJourney(journeys[1..], id);
      if rest.Some? then
        var k :| 0 <= k < |journeys| - 1 && journeys[1..][k] == rest.value && journeys[1..][k].id == id
                  && forall i | 0 <= i < k :: journeys[1..][i].id != id;
        assert journeys[k + 1] == rest.value;
        rest
      else
        rest
  }

  /** A case is named after the journey it ran, or after the journey id when
      the execution does not list that journey. */
  function CaseName(journeys: seq<JourneyInfo>, run: JourneyExecution): (name: string)
    ensures (forall i | 0 <= i < |journeys| :: journeys[i].id != run.journeyId) ==> name == run.journeyId
    ensures forall k | 0 <= k < |journeys| && journeys[k].id == run.journeyId
                       && (forall i | 0 <= i < k :: journeys[i].id != run.journeyId) ::
              name == journeys[k].name
  {
    match FindJourney(journeys, run.journeyId)
    case Some(journey) =>
      forall k | 0 <= k < |journeys| && journeys[k].id == run.journeyId
                 && (forall i | 0 <= i < k :: journeys[i].id != run.journeyId)
        ensures journey.name == journeys[k].name
      {
        var m :| 0 <= m < |journeys| && journeys[m] == journey && journeys[m].id == run.journeyId
                 && forall i | 0 <= i < m :: journeys[i].id != run.journeyId;
        assert !(m < k) && !(k < m);
      }
      journey.name
    case None => run.journeyId
  }

  /** The test case of one journey execution. */
  function CaseFor(journeys: seq<JourneyInfo>, run: JourneyExecution): (c: TestCase)
    ensures c.name == CaseName(journeys, run)
    ensures c.status == FailedStatus <==> !run.success
    ensures c.status == PassedStatus <==> run.success
    ensures c.error.Some? <==> !run.success
    ensures c.error.Some? ==> c.error.value == "View Output: " + run.appHref
  {
    if !run.success then
      TestCase(CaseName(journeys, run), FailedStatus, Some("View Output: " + run.appHref))
    else
      TestCase(CaseName(journeys, run), PassedStatus, None)
  }

  /** `journey_executions.filter(jE => !jE.status).length`: the journey
      executions whose status text is empty (falsy). */
  function EmptyStatusCount(runs: seq<JourneyExecution>): (n: nat)
    ensures n <= |runs|
    ensures n == 0 <==> forall i | 0 <= i < |runs| :: runs[i].status != ""
    ensures n == |runs| <==> forall i | 0 <= i < |runs| :: runs[i].status == ""
  {
    if |runs| == 0 then 0
    else
      var rest := EmptyStatusCount(runs[1..]);
      assert forall i | 1 <= i < |runs| :: runs[i] == runs[1..][i - 1];
      (if runs[0].status == "" then 1 else 0) + rest
  }

  /** The count adds up over a concatenation. */
  lemma {:induction false} EmptyStatusCountAppend(a: seq<JourneyExecution>, b: seq<JourneyExecution>)
    ensures EmptyStatusCount(a + b) == EmptyStatusCount(a) + EmptyStatusCount(b)
  {
    if |a| == 0 {
      assert a + b == b;
    } else {
      assert (a + b)[0] == a[0];
      assert (a + b)[1..] == a[1..] + b;
      EmptyStatusCountAppend(a[1..], b);
    }
  }

  /** The test suite of one plan execution. */
  function SuiteFor(execution: Execution): (s: TestSuite)
    ensures s.name == execution.plan.name && s.id == execution.plan.id && s.disabled == ""
    ensures s.tests == |execution.journeyExecutions| == |s.cases|
    ensures forall i | 0 <= i < |s.cases| ::
              s.cases[i] == CaseFor(execution.journeys, execution.journeyExecutions[i])
    ensures s.failures == EmptyStatusCount(execution.journeyExecutions) <= s.tests
  {
    var runs := execution.journeyExecutions;
    TestSuite(
      name := execution.plan.name,
      id := execution.plan.id,
      disabled := "",
      failures := EmptyStatusCount(runs),
      tests := |runs|,
      cases := seq(|runs|, i requires 0 <= i < |runs| => CaseFor(execution.journeys, runs[i])))
  }

  /** `generatePublishExecutionResult`'s feed object, or the error its first
      `forEach` throws when the result has no `executions` array. */
  function Feed(result: ExecutionResult, eventId: string, outputLink: string): (r: Result<TestSuites, Thrown>)
    ensures r.Failure? <==> result.executions.None?
    ensures r.Failure? ==> r.error == MissingExecutions
    ensures r.Success? ==>
              && r.value.name == "mabl Deployment event: " + eventId
              && r.value.disabled == ""
              && r.value.properties == [Property(OutputLinkProperty, outputLink)]
              && r.value.failures == result.journeyMetrics.failed
              && r.value.tests == result.journeyMetrics.total
              && |r.value.suites| == |result.executions.value|
              && forall i | 0 <= i < |r.value.suites| :: r.value.suites[i] == SuiteFor(result.executions.value[i])
  {
    if result.executions.None? then Failure(MissingExecutions)
    else
      var executions := result.executions.value;
      Success(TestSuites(
        name := "mabl Deployment event: " + eventId,
        disabled := "",
        properties := [Property(OutputLinkProperty, outputLink)],
        failures := result.journeyMetrics.failed,
        tests := result.journeyMetrics.total,
        suites := seq(|executions|, i requires 0 <= i < |executions| => SuiteFor(executions[i]))))
  }

  /** Case `j` of suite `i` reports journey execution `j` of execution `i`:
      failed with a link to its output exactly when that run did not succeed,
      and named after the first listed journey with its id (or the id itself). */
  lemma FeedCase(result: ExecutionResult, eventId: string, outputLink: string, i: nat, j: nat)
    requires result.executions.Some? && i < |result.executions.value|
    requires j < |result.executions.value[i].journeyExecutions|
    ensures var execution := result.executions.value[i];
            var run := execution.journeyExecutions[j];
            var c := Feed(result, eventId, outputLink).value.suites[i].cases[j];
            && (c.status == FailedStatus <==> !run.success)
            && (!run.success ==> c.error == Some("View Output: " + run.appHref))
            && (run.success ==> c.status == PassedStatus && c.error.None?)
            && ((exists k | 0 <= k < |execution.journeys| ::
                   && execution.journeys[k].id == run.journeyId
                   && c.name == execution.journeys[k].name
                   && forall m | 0 <= m < k :: execution.journeys[m].id != run.journeyId)
                || (c.name == run.journeyId
                    && forall k | 0 <= k < |execution.journeys| :: execution.journeys[k].id != run.journeyId))
  {
    var execution := result.executions.value[i];
    var run := execution.journeyExecutions[j];
    var found := FindJourney(execution.journeys, run.journeyId);
    if found.Some? {
      var k :| 0 <= k < |execution.journeys| && execution.journeys[k] == found.value
               && execution.journeys[k].id == run.journeyId
               && forall m | 0 <= m < k :: execution.journeys[m].id != run.journeyId;
      assert Feed(result, eventId, outputLink).value.suites[i].cases[j].name == execution.journeys[k].name;
    }
  }

  /** A suite's failure count is the number of journey executions with an
      empty status, not the number of failed cases: a run with status
      `failed` that did not succeed yields a failed case and no failure. */
  lemma SuiteFailuresIgnoreSuccess(plan: PlanInfo, journey: JourneyInfo, appHref: string)
    ensures var run := JourneyExecution(journey.id, "failed", false, appHref);
            var s := SuiteFor(Execution("failed", false, Some(1), plan, [journey], [run]));
            s.cases[0].status == FailedStatus && s.failures == 0 && s.tests == 1
  {
    var run := JourneyExecution(journey.id, "failed", false, appHref);
    assert EmptyStatusCount([run]) == 0;
  }
}
