/** The records the mabl API returns, reduced to the fields the action reads. */
module Entities {
  import opened Wrappers

  datatype PlanInfo = PlanInfo(id: string, name: string)

  datatype JourneyInfo = JourneyInfo(id: string, name: string)

  /** One browser run of one journey. `status` is the API's status text
      (empty when absent); `appHref` links to its output in the mabl app. */
  datatype JourneyExecution =
    JourneyExecution(journeyId: string, status: string, success: bool, appHref: string)

  /** One run of a plan. `stopTime` is `None` when the API sent none. */
  datatype Execution = Execution(
    status: string,
    success: bool,
    stopTime: Option<int>,
    plan: PlanInfo,
    journeys: seq<JourneyInfo>,
    journeyExecutions: seq<JourneyExecution>)

  datatype Metrics = Metrics(total: nat, passed: nat, failed: nat)

  /** A snapshot of a deployment's results; `executions` is `None` when the
      response carries no `executions` array, which for a poll (read through
      `executionResult?.executions`) includes a `null` or absent body. */
  datatype ExecutionResult = ExecutionResult(
    planMetrics: Metrics,
    journeyMetrics: Metrics,
    executions: Option<seq<Execution>>)

  /** The deployment event the trigger call creates. */
  datatype Deployment = Deployment(id: string)

  /** A field of a JSON body: a value, an explicit `null`, or absent (read
      as `undefined`). */
  datatype Nullable<T> = Present(value: T) | Null | Absent

  /** The application or environment a deployment targets, reduced to the two
      identifiers of the workspace it lives in (either may be `null` or absent). */
  datatype Workspace = Workspace(workspaceId: Nullable<string>, organizationId: Nullable<string>)
}
