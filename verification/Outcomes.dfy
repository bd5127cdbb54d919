/** The value types that changers and the engine exchange: assessments, results, outcomes and reports.
    Message texts are not modelled; result codes and details are. */
module Outcomes {
  datatype Option<+T> = None | Some(value: T) {
    function GetOr(default: T): T {
      match this
      case Some(v) => v
      case None => default
    }
  }

  datatype ExistingState = Ready | AlreadyApplied | Invalid

  datatype Assessment = Assessment(state: ExistingState)

  datatype ResultStatus = Succeeded | Failed | Skipped

  datatype Result = Result(status: ResultStatus, code: string, details: map<string, string>)

  function SuccessResult(): Result { Result(Succeeded, "OK", map[]) }

  function FailureResult(code: string): Result { Result(Failed, code, map[]) }

  function SkippedResult(): Result { Result(Skipped, "SKIPPED", map[]) }

  datatype NodeOutcome =
    | Success
    | SkippedAlreadyApplied
    | SkippedByTransition
    | FailedInvalid
    | FailedTransition
    | Blocked

  /** The outcomes on which the driver starts blocking descendants. */
  predicate EngineFailure(outcome: NodeOutcome) {
    outcome == FailedInvalid || outcome == FailedTransition
  }

  /** The outcomes that make a run not ok. */
  predicate Failing(outcome: NodeOutcome) {
    EngineFailure(outcome) || outcome == Blocked
  }

  predicate PublishEligible(outcome: NodeOutcome) {
    outcome == Success || outcome == SkippedAlreadyApplied
  }

  datatype NodeReport = NodeReport(
    nodeName: string,
    outcome: NodeOutcome,
    assessment: Option<Assessment>,
    result: Option<Result>,
    postAssess: Option<Assessment>,
    rollbackResult: Option<Result>)

  /** An assessment of the node, the first or the second, found its state applied. */
  predicate FoundApplied(report: NodeReport) {
    report.assessment == Some(Assessment(AlreadyApplied)) || report.postAssess == Some(Assessment(AlreadyApplied))
  }

  /** The node's state was applied and the report is a failure all the same: publishing went wrong. A
      transition that fails leaves no such report, whatever code it chooses. */
  predicate PublishFailure(report: NodeReport) {
    report.outcome == FailedTransition && FoundApplied(report)
  }

  function BlockedReport(name: string): NodeReport {
    NodeReport(name, Blocked, None, None, None, None)
  }

  datatype EngineResult = EngineResult(reports: seq<NodeReport>) {
    predicate Ok(): (ok: bool)
      ensures ok <==> forall i :: 0 <= i < |reports| ==>
                reports[i].outcome in {Success, SkippedAlreadyApplied, SkippedByTransition}
    {
      !exists r :: r in reports && Failing(r.outcome)
    }
  }
}
