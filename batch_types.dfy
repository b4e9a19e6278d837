/**
 * Values exchanged between the AWS Batch operator and the Batch service.
 * The service's answers are plain data here: the client that produces
 * them is not part of this model.
 */
module BatchTypes {

  datatype Option<+T> = None | Some(value: T)

  /** One record of the `jobs` list of a `describe_jobs` answer. */
  datatype Job = Job(status: string, statusReason: Option<string>)

  /** What one `describe_jobs` call produced: an exception, or a jobs list. */
  datatype DescribeReply = DescribeRaised | Described(jobs: seq<Job>)

  /** What one `submit_job` call produced. Either key may be absent. */
  datatype SubmitReply =
    | SubmitRaised
    | Submitted(jobId: Option<string>, jobName: Option<string>)

  /**
   * How the botocore waiter behaves: it returns once the job is complete,
   * it is unavailable (it raises ValueError, so the operator polls by
   * itself), or it raises anything else.
   */
  datatype Waiter = WaiterReturned | WaiterUnavailable | WaiterRaised

  /** The verdict of the success check over a jobs list. */
  datatype Outcome =
    | Ok
    | NoJob                     // the jobs list is empty
    | Failed(reason: string)    // a FAILED job, with its statusReason
    | ReasonMissing             // a FAILED job without a statusReason (KeyError)
    | Pending(status: string)   // a job still in a non-terminal status

  /** Why an execution failed; every one of them surfaces as AirflowException. */
  datatype Cause =
    | SubmitFailed              // submit_job raised
    | KeyMissing(key: string)   // the submit answer lacked jobId or jobName
    | WaiterFailed              // the waiter raised something other than ValueError
    | DescribeFailed            // a describe_jobs call raised
    | EmptyJobList              // a poll answer had no job to take the last of
    | CheckRejected(outcome: Outcome)

  datatype ExecResult = Success | AirflowError(cause: Cause)

  const SUCCEEDED: string := "SUCCEEDED"
  const FAILED: string := "FAILED"

  /** The statuses that make the success check report the job as still pending. */
  const PendingStatuses: seq<string> := ["SUBMITTED", "PENDING", "RUNNABLE", "STARTING", "RUNNING"]

  /** The statuses that end the fallback poll. */
  predicate IsTerminal(status: string)
  {
    status == SUCCEEDED || status == FAILED
  }

  function Last(jobs: seq<Job>): Job
    requires |jobs| > 0
  {
    jobs[|jobs| - 1]
  }
}
