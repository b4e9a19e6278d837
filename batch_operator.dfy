/**
 * The AWS Batch operator: it submits a job, records the job's id and name,
 * waits for the job to stop and checks how it ended. Every failure along
 * the way is re-raised as one error kind, AirflowException, which is
 * AirflowError here with the underlying cause as its payload.
 */
module BatchOperator {
  import opened BatchTypes
  import opened SuccessCheck
  import opened StatusPoll

  /** The default bound of the fallback poll (about 48 hours of backoff). */
  const DefaultMaxRetries: int := 4200

  /** The submit answer carries both keys the operator reads from it. */
  predicate Accepted(submit: SubmitReply)
  {
    submit.Submitted? && submit.jobId.Some? && submit.jobName.Some?
  }

  /** How waiting ends: None when it returns normally, else the cause it raised. */
  function WaitOutcome(waiter: Waiter, maxRetries: int, polls: seq<DescribeReply>): Option<Cause>
    requires Limit(maxRetries) <= |polls|
  {
    match waiter
    case WaiterReturned => None
    case WaiterRaised => Some(WaiterFailed)
    case WaiterUnavailable =>
      match Polled(maxRetries, polls).stop
      case Raised(cause) => Some(cause)
      case _ => None
  }

  /** The number of `describe_jobs` calls made while waiting. */
  function WaitCalls(waiter: Waiter, maxRetries: int, polls: seq<DescribeReply>): nat
    requires Limit(maxRetries) <= |polls|
  {
    if waiter == WaiterUnavailable then Polled(maxRetries, polls).calls else 0
  }

  /** How the success check ends: None when it passes, else the cause it raised. */
  function CheckOutcome(check: DescribeReply): Option<Cause>
  {
    match check
    case DescribeRaised => Some(DescribeFailed)
    case Described(jobs) =>
      var outcome := CheckJobs(jobs);
      if outcome == Ok then None else Some(CheckRejected(outcome))
  }

  /**
   * The result of one execution: submit, then wait, then check, stopping
   * at the first step that raises.
   */
  function ExecuteOutcome(submit: SubmitReply, waiter: Waiter, maxRetries: int,
                          polls: seq<DescribeReply>, check: DescribeReply): (r: ExecResult)
    requires Limit(maxRetries) <= |polls|
    ensures r == Success <==>
              Accepted(submit) && WaitOutcome(waiter, maxRetries, polls) == None &&
              check.Described? && |check.jobs| > 0 &&
              forall i :: 0 <= i < |check.jobs| ==> !Offends(check.jobs[i])
  {
    match submit
    case SubmitRaised => AirflowError(SubmitFailed)
    case Submitted(id, name) =>
      if id.None? then AirflowError(KeyMissing("jobId"))
      else if name.None? then AirflowError(KeyMissing("jobName"))
      else
        match WaitOutcome(waiter, maxRetries, polls)
        case Some(cause) => AirflowError(cause)
        case None =>
          match CheckOutcome(check)
          case Some(cause) => AirflowError(cause)
          case None => Success
  }

  /** The number of `describe_jobs` calls one execution makes. */
  function DescribeCalls(submit: SubmitReply, waiter: Waiter, maxRetries: int,
                         polls: seq<DescribeReply>): nat
    requires Limit(maxRetries) <= |polls|
  {
    if !Accepted(submit) then 0
    else WaitCalls(waiter, maxRetries, polls) +
         (if WaitOutcome(waiter, maxRetries, polls) == None then 1 else 0)
  }

  ghost function Repeat(id: string, n: nat): (s: seq<string>)
    ensures |s| == n && forall i :: 0 <= i < n ==> s[i] == id
  {
    seq(n, _ => id)
  }

  class AwsBatchOperator {
    const maxRetries: int
    /** Set once the Batch client has been obtained from the hook. */
    var hasClient: bool
    var jobId: Option<string>
    var jobName: Option<string>
    /** The job ids this operator has passed to `describe_jobs`, in order. */
    ghost var describedIds: seq<string>

    constructor (maxRetries: int := DefaultMaxRetries)
      ensures this.maxRetries == maxRetries
      ensures !hasClient && jobId == None && jobName == None && describedIds == []
    {
      this.maxRetries := maxRetries;
      hasClient := false;
      jobId, jobName := None, None;
      describedIds := [];
    }

    /**
     * Submits the job, records its id and name, waits for it and checks
     * it. The submit answer, the waiter's behaviour and the answers to
     * every `describe_jobs` call are inputs.
     */
    method Execute(submit: SubmitReply, waiter: Waiter, polls: seq<DescribeReply>,
                   check: DescribeReply) returns (r: ExecResult)
      requires Limit(maxRetries) <= |polls|
      modifies this
      ensures r == ExecuteOutcome(submit, waiter, maxRetries, polls, check)
      ensures hasClient
      ensures jobId == if submit.Submitted? && submit.jobId.Some? then submit.jobId else old(jobId)
      ensures jobName == if Accepted(submit) then submit.jobName else old(jobName)
      ensures describedIds ==
                old(describedIds) +
                Repeat(if Accepted(submit) then submit.jobId.value else "",
                       DescribeCalls(submit, waiter, maxRetries, polls))
    {
      hasClient := true;
      if submit.SubmitRaised? {
        return AirflowError(SubmitFailed);
      }
      if submit.jobId.None? {
        return AirflowError(KeyMissing("jobId"));
      }
      jobId := submit.jobId;
      if submit.jobName.None? {
        return AirflowError(KeyMissing("jobName"));
      }
      jobName := submit.jobName;

      var waitFailure := WaitForTaskEnded(waiter, polls);
      if waitFailure.Some? {
        return AirflowError(waitFailure.value);
      }
      var checkFailure := CheckSuccessTask(check);
      if checkFailure.Some? {
        return AirflowError(checkFailure.value);
      }
      return Success;
    }

    /**
     * Waits for the recorded job to stop: through the waiter, or, when the
     * waiter is unavailable, through the operator's own bounded poll.
     */
    method WaitForTaskEnded(waiter: Waiter, polls: seq<DescribeReply>) returns (failure: Option<Cause>)
      requires jobId.Some?
      requires Limit(maxRetries) <= |polls|
      modifies this`describedIds
      ensures failure == WaitOutcome(waiter, maxRetries, polls)
      ensures describedIds ==
                old(describedIds) + Repeat(jobId.value, WaitCalls(waiter, maxRetries, polls))
    {
      match waiter
      case WaiterReturned =>
        failure := None;
      case WaiterRaised =>
        failure := Some(WaiterFailed);
      case WaiterUnavailable =>
        var calls, stop := PollStatus(maxRetries, polls);
        describedIds := describedIds + Repeat(jobId.value, calls);
        failure := if stop.Raised? then Some(stop.cause) else None;
    }

    /** Describes the recorded job once more and checks its jobs list. */
    method CheckSuccessTask(check: DescribeReply) returns (failure: Option<Cause>)
      requires jobId.Some?
      modifies this`describedIds
      ensures failure == CheckOutcome(check)
      ensures describedIds == old(describedIds) + [jobId.value]
    {
      describedIds := describedIds + [jobId.value];
      if check.DescribeRaised? {
        return Some(DescribeFailed);
      }
      var outcome := CheckJobs(check.jobs);
      failure := if outcome == Ok then None else Some(CheckRejected(outcome));
    }
  }

  /** Once the job is submitted and waited for, the first offending job decides the error. */
  lemma FirstOffenderFailsExecution(submit: SubmitReply, waiter: Waiter, maxRetries: int,
                                    polls: seq<DescribeReply>, jobs: seq<Job>, k: int)
    requires Limit(maxRetries) <= |polls|
    requires Accepted(submit) && WaitOutcome(waiter, maxRetries, polls) == None
    requires FirstOffender(jobs, k)
    ensures ExecuteOutcome(submit, waiter, maxRetries, polls, Described(jobs)) ==
              AirflowError(CheckRejected(Verdict(jobs[k])))
  {
    FirstOffenderDecides(jobs, k);
  }

  /** Running out of retries is not an error: the check alone then decides. */
  lemma ExhaustedPollDefersToCheck(submit: SubmitReply, maxRetries: int,
                                   polls: seq<DescribeReply>, check: DescribeReply)
    requires Limit(maxRetries) <= |polls|
    requires Accepted(submit)
    requires Polled(maxRetries, polls).stop == Exhausted
    ensures ExecuteOutcome(submit, WaiterUnavailable, maxRetries, polls, check) ==
              match CheckOutcome(check)
              case None => Success
              case Some(cause) => AirflowError(cause)
  {
  }

  /** A poll that settles on a status still defers to the check, even on FAILED. */
  lemma SettledPollDefersToCheck(submit: SubmitReply, maxRetries: int,
                                 polls: seq<DescribeReply>, check: DescribeReply)
    requires Limit(maxRetries) <= |polls|
    requires Accepted(submit)
    requires Polled(maxRetries, polls).stop.Settled?
    ensures ExecuteOutcome(submit, WaiterUnavailable, maxRetries, polls, check) ==
              ExecuteOutcome(submit, WaiterReturned, maxRetries, polls, check)
  {
  }

  /** A wait that raises ends the execution with that same cause, and the check is not reached. */
  lemma WaitFailurePassedOn(submit: SubmitReply, waiter: Waiter, maxRetries: int,
                            polls: seq<DescribeReply>, check: DescribeReply, cause: Cause)
    requires Limit(maxRetries) <= |polls|
    requires Accepted(submit) && WaitOutcome(waiter, maxRetries, polls) == Some(cause)
    ensures ExecuteOutcome(submit, waiter, maxRetries, polls, check) == AirflowError(cause)
    ensures DescribeCalls(submit, waiter, maxRetries, polls) == WaitCalls(waiter, maxRetries, polls)
  {
  }

  /** With a negative or zero bound the fallback makes no poll call at all. */
  lemma NoRetriesNoPolls(submit: SubmitReply, maxRetries: int, polls: seq<DescribeReply>)
    requires maxRetries < 1
    requires Accepted(submit)
    ensures DescribeCalls(submit, WaiterUnavailable, maxRetries, polls) == 1
  {
  }
}
