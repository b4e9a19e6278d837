# AWS Batch operator: a Dafny model

This project models the decision logic of Airflow's `AWSBatchOperator`
(`airflow/contrib/operators/awsbatch_operator.py`). The operator submits a job
to AWS Batch and records the job's id and name. It then waits for the job to
stop and checks the final job records. The Batch service's answers are plain
input data here: a submit answer, the waiter's behaviour, one `describe_jobs`
answer per poll call and one for the final check.

- `BatchTypes` (`batch_types.dfy`) holds the job records, the service answers,
  the check's outcomes and the causes of failure.
- `SuccessCheck` (`success_check.dfy`) models `_check_success_task` as a
  recursive function over the jobs list. The first job that is `FAILED` or in
  one of the five pending statuses decides the error.
- `StatusPoll` (`status_poll.dfy`) models the `ValueError` fallback of
  `_wait_for_task_ended`. It is a `while` loop whose counter runs from 1 to
  `max_retries`, and it is proved equal to a search-based specification,
  `Polled`.
- `BatchOperator` (`batch_operator.dfy`) models the operator object. The class
  has `jobId`/`jobName` fields, and its `Execute` runs submit, wait and check.
  Every failure inside its `try` becomes `AirflowError` (the source's `AirflowException`)
  carrying its cause. A ghost log, `describedIds`, records the job id passed to
  each `describe_jobs` call. It shows that the id is recorded before any
  describe call is made.

Modelling choices that follow the code:
- `job['statusReason']` is read only for a `FAILED` job, and the key may be
  missing. In that case the source raises `KeyError`, which is
  `Outcome.ReasonMissing` here.
- `response['jobs'][-1]` raises `IndexError` when a poll answer has no jobs.
  The model calls this `Cause.EmptyJobList`. The poll runs inside the
  `except ValueError` handler, so any exception it raises leaves the wait and
  `execute` re-raises it.
- If `submit_job`'s answer lacks `jobName`, `jobId` has already been assigned.
  `Execute` keeps that partial update.

## Model

| member | source | states |
|---|---|---|
| SuccessCheck.ScanJobs | airflow/contrib/operators/awsbatch_operator.py:186-199 | The loop passes exactly when no job is FAILED or pending; otherwise the result is the verdict of the first offending job |
| SuccessCheck.CheckJobs | airflow/contrib/operators/awsbatch_operator.py:183-199 | An empty jobs list gives NoJob and nothing else does; a non-empty list passes iff no job is FAILED or pending; any error is the first offender's verdict |
| SuccessCheck.FirstOffenderDecides | airflow/contrib/operators/awsbatch_operator.py:186-190 | Jobs are examined in list order: whatever follows, the first FAILED-or-pending job decides the error |
| SuccessCheck.FailedCarriesReason | airflow/contrib/operators/awsbatch_operator.py:188-190 | A Failed(reason) error comes from the first offending job, which is FAILED and whose statusReason is exactly reason |
| SuccessCheck.PendingNamesStatus | airflow/contrib/operators/awsbatch_operator.py:191-199 | A pending error names one of SUBMITTED, PENDING, RUNNABLE, STARTING, RUNNING, the status of the first offending job |
| SuccessCheck.EarlierErrorWins | airflow/contrib/operators/awsbatch_operator.py:186-199 | Appending jobs after a list that already raises does not change the error |
| SuccessCheck.PassingPrefixIsTransparent | airflow/contrib/operators/awsbatch_operator.py:186-199 | Jobs that pass leave the verdict on the jobs after them unchanged |
| SuccessCheck.UnrecognisedStatusesPass | airflow/contrib/operators/awsbatch_operator.py:186-199 | A non-empty list whose statuses are all neither FAILED nor one of the five pending ones (all SUCCEEDED, or unrecognised) passes the check |
| StatusPoll.FirstStop | airflow/contrib/operators/awsbatch_operator.py:163-172 | Finds the first answer that ends the poll: every earlier answer has a last job with a non-terminal status |
| StatusPoll.Polled | airflow/contrib/operators/awsbatch_operator.py:162-174 | At most max_retries calls and none when max_retries < 1. The poll stops right after the first answer whose last job is SUCCEEDED or FAILED, or on a raising or empty answer. Running out of retries is Exhausted, not an error, and happens only when every allowed answer was non-terminal |
| StatusPoll.PollStatus | airflow/contrib/operators/awsbatch_operator.py:154-175 | The while loop with its counter from 1 makes the same calls and ends the same way as Polled |
| BatchOperator.ExecuteOutcome | airflow/contrib/operators/awsbatch_operator.py:118-138 | An execution succeeds iff submit answered with jobId and jobName, the wait returned without raising, and the check saw a non-empty list with no FAILED or pending job |
| BatchOperator.AwsBatchOperator.constructor | airflow/contrib/operators/awsbatch_operator.py:88-102 | A new operator keeps max_retries (4200 by default) and has no job id, no job name and no client |
| BatchOperator.AwsBatchOperator.Execute | airflow/contrib/operators/awsbatch_operator.py:106-138 | The client is obtained, and jobId and jobName are set from the submit answer (jobId alone when jobName is missing). The result is ExecuteOutcome, and every describe call names the submitted job id |
| BatchOperator.AwsBatchOperator.WaitForTaskEnded | airflow/contrib/operators/awsbatch_operator.py:140-175 | The waiter either returns, raises, or is unavailable; when unavailable, the bounded poll runs, and only a raising or empty answer makes the wait fail |
| BatchOperator.AwsBatchOperator.CheckSuccessTask | airflow/contrib/operators/awsbatch_operator.py:177-199 | Makes one more describe call for the recorded job id and fails exactly when the call raises or CheckJobs rejects the jobs list |
| BatchOperator.FirstOffenderFailsExecution | airflow/contrib/operators/awsbatch_operator.py:131-138 | After a successful submit and wait, the execution fails with the first offending job's verdict wrapped as an AirflowException |
| BatchOperator.ExhaustedPollDefersToCheck | airflow/contrib/operators/awsbatch_operator.py:163-174 | Running out of retries returns normally, so the final check alone decides the execution |
| BatchOperator.SettledPollDefersToCheck | airflow/contrib/operators/awsbatch_operator.py:171-172 | A poll that breaks on SUCCEEDED or FAILED ends the wait just as a returning waiter does; even FAILED is reported only by the check |
| BatchOperator.WaitFailurePassedOn | airflow/contrib/operators/awsbatch_operator.py:131-138 | After an accepted submit, a wait that raises ends the execution with that same cause as the AirflowException's payload, and no check call is made |
| BatchOperator.NoRetriesNoPolls | airflow/contrib/operators/awsbatch_operator.py:162-163 | With max_retries < 1 the fallback makes no poll call; the only describe call is the final check |

## Left out

- The boto3 client, `AwsHook` and `get_client_type` are foreign network calls. The client becomes a `hasClient` flag, and its answers are inputs. Obtaining the client is assumed to succeed: in the source `get_client_type` runs before the `try`, so its failure would escape unwrapped, which the model does not capture.
- The botocore waiter (its `sys.maxsize` attempts and its own polling) is an external library. It is an abstract choice: it returns, it raises `ValueError` (unavailable), or it raises something else.
- The pauses (`randint(5, 30)` and `1 + pow(retries * 0.3, 2)`) and `sleep` involve randomness, floating point and wall-clock time.
- Logging, `apply_defaults`, `template_fields`, `ui_color` and the `BaseOperator` machinery are framework plumbing.
- `on_kill`, which calls `terminate_job`, is a single foreign call with no logic.
- Exception message texts are out of scope. Only the kind of error and its payload (reason, status or key) are modelled.
- Answers are assumed to have boto3's shape. A job always has a `status`, and a describe answer always has a `jobs` list, so the `KeyError`/`TypeError` those keys could raise is not modelled.
- StatusPoll.PollStatus: requires one answer per allowed call (`Limit(max_retries) <= |replies|`), because the service's answers are given in advance as a sequence.
- Arguments that are only passed through to `submit_job` (queue, definition, overrides, array properties) carry no decision logic.
