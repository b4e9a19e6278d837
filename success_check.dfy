/**
 * The success check run after the job has stopped: it looks at the jobs
 * list of a fresh `describe_jobs` answer and either accepts it or names
 * the first job that is failed or still pending.
 */
module SuccessCheck {
  import opened BatchTypes

  /** A job that makes the check raise: it failed, or it has not finished. */
  predicate Offends(job: Job)
  {
    job.status == FAILED || job.status in PendingStatuses
  }

  /** The error a single job raises, or Ok if it does not offend. */
  function Verdict(job: Job): Outcome
  {
    if job.status == FAILED then
      match job.statusReason
      case Some(reason) => Failed(reason)
      case None => ReasonMissing
    else if job.status in PendingStatuses then Pending(job.status)
    else Ok
  }

  /** Position k holds the first offending job of the list. */
  predicate FirstOffender(jobs: seq<Job>, k: int)
  {
    0 <= k < |jobs| && Offends(jobs[k]) &&
    forall i :: 0 <= i < k ==> !Offends(jobs[i])
  }

  /** The loop over the jobs list: the first offending job decides. */
  function ScanJobs(jobs: seq<Job>): (r: Outcome)
    ensures r != NoJob
    ensures r == Ok <==> forall i :: 0 <= i < |jobs| ==> !Offends(jobs[i])
    ensures r != Ok ==> exists k :: FirstOffender(jobs, k) && r == Verdict(jobs[k])
  {
    if jobs == [] then Ok
    else if Offends(jobs[0]) then
      assert FirstOffender(jobs, 0);
      Verdict(jobs[0])
    else
      var r := ScanJobs(jobs[1..]);
      if r == Ok then r
      else
        var k :| FirstOffender(jobs[1..], k) && r == Verdict(jobs[1..][k]);
        assert FirstOffender(jobs, k + 1);
        r
  }

  /**
   * The whole check: an empty list is an error of its own; otherwise the
   * list passes exactly when no job is FAILED or pending.
   */
  function CheckJobs(jobs: seq<Job>): (r: Outcome)
    ensures r == NoJob <==> |jobs| == 0
    ensures r == Ok <==> |jobs| > 0 && forall i :: 0 <= i < |jobs| ==> !Offends(jobs[i])
    ensures r != Ok && r != NoJob ==> exists k :: FirstOffender(jobs, k) && r == Verdict(jobs[k])
  {
    if |jobs| < 1 then NoJob else ScanJobs(jobs)
  }

  /** Whatever follows it, the first offending job decides the outcome. */
  lemma {:induction false} FirstOffenderDecides(jobs: seq<Job>, k: int)
    requires FirstOffender(jobs, k)
    ensures CheckJobs(jobs) == Verdict(jobs[k])
    ensures CheckJobs(jobs) != Ok && CheckJobs(jobs) != NoJob
  {
    if k > 0 {
      assert !Offends(jobs[0]);
      assert FirstOffender(jobs[1..], k - 1);
      FirstOffenderDecides(jobs[1..], k - 1);
    }
  }

  /** A FAILED outcome carries exactly the statusReason of the job that caused it. */
  lemma FailedCarriesReason(jobs: seq<Job>, reason: string)
    requires CheckJobs(jobs) == Failed(reason)
    ensures exists k :: FirstOffender(jobs, k) && jobs[k].status == FAILED &&
                        jobs[k].statusReason == Some(reason)
  {
    var k :| FirstOffender(jobs, k) && Failed(reason) == Verdict(jobs[k]);
    assert jobs[k].status == FAILED;
  }

  /** A pending outcome names one of the five pending statuses, that of the first offender. */
  lemma PendingNamesStatus(jobs: seq<Job>, status: string)
    requires CheckJobs(jobs) == Pending(status)
    ensures status in PendingStatuses
    ensures exists k :: FirstOffender(jobs, k) && jobs[k].status == status && status != FAILED
  {
    var k :| FirstOffender(jobs, k) && Pending(status) == Verdict(jobs[k]);
    assert jobs[k].status != FAILED;
  }

  /** An error raised by an earlier job is not changed by jobs appended after it. */
  lemma {:induction false} EarlierErrorWins(front: seq<Job>, back: seq<Job>)
    requires CheckJobs(front) != Ok && CheckJobs(front) != NoJob
    ensures CheckJobs(front + back) == CheckJobs(front)
  {
    var k :| FirstOffender(front, k) && CheckJobs(front) == Verdict(front[k]);
    assert FirstOffender(front + back, k) by {
      assert forall i :: 0 <= i <= k ==> (front + back)[i] == front[i];
    }
    FirstOffenderDecides(front + back, k);
  }

  /** Jobs that pass do not change the verdict on the jobs that follow them. */
  lemma {:induction false} PassingPrefixIsTransparent(front: seq<Job>, back: seq<Job>)
    requires CheckJobs(front) == Ok
    requires |back| > 0
    ensures CheckJobs(front + back) == CheckJobs(back)
  {
    if CheckJobs(back) == Ok {
      forall i | 0 <= i < |front + back|
        ensures !Offends((front + back)[i])
      {
        if i >= |front| {
          assert (front + back)[i] == back[i - |front|];
        }
      }
    } else {
      var k :| FirstOffender(back, k) && CheckJobs(back) == Verdict(back[k]);
      assert FirstOffender(front + back, |front| + k) by {
        assert (front + back)[|front| + k] == back[k];
        forall i | 0 <= i < |front| + k
          ensures !Offends((front + back)[i])
        {
          if i >= |front| {
            assert (front + back)[i] == back[i - |front|];
          }
        }
      }
      FirstOffenderDecides(front + back, |front| + k);
    }
  }

  /** Statuses the check does not recognise pass, just as SUCCEEDED does. */
  lemma UnrecognisedStatusesPass(jobs: seq<Job>)
    requires |jobs| > 0
    requires forall i :: 0 <= i < |jobs| ==> jobs[i].status != FAILED && jobs[i].status !in PendingStatuses
    ensures CheckJobs(jobs) == Ok
  {
  }
}
