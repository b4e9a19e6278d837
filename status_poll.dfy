/**
 * The operator's own polling loop, used when the botocore waiter is not
 * available. The answers the service gives to successive `describe_jobs`
 * calls are an input sequence: replies[i] is the answer to call i + 1.
 * The pauses between calls are not modelled.
 */
module StatusPoll {
  import opened BatchTypes

  /** How the poll ended. */
  datatype Stop =
    | Settled(status: string)   // the last job reached SUCCEEDED or FAILED
    | Exhausted                 // max_retries calls, none terminal; no error
    | Raised(cause: Cause)      // a call raised, or its jobs list was empty

  datatype PollResult = PollResult(calls: nat, stop: Stop)

  /** The number of calls the loop allows: retries runs from 1 to maxRetries. */
  function Limit(maxRetries: int): nat
  {
    if maxRetries < 1 then 0 else maxRetries
  }

  /** A reply after which the loop goes on: the last job's status is not terminal. */
  predicate KeepsPolling(reply: DescribeReply)
  {
    reply.Described? && |reply.jobs| > 0 && !IsTerminal(Last(reply.jobs).status)
  }

  /** How a reply that does not keep the loop going ends it. */
  function StopAt(reply: DescribeReply): (s: Stop)
    requires !KeepsPolling(reply)
    ensures s != Exhausted
  {
    match reply
    case DescribeRaised => Raised(DescribeFailed)
    case Described(jobs) =>
      if |jobs| == 0 then Raised(EmptyJobList) else Settled(Last(jobs).status)
  }

  /** The index of the first reply that stops the loop, or |replies| if none does. */
  function FirstStop(replies: seq<DescribeReply>): (k: nat)
    ensures k <= |replies|
    ensures forall i :: 0 <= i < k ==> KeepsPolling(replies[i])
    ensures k < |replies| ==> !KeepsPolling(replies[k])
  {
    if replies == [] || !KeepsPolling(replies[0]) then 0
    else 1 + FirstStop(replies[1..])
  }

  /**
   * What the loop does, stated as a search: it calls until the first reply
   * that stops it, but never more than Limit(maxRetries) times.
   */
  function Polled(maxRetries: int, replies: seq<DescribeReply>): (r: PollResult)
    requires Limit(maxRetries) <= |replies|
    ensures r.calls <= Limit(maxRetries)
    ensures maxRetries < 1 ==> r == PollResult(0, Exhausted)
    ensures forall i :: 0 <= i < r.calls - 1 ==> KeepsPolling(replies[i])
    ensures r.stop == Exhausted <==>
              r.calls == Limit(maxRetries) &&
              forall i :: 0 <= i < Limit(maxRetries) ==> KeepsPolling(replies[i])
    ensures r.stop.Settled? ==>
              1 <= r.calls && replies[r.calls - 1].Described? &&
              |replies[r.calls - 1].jobs| > 0 &&
              Last(replies[r.calls - 1].jobs).status == r.stop.status &&
              IsTerminal(r.stop.status)
    ensures r.stop.Raised? ==>
              1 <= r.calls &&
              ((replies[r.calls - 1] == DescribeRaised && r.stop.cause == DescribeFailed) ||
               (replies[r.calls - 1] == Described([]) && r.stop.cause == EmptyJobList))
  {
    var limit := Limit(maxRetries);
    var k := FirstStop(replies[..limit]);
    if k == limit then PollResult(k, Exhausted)
    else PollResult(k + 1, StopAt(replies[k]))
  }

  /**
   * The fallback loop of `_wait_for_task_ended`: the counter starts at 1,
   * each call reads the status of the last job of the answer, a terminal
   * status breaks out, and otherwise the counter goes up by one.
   */
  method PollStatus(maxRetries: int, replies: seq<DescribeReply>) returns (calls: nat, stop: Stop)
    requires Limit(maxRetries) <= |replies|
    ensures PollResult(calls, stop) == Polled(maxRetries, replies)
  {
    var retries := 1;
    calls, stop := 0, Exhausted;
    while retries <= maxRetries
      invariant 1 <= retries <= Limit(maxRetries) + 1
      invariant calls == retries - 1
      invariant forall i :: 0 <= i < calls ==> KeepsPolling(replies[i])
      decreases maxRetries - retries
    {
      var reply := replies[retries - 1];
      calls := calls + 1;
      if reply.DescribeRaised? {
        stop := Raised(DescribeFailed);
        break;
      }
      if |reply.jobs| == 0 {
        stop := Raised(EmptyJobList);
        break;
      }
      var status := Last(reply.jobs).status;
      if status == SUCCEEDED || status == FAILED {
        stop := Settled(status);
        break;
      }
      retries := retries + 1;
    }
    assert forall i :: 0 <= i < Limit(maxRetries) ==> replies[..Limit(maxRetries)][i] == replies[i];
  }
}
