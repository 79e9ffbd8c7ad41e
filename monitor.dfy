/** `monitor`: poll the instance states at most `PollCount` times and stop at
    the first answer in which every reported state is the desired one. */
module Monitoring {
  import opened Ec2Types
  import opened StateCheck
  import opened Describe

  /** `POLL_COUNT` */
  const PollCount: nat := 10

  /** How a call of `monitor` ends: `True`, `False`, or an exception raised
      while flattening an answer. */
  datatype MonitorResult = Converged | TimedOut | Failed(error: Error)

  /** `states and all(state.lower() == desired_state.lower() for state in
      states.values())`. Only the states that were reported are compared:
      an id the answer leaves out does not hold convergence back. */
  predicate Converges(states: map<string, string>, desired: string)
  {
    |states| > 0 && forall id :: id in states ==> Lower(states[id]) == Lower(desired)
  }

  /** An answer that ends the polling: one raising `KeyError`, or one that
      converges. */
  predicate Settles(resp: Response, desired: string)
  {
    match StatesOf(resp)
    case Err(_) => true
    case Ok(states) => Converges(states, desired)
  }

  /** The outcome of polling the answers `polls[i..budget]`, with the number of
      answers read in all (counting from the first). */
  function MonitorFrom(polls: seq<Response>, desired: string, budget: nat, i: nat): (r: (MonitorResult, nat))
    requires i <= budget <= |polls|
    decreases budget - i
  {
    if i == budget then (TimedOut, budget)
    else
      match StatesOf(polls[i])
      case Err(e) => (Failed(e), i + 1)
      case Ok(states) =>
        if Converges(states, desired) then (Converged, i + 1)
        else MonitorFrom(polls, desired, budget, i + 1)
  }

  /** At most `budget` answers are read, and all of them on a time-out. */
  lemma {:induction false} MonitorBounded(polls: seq<Response>, desired: string, budget: nat, i: nat)
    requires i <= budget <= |polls|
    ensures i <= MonitorFrom(polls, desired, budget, i).1 <= budget
    ensures MonitorFrom(polls, desired, budget, i).0 == TimedOut ==> MonitorFrom(polls, desired, budget, i).1 == budget
    ensures MonitorFrom(polls, desired, budget, i).0 != TimedOut ==> MonitorFrom(polls, desired, budget, i).1 > i
    decreases budget - i
  {
    if i < budget {
      MonitorBounded(polls, desired, budget, i + 1);
    }
  }

  /** The polling times out exactly when none of the `budget` answers
      settles. */
  lemma {:induction false} TimedOutExactlyWhenNoneSettles(polls: seq<Response>, desired: string, budget: nat, i: nat)
    requires i <= budget <= |polls|
    ensures MonitorFrom(polls, desired, budget, i).0 == TimedOut
        <==> forall k :: i <= k < budget ==> !Settles(polls[k], desired)
    decreases budget - i
  {
    if i < budget {
      TimedOutExactlyWhenNoneSettles(polls, desired, budget, i + 1);
    }
  }

  /** Every answer read before the last one did not settle. */
  lemma {:induction false} UnsettledBeforeLast(polls: seq<Response>, desired: string, budget: nat, i: nat)
    requires i <= budget <= |polls|
    ensures forall k :: i <= k < budget && k < MonitorFrom(polls, desired, budget, i).1 - 1 ==>
      !Settles(polls[k], desired)
    decreases budget - i
  {
    if i < budget {
      UnsettledBeforeLast(polls, desired, budget, i + 1);
    }
  }

  /** When the polling does not time out, the last answer read decides the
      outcome: it converged, or it raised the `KeyError` returned. */
  lemma {:induction false} LastReadDecides(polls: seq<Response>, desired: string, budget: nat, i: nat)
    requires i <= budget <= |polls|
    requires MonitorFrom(polls, desired, budget, i).0 != TimedOut
    ensures var n := MonitorFrom(polls, desired, budget, i).1;
      && i < n <= budget
      && (MonitorFrom(polls, desired, budget, i).0 == Converged ==>
            StatesOf(polls[n - 1]).Ok? && Converges(StatesOf(polls[n - 1]).value, desired))
      && (MonitorFrom(polls, desired, budget, i).0.Failed? ==>
            StatesOf(polls[n - 1]) == Err(MonitorFrom(polls, desired, budget, i).0.error))
    decreases budget - i
  {
    if StatesOf(polls[i]).Ok? && !Converges(StatesOf(polls[i]).value, desired) {
      LastReadDecides(polls, desired, budget, i + 1);
    }
  }

  /** The polling stops at the first answer that settles and reads nothing
      after it. */
  lemma StopsAtFirstSettled(polls: seq<Response>, desired: string, budget: nat, k: nat)
    requires k < budget <= |polls|
    requires Settles(polls[k], desired)
    requires forall j :: 0 <= j < k ==> !Settles(polls[j], desired)
    ensures MonitorFrom(polls, desired, budget, 0).1 == k + 1
    ensures MonitorFrom(polls, desired, budget, 0).0 ==
      match StatesOf(polls[k]) case Err(e) => Failed(e) case Ok(_) => Converged
  {
    var i := 0;
    while i < k
      invariant 0 <= i <= k
      invariant MonitorFrom(polls, desired, budget, i) == MonitorFrom(polls, desired, budget, 0)
    {
      assert !Settles(polls[i], desired);
      i := i + 1;
    }
  }

  /** An empty answer never converges. */
  lemma EmptyNeverConverges(desired: string)
    ensures !Converges(map[], desired)
  {
  }

  /** The comparison ignores the case of the desired state. */
  lemma ConvergesIgnoresCase(states: map<string, string>, desired: string)
    ensures Converges(states, desired) == Converges(states, Lower(desired))
  {
    LowerIdempotent(desired);
  }

  /** An answer that leaves out some of the requested `ids` but reports every
      other one in the desired state converges: absence does not hold the
      polling back. */
  lemma MissingIdDoesNotBlock(ids: set<string>, states: map<string, string>, desired: string)
    requires states.Keys < ids && |states| > 0
    requires forall id :: id in states ==> Lower(states[id]) == Lower(desired)
    ensures exists id :: id in ids && id !in states
    ensures Converges(states, desired)
  {
    var absent := ids - states.Keys;
    assert absent != {} by {
      if absent == {} {
        forall id | id in ids ensures id in states.Keys {
          assert id !in absent;
        }
      }
    }
    var missing :| missing in absent;
    assert missing in ids && missing !in states;
  }

  /** Requested ids `i-a` and `i-b`, an answer that reports only `i-a`,
      running: the script takes this as converged. */
  lemma MissingIdExample()
    ensures Converges(map["i-a" := "running"], "running")
  {
    MissingIdDoesNotBlock({"i-a", "i-b"}, map["i-a" := "running"], "running");
  }

  /** A mismatching state anywhere in the answer blocks convergence. */
  lemma MismatchBlocks(states: map<string, string>, desired: string, id: string)
    requires id in states && Lower(states[id]) != Lower(desired)
    ensures !Converges(states, desired)
  {
  }

  /** An answer with one reservation holding one instance `id1` in state
      `st1` and one instance `id2` in state `st2`. */
  ghost function PairAnswer(id1: string, st1: string, id2: string, st2: string): Response {
    Response(Some([Reservation(Some([
      RawInstance(Some(id1), Some(StateInfo(Some(st1))), None, None, None),
      RawInstance(Some(id2), Some(StateInfo(Some(st2))), None, None, None)]))]))
  }

  /** The states of a two-instance answer. */
  lemma PairAnswerStates(id1: string, st1: string, id2: string, st2: string)
    ensures StatesOf(PairAnswer(id1, st1, id2, st2)) == Ok(map[id1 := st1][id2 := st2])
  {
    var resp := PairAnswer(id1, st1, id2, st2);
    var rs := Reservations(resp);
    assert rs[..0] == [];
    FlatStep(rs, 0);
    assert rs[..1] == rs;
    var xs := AllInstances(resp);
    assert [] + [xs[0]] == [xs[0]];
    StatesSnoc([], xs[0]);
    assert [xs[0]] + [xs[1]] == xs;
    StatesSnoc([xs[0]], xs[1]);
  }

  /** A two-instance answer with distinct ids whose first state is not the
      desired one, case aside, does not settle. (With equal ids the second
      entry overwrites the first.) */
  lemma PairNotSettled(id1: string, st1: string, id2: string, st2: string, desired: string)
    requires id1 != id2 && Lower(st1) != Lower(desired)
    ensures !Settles(PairAnswer(id1, st1, id2, st2), desired)
  {
    PairAnswerStates(id1, st1, id2, st2);
    MismatchBlocks(map[id1 := st1][id2 := st2], desired, id1);
  }

  /** A two-instance answer whose second state is not the desired one, case
      aside, does not settle. */
  lemma PairNotSettledSecond(id1: string, st1: string, id2: string, st2: string, desired: string)
    requires Lower(st2) != Lower(desired)
    ensures !Settles(PairAnswer(id1, st1, id2, st2), desired)
  {
    PairAnswerStates(id1, st1, id2, st2);
    MismatchBlocks(map[id1 := st1][id2 := st2], desired, id2);
  }

  /** A two-instance answer in which both report the desired state converges. */
  lemma PairConverges(id1: string, id2: string, desired: string)
    ensures StatesOf(PairAnswer(id1, desired, id2, desired)).Ok?
    ensures Converges(StatesOf(PairAnswer(id1, desired, id2, desired)).value, desired)
  {
    PairAnswerStates(id1, desired, id2, desired);
    var states := map[id1 := desired][id2 := desired];
    assert id2 in states;
  }

  /** `stop` on `i-1` and `i-2`, where the answers report both stopping,
      then only `i-1` stopped, then both stopped: with five attempts the
      polling converges on the third read, whatever would have followed. */
  lemma StopScenarioConverges(polls: seq<Response>)
    requires 5 <= |polls|
    requires polls[0] == PairAnswer("i-1", "stopping", "i-2", "stopping")
    requires polls[1] == PairAnswer("i-1", "stopped", "i-2", "stopping")
    requires polls[2] == PairAnswer("i-1", "stopped", "i-2", "stopped")
    ensures MonitorFrom(polls, "stopped", 5, 0) == (Converged, 3)
  {
    assert |Lower("stopping")| != |Lower("stopped")|;
    PairNotSettled("i-1", "stopping", "i-2", "stopping", "stopped");
    PairNotSettledSecond("i-1", "stopped", "i-2", "stopping", "stopped");
    PairConverges("i-1", "i-2", "stopped");
    assert MonitorFrom(polls, "stopped", 5, 2) == (Converged, 3);
    assert MonitorFrom(polls, "stopped", 5, 1) == MonitorFrom(polls, "stopped", 5, 2);
  }

  /** With two attempts, answers in which one instance still lags behind
      (reported in a state other than the desired one, case aside) time out
      after both reads. */
  lemma StopScenarioTimesOut(polls: seq<Response>, id1: string, id2: string, pending: string, desired: string)
    requires 2 <= |polls| && id1 != id2 && Lower(pending) != Lower(desired)
    requires polls[0] == PairAnswer(id1, pending, id2, pending)
    requires polls[1] == PairAnswer(id1, desired, id2, pending)
    ensures MonitorFrom(polls, desired, 2, 0) == (TimedOut, 2)
  {
    PairNotSettled(id1, pending, id2, pending, desired);
    PairNotSettledSecond(id1, desired, id2, pending, desired);
    assert MonitorFrom(polls, desired, 2, 1) == (TimedOut, 2);
  }

  /** The loop of `monitor` over the answers of its successive
      `describe-instances` calls; on success the report of the final
      `describe-instances` call, `details`, is appended to `out`, and on
      time-out or on an exception `out` is left as it was. */
  method Monitor(out: RecordList, desired: string, polls: seq<Response>, details: Response)
    returns (result: MonitorResult, pollsRead: nat)
    requires PollCount <= |polls|
    modifies out
    ensures (result, pollsRead) == MonitorFrom(polls, desired, PollCount, 0)
    ensures out.records == if result == Converged then old(out.records) + Report(details) else old(out.records)
  {
    for i := 0 to PollCount
      invariant MonitorFrom(polls, desired, PollCount, i) == MonitorFrom(polls, desired, PollCount, 0)
      invariant out.records == old(out.records)
    {
      var states := DescribeInstanceStates(polls[i]);
      if states.Err? {
        return Failed(states.error), i + 1;
      }
      if Converges(states.value, desired) {
        DescribeInstances(details, out);
        return Converged, i + 1;
      }
    }
    return TimedOut, PollCount;
  }
}
