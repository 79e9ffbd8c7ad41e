/** `main` once its arguments are parsed: the credential check, the
    operation table, the choice of instance ids and their emptiness check,
    then `operate_instances` and the list that is printed. */
module Cli {
  import opened Ec2Types
  import opened Describe
  import opened Monitoring
  import opened Operations

  /** The `choices` of the `--operation` argument. */
  const OperationChoices: seq<string> := ["start", "stop", "reboot", "terminate"]

  /** `STATE_MAP`: the state each operation waits for. */
  const StateMap: map<string, string> :=
    map["start" := "running", "stop" := "stopped", "reboot" := "running", "terminate" := "terminated"]

  const NoIdsMessage := "No instance IDs provided"

  /** The parsed command line. */
  datatype Params = Params(
    keyId: string,
    accessKey: string,
    region: string,
    all: bool,
    operation: string,
    instanceId: seq<string>)

  /** The required-key check of `authentication`: the first of `key_id`,
      `access_key` and `region` that is empty raises `ValueError`. */
  function Authenticate(params: Params): (r: Option<Error>)
    ensures r.None? <==> params.keyId != "" && params.accessKey != "" && params.region != ""
    ensures params.keyId == "" ==> r == Some(ValueError("Missing parameter: key_id"))
    ensures params.keyId != "" && params.accessKey == "" ==> r == Some(ValueError("Missing parameter: access_key"))
    ensures params.keyId != "" && params.accessKey != "" && params.region == "" ==>
      r == Some(ValueError("Missing parameter: region"))
  {
    if params.keyId == "" then Some(ValueError("Missing parameter: key_id"))
    else if params.accessKey == "" then Some(ValueError("Missing parameter: access_key"))
    else if params.region == "" then Some(ValueError("Missing parameter: region"))
    else None
  }

  /** The ids of the `--all` listing, `[inst["InstanceId"] for res in ... for
      inst in ...]`, in order; an instance without an id raises `KeyError`. */
  function IdsFrom(xs: seq<RawInstance>): (r: Result<seq<string>>)
    ensures r.Ok? <==> forall k :: 0 <= k < |xs| ==> xs[k].instanceId.Some?
    ensures r.Err? ==> r.error == KeyError("InstanceId")
    ensures r.Ok? ==> |r.value| == |xs| && forall k :: 0 <= k < |xs| ==> r.value[k] == xs[k].instanceId.value
  {
    if xs == [] then Ok([])
    else
      match IdsFrom(xs[..|xs| - 1])
      case Err(e) => Err(e)
      case Ok(ids) =>
        match xs[|xs| - 1].instanceId
        case None => Err(KeyError("InstanceId"))
        case Some(id) => Ok(ids + [id])
  }

  /** The instance ids `main` works on: the whole listing with `--all`, the
      `--instance_id` arguments otherwise. */
  function TargetIds(params: Params, listing: Response): (r: Result<seq<string>>) {
    if params.all then IdsFrom(AllInstances(listing)) else Ok(params.instanceId)
  }

  /** Everything `main` does before `operate_instances`: the desired state
      and the ids, or the exception raised on the way. */
  function Prelude(params: Params, listing: Response): (r: Result<(string, seq<string>)>)
    ensures Authenticate(params).Some? ==> r == Err(Authenticate(params).value)
    ensures Authenticate(params).None? && params.operation !in StateMap ==> r == Err(KeyError(params.operation))
    ensures Authenticate(params).None? && params.operation in StateMap && TargetIds(params, listing).Err? ==>
      r == Err(TargetIds(params, listing).error)
    ensures r.Ok? ==> params.operation in StateMap && r.value.0 == StateMap[params.operation]
    ensures r.Ok? ==> TargetIds(params, listing) == Ok(r.value.1) && |r.value.1| > 0
  {
    match Authenticate(params)
    case Some(e) => Err(e)
    case None =>
      if params.operation !in StateMap then Err(KeyError(params.operation))
      else
        match TargetIds(params, listing)
        case Err(e) => Err(e)
        case Ok(ids) =>
          if |ids| == 0 then Err(ValueError(NoIdsMessage))
          else Ok((StateMap[params.operation], ids))
  }

  /** The table covers exactly the operations the argument parser accepts. */
  lemma StateMapCoversChoices()
    ensures StateMap.Keys == set op | op in OperationChoices
    ensures StateMap["start"] == "running" && StateMap["stop"] == "stopped"
    ensures StateMap["reboot"] == "running" && StateMap["terminate"] == "terminated"
  {
  }

  /** With valid credentials and an accepted operation, an empty id list is
      rejected, and only then. */
  lemma {:induction false} EmptyIdsRejected(params: Params, listing: Response)
    requires Authenticate(params).None? && params.operation in OperationChoices
    requires TargetIds(params, listing).Ok?
    ensures Prelude(params, listing) == Err(ValueError(NoIdsMessage)) <==> TargetIds(params, listing) == Ok([])
    ensures TargetIds(params, listing) != Ok([]) ==>
      Prelude(params, listing) == Ok((StateMap[params.operation], TargetIds(params, listing).value))
  {
    StateMapCoversChoices();
  }

  /** The `--all` listing is as long as the answer has instances; it is
      empty, and the run rejected, exactly when the answer has none. */
  lemma AllScopeEmpty(params: Params, listing: Response)
    requires params.all && TargetIds(params, listing).Ok?
    ensures TargetIds(params, listing) == Ok([]) <==> AllInstances(listing) == []
  {
  }

  /** `main`: what is printed (the `out` list) or the exception raised, the
      lifecycle command issued if any, and the number of state polls made.
      A run stopped before `operate_instances` issues no command and polls
      nothing; a time-out prints an empty list. */
  method Execute(params: Params, listing: Response, polls: seq<Response>, details: Response)
    returns (output: Result<seq<InstanceRecord>>, command: Option<Command>, pollsRead: nat)
    requires PollCount <= |polls|
    ensures Prelude(params, listing).Err? ==>
      output == Err(Prelude(params, listing).error) && command == None && pollsRead == 0
    ensures Prelude(params, listing).Ok? ==>
      var (desired, ids) := Prelude(params, listing).value;
      var (r, n) := MonitorFrom(polls, desired, PollCount, 0);
      && command == Some(Command(params.operation + "-instances", ids))
      && pollsRead == n
      && (r == Converged ==> output == Ok(Report(details)))
      && (r == TimedOut ==> output == Ok([]))
      && (r.Failed? ==> output == Err(r.error))
  {
    var prelude := Prelude(params, listing);
    if prelude.Err? {
      return Err(prelude.error), None, 0;
    }
    var desired, ids := prelude.value.0, prelude.value.1;
    var out := new RecordList();
    var issued, result;
    issued, result, pollsRead := OperateInstances(params.operation, ids, out, desired, polls, details);
    ghost var report := Report(details);
    assert result == Converged ==> out.records == [] + report;
    assert [] + report == report;
    command := Some(issued);
    if result.Failed? {
      output := Err(result.error);
    } else {
      output := Ok(out.records);
    }
  }
}
