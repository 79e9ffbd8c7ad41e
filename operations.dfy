/** `operate_instances`: issue the lifecycle command, then hand over to
    `monitor`. */
module Operations {
  import opened Ec2Types
  import opened Describe
  import opened Monitoring

  /** The `aws ec2 <action> --instance-ids <ids...>` call the script makes. */
  datatype Command = Command(action: string, instanceIds: seq<string>)

  /** The command is issued once, for exactly the given ids, and the rest is
      `monitor` with the same `out` and desired state. */
  method OperateInstances(operation: string, ids: seq<string>, out: RecordList, desired: string,
                          polls: seq<Response>, details: Response)
    returns (command: Command, result: MonitorResult, pollsRead: nat)
    requires PollCount <= |polls|
    modifies out
    ensures command == Command(operation + "-instances", ids)
    ensures (result, pollsRead) == MonitorFrom(polls, desired, PollCount, 0)
    ensures out.records == if result == Converged then old(out.records) + Report(details) else old(out.records)
  {
    command := Command(operation + "-instances", ids);
    result, pollsRead := Monitor(out, desired, polls, details);
  }
}
