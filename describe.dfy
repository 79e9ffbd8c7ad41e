/** `describe_instances`: the report records appended to the caller's
    `out` list. */
module Describe {
  import opened Ec2Types
  import opened TagHelper

  /** The dictionary appended per instance; its keys are "InstanceId",
      "Name", "State", "Private IP" and "Public IP". */
  datatype InstanceRecord = InstanceRecord(
    instanceId: string,
    name: string,
    state: string,
    privateIp: string,
    publicIp: string)

  /** The record of one instance; every absent field reads "N/A". */
  function RecordOf(inst: RawInstance): (rec: InstanceRecord)
  {
    InstanceRecord(
      inst.instanceId.GetOr(NotAvailable),
      InstanceName(inst.tags),
      match inst.state
      case None => NotAvailable
      case Some(info) => info.name.GetOr(NotAvailable),
      inst.privateIp.GetOr(NotAvailable),
      inst.publicIp.GetOr(NotAvailable))
  }

  /** The records of `xs`, one after the other. */
  function Records(xs: seq<RawInstance>): (recs: seq<InstanceRecord>)
    ensures |recs| == |xs|
  {
    if xs == [] then [] else Records(xs[..|xs| - 1]) + [RecordOf(xs[|xs| - 1])]
  }

  /** The records one answer contributes, in reservation-then-instance order. */
  function Report(resp: Response): (recs: seq<InstanceRecord>) {
    Records(AllInstances(resp))
  }

  /** One record per instance, in order, each made from its own instance. */
  lemma {:induction false} RecordsPointwise(xs: seq<RawInstance>)
    ensures |Records(xs)| == |xs|
    ensures forall k :: 0 <= k < |xs| ==> Records(xs)[k] == RecordOf(xs[k])
  {
    if xs != [] {
      var p := xs[..|xs| - 1];
      RecordsPointwise(p);
      assert forall k :: 0 <= k < |p| ==> p[k] == xs[k];
    }
  }

  /** Every field of a record is the instance's own value, or "N/A" exactly
      when that value is absent. */
  lemma RecordFields(inst: RawInstance)
    ensures inst.instanceId.None? ==> RecordOf(inst).instanceId == NotAvailable
    ensures inst.instanceId.Some? ==> RecordOf(inst).instanceId == inst.instanceId.value
    ensures inst.state.None? || inst.state.value.name.None? ==> RecordOf(inst).state == NotAvailable
    ensures inst.state.Some? && inst.state.value.name.Some? ==>
      RecordOf(inst).state == inst.state.value.name.value
    ensures inst.privateIp.None? ==> RecordOf(inst).privateIp == NotAvailable
    ensures inst.privateIp.Some? ==> RecordOf(inst).privateIp == inst.privateIp.value
    ensures inst.publicIp.None? ==> RecordOf(inst).publicIp == NotAvailable
    ensures inst.publicIp.Some? ==> RecordOf(inst).publicIp == inst.publicIp.value
    ensures RecordOf(inst).name == InstanceName(inst.tags)
  {
  }

  lemma RecordsSnoc(p: seq<RawInstance>, x: RawInstance)
    ensures Records(p + [x]) == Records(p) + [RecordOf(x)]
  {
    assert (p + [x])[..|p|] == p;
  }

  /** The records of two lists of instances, one after the other. */
  lemma {:induction false} RecordsAppend(a: seq<RawInstance>, b: seq<RawInstance>)
    ensures Records(a + b) == Records(a) + Records(b)
  {
    if b == [] {
      assert a + b == a;
    } else {
      var b' := b[..|b| - 1];
      assert a + b == (a + b') + [b[|b| - 1]];
      RecordsSnoc(a + b', b[|b| - 1]);
      RecordsAppend(a, b');
    }
  }

  /** Appending the record of instance `j` extends the records of the first
      `j` instances. */
  lemma RecordsStep(xs: seq<RawInstance>, j: nat)
    requires j < |xs|
    ensures Records(xs[..j + 1]) == Records(xs[..j]) + [RecordOf(xs[j])]
  {
    assert xs[..j + 1] == xs[..j] + [xs[j]];
    RecordsSnoc(xs[..j], xs[j]);
  }

  /** The records of reservation `rs[i]` follow those of the reservations
      before it. */
  lemma RecordsReservationStep(rs: seq<Reservation>, i: nat)
    requires i < |rs|
    ensures Records(Flat(rs[..i + 1])) == Records(Flat(rs[..i])) + Records(InstancesOf(rs[i]))
  {
    FlatStep(rs, i);
    RecordsAppend(Flat(rs[..i]), InstancesOf(rs[i]));
  }

  /** The caller's `out` list, which the script extends in place. */
  class RecordList {
    var records: seq<InstanceRecord>

    /** `out = []` */
    constructor ()
      ensures records == []
    {
      records := [];
    }

    /** `out.append(rec)` */
    method Append(rec: InstanceRecord)
      modifies this
      ensures records == old(records) + [rec]
    {
      records := records + [rec];
    }
  }

  /** The inner loop of `describe_instances`: the records of one
      reservation's instances appended to `out`, in order. */
  method AppendRecords(insts: seq<RawInstance>, out: RecordList)
    modifies out
    ensures out.records == old(out.records) + Records(insts)
  {
    for j := 0 to |insts|
      invariant out.records == old(out.records) + Records(insts[..j])
    {
      RecordsStep(insts, j);
      ConcatAssoc(old(out.records), Records(insts[..j]), [RecordOf(insts[j])]);
      out.Append(RecordOf(insts[j]));
    }
    assert insts[..|insts|] == insts;
  }

  /** The outer loop of `describe_instances` over the answer of its
      `describe-instances` call: one record appended per instance, after
      whatever `out` already held. */
  method DescribeInstances(resp: Response, out: RecordList)
    modifies out
    ensures out.records == old(out.records) + Report(resp)
  {
    var rs := Reservations(resp);
    for i := 0 to |rs|
      invariant out.records == old(out.records) + Records(Flat(rs[..i]))
    {
      AppendRecords(InstancesOf(rs[i]), out);
      RecordsReservationStep(rs, i);
      ConcatAssoc(old(out.records), Records(Flat(rs[..i])), Records(InstancesOf(rs[i])));
    }
    assert rs[..|rs|] == rs;
  }
}
