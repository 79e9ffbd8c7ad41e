/** `describe_instance_states`: flatten one describe-instances answer into a
    map from instance id to state name. */
module StateCheck {
  import opened Ec2Types

  /** The entry one instance contributes, `states[instance["InstanceId"]] =
      instance["State"]["Name"]`. Python evaluates the right-hand side
      before the subscript of the target, so a missing `State` or `Name` is
      reported before a missing `InstanceId`. */
  function Entry(inst: RawInstance): (r: Result<(string, string)>)
    ensures r.Ok? <==> inst.instanceId.Some? && inst.state.Some? && inst.state.value.name.Some?
    ensures r.Ok? ==> r.value == (inst.instanceId.value, inst.state.value.name.value)
    ensures inst.state.None? ==> r == Err(KeyError("State"))
    ensures inst.state.Some? && inst.state.value.name.None? ==> r == Err(KeyError("Name"))
    ensures inst.state.Some? && inst.state.value.name.Some? && inst.instanceId.None? ==>
      r == Err(KeyError("InstanceId"))
  {
    match inst.state
    case None => Err(KeyError("State"))
    case Some(info) =>
      match info.name
      case None => Err(KeyError("Name"))
      case Some(stateName) =>
        match inst.instanceId
        case None => Err(KeyError("InstanceId"))
        case Some(id) => Ok((id, stateName))
  }

  /** The dictionary after assigning the entries of `xs` in order, or the
      first `KeyError` raised on the way. */
  function StatesFrom(xs: seq<RawInstance>): (r: Result<map<string, string>>)
  {
    if xs == [] then Ok(map[])
    else
      match StatesFrom(xs[..|xs| - 1])
      case Err(e) => Err(e)
      case Ok(m) =>
        match Entry(xs[|xs| - 1])
        case Err(e) => Err(e)
        case Ok(entry) => Ok(m[entry.0 := entry.1])
  }

  /** The state map of a whole answer. */
  function StatesOf(resp: Response): (r: Result<map<string, string>>) {
    StatesFrom(AllInstances(resp))
  }

  /** Once an entry has raised, later instances are never looked at. */
  lemma {:induction false} ErrorPersists(a: seq<RawInstance>, b: seq<RawInstance>)
    requires StatesFrom(a).Err?
    ensures StatesFrom(a + b) == StatesFrom(a)
  {
    if b == [] {
      assert a + b == a;
    } else {
      var b' := b[..|b| - 1];
      assert (a + b)[..|a + b| - 1] == a + b';
      ErrorPersists(a, b');
    }
  }

  /** Flattening succeeds exactly when every instance has an `InstanceId`
      and a `State` with a `Name`; the keys of the map are then exactly the
      ids that occur. */
  lemma {:induction false} StatesKeys(xs: seq<RawInstance>)
    ensures StatesFrom(xs).Ok? <==> forall k :: 0 <= k < |xs| ==> Entry(xs[k]).Ok?
    ensures StatesFrom(xs).Ok? ==>
      StatesFrom(xs).value.Keys == set k | 0 <= k < |xs| :: xs[k].instanceId.value
  {
    if xs != [] {
      var p := xs[..|xs| - 1];
      StatesKeys(p);
      assert forall k :: 0 <= k < |p| ==> xs[k] == p[k];
      if StatesFrom(xs).Ok? {
        var m := StatesFrom(p).value;
        assert StatesFrom(xs).value.Keys == m.Keys + {xs[|xs| - 1].instanceId.value};
        assert (set k | 0 <= k < |xs| :: xs[k].instanceId.value)
            == (set k | 0 <= k < |p| :: p[k].instanceId.value) + {xs[|xs| - 1].instanceId.value};
      }
    }
  }

  /** When an id occurs several times, the state of its last occurrence is
      the one in the map. */
  lemma {:induction false} LastOccurrenceWins(xs: seq<RawInstance>, k: nat)
    requires StatesFrom(xs).Ok? && k < |xs|
    requires forall j :: k < j < |xs| ==> xs[j].instanceId != xs[k].instanceId
    ensures xs[k].instanceId.Some? && xs[k].state.Some? && xs[k].state.value.name.Some?
    ensures xs[k].instanceId.value in StatesFrom(xs).value
    ensures StatesFrom(xs).value[xs[k].instanceId.value] == xs[k].state.value.name.value
  {
    StatesKeys(xs);
    var p := xs[..|xs| - 1];
    if k < |xs| - 1 {
      assert forall j :: k < j < |p| ==> p[j] == xs[j];
      LastOccurrenceWins(p, k);
    }
  }

  /** A failed flattening reports the `KeyError` of the first instance that
      lacks a field. */
  lemma {:induction false} FirstErrorRaised(xs: seq<RawInstance>, k: nat)
    requires k < |xs| && Entry(xs[k]).Err?
    requires forall j :: 0 <= j < k ==> Entry(xs[j]).Ok?
    ensures StatesFrom(xs) == Err(Entry(xs[k]).error)
  {
    var p := xs[..|xs| - 1];
    if k == |xs| - 1 {
      assert forall j :: 0 <= j < |p| ==> p[j] == xs[j];
      StatesKeys(p);
    } else {
      assert forall j :: 0 <= j <= k ==> p[j] == xs[j];
      FirstErrorRaised(p, k);
    }
  }

  /** Assigning one more entry to the dictionary. */
  lemma StatesSnoc(p: seq<RawInstance>, x: RawInstance)
    requires StatesFrom(p).Ok?
    ensures Entry(x).Err? ==> StatesFrom(p + [x]) == Err(Entry(x).error)
    ensures Entry(x).Ok? ==>
      StatesFrom(p + [x]) == Ok(StatesFrom(p).value[Entry(x).value.0 := Entry(x).value.1])
  {
    assert (p + [x])[..|p|] == p;
  }

  /** A `KeyError` on instance `j` of reservation `i` is the `KeyError` of
      the whole answer. */
  lemma ErrorEndsVisit(rs: seq<Reservation>, i: nat, j: nat)
    requires i < |rs| && j < |InstancesOf(rs[i])|
    requires StatesFrom(Flat(rs[..i]) + InstancesOf(rs[i])[..j + 1]).Err?
    ensures StatesFrom(Flat(rs)) == StatesFrom(Flat(rs[..i]) + InstancesOf(rs[i])[..j + 1])
  {
    var insts := InstancesOf(rs[i]);
    var visited := Flat(rs[..i]) + insts[..j + 1];
    ErrorPersists(visited, insts[j + 1..] + Flat(rs[i + 1..]));
    FlatSplit(rs, i);
    assert insts == insts[..j + 1] + insts[j + 1..];
    assert visited + (insts[j + 1..] + Flat(rs[i + 1..])) == Flat(rs);
  }

  /** The nested loops of `describe_instance_states` over the answer of its
      `describe-instances` call. A `KeyError` leaves the loops at once. */
  method DescribeInstanceStates(resp: Response) returns (r: Result<map<string, string>>)
    ensures r == StatesOf(resp)
  {
    var rs := Reservations(resp);
    var states: map<string, string> := map[];
    for i := 0 to |rs|
      invariant StatesFrom(Flat(rs[..i])) == Ok(states)
    {
      var insts := InstancesOf(rs[i]);
      assert Flat(rs[..i]) + insts[..0] == Flat(rs[..i]);
      for j := 0 to |insts|
        invariant StatesFrom(Flat(rs[..i]) + insts[..j]) == Ok(states)
      {
        ghost var done := Flat(rs[..i]) + insts[..j];
        assert done + [insts[j]] == Flat(rs[..i]) + insts[..j + 1];
        StatesSnoc(done, insts[j]);
        var entry := Entry(insts[j]);
        if entry.Err? {
          r := Err(entry.error);
          ErrorEndsVisit(rs, i, j);
          return;
        }
        states := states[entry.value.0 := entry.value.1];
      }
      assert insts[..|insts|] == insts;
      FlatStep(rs, i);
    }
    assert rs[..|rs|] == rs;
    r := Ok(states);
  }
}
