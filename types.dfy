/** The already-decoded shapes of the EC2 `describe-instances` answer, the
    exceptions the script can raise, and the ASCII lower-casing it needs.
    Every JSON key that the script reads with `.get(...)` or `[...]` is an
    `Option` here, so that an absent key is a value the model can see. */
module Ec2Types {

  datatype Option<+T> = None | Some(value: T) {
    /** `d.get(key, default)` */
    function GetOr(default: T): (r: T) {
      match this
      case Some(v) => v
      case None => default
    }
  }

  /** The Python exceptions the core raises. */
  datatype Error =
    | KeyError(key: string)        // `d[key]` on a dict without `key`
    | ValueError(message: string)  // an explicit `raise ValueError(...)`

  datatype Result<+T> = Ok(value: T) | Err(error: Error)

  /** One entry of an instance's `Tags` list: `{"Key": ..., "Value": ...}`. */
  datatype Tag = Tag(key: Option<string>, value: Option<string>)

  /** The `State` object of an instance: `{"Name": ...}`. */
  datatype StateInfo = StateInfo(name: Option<string>)

  /** One element of a reservation's `Instances` list. */
  datatype RawInstance = RawInstance(
    instanceId: Option<string>,
    state: Option<StateInfo>,
    tags: Option<seq<Tag>>,
    privateIp: Option<string>,
    publicIp: Option<string>)

  /** One element of the `Reservations` list. */
  datatype Reservation = Reservation(instances: Option<seq<RawInstance>>)

  /** The whole decoded answer of one `aws ec2 describe-instances` call. */
  datatype Response = Response(reservations: Option<seq<Reservation>>)

  /** `data.get("Reservations", [])` */
  function Reservations(resp: Response): (rs: seq<Reservation>) {
    resp.reservations.GetOr([])
  }

  /** `reservation.get("Instances", [])` */
  function InstancesOf(res: Reservation): (xs: seq<RawInstance>) {
    res.instances.GetOr([])
  }

  /** The instances of a list of reservations, reservation by reservation,
      in the order the nested `for` loops of the script visit them. */
  function Flat(rs: seq<Reservation>): (xs: seq<RawInstance>)
  {
    if rs == [] then [] else Flat(rs[..|rs| - 1]) + InstancesOf(rs[|rs| - 1])
  }

  /** Every instance of an answer, in reservation-then-instance order. */
  function AllInstances(resp: Response): (xs: seq<RawInstance>) {
    Flat(Reservations(resp))
  }

  /** Visiting reservation `rs[i]` after the first `i` extends the visit by
      exactly its instances. */
  lemma FlatStep(rs: seq<Reservation>, i: nat)
    requires i < |rs|
    ensures Flat(rs[..i + 1]) == Flat(rs[..i]) + InstancesOf(rs[i])
  {
    assert rs[..i + 1][..i] == rs[..i];
  }

  /** Flattening distributes over concatenation of reservation lists. */
  lemma {:induction false} FlatAppend(a: seq<Reservation>, b: seq<Reservation>)
    ensures Flat(a + b) == Flat(a) + Flat(b)
  {
    if b == [] {
      assert a + b == a;
    } else {
      var b' := b[..|b| - 1];
      assert (a + b)[..|a + b| - 1] == a + b';
      FlatAppend(a, b');
    }
  }

  /** The instances visited before reservation `i`, then those of `rs[i]`
      in order, then the rest: the whole visit. */
  lemma FlatSplit(rs: seq<Reservation>, i: nat)
    requires i < |rs|
    ensures Flat(rs) == Flat(rs[..i]) + InstancesOf(rs[i]) + Flat(rs[i + 1..])
  {
    assert rs == rs[..i + 1] + rs[i + 1..];
    FlatAppend(rs[..i + 1], rs[i + 1..]);
    FlatStep(rs, i);
  }

  /** Concatenation is associative; stated once so that proofs about lists
      that grow by whole blocks need not rediscover it. */
  lemma ConcatAssoc<T>(a: seq<T>, b: seq<T>, c: seq<T>)
    ensures (a + b) + c == a + (b + c)
  {
  }

  /** Python's `str.lower()` on the ASCII range. */
  function LowerChar(c: char): (l: char) {
    if 'A' <= c <= 'Z' then (c as int - 'A' as int + 'a' as int) as char else c
  }

  function Lower(s: string): (r: string)
    ensures |r| == |s|
    ensures forall i :: 0 <= i < |s| ==> r[i] == LowerChar(s[i])
  {
    if s == [] then [] else [LowerChar(s[0])] + Lower(s[1..])
  }

  /** Lower-casing twice is lower-casing once. */
  lemma LowerIdempotent(s: string)
    ensures Lower(Lower(s)) == Lower(s)
  {
    assert forall i :: 0 <= i < |s| ==> LowerChar(LowerChar(s[i])) == LowerChar(s[i]);
  }
}
