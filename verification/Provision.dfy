/** The volume provisioner: option parsing and the life of a volume between `Provision`
    (pkg/volume/provision.go) and `Delete` (pkg/volume/delete.go), with the status poll of
    `GetCinderVolume` (pkg/utils/rest_utils.go). */
module Provision {
  import opened MapOrder
  import opened Text

  // ----- the size of a volume

  const GIB := 1024 * 1024 * 1024
  const TWO_63 := 0x8000_0000_0000_0000
  const TWO_64 := 0x1_0000_0000_0000_0000

  /** An int64 result wraps around. */
  function Wrap64(x: int): int { (x + TWO_63) % TWO_64 - TWO_63 }

  predicate IsInt64(x: int) { -TWO_63 <= x < TWO_63 }

  /** Go's integer division truncates toward zero. */
  function GoDiv(x: int, d: int): int
    requires d > 0
  {
    if x >= 0 then x / d else -(-x / d)
  }

  /** util.RoundUpSize with a unit of one GiB. */
  function RoundUpSize(bytes: int): int {
    GoDiv(Wrap64(Wrap64(bytes + GIB) - 1), GIB)
  }

  /** The capacity of the persistent volume, which is written as a number of Gi. */
  function CapacityBytes(size: int): int { size * GIB }

  /** For every request that is not negative: the volume covers it and exceeds it by less than one
      GiB if and only if rounding does not overflow. */
  lemma CapacityCoversRequest(bytes: int)
    requires 0 <= bytes && IsInt64(bytes)
    ensures bytes <= CapacityBytes(RoundUpSize(bytes)) < bytes + GIB <==> bytes <= TWO_63 - GIB
  {
    if bytes <= TWO_63 - GIB {
      var x := bytes + GIB - 1;
      assert Wrap64(Wrap64(bytes + GIB) - 1) == x;
      assert x / GIB * GIB <= x < x / GIB * GIB + GIB;
    } else {
      assert Wrap64(Wrap64(bytes + GIB) - 1) < 0;
    }
  }

  // ----- parseOptions

  datatype AccessMode = ReadWriteOnce | ReadOnlyMany | ReadWriteMany

  /** A claim: the requested bytes, if it requests storage at all, and the access modes. */
  datatype Claim = Claim(request: Option<int>, accessModes: seq<AccessMode>)

  datatype VolumeOptions = VolumeOptions(claim: Option<Claim>, pvName: string, parameters: map<string, string>)

  datatype CreateOptions = CreateOptions(
    name: string, size: int, volumeType: string, availabilityZone: string, multiAttach: bool)

  datatype ParseError = MissingClaim | MissingName | MissingCapacity | UnknownParameter(key: string)

  datatype Parsed = Parsed(create: CreateOptions, fsType: string) | Rejected(error: ParseError)

  /** What the loop over the parameters collects. */
  datatype Collected = Collected(fsType: string, volumeType: string, availabilityZone: string) | Unknown(key: string)

  predicate IsKnown(key: string) {
    ToLower(key) in {"type", "availability", "fstype", "test"}
  }

  predicate Within(order: seq<string>, parameters: map<string, string>) {
    forall i :: 0 <= i < |order| ==> order[i] in parameters
  }

  /** The value of the last visited key that is this name up to case; empty without one. */
  function LastValue(order: seq<string>, parameters: map<string, string>, name: string): string
    requires Within(order, parameters)
  {
    if order == [] then ""
    else
      var key := order[|order| - 1];
      if ToLower(key) == name then parameters[key] else LastValue(order[..|order| - 1], parameters, name)
  }

  function FirstUnknown(order: seq<string>): Option<string> {
    if order == [] then None
    else if !IsKnown(order[0]) then Some(order[0])
    else FirstUnknown(order[1..])
  }

  function Collect(order: seq<string>, parameters: map<string, string>): Collected
    requires Within(order, parameters)
  {
    match FirstUnknown(order)
    case Some(key) => Unknown(key)
    case None => Collected(LastValue(order, parameters, "fstype"), LastValue(order, parameters, "type"),
                           LastValue(order, parameters, "availability"))
  }

  function Parse(options: VolumeOptions, order: seq<string>): Parsed
    requires Within(order, options.parameters)
  {
    if options.claim.None? then Rejected(MissingClaim)
    else if options.pvName == [] then Rejected(MissingName)
    else if options.claim.value.request.None? then Rejected(MissingCapacity)
    else match Collect(order, options.parameters)
      case Unknown(key) => Rejected(UnknownParameter(key))
      case Collected(fsType, volumeType, zone) =>
        var modes := options.claim.value.accessModes;
        Parsed(CreateOptions("icp-" + options.pvName, RoundUpSize(options.claim.value.request.value), volumeType, zone,
                             ReadWriteMany in modes || ReadOnlyMany in modes), fsType)
  }

  lemma KnownNames()
    ensures "type" != "availability" && "type" != "fstype" && "type" != "test"
    ensures "availability" != "fstype" && "availability" != "test" && "fstype" != "test"
  {
    assert "type"[0] == 't' && "availability"[0] == 'a' && "fstype"[0] == 'f' && "test"[1] == 'e' && "type"[1] == 'y';
  }

  lemma {:induction false} FirstUnknownSnoc(front: seq<string>, key: string)
    ensures FirstUnknown(front + [key]) ==
            if FirstUnknown(front).Some? then FirstUnknown(front) else if IsKnown(key) then None else Some(key)
  {
    hide IsKnown;
    if front == [] {
      assert front + [key] == [key];
    } else {
      assert (front + [key])[1..] == front[1..] + [key];
      FirstUnknownSnoc(front[1..], key);
    }
  }

  lemma {:induction false} UnknownStays(order: seq<string>, k: nat)
    requires k <= |order| && FirstUnknown(order[..k]).Some?
    ensures FirstUnknown(order) == FirstUnknown(order[..k])
    decreases |order| - k
  {
    if k < |order| {
      FirstUnknownSnoc(order[..k], order[k]);
      assert order[..k + 1] == order[..k] + [order[k]];
      UnknownStays(order, k + 1);
    } else {
      assert order[..k] == order;
    }
  }

  // ----- what parsing promises, spelled out

  /** The names that a storage class can use, in any case. */
  ghost predicate IsAllowed(key: string) {
    var k := ToLower(key);
    k == "type" || k == "availability" || k == "fstype" || k == "test"
  }

  /** Key number k is the first one visited that is not allowed. */
  ghost predicate IsFirstStranger(order: seq<string>, k: int) {
    0 <= k < |order| && !IsAllowed(order[k]) && forall j :: 0 <= j < k ==> IsAllowed(order[j])
  }

  /** The value of the last key visited that is this name up to case, or nothing without one. */
  ghost predicate IsLastOf(order: seq<string>, parameters: map<string, string>, name: string, value: string)
    requires Within(order, parameters)
  {
    || (exists k :: 0 <= k < |order| && ToLower(order[k]) == name && value == parameters[order[k]]
                    && forall j :: k < j < |order| ==> ToLower(order[j]) != name)
    || (value == "" && forall k :: 0 <= k < |order| ==> ToLower(order[k]) != name)
  }

  /** The size, in units of 2^30 bytes, covers the request by less than one unit more; this holds exactly
      as long as rounding does not overflow. */
  ghost predicate CoversRequest(request: int, size: int) {
    0 <= request < 0x8000_0000_0000_0000 ==>
      (request <= size * 1073741824 < request + 1073741824 <==> request <= 0x7FFF_FFFF_C000_0000)
  }

  ghost predicate IsComplete(options: VolumeOptions) {
    options.claim.Some? && options.pvName != "" && options.claim.value.request.Some?
  }

  /** What is created for a complete claim. */
  ghost predicate IsCreation(options: VolumeOptions, order: seq<string>, create: CreateOptions, fsType: string)
    requires Within(order, options.parameters) && IsComplete(options)
  {
    var modes := options.claim.value.accessModes;
    && create.name == "icp-" + options.pvName
    && CoversRequest(options.claim.value.request.value, create.size)
    && (create.multiAttach <==> exists k :: 0 <= k < |modes| && (modes[k] == ReadWriteMany || modes[k] == ReadOnlyMany))
    && IsLastOf(order, options.parameters, "type", create.volumeType)
    && IsLastOf(order, options.parameters, "availability", create.availabilityZone)
    && IsLastOf(order, options.parameters, "fstype", fsType)
  }

  /** The specification of parseOptions without its functions: which error is reported, and what a
      success creates. */
  ghost predicate IsParsed(options: VolumeOptions, order: seq<string>, r: Parsed)
    requires Within(order, options.parameters)
  {
    if options.claim.None? then r == Rejected(MissingClaim)
    else if options.pvName == "" then r == Rejected(MissingName)
    else if options.claim.value.request.None? then r == Rejected(MissingCapacity)
    else
      && (r.Parsed? <==> forall k :: 0 <= k < |order| ==> IsAllowed(order[k]))
      && (forall k :: IsFirstStranger(order, k) ==> r == Rejected(UnknownParameter(order[k])))
      && (r.Parsed? ==> IsCreation(options, order, r.create, r.fsType))
  }

  lemma KnownIsAllowed(key: string)
    ensures IsKnown(key) <==> IsAllowed(key)
  {
    hide ToLower;
  }

  lemma {:induction false} FirstStrangerIsUnknown(order: seq<string>)
    ensures FirstUnknown(order).None? <==> forall k :: 0 <= k < |order| ==> IsAllowed(order[k])
    ensures forall k :: IsFirstStranger(order, k) ==> FirstUnknown(order) == Some(order[k])
  {
    hide IsKnown, IsAllowed;
    if order == [] {
    } else {
      KnownIsAllowed(order[0]);
      var rest := order[1..];
      FirstStrangerIsUnknown(rest);
      assert forall k :: 1 <= k < |order| ==> order[k] == rest[k - 1];
      forall k | IsFirstStranger(order, k) ensures FirstUnknown(order) == Some(order[k]) {
        if k > 0 {
          assert IsFirstStranger(rest, k - 1);
        }
      }
    }
  }

  lemma {:induction false} LastValueIsLast(order: seq<string>, parameters: map<string, string>, name: string)
    requires Within(order, parameters)
    ensures IsLastOf(order, parameters, name, LastValue(order, parameters, name))
  {
    hide ToLower;
    if order == [] {
    } else {
      var front, n := order[..|order| - 1], |order| - 1;
      if ToLower(order[n]) == name {
        assert LastValue(order, parameters, name) == parameters[order[n]];
      } else {
        LastValueIsLast(front, parameters, name);
        assert forall k :: 0 <= k < |front| ==> front[k] == order[k];
      }
    }
  }

  lemma SizeCoversRequest(request: int)
    ensures CoversRequest(request, RoundUpSize(request))
  {
    if 0 <= request < 0x8000_0000_0000_0000 {
      CapacityCoversRequest(request);
    }
  }

  lemma ParseIsParsed(options: VolumeOptions, order: seq<string>)
    requires Within(order, options.parameters)
    ensures IsParsed(options, order, Parse(options, order))
  {
    FirstStrangerIsUnknown(order);
    LastValueIsLast(order, options.parameters, "type");
    LastValueIsLast(order, options.parameters, "availability");
    LastValueIsLast(order, options.parameters, "fstype");
    hide IsAllowed, IsFirstStranger, IsLastOf, LastValue, FirstUnknown, CoversRequest, RoundUpSize;
    if options.claim.Some? && options.claim.value.request.Some? {
      SizeCoversRequest(options.claim.value.request.value);
    }
  }

  /** parseOptions, with its loop over the parameters. */
  method ParseOptions(options: VolumeOptions, order: seq<string>) returns (r: Parsed)
    requires Within(order, options.parameters)
    ensures r == Parse(options, order)
    ensures IsParsed(options, order, r)
  {
    ParseIsParsed(options, order);
    hide IsParsed;
    if options.claim.None? {
      return Rejected(MissingClaim);
    }
    if options.pvName == [] {
      return Rejected(MissingName);
    }
    if options.claim.value.request.None? {
      return Rejected(MissingCapacity);
    }
    var sizeGB := RoundUpSize(options.claim.value.request.value);
    var fsType, volumeType, availabilityZone := "", "", "";
    KnownNames();
    for k := 0 to |order|
      invariant FirstUnknown(order[..k]) == None
      invariant fsType == LastValue(order[..k], options.parameters, "fstype")
      invariant volumeType == LastValue(order[..k], options.parameters, "type")
      invariant availabilityZone == LastValue(order[..k], options.parameters, "availability")
    {
      hide ToLower, FirstUnknown;
      var key := order[k];
      var value := options.parameters[key];
      assert order[..k + 1] == order[..k] + [key] && order[..k + 1][..k] == order[..k];
      FirstUnknownSnoc(order[..k], key);
      var lower := ToLower(key);
      if lower == "type" {
        volumeType := value;
      } else if lower == "availability" {
        availabilityZone := value;
      } else if lower == "fstype" {
        fsType := value;
      } else if lower != "test" {
        UnknownStays(order, k + 1);
        return Rejected(UnknownParameter(key));
      }
    }
    assert order[..|order|] == order;
    var modes := options.claim.value.accessModes;
    var multiAttach := ReadWriteMany in modes || ReadOnlyMany in modes;
    return Parsed(CreateOptions("icp-" + options.pvName, sizeGB, volumeType, availabilityZone, multiAttach), fsType);
  }

  lemma {:induction false} FirstUnknownFinds(order: seq<string>)
    ensures FirstUnknown(order).Some? <==> exists k :: 0 <= k < |order| && !IsKnown(order[k])
  {
    hide IsKnown;
    if order != [] && IsKnown(order[0]) {
      FirstUnknownFinds(order[1..]);
      assert forall k :: 1 <= k < |order| ==> order[k] == order[1..][k - 1];
    }
  }

  lemma OrderIsWithin(order: seq<string>, parameters: map<string, string>)
    requires IsOrder(order, parameters.Keys)
    ensures Within(order, parameters)
  {
    forall i | 0 <= i < |order| ensures order[i] in parameters {
      assert order[i] in order;
    }
  }

  /** Given a claim, a name and a capacity, parsing fails exactly when some key is unknown: in every
      order of iteration. */
  lemma ParsingFailsOnUnknownKeys(options: VolumeOptions, order: seq<string>)
    requires IsOrder(order, options.parameters.Keys) && Within(order, options.parameters)
    requires options.claim.Some? && options.pvName != [] && options.claim.value.request.Some?
    ensures Parse(options, order).Rejected? <==> exists key :: key in options.parameters && !IsKnown(key)
  {
    hide IsKnown;
    FirstUnknownFinds(order);
    if k :| 0 <= k < |order| && !IsKnown(order[k]) {
      assert order[k] in order;
    }
    if key :| key in options.parameters && !IsKnown(key) {
      assert key in order;
    }
  }

  /** Two keys that are the same name up to case ask for different values. */
  ghost predicate AreInConflict(parameters: map<string, string>, a: string, b: string) {
    && a in parameters && b in parameters && ToLower(a) == ToLower(b) && parameters[a] != parameters[b]
    && ToLower(a) in {"type", "availability", "fstype"}
  }

  lemma {:induction false} LastValueIsSome(order: seq<string>, parameters: map<string, string>, name: string)
    requires Within(order, parameters)
    ensures var v := LastValue(order, parameters, name);
            if exists k :: 0 <= k < |order| && ToLower(order[k]) == name
            then exists k :: 0 <= k < |order| && ToLower(order[k]) == name && v == parameters[order[k]]
            else v == ""
  {
    hide ToLower;
    if order != [] && ToLower(order[|order| - 1]) != name {
      var front := order[..|order| - 1];
      LastValueIsSome(front, parameters, name);
      assert forall k :: 0 <= k < |front| ==> front[k] == order[k];
      if k :| 0 <= k < |front| && ToLower(front[k]) == name && LastValue(front, parameters, name) == parameters[front[k]] {
        assert ToLower(order[k]) == name;
      }
    }
  }

  lemma NameIsVisited(order: seq<string>, parameters: map<string, string>, name: string)
    requires IsOrder(order, parameters.Keys)
    ensures (exists k :: 0 <= k < |order| && ToLower(order[k]) == name) <==>
            (exists key :: key in parameters && ToLower(key) == name)
  {
    hide ToLower;
    if k :| 0 <= k < |order| && ToLower(order[k]) == name {
      assert order[k] in order;
    }
    if key :| key in parameters && ToLower(key) == name {
      assert key in order;
    }
  }

  lemma LastValueWithoutConflict(o1: seq<string>, o2: seq<string>, parameters: map<string, string>, name: string)
    requires IsOrder(o1, parameters.Keys) && IsOrder(o2, parameters.Keys) && Within(o1, parameters) && Within(o2, parameters)
    requires name in {"type", "availability", "fstype"}
    requires forall a, b :: !AreInConflict(parameters, a, b)
    ensures LastValue(o1, parameters, name) == LastValue(o2, parameters, name)
  {
    hide ToLower, LastValue;
    LastValueIsSome(o1, parameters, name);
    LastValueIsSome(o2, parameters, name);
    NameIsVisited(o1, parameters, name);
    NameIsVisited(o2, parameters, name);
    if k :| 0 <= k < |o1| && ToLower(o1[k]) == name && LastValue(o1, parameters, name) == parameters[o1[k]] {
      var i :| 0 <= i < |o2| && ToLower(o2[i]) == name && LastValue(o2, parameters, name) == parameters[o2[i]];
      assert !AreInConflict(parameters, o1[k], o2[i]);
    }
  }

  /** The keys in some order, after given last ones. */
  lemma OrderExists(keys: set<string>, a: string, b: string) returns (front: seq<string>)
    requires a !in keys && b !in keys && a != b
    ensures IsOrder(front + [a, b], keys + {a, b}) && IsOrder(front + [b, a], keys + {a, b})
  {
    front := Enumerate(keys);
    forall k ensures k in front + [a, b] <==> k in keys + {a, b}
             ensures k in front + [b, a] <==> k in keys + {a, b} {
    }
    forall i | 0 <= i < |front| ensures front[i] != a && front[i] != b {
      assert front[i] in front;
    }
  }

  lemma Enumerate(keys: set<string>) returns (order: seq<string>)
    ensures IsOrder(order, keys)
    decreases |keys|
  {
    if keys == {} {
      order := [];
    } else {
      var k :| k in keys;
      order := Enumerate(keys - {k});
      forall i | 0 <= i < |order| ensures order[i] != k {
        assert order[i] in order;
      }
      order := order + [k];
    }
  }

  /** The collected values are the same for every order of iteration if and only if no two keys are in
      conflict. */
  lemma OrderIndependentExactly(parameters: map<string, string>)
    requires forall key :: key in parameters ==> IsKnown(key)
    ensures (forall o1, o2 :: IsOrder(o1, parameters.Keys) && IsOrder(o2, parameters.Keys)
                              && Within(o1, parameters) && Within(o2, parameters)
                              ==> Collect(o1, parameters) == Collect(o2, parameters))
            <==> (forall a, b :: !AreInConflict(parameters, a, b))
  {
    hide IsKnown, ToLower, LastValue, FirstUnknown, IsOrder, Within;
    if forall a, b :: !AreInConflict(parameters, a, b) {
      forall o1, o2 | IsOrder(o1, parameters.Keys) && IsOrder(o2, parameters.Keys) && Within(o1, parameters) && Within(o2, parameters)
        ensures Collect(o1, parameters) == Collect(o2, parameters)
      {
        AllKnown(o1, parameters);
        AllKnown(o2, parameters);
        LastValueWithoutConflict(o1, o2, parameters, "type");
        LastValueWithoutConflict(o1, o2, parameters, "availability");
        LastValueWithoutConflict(o1, o2, parameters, "fstype");
      }
    } else {
      var a, b :| AreInConflict(parameters, a, b);
      var o1, o2 := ConflictShows(parameters, a, b);
    }
  }

  lemma AllKnown(order: seq<string>, parameters: map<string, string>)
    requires Within(order, parameters) && forall key :: key in parameters ==> IsKnown(key)
    ensures FirstUnknown(order) == None
  {
    FirstUnknownFinds(order);
  }

  lemma ConflictShows(parameters: map<string, string>, a: string, b: string) returns (o1: seq<string>, o2: seq<string>)
    requires forall key :: key in parameters ==> IsKnown(key)
    requires AreInConflict(parameters, a, b)
    ensures IsOrder(o1, parameters.Keys) && IsOrder(o2, parameters.Keys) && Within(o1, parameters) && Within(o2, parameters)
    ensures Collect(o1, parameters) != Collect(o2, parameters)
  {
    var front := OrderExists(parameters.Keys - {a, b}, a, b);
    assert parameters.Keys - {a, b} + {a, b} == parameters.Keys;
    o1, o2 := front + [a, b], front + [b, a];
    OrderIsWithin(o1, parameters);
    OrderIsWithin(o2, parameters);
    hide IsKnown, ToLower, FirstUnknown, IsOrder, Within;
    AllKnown(o1, parameters);
    AllKnown(o2, parameters);
    var name := ToLower(a);
    assert LastValue(o1, parameters, name) == parameters[b];
    assert LastValue(o2, parameters, name) == parameters[a];
  }

  /** A field is the value of the parameter of that name up to case, or empty without one. */
  ghost predicate IsParameter(parameters: map<string, string>, name: string, field: string) {
    && (forall key :: key in parameters && ToLower(key) == name ==> field == parameters[key])
    && ((forall key :: key in parameters ==> ToLower(key) != name) ==> field == "")
  }

  lemma LastValueIsParameter(order: seq<string>, parameters: map<string, string>, name: string)
    requires IsOrder(order, parameters.Keys) && Within(order, parameters)
    requires name in {"type", "availability", "fstype"}
    requires forall a, b :: !AreInConflict(parameters, a, b)
    ensures IsParameter(parameters, name, LastValue(order, parameters, name))
  {
    hide ToLower, LastValue, IsOrder;
    LastValueIsSome(order, parameters, name);
    NameIsVisited(order, parameters, name);
    forall key | key in parameters && ToLower(key) == name
      ensures LastValue(order, parameters, name) == parameters[key]
    {
      var k :| 0 <= k < |order| && ToLower(order[k]) == name && LastValue(order, parameters, name) == parameters[order[k]];
      assert !AreInConflict(parameters, order[k], key);
    }
  }

  /** What is parsed, in every order of iteration: each field holds its own parameter. */
  lemma FieldsAreTheParameters(options: VolumeOptions, order: seq<string>)
    requires IsOrder(order, options.parameters.Keys) && Within(order, options.parameters)
    requires Parse(options, order).Parsed?
    requires forall a, b :: !AreInConflict(options.parameters, a, b)
    ensures var Parsed(create, fsType) := Parse(options, order);
            && IsParameter(options.parameters, "type", create.volumeType)
            && IsParameter(options.parameters, "availability", create.availabilityZone)
            && IsParameter(options.parameters, "fstype", fsType)
  {
    hide ToLower, LastValue, IsOrder, IsParameter, AreInConflict, FirstUnknown;
    LastValueIsParameter(order, options.parameters, "type");
    LastValueIsParameter(order, options.parameters, "availability");
    LastValueIsParameter(order, options.parameters, "fstype");
  }

  // ----- GetCinderVolume

  const MAX_POLLS: nat := 100
  const POLL_SLEEP := 3

  /** GetCinderVolume; `reply(i)` is the status that query number i returns, None for an error. It gives
      up after MAX_POLLS queries and then hands out the volume although it is still being created. */
  method GetCinderVolume(reply: nat -> Option<string>) returns (status: Option<string>, polls: nat, slept: nat)
    ensures 1 <= polls <= 100
    ensures forall i: nat :: i < polls - 1 ==> reply(i) == Some("creating")
    ensures status == reply(polls - 1)
    ensures polls < 100 ==> status != Some("creating")
    ensures slept == 3 * (if status == Some("creating") then polls else polls - 1)
  {
    status, slept, polls := None, 0, 0;
    while polls < MAX_POLLS
      invariant 0 <= polls <= MAX_POLLS
      invariant forall i: nat :: i < polls ==> reply(i) == Some("creating")
      invariant polls > 0 ==> status == Some("creating")
      invariant slept == POLL_SLEEP * polls
    {
      status := reply(polls);
      polls := polls + 1;
      if status.None? || status.value != "creating" {
        return;
      }
      slept := slept + POLL_SLEEP;
    }
  }

  // ----- the life of volumes

  type VolumeId = string

  /** The cloud's volumes, the volume that each persistent volume is annotated with, and every ID the
      cloud has handed out. */
  datatype State = State(volumes: set<VolumeId>, live: map<string, VolumeId>, used: set<VolumeId>)

  /** A volume that Cinder creates: its ID and its first status. */
  datatype Created = Created(id: VolumeId, status: string)

  /** One call of the controller, with the answers of the cloud. `accepted`: parsing and
      authentication succeed. `poll`: the result of GetCinderVolume. */
  datatype Event =
    | DoProvision(pvName: string, accepted: bool, created: Option<Created>, poll: Option<string>, cleanup: bool)
    | DoDelete(pvName: string, accepted: bool, deleted: bool)

  /** The cloud hands out new IDs; names of persistent volumes are unique; only persistent volumes that
      were returned are deleted. */
  predicate IsPossible(s: State, e: Event) {
    match e
    case DoProvision(pvName, _, created, _, _) =>
      pvName !in s.live && (created.Some? ==> created.value.id !in s.used && created.value.id !in s.volumes)
    case DoDelete(pvName, _, _) => pvName in s.live
  }

  /** The volume exists but no persistent volume is returned for it. */
  predicate IsLost(e: Event) {
    && e.DoProvision? && e.accepted && e.created.Some? && e.created.value.status != "available"
    && (e.poll.None? || (e.poll.value == "error" && !e.cleanup))
  }

  /** A persistent volume is returned. */
  predicate IsReturned(e: Event) {
    && e.DoProvision? && e.accepted && e.created.Some?
    && (e.created.value.status == "available" || (e.poll.Some? && e.poll.value != "error"))
  }

  function Step(s: State, e: Event): State {
    match e
    case DoProvision(pvName, accepted, created, poll, cleanup) =>
      if !accepted || created.None? then s
      else
        var id := created.value.id;
        var s1 := s.(used := s.used + {id});
        if IsReturned(e) then s1.(volumes := s.volumes + {id}, live := s.live[pvName := id])
        else if IsLost(e) then s1.(volumes := s.volumes + {id})
        else s1
    case DoDelete(pvName, accepted, deleted) =>
      if pvName in s.live && accepted && deleted then
        s.(volumes := s.volumes - {s.live[pvName]}, live := s.live - {pvName})
      else s
  }

  /** The controller and the cloud, changed by the two operations of the provisioner. */
  class Controller {
    var volumes: set<VolumeId>
    var live: map<string, VolumeId>
    var used: set<VolumeId>

    function Current(): State
      reads this
    {
      State(volumes, live, used)
    }

    /** Provision: true when a persistent volume is returned. */
    method Provision(pvName: string, accepted: bool, created: Option<Created>, poll: Option<string>, cleanup: bool)
      returns (ok: bool)
      modifies this
      requires IsPossible(Current(), DoProvision(pvName, accepted, created, poll, cleanup))
      ensures Current() == Step(old(Current()), DoProvision(pvName, accepted, created, poll, cleanup))
      ensures ok <==> accepted && created.Some?
                      && (created.value.status == "available" || (poll.Some? && poll.value != "error"))
      ensures live == if ok then old(live)[pvName := created.value.id] else old(live)
      ensures if !accepted || created.None? then volumes == old(volumes) && used == old(used)
              else used == old(used) + {created.value.id}
                   && volumes == if created.value.status != "available" && poll == Some("error") && cleanup
                                 then old(volumes) else old(volumes) + {created.value.id}
    {
      if !accepted || created.None? {
        return false;
      }
      var volume := created.value;
      volumes, used := volumes + {volume.id}, used + {volume.id};
      if volume.status != "available" {
        if poll.None? {
          return false;
        }
        if poll.value == "error" {
          if cleanup {
            volumes := volumes - {volume.id};
          }
          return false;
        }
      }
      live := live[pvName := volume.id];
      return true;
    }

    /** Delete. */
    method Delete(pvName: string, accepted: bool, deleted: bool) returns (ok: bool)
      modifies this
      requires pvName in live
      ensures Current() == Step(old(Current()), DoDelete(pvName, accepted, deleted))
      ensures ok <==> accepted && deleted
      ensures used == old(used)
      ensures volumes == if ok then old(volumes) - {old(live)[pvName]} else old(volumes)
      ensures live == if ok then old(live) - {pvName} else old(live)
    {
      var volumeID := live[pvName];
      if !accepted || !deleted {
        return false;
      }
      volumes := volumes - {volumeID};
      live := live - {pvName};
      return true;
    }
  }

  ghost predicate IsRun(s: State, es: seq<Event>) {
    es == [] || (IsRun(s, es[..|es| - 1]) && IsPossible(Exec(s, es[..|es| - 1]), es[|es| - 1]))
  }

  /** The state after a run. */
  function Exec(s: State, es: seq<Event>): State {
    if es == [] then s else Step(Exec(s, es[..|es| - 1]), es[|es| - 1])
  }

  predicate IsInitial(s: State) {
    s.live == map[] && s.volumes <= s.used
  }

  /** Live persistent volumes refer to distinct existing volumes. */
  ghost predicate IsSound(s: State) {
    && s.volumes <= s.used
    && (forall p :: p in s.live ==> s.live[p] in s.volumes)
    && (forall p, q :: p in s.live && q in s.live && s.live[p] == s.live[q] ==> p == q)
  }

  ghost predicate IsUnclaimed(s: State, v: VolumeId) {
    v in s.volumes && forall p :: p in s.live ==> s.live[p] != v
  }

  lemma StepKeepsSound(s: State, e: Event)
    requires IsSound(s) && IsPossible(s, e)
    ensures IsSound(Step(s, e))
  {
  }

  lemma {:induction false} ReachableIsSound(s0: State, es: seq<Event>)
    requires IsInitial(s0) && IsRun(s0, es)
    ensures IsSound(Exec(s0, es))
  {
    if es == [] {
    } else {
      ReachableIsSound(s0, es[..|es| - 1]);
      StepKeepsSound(Exec(s0, es[..|es| - 1]), es[|es| - 1]);
    }
  }

  /** A volume stops being claimed, or unclaimed, only as the events say. */
  lemma StepUnclaims(s: State, e: Event, v: VolumeId)
    requires IsSound(s) && IsPossible(s, e)
    ensures IsUnclaimed(Step(s, e), v) <==> IsUnclaimed(s, v) || (IsLost(e) && e.created.value.id == v)
  {
    var t := Step(s, e);
    match e
    case DoProvision(pvName, accepted, created, poll, cleanup) =>
      if IsReturned(e) {
        assert t.live[pvName] == created.value.id;
        assert forall p :: p in s.live ==> p in t.live && t.live[p] == s.live[p];
      }
    case DoDelete(pvName, accepted, deleted) =>
      if t != s {
        assert forall p :: p in t.live ==> p in s.live && p != pvName && t.live[p] == s.live[p];
        assert forall p :: p in s.live && p != pvName ==> p in t.live;
      }
  }

  /** Conservation: in every run, the volumes without a persistent volume are those that were there
      before and those whose status poll failed or whose cleanup failed; no other is ever leaked, and
      none of these is ever recovered. */
  lemma {:induction false} UnclaimedVolumesAreExplained(s0: State, es: seq<Event>, v: VolumeId)
    requires IsInitial(s0) && IsRun(s0, es)
    ensures IsUnclaimed(Exec(s0, es), v) <==>
            v in s0.volumes || exists k :: 0 <= k < |es| && IsLost(es[k]) && es[k].created.value.id == v
  {
    hide IsUnclaimed, IsLost, Step;
    if es == [] {
      assert IsUnclaimed(s0, v) <==> v in s0.volumes by { InitiallyUnclaimed(s0, v); }
    } else {
      var front, last := es[..|es| - 1], es[|es| - 1];
      ReachableIsSound(s0, front);
      UnclaimedVolumesAreExplained(s0, front, v);
      StepUnclaims(Exec(s0, front), last, v);
      LostInConcat(front, last, v);
      assert es == front + [last];
    }
  }

  lemma InitiallyUnclaimed(s: State, v: VolumeId)
    requires IsInitial(s)
    ensures IsUnclaimed(s, v) <==> v in s.volumes
  {
  }

  lemma LostInConcat(front: seq<Event>, last: Event, v: VolumeId)
    ensures var es := front + [last];
            (exists k :: 0 <= k < |es| && IsLost(es[k]) && es[k].created.value.id == v) <==>
            (exists k :: 0 <= k < |front| && IsLost(front[k]) && front[k].created.value.id == v)
            || (IsLost(last) && last.created.value.id == v)
  {
    var es := front + [last];
    if k :| 0 <= k < |front| && IsLost(front[k]) && front[k].created.value.id == v {
      assert es[k] == front[k];
    }
    assert es[|front|] == last;
    if k :| 0 <= k < |es| && IsLost(es[k]) && es[k].created.value.id == v {
      assert if k < |front| then es[k] == front[k] else es[k] == last;
    }
  }

  /** `with` is `without` and one more volume, claimed by one more persistent volume. */
  ghost predicate IsBeside(with: State, without: State, pvName: string, id: VolumeId) {
    && id !in without.volumes && id !in without.used && pvName !in without.live
    && with == State(without.volumes + {id}, without.live[pvName := id], without.used + {id})
  }

  lemma ProvisionStepsBeside(s: State, p: Event)
    requires IsSound(s) && IsPossible(s, p) && IsReturned(p)
    ensures IsBeside(Step(s, p), s, p.pvName, p.created.value.id)
  {
  }

  lemma StepsBeside(with: State, without: State, pvName: string, id: VolumeId, e: Event)
    requires IsBeside(with, without, pvName, id) && IsSound(with) && IsPossible(with, e) && e.pvName != pvName
    ensures IsPossible(without, e)
    ensures IsBeside(Step(with, e), Step(without, e), pvName, id)
  {
    match e
    case DoProvision(name, accepted, created, poll, cleanup) =>
      ProvisionsBeside(with, without, pvName, id, e);
    case DoDelete(name, accepted, deleted) =>
      DeletesBeside(with, without, pvName, id, e);
  }

  lemma ProvisionsBeside(with: State, without: State, pvName: string, id: VolumeId, e: Event)
    requires IsBeside(with, without, pvName, id) && IsPossible(with, e) && e.DoProvision? && e.pvName != pvName
    ensures IsBeside(Step(with, e), Step(without, e), pvName, id)
  {
    hide IsReturned, IsLost;
    var t, u := Step(with, e), Step(without, e);
    if e.accepted && e.created.Some? {
      var v := e.created.value.id;
      assert v != id by { assert id in with.used; }
      assert with.used + {v} == without.used + {v} + {id};
      assert with.volumes + {v} == without.volumes + {v} + {id};
      assert with.live[e.pvName := v] == without.live[e.pvName := v][pvName := id];
    }
  }

  lemma DeletesBeside(with: State, without: State, pvName: string, id: VolumeId, e: Event)
    requires IsBeside(with, without, pvName, id) && IsSound(with) && IsPossible(with, e)
    requires e.DoDelete? && e.pvName != pvName
    ensures IsBeside(Step(with, e), Step(without, e), pvName, id)
  {
    if e.accepted && e.deleted {
      var v := without.live[e.pvName];
      assert with.live[e.pvName] == v && with.live[pvName] == id && v != id;
      assert with.volumes - {v} == without.volumes - {v} + {id};
      assert with.live - {e.pvName} == (without.live - {e.pvName})[pvName := id];
    }
  }

  /** A run beside a provisioned volume goes as it would go without that volume. */
  lemma {:induction false} ProvisionStaysApart(s: State, p: Event, es: seq<Event>)
    requires IsSound(s) && IsPossible(s, p) && IsReturned(p) && IsRun(Step(s, p), es)
    requires forall k :: 0 <= k < |es| ==> es[k].pvName != p.pvName
    ensures IsRun(s, es)
    ensures IsBeside(Exec(Step(s, p), es), Exec(s, es), p.pvName, p.created.value.id)
  {
    hide Step, IsPossible, IsSound, IsBeside;
    if es == [] {
      ProvisionStepsBeside(s, p);
    } else {
      var front, last := es[..|es| - 1], es[|es| - 1];
      ProvisionStaysApart(s, p, front);
      ReachableAgain(s, p, front);
      StepsBeside(Exec(Step(s, p), front), Exec(s, front), p.pvName, p.created.value.id, last);
    }
  }

  lemma {:induction false} ReachableAgain(s: State, p: Event, es: seq<Event>)
    requires IsSound(s) && IsPossible(s, p) && IsRun(Step(s, p), es)
    ensures IsSound(Exec(Step(s, p), es))
  {
    if es == [] {
      StepKeepsSound(s, p);
    } else {
      ReachableAgain(s, p, es[..|es| - 1]);
      StepKeepsSound(Exec(Step(s, p), es[..|es| - 1]), es[|es| - 1]);
    }
  }

  /** A successful Delete undoes its Provision: after any run in between that does not concern this
      persistent volume, the volumes and the other persistent volumes are those of the same run without
      it. */
  lemma DeleteUndoesProvision(s0: State, before: seq<Event>, p: Event, between: seq<Event>, d: Event)
    requires IsInitial(s0) && IsRun(s0, before)
    requires IsPossible(Exec(s0, before), p) && IsReturned(p)
    requires IsRun(Step(Exec(s0, before), p), between)
    requires forall k :: 0 <= k < |between| ==> between[k].pvName != p.pvName
    requires d.DoDelete? && d.pvName == p.pvName && d.accepted && d.deleted
    ensures var s := Exec(s0, before);
            var t := Step(Exec(Step(s, p), between), d);
            t.volumes == Exec(s, between).volumes && t.live == Exec(s, between).live
  {
    ReachableIsSound(s0, before);
    ProvisionStaysApart(Exec(s0, before), p, between);
  }

  lemma DeleteTakesOneVolume(s0: State, es: seq<Event>, d: Event)
    requires IsInitial(s0) && IsRun(s0, es) && IsPossible(Exec(s0, es), d)
    requires d.DoDelete? && d.accepted && d.deleted
    ensures var s := Exec(s0, es);
            var t := Step(s, d);
            && s.live[d.pvName] in s.volumes && t.volumes == s.volumes - {s.live[d.pvName]}
            && forall q :: q in s.live && q != d.pvName ==> q in t.live && t.live[q] in t.volumes
  {
    ReachableIsSound(s0, es);
  }
}
