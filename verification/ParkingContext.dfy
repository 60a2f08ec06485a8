/** The occupancy state machine: the engine's collections of vehicles,
    payments and spaces plus its configuration, and the operations that
    register entries and exits and change the status of single spaces. */
module ParkingContext {
  import opened JsLib
  import opened ParkingTypes
  import opened ParkingUtils

  // ------------------------------------------------------ plate handling

  /** The plate as the engine stores it: upper-cased, then trimmed. */
  function NormalizePlate(plate: string): (n: string)
    ensures |n| <= |plate|
  {
    Trim(ToUpper(plate))
  }

  /** A normalised plate is empty exactly when the plate is all
      whitespace; otherwise it neither starts nor ends with whitespace.
      Every character of it is already upper-case. */
  lemma NormalizePlateShape(plate: string)
    ensures var n := NormalizePlate(plate);
      && (n == [] <==> forall i :: 0 <= i < |plate| ==> IsWhitespace(plate[i]))
      && (n != [] ==> !IsWhitespace(n[0]) && !IsWhitespace(n[|n| - 1]))
      && (forall i :: 0 <= i < |n| ==> UpperChar(n[i]) == n[i])
  {
    var u := ToUpper(plate);
    var n := Trim(u);
    TrimShape(u);
    TrimInfix(u);
    forall i | 0 <= i < |plate| ensures IsWhitespace(u[i]) == IsWhitespace(plate[i]) {
      UpperCharFacts(plate[i]);
    }
    var k := SkipForward(u, 0);
    forall i | 0 <= i < |n| ensures UpperChar(n[i]) == n[i] {
      assert n[i] == u[k + i];
      UpperCharFacts(plate[k + i]);
    }
  }

  /** The normalised plate is the upper-cased plate with the whitespace
      at both ends cut off: character i is the upper case of plate
      character k + i, where k is the number of leading whitespace
      characters, and everything cut off is whitespace. */
  lemma NormalizePlateInfix(plate: string)
    ensures var n, k := NormalizePlate(plate), SkipForward(ToUpper(plate), 0);
      && k + |n| <= |plate|
      && n == ToUpper(plate)[k..k + |n|]
      && (forall i :: 0 <= i < |n| ==> n[i] == UpperChar(plate[k + i]))
      && (forall i :: 0 <= i < k ==> IsWhitespace(plate[i]))
      && (forall i :: k + |n| <= i < |plate| ==> IsWhitespace(plate[i]))
  {
    var u := ToUpper(plate);
    TrimInfix(u);
    forall i | 0 <= i < |plate| ensures IsWhitespace(u[i]) == IsWhitespace(plate[i]) {
      UpperCharFacts(plate[i]);
    }
  }

  /** Normalising a normalised plate changes nothing. */
  lemma NormalizePlateIdempotent(plate: string)
    ensures NormalizePlate(NormalizePlate(plate)) == NormalizePlate(plate)
  {
    var n := NormalizePlate(plate);
    NormalizePlateShape(plate);
    assert ToUpper(n) == n;
    TrimIdempotent(ToUpper(plate));
  }

  // ------------------------------------------------------------- lookups

  predicate IsParkedWithPlate(v: Vehicle, plate: string) { v.plate == plate && v.status == Parked }

  predicate IsParkedWithId(v: Vehicle, id: string) { v.id == id && v.status == Parked }

  predicate IsFreeOfType(s: ParkingSpace, t: VehicleType) { s.vtype == t && s.status == Free }

  /** The first parked vehicle holding the plate, if any. */
  function FindParkedByPlate(vehicles: seq<Vehicle>, plate: string): (r: Option<nat>)
    ensures r.None? <==> forall i :: 0 <= i < |vehicles| ==> !IsParkedWithPlate(vehicles[i], plate)
    ensures r.Some? ==> r.value < |vehicles| && IsParkedWithPlate(vehicles[r.value], plate)
    ensures r.Some? ==> forall i :: 0 <= i < r.value ==> !IsParkedWithPlate(vehicles[i], plate)
  {
    FindFirst(vehicles, v => IsParkedWithPlate(v, plate))
  }

  /** The first parked vehicle with the id, if any. */
  function FindParkedById(vehicles: seq<Vehicle>, id: string): (r: Option<nat>)
    ensures r.None? <==> forall i :: 0 <= i < |vehicles| ==> !IsParkedWithId(vehicles[i], id)
    ensures r.Some? ==> r.value < |vehicles| && IsParkedWithId(vehicles[r.value], id)
    ensures r.Some? ==> forall i :: 0 <= i < r.value ==> !IsParkedWithId(vehicles[i], id)
  {
    FindFirst(vehicles, v => IsParkedWithId(v, id))
  }

  /** The first free space of the type in pool order, if any. */
  function FindFreeSpace(spaces: seq<ParkingSpace>, t: VehicleType): (r: Option<nat>)
    ensures r.None? <==> forall k :: 0 <= k < |spaces| ==> !IsFreeOfType(spaces[k], t)
    ensures r.Some? ==> r.value < |spaces| && IsFreeOfType(spaces[r.value], t)
    ensures r.Some? ==> forall k :: 0 <= k < r.value ==> !IsFreeOfType(spaces[k], t)
  {
    FindFirst(spaces, s => IsFreeOfType(s, t))
  }

  // ------------------------------------------------------- state changes

  function OccupyIfMatch(s: ParkingSpace, spaceId: string, vehicleId: string): ParkingSpace
  {
    if s.id == spaceId then s.(status := Occupied, vehicleId := Some(vehicleId)) else s
  }

  function ReleaseIfHolder(s: ParkingSpace, vehicleId: string): ParkingSpace
  {
    if s.vehicleId == Some(vehicleId) then s.(status := Free, vehicleId := None) else s
  }

  function ToggleBlockIfMatch(s: ParkingSpace, spaceId: string): ParkingSpace
  {
    if s.id != spaceId || s.status == Occupied then s
    else s.(status := if s.status == Blocked then Free else Blocked)
  }

  function ReserveIfMatch(s: ParkingSpace, spaceId: string): ParkingSpace
  {
    if s.id == spaceId && s.status == Free then s.(status := Reserved) else s
  }

  function UnreserveIfMatch(s: ParkingSpace, spaceId: string): ParkingSpace
  {
    if s.id == spaceId && s.status == Reserved then s.(status := Free) else s
  }

  function ExitIfMatch(v: Vehicle, vehicleId: string, exitTime: int): Vehicle
  {
    if v.id == vehicleId then v.(exitTime := Some(exitTime), status := Exited) else v
  }

  /** Every space with the id becomes occupied by the vehicle. */
  function OccupySpace(spaces: seq<ParkingSpace>, spaceId: string, vehicleId: string): seq<ParkingSpace>
  {
    MapSeq(spaces, s => OccupyIfMatch(s, spaceId, vehicleId))
  }

  /** Every space held by the vehicle becomes free and empty. */
  function ReleaseSpaces(spaces: seq<ParkingSpace>, vehicleId: string): seq<ParkingSpace>
  {
    MapSeq(spaces, s => ReleaseIfHolder(s, vehicleId))
  }

  function ToggleBlock(spaces: seq<ParkingSpace>, spaceId: string): seq<ParkingSpace>
  {
    MapSeq(spaces, s => ToggleBlockIfMatch(s, spaceId))
  }

  function Reserve(spaces: seq<ParkingSpace>, spaceId: string): seq<ParkingSpace>
  {
    MapSeq(spaces, s => ReserveIfMatch(s, spaceId))
  }

  function Unreserve(spaces: seq<ParkingSpace>, spaceId: string): seq<ParkingSpace>
  {
    MapSeq(spaces, s => UnreserveIfMatch(s, spaceId))
  }

  /** Every vehicle with the id is marked exited at the given time. */
  function MarkExited(vehicles: seq<Vehicle>, vehicleId: string, exitTime: int): seq<Vehicle>
  {
    MapSeq(vehicles, v => ExitIfMatch(v, vehicleId, exitTime))
  }

  // ---------------------------------------------------------- invariants

  /** A space is occupied exactly when it records a vehicle. */
  ghost predicate OccupancyConsistent(spaces: seq<ParkingSpace>)
  {
    forall k :: 0 <= k < |spaces| ==> (spaces[k].status == Occupied <==> spaces[k].vehicleId.Some?)
  }

  ghost predicate DistinctSpaceIds(spaces: seq<ParkingSpace>)
  {
    forall j, k :: 0 <= j < k < |spaces| ==> spaces[j].id != spaces[k].id
  }

  ghost predicate DistinctVehicleIds(vehicles: seq<Vehicle>)
  {
    forall i, j :: 0 <= i < j < |vehicles| ==> vehicles[i].id != vehicles[j].id
  }

  /** No two parked vehicles share a plate. */
  ghost predicate ParkedPlatesUnique(vehicles: seq<Vehicle>)
  {
    forall i, j :: 0 <= i < j < |vehicles| && vehicles[i].status == Parked && vehicles[j].status == Parked
      ==> vehicles[i].plate != vehicles[j].plate
  }

  /** The pools have the same spaces in the same order: same ids, labels
      and types; only statuses and vehicles may differ. */
  ghost predicate SameLayout(a: seq<ParkingSpace>, b: seq<ParkingSpace>)
  {
    && |a| == |b|
    && forall k :: 0 <= k < |a| ==> a[k].id == b[k].id && a[k].labelText == b[k].labelText && a[k].vtype == b[k].vtype
  }

  /** The space records a parked vehicle whose own record points back at it. */
  ghost predicate HeldByParked(vehicles: seq<Vehicle>, s: ParkingSpace)
  {
    exists i :: 0 <= i < |vehicles| && s.vehicleId == Some(vehicles[i].id)
      && vehicles[i].status == Parked && vehicles[i].spaceId == s.id
  }

  /** The vehicle's space exists and records the vehicle. */
  ghost predicate HasOwnSpace(spaces: seq<ParkingSpace>, v: Vehicle)
  {
    exists k :: 0 <= k < |spaces| && spaces[k].id == v.spaceId && spaces[k].vehicleId == Some(v.id)
  }

  /** Every space that records a vehicle records a parked one that points
      back at it. */
  ghost predicate SpacesHeld(vehicles: seq<Vehicle>, spaces: seq<ParkingSpace>)
  {
    forall k :: 0 <= k < |spaces| && spaces[k].vehicleId.Some? ==> HeldByParked(vehicles, spaces[k])
  }

  /** Every parked vehicle is recorded by its space. */
  ghost predicate VehiclesHoused(vehicles: seq<Vehicle>, spaces: seq<ParkingSpace>)
  {
    forall i :: 0 <= i < |vehicles| && vehicles[i].status == Parked ==> HasOwnSpace(spaces, vehicles[i])
  }

  /** No vehicle is recorded by two spaces. */
  ghost predicate SingleHolder(spaces: seq<ParkingSpace>)
  {
    forall j, k :: 0 <= j < k < |spaces| && spaces[j].vehicleId.Some? ==> spaces[j].vehicleId != spaces[k].vehicleId
  }

  /** Vehicles and spaces refer to each other consistently. */
  ghost predicate Linked(vehicles: seq<Vehicle>, spaces: seq<ParkingSpace>)
  {
    && DistinctVehicleIds(vehicles)
    && SpacesHeld(vehicles, spaces)
    && VehiclesHoused(vehicles, spaces)
    && SingleHolder(spaces)
  }

  // ------------------------------------------------------ entry and exit

  /** With distinct ids, occupying the chosen space changes that space
      alone, and the pool keeps its layout and its invariants. */
  lemma OccupyChangesOnlyChosen(spaces: seq<ParkingSpace>, k: int, vehicleId: string)
    requires DistinctSpaceIds(spaces) && 0 <= k < |spaces|
    ensures OccupySpace(spaces, spaces[k].id, vehicleId)
      == spaces[k := spaces[k].(status := Occupied, vehicleId := Some(vehicleId))]
    ensures SameLayout(spaces, OccupySpace(spaces, spaces[k].id, vehicleId))
    ensures DistinctSpaceIds(OccupySpace(spaces, spaces[k].id, vehicleId))
    ensures OccupancyConsistent(spaces) ==> OccupancyConsistent(OccupySpace(spaces, spaces[k].id, vehicleId))
  {
    var r := OccupySpace(spaces, spaces[k].id, vehicleId);
    var e := spaces[k := spaces[k].(status := Occupied, vehicleId := Some(vehicleId))];
    forall j | 0 <= j < |spaces| ensures r[j] == e[j] {
      if j != k {
        assert spaces[j].id != spaces[k].id;
      }
    }
  }

  /** Releasing a vehicle frees every space recording it, so no space
      records it any more; it keeps the layout and the occupancy
      invariant, and touches no other space. */
  lemma ReleaseEffect(spaces: seq<ParkingSpace>, vehicleId: string)
    ensures var r := ReleaseSpaces(spaces, vehicleId);
      && SameLayout(spaces, r)
      && (forall k :: 0 <= k < |r| ==> r[k].vehicleId != Some(vehicleId))
      && (forall k :: 0 <= k < |r| && spaces[k].vehicleId == Some(vehicleId) ==>
            r[k] == spaces[k].(status := Free, vehicleId := None))
      && (forall k :: 0 <= k < |r| && spaces[k].vehicleId != Some(vehicleId) ==> r[k] == spaces[k])
      && (DistinctSpaceIds(spaces) ==> DistinctSpaceIds(r))
      && (OccupancyConsistent(spaces) ==> OccupancyConsistent(r))
  {
  }

  /** Registering an entry for a plate nobody has parked keeps parked
      plates unique. */
  lemma EntryKeepsPlatesUnique(vehicles: seq<Vehicle>, v: Vehicle)
    requires ParkedPlatesUnique(vehicles)
    requires FindParkedByPlate(vehicles, v.plate).None?
    ensures ParkedPlatesUnique([v] + vehicles)
  {
    var vs := [v] + vehicles;
    forall i, j | 0 <= i < j < |vs| && vs[i].status == Parked && vs[j].status == Parked
      ensures vs[i].plate != vs[j].plate
    {
      if i == 0 {
        assert vs[j] == vehicles[j - 1];
        assert !IsParkedWithPlate(vehicles[j - 1], v.plate);
      } else {
        assert vs[i] == vehicles[i - 1] && vs[j] == vehicles[j - 1];
      }
    }
  }

  /** Marking vehicles exited keeps parked plates unique. */
  lemma ExitKeepsPlatesUnique(vehicles: seq<Vehicle>, vehicleId: string, exitTime: int)
    requires ParkedPlatesUnique(vehicles)
    ensures ParkedPlatesUnique(MarkExited(vehicles, vehicleId, exitTime))
  {
    var r := MarkExited(vehicles, vehicleId, exitTime);
    forall i, j | 0 <= i < j < |r| && r[i].status == Parked && r[j].status == Parked
      ensures r[i].plate != r[j].plate
    {
      assert r[i] == vehicles[i] && r[j] == vehicles[j];
    }
  }

  /** With distinct vehicle ids, an exit changes the exiting vehicle alone. */
  lemma ExitChangesOnlyTarget(vehicles: seq<Vehicle>, i: int, exitTime: int)
    requires DistinctVehicleIds(vehicles) && 0 <= i < |vehicles|
    ensures MarkExited(vehicles, vehicles[i].id, exitTime)
      == vehicles[i := vehicles[i].(exitTime := Some(exitTime), status := Exited)]
  {
    var r := MarkExited(vehicles, vehicles[i].id, exitTime);
    var e := vehicles[i := vehicles[i].(exitTime := Some(exitTime), status := Exited)];
    forall j | 0 <= j < |vehicles| ensures r[j] == e[j] {
      if j != i {
        assert vehicles[j].id != vehicles[i].id;
      }
    }
  }

  /** When vehicles and spaces are linked, the spaces an exit releases are
      exactly the one the vehicle's record names. */
  lemma ExitReleasesOwnSpace(vehicles: seq<Vehicle>, spaces: seq<ParkingSpace>, i: int)
    requires Linked(vehicles, spaces) && DistinctSpaceIds(spaces)
    requires 0 <= i < |vehicles| && vehicles[i].status == Parked
    ensures forall k :: 0 <= k < |spaces| ==>
      (spaces[k].vehicleId == Some(vehicles[i].id) <==> spaces[k].id == vehicles[i].spaceId)
  {
    var v := vehicles[i];
    assert HasOwnSpace(spaces, v);
    var k0 :| 0 <= k0 < |spaces| && spaces[k0].id == v.spaceId && spaces[k0].vehicleId == Some(v.id);
    forall k | 0 <= k < |spaces|
      ensures spaces[k].vehicleId == Some(v.id) <==> spaces[k].id == v.spaceId
    {
      if spaces[k].vehicleId == Some(v.id) {
        assert HeldByParked(vehicles, spaces[k]);
        var i' :| 0 <= i' < |vehicles| && spaces[k].vehicleId == Some(vehicles[i'].id)
          && vehicles[i'].status == Parked && vehicles[i'].spaceId == spaces[k].id;
        assert i' == i;
      }
      if spaces[k].id == v.spaceId {
        assert k == k0;
      }
    }
  }

  /** No recorded vehicle has the id. */
  ghost predicate FreshVehicleId(vehicles: seq<Vehicle>, id: string)
  {
    forall i :: 0 <= i < |vehicles| ==> vehicles[i].id != id
  }

  /** The space an entry occupies records the new vehicle, which points
      back at it; every other space keeps its parked vehicle. */
  lemma EntryKeepsSpacesHeld(vehicles: seq<Vehicle>, spaces: seq<ParkingSpace>, k: int, v: Vehicle)
    requires SpacesHeld(vehicles, spaces)
    requires 0 <= k < |spaces| && v.spaceId == spaces[k].id && v.status == Parked
    ensures SpacesHeld([v] + vehicles, spaces[k := spaces[k].(status := Occupied, vehicleId := Some(v.id))])
  {
    var vs := [v] + vehicles;
    var ss := spaces[k := spaces[k].(status := Occupied, vehicleId := Some(v.id))];
    forall j | 0 <= j < |ss| && ss[j].vehicleId.Some? ensures HeldByParked(vs, ss[j]) {
      if j == k {
        assert vs[0] == v;
      } else {
        assert HeldByParked(vehicles, spaces[j]);
        var i :| 0 <= i < |vehicles| && spaces[j].vehicleId == Some(vehicles[i].id)
          && vehicles[i].status == Parked && vehicles[i].spaceId == spaces[j].id;
        assert vs[i + 1] == vehicles[i];
      }
    }
  }

  /** After an entry into an empty space, the new vehicle and every parked
      vehicle before it are recorded by their spaces. */
  lemma EntryKeepsVehiclesHoused(vehicles: seq<Vehicle>, spaces: seq<ParkingSpace>, k: int, v: Vehicle)
    requires VehiclesHoused(vehicles, spaces)
    requires 0 <= k < |spaces| && spaces[k].vehicleId == None && v.spaceId == spaces[k].id
    ensures VehiclesHoused([v] + vehicles, spaces[k := spaces[k].(status := Occupied, vehicleId := Some(v.id))])
  {
    var vs := [v] + vehicles;
    var ss := spaces[k := spaces[k].(status := Occupied, vehicleId := Some(v.id))];
    forall i | 0 <= i < |vs| && vs[i].status == Parked ensures HasOwnSpace(ss, vs[i]) {
      if i == 0 {
        assert ss[k].id == v.spaceId && ss[k].vehicleId == Some(v.id);
      } else {
        assert vs[i] == vehicles[i - 1];
        assert HasOwnSpace(spaces, vehicles[i - 1]);
        var k0 :| 0 <= k0 < |spaces| && spaces[k0].id == vehicles[i - 1].spaceId
          && spaces[k0].vehicleId == Some(vehicles[i - 1].id);
        assert ss[k0] == spaces[k0];
      }
    }
  }

  /** A fresh vehicle entering an empty space is recorded by that space
      alone. */
  lemma EntryKeepsSingleHolder(vehicles: seq<Vehicle>, spaces: seq<ParkingSpace>, k: int, vehicleId: string)
    requires SpacesHeld(vehicles, spaces) && SingleHolder(spaces) && FreshVehicleId(vehicles, vehicleId)
    requires 0 <= k < |spaces| && spaces[k].vehicleId == None
    ensures SingleHolder(spaces[k := spaces[k].(status := Occupied, vehicleId := Some(vehicleId))])
  {
    var ss := spaces[k := spaces[k].(status := Occupied, vehicleId := Some(vehicleId))];
    forall j | 0 <= j < |spaces| && j != k ensures spaces[j].vehicleId != Some(vehicleId) {
      if spaces[j].vehicleId.Some? {
        assert HeldByParked(vehicles, spaces[j]);
      }
    }
  }

  /** An entry with a fresh vehicle id into a free space keeps vehicles and
      spaces linked. */
  lemma EntryKeepsLinked(vehicles: seq<Vehicle>, spaces: seq<ParkingSpace>, k: int, v: Vehicle)
    requires OccupancyConsistent(spaces)
    requires 0 <= k < |spaces| && spaces[k].status == Free
    requires v.spaceId == spaces[k].id && v.status == Parked
    ensures Linked(vehicles, spaces) && FreshVehicleId(vehicles, v.id)
      ==> Linked([v] + vehicles, spaces[k := spaces[k].(status := Occupied, vehicleId := Some(v.id))])
  {
    if Linked(vehicles, spaces) && FreshVehicleId(vehicles, v.id) {
      var vs := [v] + vehicles;
      forall a, b | 0 <= a < b < |vs| ensures vs[a].id != vs[b].id {
        assert vs[b] == vehicles[b - 1];
        if a > 0 {
          assert vs[a] == vehicles[a - 1];
        }
      }
      EntryKeepsSpacesHeld(vehicles, spaces, k, v);
      EntryKeepsVehiclesHoused(vehicles, spaces, k, v);
      EntryKeepsSingleHolder(vehicles, spaces, k, v.id);
    }
  }

  /** Everything an accepted entry does to the collections: the chosen
      space alone becomes occupied by the new vehicle, the new vehicle goes
      in front, and the invariants survive. */
  lemma EntryEffect(vehicles: seq<Vehicle>, spaces: seq<ParkingSpace>, k: int, v: Vehicle)
    requires OccupancyConsistent(spaces) && DistinctSpaceIds(spaces) && ParkedPlatesUnique(vehicles)
    requires 0 <= k < |spaces| && spaces[k].status == Free
    requires v.spaceId == spaces[k].id && v.status == Parked
    requires FindParkedByPlate(vehicles, v.plate).None?
    ensures var ss := OccupySpace(spaces, spaces[k].id, v.id);
      && ss == spaces[k := spaces[k].(status := Occupied, vehicleId := Some(v.id))]
      && SameLayout(spaces, ss)
      && OccupancyConsistent(ss) && DistinctSpaceIds(ss)
      && ParkedPlatesUnique([v] + vehicles)
      && (Linked(vehicles, spaces) && FreshVehicleId(vehicles, v.id) ==> Linked([v] + vehicles, ss))
  {
    EntryKeepsPlatesUnique(vehicles, v);
    OccupyChangesOnlyChosen(spaces, k, v.id);
    EntryKeepsLinked(vehicles, spaces, k, v);
  }

  /** An exit keeps vehicles and spaces linked. */
  lemma ExitKeepsLinked(vehicles: seq<Vehicle>, spaces: seq<ParkingSpace>, vehicleId: string, exitTime: int)
    requires Linked(vehicles, spaces)
    ensures Linked(MarkExited(vehicles, vehicleId, exitTime), ReleaseSpaces(spaces, vehicleId))
  {
    var vs := MarkExited(vehicles, vehicleId, exitTime);
    var ss := ReleaseSpaces(spaces, vehicleId);
    forall a, b | 0 <= a < b < |vs| ensures vs[a].id != vs[b].id {
      assert vs[a].id == vehicles[a].id && vs[b].id == vehicles[b].id;
    }
    forall j | 0 <= j < |ss| && ss[j].vehicleId.Some? ensures HeldByParked(vs, ss[j]) {
      assert ss[j] == spaces[j];
      assert HeldByParked(vehicles, spaces[j]);
      var i :| 0 <= i < |vehicles| && spaces[j].vehicleId == Some(vehicles[i].id)
        && vehicles[i].status == Parked && vehicles[i].spaceId == spaces[j].id;
      assert vs[i] == vehicles[i];
    }
    forall i | 0 <= i < |vs| && vs[i].status == Parked ensures HasOwnSpace(ss, vs[i]) {
      assert vs[i] == vehicles[i];
      assert HasOwnSpace(spaces, vehicles[i]);
      var k0 :| 0 <= k0 < |spaces| && spaces[k0].id == vehicles[i].spaceId
        && spaces[k0].vehicleId == Some(vehicles[i].id);
      assert ss[k0] == spaces[k0];
    }
    forall a, b | 0 <= a < b < |ss| && ss[a].vehicleId.Some? ensures ss[a].vehicleId != ss[b].vehicleId {
      assert ss[a] == spaces[a];
    }
  }

  /** Occupying a free, empty space for a vehicle no space records, then
      releasing that vehicle, gives back the pool unchanged; the next
      entry of the same type then gets the same space again. */
  lemma OccupyReleaseRoundTrip(spaces: seq<ParkingSpace>, k: int, vehicleId: string)
    requires DistinctSpaceIds(spaces) && 0 <= k < |spaces|
    requires spaces[k].status == Free && spaces[k].vehicleId == None
    requires forall j :: 0 <= j < |spaces| ==> spaces[j].vehicleId != Some(vehicleId)
    ensures ReleaseSpaces(OccupySpace(spaces, spaces[k].id, vehicleId), vehicleId) == spaces
  {
    OccupyChangesOnlyChosen(spaces, k, vehicleId);
    var r := ReleaseSpaces(OccupySpace(spaces, spaces[k].id, vehicleId), vehicleId);
    forall j | 0 <= j < |spaces| ensures r[j] == spaces[j] {
    }
  }

  // ------------------------------------------------------ space commands

  /** `after` keeps the layout and the occupancy invariant of `before`,
      every space keeps its vehicle and whether it is occupied, and an
      occupied space is left exactly as it was. */
  ghost predicate SparesOccupied(before: seq<ParkingSpace>, after: seq<ParkingSpace>)
  {
    && SameLayout(before, after)
    && OccupancyConsistent(after)
    && (forall k :: 0 <= k < |after| ==> after[k].vehicleId == before[k].vehicleId)
    && (forall k :: 0 <= k < |after| && before[k].status == Occupied ==> after[k] == before[k])
    && (forall k :: 0 <= k < |after| ==> (after[k].status == Occupied <==> before[k].status == Occupied))
  }

  /** Blocking and unblocking never touch an occupied space and never
      occupy one. */
  lemma ToggleBlockSparesOccupied(spaces: seq<ParkingSpace>, spaceId: string)
    requires OccupancyConsistent(spaces)
    ensures SparesOccupied(spaces, ToggleBlock(spaces, spaceId))
  {
  }

  /** Reserving never touches an occupied space and never occupies one. */
  lemma ReserveSparesOccupied(spaces: seq<ParkingSpace>, spaceId: string)
    requires OccupancyConsistent(spaces)
    ensures SparesOccupied(spaces, Reserve(spaces, spaceId))
  {
  }

  /** Releasing a reservation never touches an occupied space and never
      occupies one. */
  lemma UnreserveSparesOccupied(spaces: seq<ParkingSpace>, spaceId: string)
    requires OccupancyConsistent(spaces)
    ensures SparesOccupied(spaces, Unreserve(spaces, spaceId))
  {
  }

  /** The transitions of a block toggle: a blocked target becomes free, a
      free or reserved target becomes blocked, and an occupied target and
      every space with another id stay as they were. */
  lemma ToggleBlockEffect(spaces: seq<ParkingSpace>, spaceId: string)
    ensures |ToggleBlock(spaces, spaceId)| == |spaces|
    ensures forall k :: 0 <= k < |spaces| && (spaces[k].id != spaceId || spaces[k].status == Occupied) ==>
      ToggleBlock(spaces, spaceId)[k] == spaces[k]
    ensures forall k :: 0 <= k < |spaces| && spaces[k].id == spaceId && spaces[k].status == Blocked ==>
      ToggleBlock(spaces, spaceId)[k] == spaces[k].(status := Free)
    ensures forall k :: 0 <= k < |spaces| && spaces[k].id == spaceId && spaces[k].status in {Free, Reserved} ==>
      ToggleBlock(spaces, spaceId)[k] == spaces[k].(status := Blocked)
  {
  }

  /** The transitions of a reservation: a free target becomes reserved,
      and every other space, including a target that is not free, stays
      as it was. */
  lemma ReserveEffect(spaces: seq<ParkingSpace>, spaceId: string)
    ensures |Reserve(spaces, spaceId)| == |spaces|
    ensures forall k :: 0 <= k < |spaces| && spaces[k].id == spaceId && spaces[k].status == Free ==>
      Reserve(spaces, spaceId)[k] == spaces[k].(status := Reserved)
    ensures forall k :: 0 <= k < |spaces| && (spaces[k].id != spaceId || spaces[k].status != Free) ==>
      Reserve(spaces, spaceId)[k] == spaces[k]
  {
  }

  /** The transitions of releasing a reservation: a reserved target
      becomes free, and every other space, including a target that is not
      reserved, stays as it was. */
  lemma UnreserveEffect(spaces: seq<ParkingSpace>, spaceId: string)
    ensures |Unreserve(spaces, spaceId)| == |spaces|
    ensures forall k :: 0 <= k < |spaces| && spaces[k].id == spaceId && spaces[k].status == Reserved ==>
      Unreserve(spaces, spaceId)[k] == spaces[k].(status := Free)
    ensures forall k :: 0 <= k < |spaces| && (spaces[k].id != spaceId || spaces[k].status != Reserved) ==>
      Unreserve(spaces, spaceId)[k] == spaces[k]
  {
  }

  /** Toggling twice restores the pool exactly when no space with the id is
      reserved: a reserved space goes to blocked and then to free. */
  lemma ToggleBlockTwice(spaces: seq<ParkingSpace>, spaceId: string)
    ensures ToggleBlock(ToggleBlock(spaces, spaceId), spaceId) == spaces
      <==> forall k :: 0 <= k < |spaces| && spaces[k].id == spaceId ==> spaces[k].status != Reserved
  {
    var r := ToggleBlock(ToggleBlock(spaces, spaceId), spaceId);
    if forall k :: 0 <= k < |spaces| && spaces[k].id == spaceId ==> spaces[k].status != Reserved {
      forall k | 0 <= k < |spaces| ensures r[k] == spaces[k] {
      }
    } else {
      var k :| 0 <= k < |spaces| && spaces[k].id == spaceId && spaces[k].status == Reserved;
      assert r[k].status == Free;
    }
  }

  /** Reserving then unreserving restores the pool exactly when no space
      with the id was already reserved. */
  lemma ReserveUnreserve(spaces: seq<ParkingSpace>, spaceId: string)
    ensures Unreserve(Reserve(spaces, spaceId), spaceId) == spaces
      <==> forall k :: 0 <= k < |spaces| && spaces[k].id == spaceId ==> spaces[k].status != Reserved
  {
    var r := Unreserve(Reserve(spaces, spaceId), spaceId);
    if forall k :: 0 <= k < |spaces| && spaces[k].id == spaceId ==> spaces[k].status != Reserved {
      forall k | 0 <= k < |spaces| ensures r[k] == spaces[k] {
      }
    } else {
      var k :| 0 <= k < |spaces| && spaces[k].id == spaceId && spaces[k].status == Reserved;
      assert r[k].status == Free;
    }
  }

  /** Unreserving then reserving restores the pool exactly when no space
      with the id was free. */
  lemma UnreserveReserve(spaces: seq<ParkingSpace>, spaceId: string)
    ensures Reserve(Unreserve(spaces, spaceId), spaceId) == spaces
      <==> forall k :: 0 <= k < |spaces| && spaces[k].id == spaceId ==> spaces[k].status != Free
  {
    var r := Reserve(Unreserve(spaces, spaceId), spaceId);
    if forall k :: 0 <= k < |spaces| && spaces[k].id == spaceId ==> spaces[k].status != Free {
      forall k | 0 <= k < |spaces| ensures r[k] == spaces[k] {
      }
    } else {
      var k :| 0 <= k < |spaces| && spaces[k].id == spaceId && spaces[k].status == Free;
      assert r[k].status == Reserved;
    }
  }

  /** A command that keeps every space's id and vehicle keeps the links. */
  lemma LinkedFrame(vehicles: seq<Vehicle>, spaces: seq<ParkingSpace>, spaces': seq<ParkingSpace>)
    requires Linked(vehicles, spaces)
    requires |spaces'| == |spaces|
    requires forall k :: 0 <= k < |spaces| ==> spaces'[k].id == spaces[k].id && spaces'[k].vehicleId == spaces[k].vehicleId
    ensures Linked(vehicles, spaces')
  {
    forall j | 0 <= j < |spaces'| && spaces'[j].vehicleId.Some? ensures HeldByParked(vehicles, spaces'[j]) {
      assert HeldByParked(vehicles, spaces[j]);
      var i :| 0 <= i < |vehicles| && spaces[j].vehicleId == Some(vehicles[i].id)
        && vehicles[i].status == Parked && vehicles[i].spaceId == spaces[j].id;
      assert spaces'[j].vehicleId == Some(vehicles[i].id) && vehicles[i].spaceId == spaces'[j].id;
    }
    forall i | 0 <= i < |vehicles| && vehicles[i].status == Parked ensures HasOwnSpace(spaces', vehicles[i]) {
      assert HasOwnSpace(spaces, vehicles[i]);
      var k0 :| 0 <= k0 < |spaces| && spaces[k0].id == vehicles[i].spaceId
        && spaces[k0].vehicleId == Some(vehicles[i].id);
      assert spaces'[k0].id == vehicles[i].spaceId && spaces'[k0].vehicleId == Some(vehicles[i].id);
    }
  }

  // ------------------------------------------------------- configuration

  /** A partial configuration: each top-level field is either given or not. */
  datatype ConfigPatch = ConfigPatch(
    rates: Option<RatesConfig>,
    totalSpaces: Option<SpaceCounts>,
    currency: Option<string>,
    name: Option<string>,
    gracePeriod: Option<int>,
    receiptEntry: Option<ReceiptConfig>,
    receiptExit: Option<ReceiptConfig>,
    receiptMonthly: Option<ReceiptConfig>)

  const EMPTY_PATCH: ConfigPatch := ConfigPatch(None, None, None, None, None, None, None, None)

  function Pick<T>(given: Option<T>, current: T): T
  {
    if given.Some? then given.value else current
  }

  /** `{ ...prev, ...partial }`: a shallow merge in which given fields win. */
  function MergeConfig(c: ParkingConfig, p: ConfigPatch): ParkingConfig
  {
    ParkingConfig(
      Pick(p.rates, c.rates),
      Pick(p.totalSpaces, c.totalSpaces),
      Pick(p.currency, c.currency),
      Pick(p.name, c.name),
      Pick(p.gracePeriod, c.gracePeriod),
      Pick(p.receiptEntry, c.receiptEntry),
      Pick(p.receiptExit, c.receiptExit),
      Pick(p.receiptMonthly, c.receiptMonthly))
  }

  /** The patch that applies `p` and then `q`. */
  function ThenPatch(p: ConfigPatch, q: ConfigPatch): ConfigPatch
  {
    ConfigPatch(
      if q.rates.Some? then q.rates else p.rates,
      if q.totalSpaces.Some? then q.totalSpaces else p.totalSpaces,
      if q.currency.Some? then q.currency else p.currency,
      if q.name.Some? then q.name else p.name,
      if q.gracePeriod.Some? then q.gracePeriod else p.gracePeriod,
      if q.receiptEntry.Some? then q.receiptEntry else p.receiptEntry,
      if q.receiptExit.Some? then q.receiptExit else p.receiptExit,
      if q.receiptMonthly.Some? then q.receiptMonthly else p.receiptMonthly)
  }

  /** An empty patch changes nothing, applying a patch twice is applying
      it once, and two merges in a row are one merge with the later patch
      winning. */
  lemma MergeConfigLaws(c: ParkingConfig, p: ConfigPatch, q: ConfigPatch)
    ensures MergeConfig(c, EMPTY_PATCH) == c
    ensures MergeConfig(MergeConfig(c, p), p) == MergeConfig(c, p)
    ensures MergeConfig(MergeConfig(c, p), q) == MergeConfig(c, ThenPatch(p, q))
  {
  }

  /** Field by field, a field the patch gives replaces the current one
      and a field it leaves out is kept. */
  lemma MergeConfigFields(c: ParkingConfig, p: ConfigPatch)
    ensures var m := MergeConfig(c, p);
      && m.rates == (if p.rates.Some? then p.rates.value else c.rates)
      && m.totalSpaces == (if p.totalSpaces.Some? then p.totalSpaces.value else c.totalSpaces)
      && m.currency == (if p.currency.Some? then p.currency.value else c.currency)
      && m.name == (if p.name.Some? then p.name.value else c.name)
      && m.gracePeriod == (if p.gracePeriod.Some? then p.gracePeriod.value else c.gracePeriod)
      && m.receiptEntry == (if p.receiptEntry.Some? then p.receiptEntry.value else c.receiptEntry)
      && m.receiptExit == (if p.receiptExit.Some? then p.receiptExit.value else c.receiptExit)
      && m.receiptMonthly == (if p.receiptMonthly.Some? then p.receiptMonthly.value else c.receiptMonthly)
  {
  }

  // -------------------------------------------------------------- engine

  datatype EntryError = EmptyPlate | AlreadyParked | NoFreeSpace

  datatype EntryResult = Entered(vehicle: Vehicle) | Rejected(reason: EntryError)

  /** The outcome of the entry checks: refused for a reason, or admitted
      into the space at the given index. */
  datatype Admission = Refused(reason: EntryError) | Admitted(spaceIndex: nat)

  /** The checks an entry makes on its normalised plate, in order: the
      plate must not be empty, no parked vehicle may hold it, and a free
      space of the type must exist; the first such space is chosen. */
  function Admit(vehicles: seq<Vehicle>, spaces: seq<ParkingSpace>, plate: string, vtype: VehicleType): (a: Admission)
    ensures a == Refused(EmptyPlate) <==> plate == []
    ensures a == Refused(AlreadyParked) <==>
      plate != [] && exists i :: 0 <= i < |vehicles| && IsParkedWithPlate(vehicles[i], plate)
    ensures a == Refused(NoFreeSpace) <==>
      && plate != []
      && (forall i :: 0 <= i < |vehicles| ==> !IsParkedWithPlate(vehicles[i], plate))
      && (forall k :: 0 <= k < |spaces| ==> !IsFreeOfType(spaces[k], vtype))
    ensures a.Admitted? ==>
      && a.spaceIndex < |spaces| && IsFreeOfType(spaces[a.spaceIndex], vtype)
      && (forall k :: 0 <= k < a.spaceIndex ==> !IsFreeOfType(spaces[k], vtype))
      && (forall i :: 0 <= i < |vehicles| ==> !IsParkedWithPlate(vehicles[i], plate))
  {
    if plate == [] then Refused(EmptyPlate)
    else if FindParkedByPlate(vehicles, plate).Some? then Refused(AlreadyParked)
    else match FindFreeSpace(spaces, vtype)
      case None => Refused(NoFreeSpace)
      case Some(k) => Admitted(k)
  }

  /** The engine state and its operations. Ids, ticket codes and the
      current time are supplied by the caller. */
  class ParkingProvider {
    var vehicles: seq<Vehicle>
    var payments: seq<Payment>
    var spaces: seq<ParkingSpace>
    var config: ParkingConfig

    ghost predicate Valid()
      reads this
    {
      && OccupancyConsistent(spaces)
      && DistinctSpaceIds(spaces)
      && ParkedPlatesUnique(vehicles)
    }

    /** A fresh engine: no vehicles, no payments, the pool built from the
        configuration. */
    constructor (initial: ParkingConfig)
      ensures Valid() && Linked(vehicles, spaces)
      ensures config == initial && vehicles == [] && payments == []
      ensures spaces == SpacePool(initial.totalSpaces)
    {
      var pool := InitSpaces(initial);
      SpacePoolAllFree(initial.totalSpaces);
      SpacePoolDistinct(initial.totalSpaces);
      config := initial;
      vehicles := [];
      payments := [];
      spaces := pool;
    }

    method UpdateConfig(patch: ConfigPatch)
      modifies this
      ensures config == MergeConfig(old(config), patch)
      ensures vehicles == old(vehicles) && payments == old(payments) && spaces == old(spaces)
    {
      config := MergeConfig(config, patch);
    }

    method RegisterEntry(plate: string, vtype: VehicleType, newId: string, now: int, ticketCode: string)
      returns (r: EntryResult)
      requires Valid()
      modifies this
      ensures Valid()
      ensures payments == old(payments) && config == old(config)
      ensures SameLayout(old(spaces), spaces)
      ensures var a := Admit(old(vehicles), old(spaces), NormalizePlate(plate), vtype);
        && (r.Rejected? <==> a.Refused?)
        && (r.Rejected? ==> r.reason == a.reason && vehicles == old(vehicles) && spaces == old(spaces))
        && (r.Entered? ==>
              var k := a.spaceIndex;
              && r.vehicle == Vehicle(newId, NormalizePlate(plate), vtype, now, None, old(spaces)[k].id, Parked, ticketCode)
              && vehicles == [r.vehicle] + old(vehicles)
              && spaces == old(spaces)[k := old(spaces)[k].(status := Occupied, vehicleId := Some(newId))])
      ensures old(Linked(vehicles, spaces)) && FreshVehicleId(old(vehicles), newId) ==> Linked(vehicles, spaces)
    {
      var normalized := NormalizePlate(plate);
      var admission := Admit(vehicles, spaces, normalized, vtype);
      if admission.Refused? {
        return Rejected(admission.reason);
      }
      var k := admission.spaceIndex;
      var vehicle := Vehicle(newId, normalized, vtype, now, None, spaces[k].id, Parked, ticketCode);
      EntryEffect(vehicles, spaces, k, vehicle);
      vehicles := [vehicle] + vehicles;
      spaces := OccupySpace(spaces, spaces[k].id, vehicle.id);
      r := Entered(vehicle);
    }

    method RegisterExit(vehicleId: string, payMethod: PaymentMethod, paymentId: string, now: int, rates: FeeRates)
      returns (r: Option<Payment>)
      requires Valid()
      modifies this
      ensures Valid()
      ensures config == old(config)
      ensures SameLayout(old(spaces), spaces)
      ensures r.None? <==> FindParkedById(old(vehicles), vehicleId).None?
      ensures r.None? ==> vehicles == old(vehicles) && spaces == old(spaces) && payments == old(payments)
      ensures r.Some? ==> FindParkedById(old(vehicles), vehicleId).Some?
      ensures r.Some? ==>
        var v := old(vehicles)[FindParkedById(old(vehicles), vehicleId).value];
        var duration := CalcDuration(v.entryTime, now);
        && r.value == Payment(paymentId, vehicleId, v.plate, CalcFee(duration, v.vtype, rates),
                              payMethod, Paid, now, v.vtype, duration)
        && vehicles == MarkExited(old(vehicles), vehicleId, now)
        && spaces == ReleaseSpaces(old(spaces), vehicleId)
        && payments == [r.value] + old(payments)
      ensures r.Some? && old(Linked(vehicles, spaces)) ==>
        var k := FindParkedById(old(vehicles), vehicleId).value;
        var v := old(vehicles)[k];
        && vehicles == old(vehicles)[k := v.(exitTime := Some(now), status := Exited)]
        && (forall j :: 0 <= j < |spaces| ==>
              spaces[j] == if old(spaces)[j].id == v.spaceId then old(spaces)[j].(status := Free, vehicleId := None)
                           else old(spaces)[j])
      ensures old(Linked(vehicles, spaces)) ==> Linked(vehicles, spaces)
    {
      var found := FindParkedById(vehicles, vehicleId);
      if found.None? {
        return None;
      }
      var vehicle := vehicles[found.value];
      var exitTime := now;
      var duration := CalcDuration(vehicle.entryTime, exitTime);
      var amount := CalcFee(duration, vehicle.vtype, rates);
      var payment := Payment(paymentId, vehicleId, vehicle.plate, amount, payMethod, Paid, exitTime, vehicle.vtype, duration);
      ExitKeepsPlatesUnique(vehicles, vehicleId, exitTime);
      ReleaseEffect(spaces, vehicleId);
      if Linked(vehicles, spaces) {
        ExitKeepsLinked(vehicles, spaces, vehicleId, exitTime);
        ExitChangesOnlyTarget(vehicles, found.value, exitTime);
        ExitReleasesOwnSpace(vehicles, spaces, found.value);
      }
      vehicles := MarkExited(vehicles, vehicleId, exitTime);
      spaces := ReleaseSpaces(spaces, vehicleId);
      payments := [payment] + payments;
      r := Some(payment);
    }

    method ToggleSpaceBlock(spaceId: string)
      requires Valid()
      modifies this
      ensures Valid()
      ensures spaces == ToggleBlock(old(spaces), spaceId)
      ensures vehicles == old(vehicles) && payments == old(payments) && config == old(config)
      ensures SameLayout(old(spaces), spaces)
      ensures old(Linked(vehicles, spaces)) ==> Linked(vehicles, spaces)
    {
      ToggleBlockSparesOccupied(spaces, spaceId);
      if Linked(vehicles, spaces) {
        LinkedFrame(vehicles, spaces, ToggleBlock(spaces, spaceId));
      }
      spaces := ToggleBlock(spaces, spaceId);
    }

    method ReserveSpace(spaceId: string)
      requires Valid()
      modifies this
      ensures Valid()
      ensures spaces == Reserve(old(spaces), spaceId)
      ensures vehicles == old(vehicles) && payments == old(payments) && config == old(config)
      ensures SameLayout(old(spaces), spaces)
      ensures old(Linked(vehicles, spaces)) ==> Linked(vehicles, spaces)
    {
      ReserveSparesOccupied(spaces, spaceId);
      if Linked(vehicles, spaces) {
        LinkedFrame(vehicles, spaces, Reserve(spaces, spaceId));
      }
      spaces := Reserve(spaces, spaceId);
    }

    method UnreserveSpace(spaceId: string)
      requires Valid()
      modifies this
      ensures Valid()
      ensures spaces == Unreserve(old(spaces), spaceId)
      ensures vehicles == old(vehicles) && payments == old(payments) && config == old(config)
      ensures SameLayout(old(spaces), spaces)
      ensures old(Linked(vehicles, spaces)) ==> Linked(vehicles, spaces)
    {
      UnreserveSparesOccupied(spaces, spaceId);
      if Linked(vehicles, spaces) {
        LinkedFrame(vehicles, spaces, Unreserve(spaces, spaceId));
      }
      spaces := Unreserve(spaces, spaceId);
    }
  }
}
