/** Vehicle registration and listing: who a new vehicle belongs to, which
    requests are refused, and which vehicles a user may list. */
module Vehicles {
  import opened Common
  import opened Parking
  import Roles

  /** The fields of a create request's body that the handler reads. */
  datatype VehicleBody = VehicleBody(licensePlate: Option<string>, vehicleType: Option<string>, userId: Option<int>)

  datatype VehicleFailure =
    | AuthenticationRequired      // 401
    | MissingFields               // 400
    | InvalidVehicleType          // 400
    | DuplicatePlateForOwner      // 409

  function VehicleFailureCode(f: VehicleFailure): (c: int)
    ensures c == 401 <==> f == AuthenticationRequired
    ensures c == 409 <==> f == DuplicatePlateForOwner
    ensures c in {400, 401, 409}
  {
    match f
    case AuthenticationRequired => 401
    case DuplicatePlateForOwner => 409
    case _ => 400
  }

  /** Only the role id decides here: the number 2 is an admin. */
  predicate IsAdminId(user: Roles.User) {
    user.roleId == Some(Num(2))
  }

  /** The vehicle type named by the body, if it is one of the three. */
  function TypeNamed(name: string): (r: Option<VehicleType>)
    ensures r.Some? <==> name in {"car", "motorcycle", "truck"}
  {
    if name == "car" then Some(Car)
    else if name == "motorcycle" then Some(Motorcycle)
    else if name == "truck" then Some(Truck)
    else None
  }

  /** The owner of a new vehicle: the caller, unless an admin names a
      (truthy) user in the body. */
  function OwnerFor(caller: int, isAdmin: bool, bodyUserId: Option<int>): (owner: int)
    requires caller != 0
    ensures owner != 0
    ensures !isAdmin ==> owner == caller
    ensures isAdmin ==> owner == (if TruthyId(bodyUserId) then bodyUserId.value else caller)
  {
    if !isAdmin then caller
    else if TruthyId(bodyUserId) then bodyUserId.value
    else caller
  }

  /** Is the plate already registered to that owner? */
  predicate HasPlateForOwner(vehicles: map<int, Vehicle>, plate: string, owner: int) {
    exists id :: id in vehicles && vehicles[id].licensePlate == plate && vehicles[id].userId == owner
  }

  /** The checks of `create`, in order: an authenticated user id, a plate
      and a type, a known type, then no vehicle with the same plate for the
      chosen owner. The vehicle to insert on success. */
  function CreateDecision(vehicles: map<int, Vehicle>, user: Option<Roles.User>, body: VehicleBody)
    : (r: Result<Vehicle, VehicleFailure>)
    ensures r == Err(AuthenticationRequired) <==> user.None? || !TruthyId(user.value.userId)
    ensures r.Ok? ==>
      TruthyText(body.licensePlate) && r.value.licensePlate == body.licensePlate.value
      && TruthyText(body.vehicleType) && TypeNamed(body.vehicleType.value) == Some(r.value.vehicleType)
      && r.value.userId == OwnerFor(user.value.userId.value, IsAdminId(user.value), body.userId)
      && !HasPlateForOwner(vehicles, r.value.licensePlate, r.value.userId)
    ensures r == Err(MissingFields) <==>
      user.Some? && TruthyId(user.value.userId) && !(TruthyText(body.licensePlate) && TruthyText(body.vehicleType))
    ensures r == Err(InvalidVehicleType) <==>
      user.Some? && TruthyId(user.value.userId) && TruthyText(body.licensePlate) && TruthyText(body.vehicleType)
      && TypeNamed(body.vehicleType.value).None?
    ensures r == Err(DuplicatePlateForOwner) <==>
      user.Some? && TruthyId(user.value.userId) && TruthyText(body.licensePlate) && TruthyText(body.vehicleType)
      && TypeNamed(body.vehicleType.value).Some?
      && HasPlateForOwner(vehicles, body.licensePlate.value,
                          OwnerFor(user.value.userId.value, IsAdminId(user.value), body.userId))
  {
    if user.None? || !TruthyId(user.value.userId) then Err(AuthenticationRequired)
    else if !TruthyText(body.licensePlate) || !TruthyText(body.vehicleType) then Err(MissingFields)
    else
      match TypeNamed(body.vehicleType.value)
      case None => Err(InvalidVehicleType)
      case Some(t) =>
        var owner := OwnerFor(user.value.userId.value, IsAdminId(user.value), body.userId);
        if HasPlateForOwner(vehicles, body.licensePlate.value, owner) then Err(DuplicatePlateForOwner)
        else Ok(Vehicle(owner, body.licensePlate.value, t))
  }

  /** A non-admin always registers for themselves, whatever the body says;
      an unauthenticated request is refused before its fields are read. */
  lemma OwnerIsForcedForNonAdmin(vehicles: map<int, Vehicle>, u: Roles.User, body: VehicleBody, otherUserId: Option<int>)
    requires !IsAdminId(u)
    ensures var r := CreateDecision(vehicles, Some(u), body);
      r.Ok? ==> r.value.userId == u.userId.value
    ensures CreateDecision(vehicles, Some(u), body) == CreateDecision(vehicles, Some(u), body.(userId := otherUserId))
    ensures !TruthyId(u.userId) ==>
      CreateDecision(vehicles, Some(u), body) == CreateDecision(vehicles, Some(u), VehicleBody(None, None, None))
  {
  }

  /** `create`: a refusal changes nothing; success inserts exactly one
      vehicle under a fresh id. */
  method CreateVehicle(store: ParkingStore, user: Option<Roles.User>, body: VehicleBody)
    returns (r: Result<int, VehicleFailure>)
    requires store.Valid()
    modifies store`vehicles, store`nextVehicleId
    ensures store.Valid()
    ensures var d := old(CreateDecision(store.vehicles, user, body));
      (d.Err? ==> r == Err(d.error) && store.vehicles == old(store.vehicles)
                  && store.nextVehicleId == old(store.nextVehicleId))
      && (d.Ok? ==>
            r == Ok(old(store.nextVehicleId)) && r.value !in old(store.vehicles)
            && store.vehicles == old(store.vehicles)[r.value := d.value]
            && store.nextVehicleId == old(store.nextVehicleId) + 1)
  {
    var d := CreateDecision(store.vehicles, user, body);
    if d.Err? {
      return Err(d.error);
    }
    var id := store.nextVehicleId;
    store.vehicles := store.vehicles[id := d.value];
    store.nextVehicleId := id + 1;
    r := Ok(id);
  }

  /** A plate can be registered once per owner: after a successful create
      the same request is refused as a duplicate, while the same plate for
      a different owner is still accepted. */
  lemma CreateThenDuplicate(vehicles: map<int, Vehicle>, user: Option<Roles.User>, body: VehicleBody,
                            newId: int, other: Option<Roles.User>, otherBody: VehicleBody)
    requires CreateDecision(vehicles, user, body).Ok?
    ensures var v := CreateDecision(vehicles, user, body).value;
      CreateDecision(vehicles[newId := v], user, body) == Err(DuplicatePlateForOwner)
    ensures var v := CreateDecision(vehicles, user, body).value;
      var o := CreateDecision(vehicles, other, otherBody);
      o.Ok? && o.value.userId != v.userId ==>
        CreateDecision(vehicles[newId := v], other, otherBody) == o
  {
    var v := CreateDecision(vehicles, user, body).value;
    var after := vehicles[newId := v];
    assert after[newId].licensePlate == v.licensePlate && after[newId].userId == v.userId;
  }

  /** The ids `getAll` returns: an authenticated non-admin sees exactly
      their own vehicles, anyone else every vehicle. */
  function VisibleVehicles(vehicles: map<int, Vehicle>, user: Option<Roles.User>): (ids: set<int>)
    ensures ids <= vehicles.Keys
    ensures forall id :: id in vehicles ==>
      (id in ids <==> !(user.Some? && TruthyId(user.value.userId) && !IsAdminId(user.value))
                      || vehicles[id].userId == user.value.userId.value)
  {
    if user.Some? && TruthyId(user.value.userId) && !IsAdminId(user.value) then
      set id | id in vehicles && vehicles[id].userId == user.value.userId.value
    else vehicles.Keys
  }

  /** A vehicle created by a non-admin is visible to that user. */
  lemma CreatedVehicleIsVisible(vehicles: map<int, Vehicle>, u: Roles.User, body: VehicleBody, newId: int)
    requires !IsAdminId(u)
    requires CreateDecision(vehicles, Some(u), body).Ok?
    ensures newId in VisibleVehicles(vehicles[newId := CreateDecision(vehicles, Some(u), body).value], Some(u))
  {
    var v := CreateDecision(vehicles, Some(u), body).value;
    assert vehicles[newId := v][newId].userId == u.userId.value;
  }
}
