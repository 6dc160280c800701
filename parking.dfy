/** The entry/exit state machine of the vehicle-detection webhook: a detected
    licence plate and a flag either open an active parking session on a slot
    of a lot, or close the plate's active session and bill it. */
module Parking {
  import opened Common
  import Ids
  import Fee

  datatype SlotStatus = Available | Occupied | OutOfService
  datatype SessionStatus = Active | Completed | Cancelled
  datatype VehicleType = Car | Motorcycle | Truck

  /** A closed ring of [x, y] positions, as in a GeoJSON polygon. */
  type Ring = seq<seq<real>>

  datatype Lot = Lot(name: string, location: string, totalSlots: int, pricePerHour: int)

  /** A slot; its polygon (a list of rings) is optional. */
  datatype Slot = Slot(lotId: int, slotCode: string, status: SlotStatus, coordinates: Option<seq<Ring>>)

  /** A parking session; `vehicleId` is None for a walk-up vehicle, which is
      then known by `licensePlate` alone. Times are in milliseconds. */
  datatype Session = Session(
    vehicleId: Option<int>,
    licensePlate: string,
    slotId: int,
    entryTime: int,
    exitTime: Option<int>,
    fee: Option<int>,
    status: SessionStatus)

  datatype Vehicle = Vehicle(userId: int, licensePlate: string, vehicleType: VehicleType)

  /** A camera; `cameraType` is "rtsp", "http" or "webcam" and `status` is
      "active", "inactive" or "maintenance". */
  datatype Camera = Camera(streamUrl: string, cameraType: string, status: string, lotId: Option<int>)

  datatype Event = EnteredAt(plate: string, slotCode: string) | ExitedWithFee(plate: string, fee: int)
  datatype Notification = Notification(userId: int, event: Event)

  /** Who a session belongs to: a registered vehicle, or a bare plate. */
  datatype Identity = Registered(vehicleId: int) | WalkUp(plate: string)

  datatype Failure =
    | MissingPlate
    | InvalidFlag
    | DuplicateActiveSession(sessionId: int)
    | MissingParkingLot
    | SlotUnavailable(slotId: int)
    | NoSlotAvailable
    | NoActiveSession
    | RateNotFound
    | InvalidRate

  /** The HTTP status each failure is answered with. */
  function Code(f: Failure): (c: int)
    ensures c == 404 <==> (f.SlotUnavailable? || f.NoSlotAvailable? || f.NoActiveSession?)
    ensures c == 400 || c == 404
  {
    match f
    case SlotUnavailable(_) => 404
    case NoSlotAvailable => 404
    case NoActiveSession => 404
    case _ => 400
  }

  datatype Outcome =
    | Entered(sessionId: int, slotId: int, registered: bool, notified: bool)
    | Exited(sessionId: int, hours: nat, breakdown: seq<Fee.HourCharge>, total: int, notified: bool)
    | Failed(failure: Failure)

  /** The body of a detection request. */
  datatype Detection = Detection(
    licensePlate: Option<string>,
    flag: Option<int>,
    slotId: Option<int>,
    parkingLotId: Option<int>)

  // ---------------------------------------------------------------------
  // Lookups (a row found without ORDER BY is taken to be the lowest id)

  /** The registered vehicle carrying `plate`, if any. */
  function VehicleByPlate(vehicles: map<int, Vehicle>, plate: string): (r: Option<int>)
    ensures r.Some? ==> r.value in vehicles && vehicles[r.value].licensePlate == plate
    ensures r.None? <==> forall id :: id in vehicles ==> vehicles[id].licensePlate != plate
    ensures r.Some? ==> forall id :: id in vehicles && vehicles[id].licensePlate == plate ==> r.value <= id
  {
    var ids := set id | id in vehicles && vehicles[id].licensePlate == plate;
    assert forall id :: id in vehicles && vehicles[id].licensePlate == plate ==> id in ids;
    if ids == {} then None else Some(Ids.Min(ids))
  }

  function IdentityOf(vehicles: map<int, Vehicle>, plate: string): (ident: Identity)
    ensures ident.Registered? <==> VehicleByPlate(vehicles, plate).Some?
    ensures ident.Registered? ==> ident.vehicleId in vehicles && vehicles[ident.vehicleId].licensePlate == plate
    ensures ident.WalkUp? ==> ident.plate == plate
  {
    match VehicleByPlate(vehicles, plate)
    case Some(v) => Registered(v)
    case None => WalkUp(plate)
  }

  /** The identity a stored session is looked up by: its vehicle id, or its
      plate together with a null vehicle id. */
  function SessionIdentity(s: Session): Identity {
    if s.vehicleId.Some? then Registered(s.vehicleId.value) else WalkUp(s.licensePlate)
  }

  predicate IsActiveFor(s: Session, ident: Identity) {
    s.status == Active && SessionIdentity(s) == ident
  }

  /** The active session of an identity, if any. */
  function ActiveSessionOf(sessions: map<int, Session>, ident: Identity): (r: Option<int>)
    ensures r.Some? ==> r.value in sessions && IsActiveFor(sessions[r.value], ident)
    ensures r.None? <==> forall id :: id in sessions ==> !IsActiveFor(sessions[id], ident)
  {
    var ids := set id | id in sessions && IsActiveFor(sessions[id], ident);
    assert forall id :: id in sessions && IsActiveFor(sessions[id], ident) ==> id in ids;
    if ids == {} then None else Some(Ids.Min(ids))
  }

  predicate AvailableIn(slots: map<int, Slot>, id: int, lotId: int) {
    id in slots && slots[id].lotId == lotId && slots[id].status == Available
  }

  /** The slot given to an entering vehicle: a requested slot only if it is
      an available slot of the lot (never a substitute), otherwise the
      available slot of the lot with the lowest id. */
  function SelectSlot(slots: map<int, Slot>, lotId: int, requested: Option<int>): (r: Result<int, Failure>)
    ensures r.Ok? ==> AvailableIn(slots, r.value, lotId)
    ensures TruthyId(requested) ==>
      (r.Ok? <==> AvailableIn(slots, requested.value, lotId))
      && (r.Ok? ==> r.value == requested.value)
      && (r.Err? ==> r.error == SlotUnavailable(requested.value))
    ensures !TruthyId(requested) ==>
      (r.Err? <==> forall id :: id in slots ==> !AvailableIn(slots, id, lotId))
      && (r.Ok? ==> forall id :: AvailableIn(slots, id, lotId) ==> r.value <= id)
      && (r.Err? ==> r.error == NoSlotAvailable)
  {
    if TruthyId(requested) then
      if AvailableIn(slots, requested.value, lotId) then Ok(requested.value)
      else Err(SlotUnavailable(requested.value))
    else
      var ids := set id | id in slots && AvailableIn(slots, id, lotId);
      assert forall id :: AvailableIn(slots, id, lotId) ==> id in ids;
      if ids == {} then Err(NoSlotAvailable) else Ok(Ids.Min(ids))
  }

  // ---------------------------------------------------------------------
  // Entry and exit decisions (everything the handlers check before writing)

  datatype EntryPlan = EntryPlan(identity: Identity, slotId: int)

  /** The checks of an entry, in the handler's order: an active session of
      the same identity, then a lot id, then the slot choice. */
  function EntryDecision(sessions: map<int, Session>, slots: map<int, Slot>, vehicles: map<int, Vehicle>,
                         plate: string, slotId: Option<int>, lotId: Option<int>): Result<EntryPlan, Failure>
  {
    var ident := IdentityOf(vehicles, plate);
    match ActiveSessionOf(sessions, ident)
    case Some(existing) => Err(DuplicateActiveSession(existing))
    case None =>
      if !TruthyId(lotId) then Err(MissingParkingLot)
      else
        match SelectSlot(slots, lotId.value, slotId)
        case Err(f) => Err(f)
        case Ok(s) => Ok(EntryPlan(ident, s))
  }

  lemma EntryDecisionSpec(sessions: map<int, Session>, slots: map<int, Slot>, vehicles: map<int, Vehicle>,
                          plate: string, slotId: Option<int>, lotId: Option<int>)
    ensures var d := EntryDecision(sessions, slots, vehicles, plate, slotId, lotId);
      var ident := IdentityOf(vehicles, plate);
      // an identity with an active session is refused, naming that session
      ((exists id :: id in sessions && IsActiveFor(sessions[id], ident))
        <==> (d.Err? && d.error.DuplicateActiveSession?))
      && (d.Err? && d.error.DuplicateActiveSession? ==>
            d.error.sessionId in sessions && IsActiveFor(sessions[d.error.sessionId], ident))
      // the lot id is required, but only once the duplicate check has passed
      && (d.Err? && d.error == MissingParkingLot <==>
            ActiveSessionOf(sessions, ident).None? && !TruthyId(lotId))
      // once both checks pass, the slot choice alone decides
      && (ActiveSessionOf(sessions, ident).None? && TruthyId(lotId) ==>
            var pick := SelectSlot(slots, lotId.value, slotId);
            (d.Ok? <==> pick.Ok?) && (d.Err? ==> d.error == pick.error))
      // a successful entry is for this plate's identity, on an available slot of the requested lot
      && (d.Ok? ==>
            d.value.identity == ident && TruthyId(lotId)
            && AvailableIn(slots, d.value.slotId, lotId.value)
            && d.value == EntryPlan(ident, SelectSlot(slots, lotId.value, slotId).value))
  {
    var ident := IdentityOf(vehicles, plate);
    var a := ActiveSessionOf(sessions, ident);
    if a.None? {
      assert forall id :: id in sessions ==> !IsActiveFor(sessions[id], ident);
    }
  }

  datatype ExitPlan = ExitPlan(sessionId: int, rate: int)

  /** The checks of an exit: an active session of the identity, then the rate
      of the lot its slot belongs to (missing or zero, then negative). */
  function ExitDecision(lots: map<int, Lot>, sessions: map<int, Session>, slots: map<int, Slot>,
                        vehicles: map<int, Vehicle>, plate: string): (r: Result<ExitPlan, Failure>)
    ensures r.Ok? ==>
      r.value.sessionId in sessions
      && IsActiveFor(sessions[r.value.sessionId], IdentityOf(vehicles, plate))
      && r.value.rate > 0
      && sessions[r.value.sessionId].slotId in slots
    ensures (r.Err? && r.error == NoActiveSession) <==>
      forall id :: id in sessions ==> !IsActiveFor(sessions[id], IdentityOf(vehicles, plate))
    ensures r.Err? ==> r.error in {NoActiveSession, RateNotFound, InvalidRate}
  {
    match ActiveSessionOf(sessions, IdentityOf(vehicles, plate))
    case None => Err(NoActiveSession)
    case Some(id) =>
      var slotId := sessions[id].slotId;
      if slotId !in slots || slots[slotId].lotId !in lots then Err(RateNotFound)
      else
        var rate := lots[slots[slotId].lotId].pricePerHour;
        if rate == 0 then Err(RateNotFound)
        else if rate < 0 then Err(InvalidRate)
        else Ok(ExitPlan(id, rate))
  }

  /** The rate an exit is billed at is the price of the lot of the session's slot. */
  lemma ExitRateIsLotPrice(lots: map<int, Lot>, sessions: map<int, Session>, slots: map<int, Slot>,
                           vehicles: map<int, Vehicle>, plate: string)
    ensures var d := ExitDecision(lots, sessions, slots, vehicles, plate);
      d.Ok? ==>
        var s := sessions[d.value.sessionId];
        s.slotId in slots && slots[s.slotId].lotId in lots
        && d.value.rate == lots[slots[s.slotId].lotId].pricePerHour
    ensures var d := ExitDecision(lots, sessions, slots, vehicles, plate);
      var a := ActiveSessionOf(sessions, IdentityOf(vehicles, plate));
      a.Some? ==>
        var s := sessions[a.value];
        var known := s.slotId in slots && slots[s.slotId].lotId in lots;
        (d == Err(RateNotFound) <==> !known || lots[slots[s.slotId].lotId].pricePerHour == 0)
        && (d == Err(InvalidRate) <==> known && lots[slots[s.slotId].lotId].pricePerHour < 0)
  {
  }

  /** The owner to notify about a vehicle: only a registered vehicle whose
      user id is set. */
  function OwnerToNotify(vehicles: map<int, Vehicle>, ident: Identity): (r: Option<int>)
    ensures r.Some? <==> ident.Registered? && ident.vehicleId in vehicles && vehicles[ident.vehicleId].userId != 0
    ensures r.Some? ==> r.value == vehicles[ident.vehicleId].userId
  {
    if ident.Registered? && ident.vehicleId in vehicles && vehicles[ident.vehicleId].userId != 0
    then Some(vehicles[ident.vehicleId].userId)
    else None
  }

  /** The session opened by an entry. */
  function NewSession(ident: Identity, plate: string, slotId: int, now: int): (s: Session)
    ensures s.status == Active && s.exitTime.None? && s.fee.None?
    ensures s.vehicleId.None? <==> ident.WalkUp?
    ensures ident.WalkUp? ==> (SessionIdentity(s) == ident <==> ident.plate == plate)
    ensures ident.Registered? ==> SessionIdentity(s) == ident
  {
    Session(if ident.Registered? then Some(ident.vehicleId) else None, plate, slotId, now, None, None, Active)
  }

  /** The session as an exit leaves it. */
  function ClosedSession(s: Session, now: int, total: int): (c: Session)
    ensures c.status == Completed && c.exitTime == Some(now) && c.fee == Some(total)
    ensures c.vehicleId == s.vehicleId && c.licensePlate == s.licensePlate
    ensures c.slotId == s.slotId && c.entryTime == s.entryTime
  {
    s.(exitTime := Some(now), fee := Some(total), status := Completed)
  }

  /** No identity has two active sessions. */
  predicate OneActivePerIdentity(sessions: map<int, Session>) {
    forall i, j ::
      (i in sessions && j in sessions && sessions[j].status == Active
       && IsActiveFor(sessions[i], SessionIdentity(sessions[j]))) ==> i == j
  }

  /** After an entry, the plate's identity has exactly the new session as its
      active session: a second entry of the same plate is refused with that
      session's id, and an exit finds it. */
  /** Closing a session never gives an identity a second active session. */
  lemma CloseKeepsOneActive(sessions: map<int, Session>, id: int, closed: Session)
    requires OneActivePerIdentity(sessions)
    requires closed.status != Active
    ensures OneActivePerIdentity(sessions[id := closed])
  {
  }

  lemma EntryThenActive(sessions: map<int, Session>, slots: map<int, Slot>, vehicles: map<int, Vehicle>,
                        plate: string, slotId: Option<int>, lotId: Option<int>, newId: int, now: int,
                        slotId2: Option<int>, lotId2: Option<int>, slots2: map<int, Slot>)
    requires newId !in sessions
    requires EntryDecision(sessions, slots, vehicles, plate, slotId, lotId).Ok?
    ensures var plan := EntryDecision(sessions, slots, vehicles, plate, slotId, lotId).value;
      var after := sessions[newId := NewSession(plan.identity, plate, plan.slotId, now)];
      ActiveSessionOf(after, IdentityOf(vehicles, plate)) == Some(newId)
      && EntryDecision(after, slots2, vehicles, plate, slotId2, lotId2) == Err(DuplicateActiveSession(newId))
  {
    var plan := EntryDecision(sessions, slots, vehicles, plate, slotId, lotId).value;
    var ident := IdentityOf(vehicles, plate);
    var after := sessions[newId := NewSession(plan.identity, plate, plan.slotId, now)];
    assert ActiveSessionOf(sessions, ident).None?;
    assert IsActiveFor(after[newId], ident);
  }

  /** After an exit closes the identity's active session, the identity has no
      active session left: a second exit is refused. */
  lemma ExitThenInactive(lots: map<int, Lot>, sessions: map<int, Session>, slots: map<int, Slot>,
                         vehicles: map<int, Vehicle>, plate: string, now: int, total: int,
                         lots2: map<int, Lot>, slots2: map<int, Slot>)
    requires OneActivePerIdentity(sessions)
    requires ExitDecision(lots, sessions, slots, vehicles, plate).Ok?
    ensures var plan := ExitDecision(lots, sessions, slots, vehicles, plate).value;
      var after := sessions[plan.sessionId := ClosedSession(sessions[plan.sessionId], now, total)];
      ActiveSessionOf(after, IdentityOf(vehicles, plate)).None?
      && ExitDecision(lots2, after, slots2, vehicles, plate) == Err(NoActiveSession)
  {
    var plan := ExitDecision(lots, sessions, slots, vehicles, plate).value;
    var ident := IdentityOf(vehicles, plate);
    var after := sessions[plan.sessionId := ClosedSession(sessions[plan.sessionId], now, total)];
    assert IsActiveFor(sessions[plan.sessionId], ident);
  }

  // ---------------------------------------------------------------------
  // The store

  /** The tables the handlers read and write, one request at a time. */
  class ParkingStore {
    var lots: map<int, Lot>
    var slots: map<int, Slot>
    var sessions: map<int, Session>
    var vehicles: map<int, Vehicle>
    var cameras: map<int, Camera>
    var notifications: seq<Notification>
    var nextSessionId: int
    var nextVehicleId: int

    /** Keys are positive and below the auto-increment counters, and no
        identity ever has two active sessions. */
    predicate Valid()
      reads this
    {
      0 < nextSessionId && 0 < nextVehicleId
      && (forall id :: id in sessions ==> 0 < id < nextSessionId)
      && (forall id :: id in vehicles ==> 0 < id < nextVehicleId)
      && OneActivePerIdentity(sessions)
    }

    constructor(lots: map<int, Lot>, slots: map<int, Slot>, cameras: map<int, Camera>)
      ensures Valid()
      ensures this.lots == lots && this.slots == slots && this.cameras == cameras
      ensures sessions == map[] && vehicles == map[] && notifications == []
      ensures nextSessionId == 1 && nextVehicleId == 1
    {
      this.lots := lots;
      this.slots := slots;
      this.cameras := cameras;
      sessions := map[];
      vehicles := map[];
      notifications := [];
      nextSessionId := 1;
      nextVehicleId := 1;
    }

    /** The effect of a vehicle entry: either a failure with nothing
        written, or one new active session on the chosen slot, that slot
        (and only it) occupied, and a notification for a registered
        vehicle's owner. */
    twostate predicate EntryEffect(plate: string, slotId: Option<int>, lotId: Option<int>, now: int, o: Outcome)
      reads this
    {
      match old(EntryDecision(sessions, slots, vehicles, plate, slotId, lotId))
      case Err(f) =>
        o == Failed(f) && unchanged(this)
      case Ok(plan) =>
        var id := old(nextSessionId);
        var owner := old(OwnerToNotify(vehicles, plan.identity));
        o == Entered(id, plan.slotId, plan.identity.Registered?, owner.Some?)
        && id !in old(sessions)
        && sessions == old(sessions)[id := NewSession(plan.identity, plate, plan.slotId, now)]
        && nextSessionId == id + 1
        && plan.slotId in old(slots)
        && slots == old(slots)[plan.slotId := old(slots)[plan.slotId].(status := Occupied)]
        && notifications == old(notifications)
           + (if owner.Some? then [Notification(owner.value, EnteredAt(plate, old(slots)[plan.slotId].slotCode))] else [])
        && lots == old(lots) && vehicles == old(vehicles) && cameras == old(cameras)
        && nextVehicleId == old(nextVehicleId)
    }

    method Entry(plate: string, slotId: Option<int>, lotId: Option<int>, now: int) returns (o: Outcome)
      requires Valid()
      modifies this
      ensures Valid()
      ensures EntryEffect(plate, slotId, lotId, now, o)
    {
      EntryDecisionSpec(sessions, slots, vehicles, plate, slotId, lotId);
      var d := EntryDecision(sessions, slots, vehicles, plate, slotId, lotId);
      if d.Err? {
        return Failed(d.error);
      }
      var plan := d.value;
      var id := nextSessionId;
      var slot := slots[plan.slotId];
      var owner := OwnerToNotify(vehicles, plan.identity);
      var started := NewSession(plan.identity, plate, plan.slotId, now);
      assert SessionIdentity(started) == plan.identity;
      sessions := sessions[id := started];
      nextSessionId := nextSessionId + 1;
      slots := slots[plan.slotId := slot.(status := Occupied)];
      if owner.Some? {
        notifications := notifications + [Notification(owner.value, EnteredAt(plate, slot.slotCode))];
      }
      o := Entered(id, plan.slotId, plan.identity.Registered?, owner.Some?);
    }

    /** The effect of a vehicle exit at time `now`: either a failure with
        nothing written, or the active session closed with its fee, its slot
        (and only it) available again, and a notification for a registered
        vehicle's owner. */
    twostate predicate ExitEffect(plate: string, now: int, o: Outcome)
      reads this
    {
      match old(ExitDecision(lots, sessions, slots, vehicles, plate))
      case Err(f) =>
        o == Failed(f) && unchanged(this)
      case Ok(plan) =>
        plan.sessionId in old(sessions)
        && var s := old(sessions)[plan.sessionId];
        var hours := Fee.BilledHours(now - s.entryTime);
        var total := Fee.TotalFee(plan.rate, hours);
        var owner := old(OwnerToNotify(vehicles, IdentityOf(vehicles, plate)));
        o == Exited(plan.sessionId, hours, Fee.Breakdown(plan.rate, hours), total, owner.Some?)
        && sessions == old(sessions)[plan.sessionId := ClosedSession(s, now, total)]
        && s.slotId in old(slots)
        && slots == old(slots)[s.slotId := old(slots)[s.slotId].(status := Available)]
        && notifications == old(notifications)
           + (if owner.Some? then [Notification(owner.value, ExitedWithFee(plate, total))] else [])
        && lots == old(lots) && vehicles == old(vehicles) && cameras == old(cameras)
        && nextSessionId == old(nextSessionId) && nextVehicleId == old(nextVehicleId)
    }

    method Exit(plate: string, now: int) returns (o: Outcome)
      requires Valid()
      modifies this
      ensures Valid()
      ensures ExitEffect(plate, now, o)
    {
      var d := ExitDecision(lots, sessions, slots, vehicles, plate);
      if d.Err? {
        return Failed(d.error);
      }
      var plan := d.value;
      var s := sessions[plan.sessionId];
      var hours := Fee.BilledHours(now - s.entryTime);
      var total, breakdown := Fee.ComputeFee(plan.rate, hours);
      CloseKeepsOneActive(sessions, plan.sessionId, ClosedSession(s, now, total));
      sessions := sessions[plan.sessionId := ClosedSession(s, now, total)];
      var slot := slots[s.slotId];
      slots := slots[s.slotId := slot.(status := Available)];
      var owner := OwnerToNotify(vehicles, IdentityOf(vehicles, plate));
      if owner.Some? {
        notifications := notifications + [Notification(owner.value, ExitedWithFee(plate, total))];
      }
      o := Exited(plan.sessionId, hours, breakdown, total, owner.Some?);
    }

    /** The effect of the webhook: a plate and a flag (0 entry, 1 exit) are
        required before anything is looked up, and a refusal of either
        writes nothing; then the entry or exit takes effect. */
    twostate predicate DetectionEffect(req: Detection, now: int, o: Outcome)
      reads this
    {
      if !TruthyText(req.licensePlate) then o == Failed(MissingPlate) && unchanged(this)
      else if !(req.flag == Some(0) || req.flag == Some(1)) then o == Failed(InvalidFlag) && unchanged(this)
      else if req.flag == Some(0) then EntryEffect(req.licensePlate.value, req.slotId, req.parkingLotId, now, o)
      else ExitEffect(req.licensePlate.value, now, o)
    }

    method HandleDetection(req: Detection, now: int) returns (o: Outcome)
      requires Valid()
      modifies this
      ensures Valid()
      ensures DetectionEffect(req, now, o)
    {
      if !TruthyText(req.licensePlate) {
        return Failed(MissingPlate);
      }
      if !(req.flag == Some(0) || req.flag == Some(1)) {
        return Failed(InvalidFlag);
      }
      var plate := req.licensePlate.value;
      if req.flag == Some(0) {
        o := Entry(plate, req.slotId, req.parkingLotId, now);
      } else {
        o := Exit(plate, now);
      }
    }
  }
}
