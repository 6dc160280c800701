/** The camera endpoints: `process-vehicle` reads a plate from a camera frame
    and decides by itself whether the vehicle is entering or leaving;
    `detect-parking-space` runs the occupancy pass over the camera's lot. */
module CameraFlow {
  import opened Common
  import opened Parking
  import Occupancy

  datatype CameraFailure =
    | InvalidCameraId
    | CameraNotFound
    | CameraInactive
    | LotRequired
    | InvalidImageUrl
    | InvalidBase64Image
    | WebcamNeedsImage
    | StreamUnsupported
    | FrameFetchFailed
    | DetectionFailed
    | NoPlateDetected
    | SlotNotInLot(slotId: int)

  /** The HTTP status each failure is answered with. */
  function CameraCode(f: CameraFailure): (c: int)
    ensures c == 404 <==> f == CameraNotFound
    ensures c == 500 <==> f in {FrameFetchFailed, DetectionFailed}
    ensures c in {400, 404, 500}
  {
    match f
    case CameraNotFound => 404
    case FrameFetchFailed => 500
    case DetectionFailed => 500
    case _ => 400
  }

  /** A lot id only counts when it is a number other than 0. */
  function NonZero(x: Option<int>): (r: Option<int>)
    ensures r.Some? <==> TruthyId(x)
    ensures r.Some? ==> r == x
  {
    if TruthyId(x) then x else None
  }

  /** The lot of a `process-vehicle` request: the body's lot id, when the
      body has one, wins over the camera's, even when it does not parse. */
  function ResolveProcessLot(bodyLot: Option<Scalar>, cameraLot: Option<int>): Option<int> {
    if TruthyScalar(bodyLot) then NonZero(ParseIntOf(bodyLot.value)) else NonZero(cameraLot)
  }

  /** The lot of a `detect-parking-space` request: the camera's lot id, when
      it has one, wins over the body's. */
  function ResolveDetectLot(cameraLot: Option<int>, bodyLot: Option<Scalar>): Option<int> {
    if TruthyId(cameraLot) then cameraLot
    else if TruthyScalar(bodyLot) then NonZero(ParseIntOf(bodyLot.value))
    else None
  }

  /** The two endpoints resolve a lot the same way when only one side gives
      one, and opposite ways when both do. */
  lemma LotPrecedence(bodyLot: int, cameraLot: int)
    requires bodyLot != 0 && cameraLot != 0
    ensures ResolveProcessLot(Some(Num(bodyLot)), Some(cameraLot)) == Some(bodyLot)
    ensures ResolveDetectLot(Some(cameraLot), Some(Num(bodyLot))) == Some(cameraLot)
    ensures ResolveProcessLot(Some(Num(bodyLot)), None) == ResolveDetectLot(None, Some(Num(bodyLot))) == Some(bodyLot)
    ensures ResolveProcessLot(None, Some(cameraLot)) == ResolveDetectLot(Some(cameraLot), None) == Some(cameraLot)
  {
    ParseIntOfNumber(bodyLot);
  }

  /** Whatever lot either endpoint resolves is a real (non-zero) id taken
      from one of its two inputs; none at all is a 400. */
  lemma ResolvedLotComesFromInputs(bodyLot: Option<Scalar>, cameraLot: Option<int>)
    ensures var p := ResolveProcessLot(bodyLot, cameraLot);
      p.Some? ==> p.value != 0 && (p == cameraLot || (TruthyScalar(bodyLot) && p == ParseIntOf(bodyLot.value)))
    ensures var d := ResolveDetectLot(cameraLot, bodyLot);
      d.Some? ==> d.value != 0 && (d == cameraLot || (TruthyScalar(bodyLot) && d == ParseIntOf(bodyLot.value)))
    ensures TruthyScalar(bodyLot) ==> ResolveProcessLot(bodyLot, cameraLot) == NonZero(ParseIntOf(bodyLot.value))
    ensures TruthyId(cameraLot) ==> ResolveDetectLot(cameraLot, bodyLot) == cameraLot
  {
  }

  // ---------------------------------------------------------------------
  // Image source

  /** An uploaded multipart file. */
  datatype Upload = Upload(originalName: string)

  datatype ImageSource =
    | FromFile(fileName: string)
    | FromUrl(url: string)
    | FromBase64(data: string)
    | FromStream(streamUrl: string)

  predicate IsHttpUrl(u: string) {
    StartsWith(u, "http://") || StartsWith(u, "https://")
  }

  /** A camera whose stream can be fetched over HTTP. */
  predicate StreamsOverHttp(c: Camera) {
    c.cameraType == "http" || StartsWith(c.streamUrl, "http")
  }

  /** Where the frame comes from: an uploaded file (field `image`, then
      `file`), then a non-empty `imageUrl` string, then a non-empty
      `imageBase64` string, then the camera's own stream. */
  function ChooseImageSource(imageField: Option<Upload>, fileField: Option<Upload>,
                             imageUrl: Option<Scalar>, imageBase64: Option<Scalar>, camera: Camera)
    : (r: Result<ImageSource, CameraFailure>)
    ensures (imageField.Some? || fileField.Some?) ==>
      r == Ok(FromFile(if imageField.Some? then imageField.value.originalName else fileField.value.originalName))
    ensures r.Ok? && r.value.FromUrl? ==> IsHttpUrl(r.value.url) && imageUrl == Some(Str(r.value.url))
    ensures r == Err(InvalidImageUrl) <==>
      imageField.None? && fileField.None? && TruthyScalar(imageUrl) && imageUrl.value.Str? && !IsHttpUrl(imageUrl.value.s)
    ensures r.Ok? && r.value.FromStream? ==>
      StreamsOverHttp(camera) && r.value.streamUrl == camera.streamUrl
      && !(TruthyScalar(imageUrl) && imageUrl.value.Str?) && !(TruthyScalar(imageBase64) && imageBase64.value.Str?)
    ensures r.Err? ==> r.error in {InvalidImageUrl, WebcamNeedsImage, StreamUnsupported}
  {
    if imageField.Some? then Ok(FromFile(imageField.value.originalName))
    else if fileField.Some? then Ok(FromFile(fileField.value.originalName))
    else if TruthyScalar(imageUrl) && imageUrl.value.Str? then
      if IsHttpUrl(imageUrl.value.s) then Ok(FromUrl(imageUrl.value.s)) else Err(InvalidImageUrl)
    else if TruthyScalar(imageBase64) && imageBase64.value.Str? then Ok(FromBase64(imageBase64.value.s))
    else if StreamsOverHttp(camera) then Ok(FromStream(camera.streamUrl))
    else if camera.cameraType == "webcam" then Err(WebcamNeedsImage)
    else Err(StreamUnsupported)
  }

  // ---------------------------------------------------------------------
  // process-vehicle

  /** The camera named by the route's id: the id must parse, the camera
      must exist and its status must be "active". */
  function ActiveCamera(cameras: map<int, Camera>, idParam: string): (r: Result<Camera, CameraFailure>)
    ensures r == Err(InvalidCameraId) <==> ParseInt(idParam).None?
    ensures r == Err(CameraNotFound) <==> ParseInt(idParam).Some? && ParseInt(idParam).value !in cameras
    ensures r == Err(CameraInactive) <==>
      ParseInt(idParam).Some? && ParseInt(idParam).value in cameras
      && cameras[ParseInt(idParam).value].status != "active"
    ensures r.Ok? ==> ParseInt(idParam).Some? && r.value == cameras[ParseInt(idParam).value] && r.value.status == "active"
  {
    match ParseInt(idParam)
    case None => Err(InvalidCameraId)
    case Some(id) =>
      if id !in cameras then Err(CameraNotFound)
      else if cameras[id].status != "active" then Err(CameraInactive)
      else Ok(cameras[id])
  }

  /** The body of a `process-vehicle` request. */
  datatype CameraRequest = CameraRequest(
    parkingLotId: Option<Scalar>,
    slotId: Option<Scalar>,
    imageUrl: Option<Scalar>,
    imageBase64: Option<Scalar>)

  /** What the outside world answers: whether saving or fetching the frame
      succeeded (only asked for a base64 or stream source), and what the plate
      detector returned (an error, or the plate field of its result). */
  datatype CameraIo = CameraIo(acquired: bool, detection: Result<Option<string>, string>)

  /** The request handed on to the vehicle-detection handler. */
  datatype Dispatch = Dispatch(plate: string, flag: int, lotId: int, slotId: Option<int>)

  /** The slot id handed on: a body slot id that parses must be a slot of
      the lot (any status); one that does not parse is dropped. */
  function ResolveSlot(slots: map<int, Slot>, lotId: int, bodySlot: Option<Scalar>): (r: Result<Option<int>, CameraFailure>)
    ensures r.Ok? && r.value.Some? ==> r.value.value in slots && slots[r.value.value].lotId == lotId
    ensures !TruthyScalar(bodySlot) ==> r == Ok(None)
    ensures TruthyScalar(bodySlot) && ParseIntOf(bodySlot.value).None? ==> r == Ok(None)
    ensures TruthyScalar(bodySlot) && ParseIntOf(bodySlot.value).Some? ==>
      var p := ParseIntOf(bodySlot.value).value;
      (r.Ok? <==> p in slots && slots[p].lotId == lotId)
      && (r.Ok? ==> r.value == Some(p))
      && (r.Err? ==> r.error == SlotNotInLot(p))
  {
    if !TruthyScalar(bodySlot) then Ok(None)
    else
      match ParseIntOf(bodySlot.value)
      case None => Ok(None)
      case Some(p) => if p in slots && slots[p].lotId == lotId then Ok(Some(p)) else Err(SlotNotInLot(p))
  }

  /** A dispatch the detection handler can act on: a plate, a flag that is
      1 exactly when the plate's identity has an active session, a lot, and
      at most a slot of that lot. */
  predicate WellFormedDispatch(sessions: map<int, Session>, vehicles: map<int, Vehicle>,
                               slots: map<int, Slot>, d: Dispatch)
  {
    d.plate != ""
    && (d.flag == 0 || d.flag == 1)
    && (d.flag == 1 <==> exists sid :: sid in sessions && IsActiveFor(sessions[sid], IdentityOf(vehicles, d.plate)))
    && d.lotId != 0
    && (d.slotId.Some? ==> d.slotId.value in slots && slots[d.slotId.value].lotId == d.lotId)
  }

  /** The part of `process-vehicle` after the plate is read: a plate is
      required, the flag is chosen from the active sessions, and the slot
      is checked against the lot. */
  function PlateDispatch(sessions: map<int, Session>, vehicles: map<int, Vehicle>, slots: map<int, Slot>,
                         lotId: int, bodySlot: Option<Scalar>, plate: Option<string>)
    : (r: Result<Dispatch, CameraFailure>)
    requires lotId != 0
    ensures r == Err(NoPlateDetected) <==> !TruthyText(plate)
    ensures TruthyText(plate) ==> (r.Ok? <==> ResolveSlot(slots, lotId, bodySlot).Ok?)
    ensures r.Ok? ==>
      WellFormedDispatch(sessions, vehicles, slots, r.value)
      && r.value.plate == plate.value && r.value.lotId == lotId
      && r.value.slotId == ResolveSlot(slots, lotId, bodySlot).value
  {
    if !TruthyText(plate) then Err(NoPlateDetected)
    else
      var active := ActiveSessionOf(sessions, IdentityOf(vehicles, plate.value));
      var flag := if active.Some? then 1 else 0;
      match ResolveSlot(slots, lotId, bodySlot)
      case Err(f) => Err(f)
      case Ok(slot) => Ok(Dispatch(plate.value, flag, lotId, slot))
  }

  /** Everything `process-vehicle` decides before it hands the request on:
      camera, lot, image source, frame, plate, flag and slot, in that order. */
  function PrepareDispatch(cameras: map<int, Camera>, slots: map<int, Slot>, sessions: map<int, Session>,
                           vehicles: map<int, Vehicle>, idParam: string, body: CameraRequest,
                           imageField: Option<Upload>, fileField: Option<Upload>, io: CameraIo)
    : (r: Result<Dispatch, CameraFailure>)
    ensures r.Ok? ==> WellFormedDispatch(sessions, vehicles, slots, r.value)
    ensures ActiveCamera(cameras, idParam).Err? ==> r == Err(ActiveCamera(cameras, idParam).error)
    ensures ActiveCamera(cameras, idParam).Ok? ==>
      var lot := ResolveProcessLot(body.parkingLotId, ActiveCamera(cameras, idParam).value.lotId);
      (lot.None? ==> r == Err(LotRequired))
      && (r.Ok? ==> lot == Some(r.value.lotId))
    ensures r.Ok? ==> io.detection == Ok(Some(r.value.plate))
  {
    match ActiveCamera(cameras, idParam)
    case Err(f) => Err(f)
    case Ok(camera) =>
      match ResolveProcessLot(body.parkingLotId, camera.lotId)
      case None => Err(LotRequired)
      case Some(lot) =>
        match ChooseImageSource(imageField, fileField, body.imageUrl, body.imageBase64, camera)
        case Err(f) => Err(f)
        case Ok(source) =>
          if source.FromBase64? && !io.acquired then Err(InvalidBase64Image)
          else if source.FromStream? && !io.acquired then Err(FrameFetchFailed)
          else
            match io.detection
            case Err(_) => Err(DetectionFailed)
            case Ok(plate) => PlateDispatch(sessions, vehicles, slots, lot, body.slotId, plate)
  }

  /** How the detection handler can answer a well-formed dispatch: an entry
      can fail only for want of a slot, an exit only for want of a rate. */
  predicate Routed(flag: int, o: Outcome) {
    (flag == 0 ==> o.Entered? || (o.Failed? && (o.failure.SlotUnavailable? || o.failure == NoSlotAvailable)))
    && (flag == 1 ==> o.Exited? || (o.Failed? && o.failure in {RateNotFound, InvalidRate}))
  }

  /** A well-formed dispatch never meets the entry handler's duplicate or
      lot checks, nor the exit handler's missing-session check. */
  lemma WellFormedDispatchRoutes(lots: map<int, Lot>, sessions: map<int, Session>, slots: map<int, Slot>,
                                 vehicles: map<int, Vehicle>, d: Dispatch)
    requires WellFormedDispatch(sessions, vehicles, slots, d)
    ensures d.flag == 0 ==>
      var e := EntryDecision(sessions, slots, vehicles, d.plate, d.slotId, Some(d.lotId));
      e.Err? ==> e.error.SlotUnavailable? || e.error == NoSlotAvailable
    ensures d.flag == 1 ==>
      var x := ExitDecision(lots, sessions, slots, vehicles, d.plate);
      x.Err? ==> x.error in {RateNotFound, InvalidRate}
  {
    EntryDecisionSpec(sessions, slots, vehicles, d.plate, d.slotId, Some(d.lotId));
    if d.flag == 0 {
      var ident := IdentityOf(vehicles, d.plate);
      assert forall id :: id in sessions ==> !IsActiveFor(sessions[id], ident);
    }
  }

  /** The detection request `process-vehicle` hands on. */
  function AsDetection(d: Dispatch): Parking.Detection {
    Parking.Detection(Some(d.plate), Some(d.flag), d.slotId, Some(d.lotId))
  }

  datatype CameraOutcome = Rejected(failure: CameraFailure) | Dispatched(dispatch: Dispatch, outcome: Outcome)

  /** `process-vehicle`: a rejection leaves the store as it was; otherwise
      the detection handler runs with the chosen flag, and answers only with
      an entry, an exit, or a missing slot or rate. */
  method ProcessVehicleFromCamera(store: ParkingStore, idParam: string, body: CameraRequest,
                                  imageField: Option<Upload>, fileField: Option<Upload>, io: CameraIo, now: int)
    returns (r: CameraOutcome)
    requires store.Valid()
    modifies store
    ensures store.Valid()
    ensures var p := old(PrepareDispatch(store.cameras, store.slots, store.sessions, store.vehicles,
                                         idParam, body, imageField, fileField, io));
      (p.Err? ==> r == Rejected(p.error) && unchanged(store))
      && (p.Ok? ==> r.Dispatched? && r.dispatch == p.value
                    && store.DetectionEffect(AsDetection(p.value), now, r.outcome))
    ensures r.Dispatched? ==> Routed(r.dispatch.flag, r.outcome)
  {
    var p := PrepareDispatch(store.cameras, store.slots, store.sessions, store.vehicles,
                             idParam, body, imageField, fileField, io);
    if p.Err? {
      return Rejected(p.error);
    }
    var d := p.value;
    WellFormedDispatchRoutes(store.lots, store.sessions, store.slots, store.vehicles, d);
    var o := store.HandleDetection(AsDetection(d), now);
    r := Dispatched(d, o);
  }

  // ---------------------------------------------------------------------
  // detect-parking-space

  /** What the outside world answers: whether the stream was fetched and
      the recommender answered, and the vehicles the detector found (None
      when that call failed). */
  datatype DetectIo = DetectIo(fetched: bool, recommended: bool, vehicles: Option<seq<Occupancy.VehicleShape>>)

  datatype DetectFailure = DetectRejected(failure: CameraFailure) | RecommendFailed

  datatype DetectOutcome = DetectFailed(reason: DetectFailure) | Recommended(passRan: bool)

  /** The checks of `detect-parking-space` before anything is fetched:
      camera id, camera, status, lot (camera first), HTTP stream. */
  function DetectPrecheck(cameras: map<int, Camera>, idParam: string, bodyLot: Option<Scalar>): (r: Result<int, CameraFailure>)
    ensures ActiveCamera(cameras, idParam).Err? ==> r == Err(ActiveCamera(cameras, idParam).error)
    ensures ActiveCamera(cameras, idParam).Ok? ==>
      var camera := ActiveCamera(cameras, idParam).value;
      var lot := ResolveDetectLot(camera.lotId, bodyLot);
      (lot.None? ==> r == Err(LotRequired))
      && (lot.Some? ==> r == (if StreamsOverHttp(camera) then Ok(lot.value) else Err(StreamUnsupported)))
    ensures r.Ok? ==> r.value != 0
  {
    match ActiveCamera(cameras, idParam)
    case Err(f) => Err(f)
    case Ok(camera) =>
      match ResolveDetectLot(camera.lotId, bodyLot)
      case None => Err(LotRequired)
      case Some(lot) => if StreamsOverHttp(camera) then Ok(lot) else Err(StreamUnsupported)
  }

  /** `detect-parking-space`: the occupancy pass runs over the resolved lot
      only when the detector found at least one vehicle; its failures are
      swallowed, and every other failure leaves the slots as they were. */
  method DetectParkingSpaceFromCamera(store: ParkingStore, idParam: string, bodyLot: Option<Scalar>,
                                      io: DetectIo, geo: Occupancy.Geometry)
    returns (r: DetectOutcome)
    modifies store`slots
    ensures var pre := DetectPrecheck(store.cameras, idParam, bodyLot);
      (pre.Err? ==> r == DetectFailed(DetectRejected(pre.error)) && store.slots == old(store.slots))
      && (pre.Ok? && !io.fetched ==> r == DetectFailed(DetectRejected(FrameFetchFailed)) && store.slots == old(store.slots))
      && (pre.Ok? && io.fetched && !io.recommended ==> r == DetectFailed(RecommendFailed) && store.slots == old(store.slots))
      && (pre.Ok? && io.fetched && io.recommended ==>
            var runs := io.vehicles.Some? && |io.vehicles.value| > 0;
            r == Recommended(runs)
            && (!runs ==> store.slots == old(store.slots))
            && (runs && old(Occupancy.AbortsPass(geo, store.slots, pre.value, io.vehicles.value)) ==>
                  store.slots == old(store.slots))
            && (runs && !old(Occupancy.AbortsPass(geo, store.slots, pre.value, io.vehicles.value)) ==>
                  store.slots == Occupancy.ReconciledSlots(old(store.slots), store.sessions, pre.value,
                    old(Occupancy.OverlappedSlots(geo, store.slots, pre.value, io.vehicles.value)))))
  {
    var pre := DetectPrecheck(store.cameras, idParam, bodyLot);
    if pre.Err? {
      return DetectFailed(DetectRejected(pre.error));
    }
    if !io.fetched {
      return DetectFailed(DetectRejected(FrameFetchFailed));
    }
    if !io.recommended {
      return DetectFailed(RecommendFailed);
    }
    var runs := io.vehicles.Some? && |io.vehicles.value| > 0;
    if runs {
      var aborted, saved := Occupancy.MatchVehiclesToSlots(store, io.vehicles.value, pre.value, geo);
    }
    r := Recommended(runs);
  }
}
