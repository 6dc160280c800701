# Smart parking API — a verified model of its decision core

This project models the parts of the smart-parking REST API that decide
something. All of it is written in Dafny.

- **Entry/exit state machine.** A plate detected at a gate, together with a
  flag, either opens an ACTIVE parking session on a slot of a lot or closes the
  plate's active session. Closing bills a fee that grows ten percent per hour.
- **Camera endpoints.**
  - `process-vehicle` reads a plate from a camera frame and picks the flag
    itself.
  - `detect-parking-space` overlays the detected vehicle polygons on the lot's
    slot polygons, then reconciles every slot's status.
- **Plate extraction.** The rules that turn the recognition service's JSON body
  or response headers into a plate.
- **Validators and guards.**
  - vehicle registration, with per-owner plate uniqueness, and the owner filter
    of the vehicle list;
  - the role guards;
  - the ownership checks of uploaded images;
  - email and password validation;
  - the data-URL, MIME-type, file-name and URL handling of the local image
    store;
  - the CORS settings.

## Modules

| file | module | models |
|---|---|---|
| `common.dfy` | `Common` | JavaScript semantics the core relies on: truthiness, `trim`, `split`/`join`, `includes`, `parseInt`, `toString`, ASCII case mapping |
| `ids.dfy` | `Ids` | the least element of a finite set of ids, for lookups that take the first row |
| `fee.dfy` | `Fee` | billed hours and the compounding hourly fee, including the fee loop |
| `parking.dfy` | `Parking` | entities, lookups, the entry and exit decisions, and the `ParkingStore` class with its `Entry`, `Exit` and `HandleDetection` methods |
| `occupancy.dfy` | `Occupancy` | the two-phase slot reconciler, over a geometry oracle |
| `camera.dfy` | `CameraFlow` | the `process-vehicle` and `detect-parking-space` endpoints |
| `fastapi.dfy` | `FastApi` | plate selection and cleaning, the header scan, the data-URL split, the optional lot field and the coordinates header |
| `vehicles.dfy` | `Vehicles` | vehicle `create` and the `getAll` filter |
| `roles.dfy` | `Roles` | `authorizeRoles`, `requireAdmin`, `requireUser`, `requireOwnResourceOrAdmin` |
| `images.dfy` | `UploadImages` | the decisions of the uploaded-image endpoints |
| `validation.dfy` | `Validation` | `validateEmail`, `validatePassword`, `validateRegister`, `validateLogin` |
| `storage.dfy` | `ImageStorage` | `saveBase64Image` and `deleteImage` of the local image store |
| `cors.dfy` | `Cors` | the allowed origins, `credentials` and `maxAge` |

### Modelling choices

- **Tables.** The database tables are maps from id to record.
  - Those the handlers update in place are fields of the class
    `Parking.ParkingStore`.
  - Its invariant `Valid()` says two things: ids stay below the
    auto-increment counters, and no identity has two active sessions.
- **Inputs from outside.** These become parameters:
  - the clock;
  - the uuid;
  - the outcome of disk writes, network fetches and the recognition service.
- **Lookups without an order.** A lookup the source makes without an
  `ORDER BY` is taken to return the row with the lowest id.
- **Identity.** A session belongs to a registered vehicle, through its id, or
  to a walk-up plate, which has a null vehicle id.
- **Truthiness.** JavaScript truthiness is modelled as it behaves: 0 and `""`
  are falsy.
- **Mixed-type fields.** A body field that may be a number or a string is a
  `Common.Scalar`.
- **Geometry.** The geometry library is an oracle, `Occupancy.Geometry`.
  - It says whether a polygon can be built at all.
  - It gives the overlap ratio of a vehicle ring with a slot ring. None means
    the intersection threw or was empty.
- **Fee arithmetic.** `Math.round(x * 1.1)` on a non-negative integer becomes
  exact half-up rounding, `(11 * x + 5) / 10`. Rates are positive integers in
  the smallest currency unit.

## Model

| member | source | states |
|---|---|---|
| Fee.BilledHours | src/controllers/vehicle-detection.controller.ts:292-296 | at least one hour; for a positive duration, the smallest number of whole hours covering it |
| Fee.NextHourFee | src/controllers/vehicle-detection.controller.ts:328 | the next hour's fee is 110% of the previous one rounded to the nearest integer (within half a unit) |
| Fee.HourFee | src/controllers/vehicle-detection.controller.ts:322-329 | with a positive rate, every hour costs at least the rate |
| Fee.Breakdown | src/controllers/vehicle-detection.controller.ts:320-332 | the breakdown lists hours 1..N in order, each with its own hour fee |
| Fee.ComputeFee | src/controllers/vehicle-detection.controller.ts:315-332 | the fee loop accumulates exactly the breakdown and the total of the specification functions |
| Fee.TotalIsSumOfBreakdown | src/controllers/vehicle-detection.controller.ts:330-331 | the total is the sum of the breakdown's fees |
| Fee.TotalFeeIncreasing | src/controllers/vehicle-detection.controller.ts:322-332 | with a positive rate, billing more hours always costs strictly more |
| Fee.TotalFeeAtLeastFlat | src/controllers/vehicle-detection.controller.ts:322-332 | the total is never below rate × hours |
| Fee.TwoAndAHalfHours | src/controllers/vehicle-detection.controller.ts:292-332 | 2.5 h at 30000 is billed 3 hours: 30000 + 33000 + 36300 = 99300 |
| Parking.Code | src/controllers/vehicle-detection.controller.ts:101-156 | 404 exactly for an unavailable requested slot, no free slot or no active session; 400 otherwise |
| Parking.VehicleByPlate | src/controllers/vehicle-detection.controller.ts:36-40 | the vehicle found carries the plate (lowest id); none is found only when no vehicle carries it |
| Parking.IdentityOf | src/controllers/vehicle-detection.controller.ts:81-99 | registered exactly when a vehicle carries the plate; otherwise the walk-up identity of the plate |
| Parking.ActiveSessionOf | src/controllers/vehicle-detection.controller.ts:81-99 | the session found is an ACTIVE session of the identity; none only when the identity has none |
| Parking.SelectSlot | src/controllers/vehicle-detection.controller.ts:115-149 | a requested slot is used iff it is an available slot of the lot, never substituted (404 naming it); otherwise the lowest-id available slot of the lot, 404 iff none |
| Parking.EntryDecisionSpec | src/controllers/vehicle-detection.controller.ts:81-149 | duplicate check first (naming the active session), then the lot id; once both pass, the outcome is exactly `SelectSlot`'s (success iff it finds a slot, with its failure otherwise); success is for the plate's identity on an available slot of the lot |
| Parking.ExitDecision | src/controllers/vehicle-detection.controller.ts:283-313 | 404 iff no active session; errors only missing session, missing rate, invalid rate; success names the active session and a positive rate |
| Parking.ExitRateIsLotPrice | src/controllers/vehicle-detection.controller.ts:299-313 | the billed rate is the price of the session's slot's lot; a missing lot or zero price is "not found", a negative one "invalid" (for a numeric price: a stored `decimal` "0.00" is truthy and reaches the "invalid" answer instead; both are 400) |
| Parking.OwnerToNotify | src/controllers/vehicle-detection.controller.ts:177-185 | a notification goes exactly to the user of a registered vehicle that has one |
| Parking.NewSession | src/controllers/vehicle-detection.controller.ts:164-170 | a new session is ACTIVE with no exit time or fee; its vehicle id is null exactly for a walk-up |
| Parking.ClosedSession | src/controllers/vehicle-detection.controller.ts:335-337 | a closed session is COMPLETED with the exit time and fee set, everything else kept |
| Parking.EntryThenActive | src/controllers/vehicle-detection.controller.ts:81-106 | after an entry the identity's active session is the new one: a repeated entry is refused naming it |
| Parking.ExitThenInactive | src/controllers/vehicle-detection.controller.ts:262-288 | after an exit the identity has no active session: a repeated exit is refused |
| Parking.ParkingStore.Entry | src/controllers/vehicle-detection.controller.ts:68-247 | `EntryEffect`: a failure writes nothing; success adds one ACTIVE session under the next session id, marks only the chosen slot OCCUPIED, notifies only a registered vehicle's owner, and changes nothing else; the store stays valid |
| Parking.ParkingStore.Exit | src/controllers/vehicle-detection.controller.ts:252-357 | `ExitEffect`: a failure writes nothing; success closes the session at the exit time with the total `TotalFee(rate, BilledHours(now - entryTime))`, frees only its slot, notifies only a registered owner, and changes nothing else |
| Parking.ParkingStore.HandleDetection | src/controllers/vehicle-detection.controller.ts:22-58 | `DetectionEffect`: a missing plate or a flag other than 0/1 is refused before any lookup or write; flag 0 has the whole effect of an entry, flag 1 that of an exit |
| Occupancy.OverlappedSlots | src/controllers/camera.controller.ts:420-462 | a slot is overlapped iff it is a measured slot of the lot and some usable vehicle covers strictly more than half of it |
| Occupancy.Reconciled | src/controllers/camera.controller.ts:465-481 | overlapped means OCCUPIED; otherwise AVAILABLE unless a session is open on it, which keeps the status |
| Occupancy.ReconciledSlots | src/controllers/camera.controller.ts:465-483 | only candidate slots of the lot change, and only in their status |
| Occupancy.MeasureVehicle | src/controllers/camera.controller.ts:434-461 | one vehicle's covered slots; a measured slot whose polygon cannot be built aborts |
| Occupancy.MeasureOverlaps | src/controllers/camera.controller.ts:420-462 | phase 1 aborts exactly when a polygon cannot be built and otherwise yields the overlapped slots |
| Occupancy.ApplyStatuses | src/controllers/camera.controller.ts:465-483 | phase 2 writes the reconciled statuses and saves exactly the slots whose status changed |
| Occupancy.MatchVehiclesToSlots | src/controllers/camera.controller.ts:400-488 | an aborted pass writes nothing; otherwise the slots become the reconciled table and exactly the changed slots are saved |
| Occupancy.ReconciledIdempotent | src/controllers/camera.controller.ts:465-481 | reconciling a reconciled status changes nothing |
| Occupancy.PassKeepsOverlaps | src/controllers/camera.controller.ts:409-462 | a pass changes no slot's lot or polygon, so the overlaps and the abort condition are the same afterwards |
| Occupancy.SecondPassWritesNothing | src/controllers/camera.controller.ts:400-488 | repeating the pass on the same frame leaves the table as it is |
| CameraFlow.CameraCode | src/controllers/camera.controller.ts:498-754 | 404 exactly for a missing camera, 500 for a failed fetch or detection, 400 otherwise |
| CameraFlow.LotPrecedence | src/controllers/camera.controller.ts:525-533 | `process-vehicle` prefers the body's lot, `detect-parking-space` the camera's; with only one side both agree |
| CameraFlow.ResolvedLotComesFromInputs | src/controllers/camera.controller.ts:330-338 | a resolved lot is non-zero and comes from the camera or the parsed body value |
| CameraFlow.ChooseImageSource | src/controllers/camera.controller.ts:540-612 | file first (`image` before `file`), then an HTTP(S) `imageUrl` (any other is 400), then `imageBase64`, then an HTTP camera stream; a webcam or other stream is refused |
| CameraFlow.ActiveCamera | src/controllers/camera.controller.ts:505-522 | invalid id, missing camera and inactive camera are each reported iff they hold; a found camera is active |
| CameraFlow.ResolveSlot | src/controllers/camera.controller.ts:704-725 | a parsed slot id must belong to the lot (else 400 naming it); an unparseable one is ignored |
| CameraFlow.PlateDispatch | src/controllers/camera.controller.ts:662-725 | no plate is refused; otherwise the dispatch is well formed, with flag 1 iff the identity has an active session |
| CameraFlow.PrepareDispatch | src/controllers/camera.controller.ts:498-733 | camera errors pass through; no lot is 400; a dispatch is well formed and carries the detected plate and the resolved lot |
| CameraFlow.WellFormedDispatchRoutes | src/controllers/camera.controller.ts:662-733 | a chosen flag never meets the duplicate-session, missing-lot or missing-session refusals |
| CameraFlow.ProcessVehicleFromCamera | src/controllers/camera.controller.ts:498-754 | a rejection writes nothing; a dispatch has the whole effect of the detection webhook on the dispatched plate, flag, slot and lot, and ends in an entry, an exit, or a missing slot or rate |
| CameraFlow.DetectPrecheck | src/controllers/camera.controller.ts:305-356 | camera errors, then the lot (camera first, 400 if none), then an HTTP stream; a resolved lot is non-zero |
| CameraFlow.DetectParkingSpaceFromCamera | src/controllers/camera.controller.ts:305-392 | every failure leaves the slots as they were; the pass runs over the resolved lot only when vehicles were found |
| FastApi.FirstTruthy | src/services/fastapi.service.ts:358-375 | null iff every listed field is falsy; otherwise the first truthy field in the fixed order |
| FastApi.Candidate | src/services/fastapi.service.ts:345-376 | a non-empty `plates` array wins with its first item; else `details[0].text`, `details[0].plate` or null; else the named fields |
| FastApi.CleanPlate | src/services/fastapi.service.ts:378-389 | a non-empty string is trimmed, then nulled if it is a placeholder; anything else is kept |
| FastApi.CleanPlateIdempotent | src/services/fastapi.service.ts:378-389 | cleaning twice is cleaning once, and a cleaned string is trimmed and not a placeholder |
| FastApi.PlatesArrayWins | src/services/fastapi.service.ts:346-349 | with a non-empty `plates` array no other field is consulted |
| FastApi.AcceptedHeader | src/services/fastapi.service.ts:466-488 | an accepted header value exists and is not a placeholder |
| FastApi.FirstValidHeaderSpec | src/services/fastapi.service.ts:456-490 | the scan returns the first header in the fixed order with a valid value, skipping invalid ones |
| FastApi.PlateFromHeaders | src/services/fastapi.service.ts:465-490 | the loop with `break` returns exactly the first valid header value |
| FastApi.JsonAndHeaderRulesAgree | src/services/fastapi.service.ts:379-389 | a text header and a JSON string are cleaned by the same rule |
| FastApi.DropFirst | src/services/fastapi.service.ts:409 | `replace("data:", "")` removes a leading `data:` |
| FastApi.DataUrlRoundTrip | src/services/fastapi.service.ts:406-409 | a data URL is split back into its media type and payload |
| FastApi.DataUrlMediaTypeIsImage | src/services/fastapi.service.ts:406-409 | an image data URL yields an `image…` content type |
| FastApi.ImageFrom | src/services/fastapi.service.ts:404-438 | an image data URL is split; another string is raw base64 with the body's content type; anything else is an empty PNG |
| FastApi.ReadPlateAnswer | src/services/fastapi.service.ts:324-491 | the JSON branch is taken iff the content type contains `application/json`, otherwise the headers are scanned |
| FastApi.ReturnedPlateIsClean | src/services/fastapi.service.ts:378-490 | a returned plate, from the body or a header, is trimmed and not a placeholder |
| FastApi.LotIdField | src/services/fastapi.service.ts:64-66 | `parking_lot_id` is sent iff the lot id is truthy, as text that parses back to it |
| FastApi.VehicleCoordinates | src/services/fastapi.service.ts:76-86 | `x-vehicle-coordinates` first, then `vehicle-coordinates`; a malformed value gives null, not an error |
| Vehicles.VehicleFailureCode | src/controllers/vehicle.controller.ts:17-63 | 401 for no user, 409 for a duplicate, 400 otherwise |
| Vehicles.TypeNamed | src/controllers/vehicle.controller.ts:30-35 | a type is accepted iff it is car, motorcycle or truck |
| Vehicles.OwnerFor | src/controllers/vehicle.controller.ts:39-44 | a non-admin's vehicle is their own; an admin's goes to the body's user if given, else to themselves; never to user 0 |
| Vehicles.CreateDecision | src/controllers/vehicle.controller.ts:12-66 | 401, missing fields, invalid type and duplicate are each reported iff they hold, in that order; success inserts the plate, type and owner |
| Vehicles.OwnerIsForcedForNonAdmin | src/controllers/vehicle.controller.ts:14-40 | a non-admin's body `userId` is ignored, and an unauthenticated request is refused whatever its body |
| Vehicles.CreateVehicle | src/controllers/vehicle.controller.ts:6-79 | a refusal writes nothing; success inserts exactly one vehicle under a fresh id |
| Vehicles.CreateThenDuplicate | src/controllers/vehicle.controller.ts:51-63 | the same create is then refused with 409, while the plate is still accepted for a different owner |
| Vehicles.VisibleVehicles | src/controllers/vehicle.controller.ts:91-104 | an authenticated non-admin sees exactly their own vehicles; anyone else sees every vehicle |
| Vehicles.CreatedVehicleIsVisible | src/controllers/vehicle.controller.ts:39-104 | a vehicle a non-admin created is in that user's list |
| Roles.VerdictCode | src/middleware/role.middleware.ts:4-78 | pass, 401 or 403 |
| Roles.SomeRoleMatches | src/middleware/role.middleware.ts:15-17 | true iff some allowed role equals the role name ignoring case |
| Roles.AuthorizeRoles | src/middleware/role.middleware.ts:4-27 | 401 iff no user; pass iff the role name matches an allowed role ignoring case |
| Roles.AuthorizeRolesIgnoresRoleId | src/middleware/role.middleware.ts:10-17 | the role id plays no part in `authorizeRoles` |
| Roles.RequireAdmin | src/middleware/role.middleware.ts:31-47 | 401 iff no user; pass iff role id is the number 2 or the upper-cased role name is ADMIN |
| Roles.RequireUserSpec | src/middleware/role.middleware.ts:49 | `requireUser` passes exactly the role names "user" and "admin" in any case |
| Roles.RequireOwnResourceOrAdmin | src/middleware/role.middleware.ts:55-78 | 401 iff no user; an admin always passes; anyone else iff their user id is the parsed route id |
| Roles.AdminPassesOwnResource | src/middleware/role.middleware.ts:31-78 | passing `requireAdmin` implies passing `requireOwnResourceOrAdmin`; every guard answers 401 to a missing user |
| Roles.MissingRoleName | src/middleware/role.middleware.ts:11-37 | a missing role name counts as "": refused by `requireUser`, and by `requireAdmin` unless role id 2 |
| UploadImages.ImageFailureCode | src/controllers/uploadImage.controller.ts:21-207 | 404 for a missing image, 403 for no permission, 400 otherwise |
| UploadImages.CreateUpload | src/controllers/uploadImage.controller.ts:21-35 | 400 iff no file; `image` before `file`; accepted iff the MIME type starts with `image/`; the owner is the user's `id` |
| UploadImages.CreateIgnoresUserId | src/controllers/uploadImage.controller.ts:35 | the user's `userId` never becomes the owner |
| UploadImages.AdminTestsCompared | src/controllers/uploadImage.controller.ts:151-157 | this admin test accepts every admin `requireAdmin` accepts, and also role id "2" which that guard refuses |
| UploadImages.ModifyDecision | src/controllers/uploadImage.controller.ts:135-161 | a bad id (400), then a missing image (404), then a forbidden request (403), each iff it holds |
| UploadImages.WhoMayModify | src/controllers/uploadImage.controller.ts:151-161 | an existing image may be changed by its owner, an admin, a request without user, or anyone when it has no owner |
| UploadImages.ImageFileAnswer | src/controllers/uploadImage.controller.ts:101-124 | JSON iff `redirect=false`, a redirect otherwise, to the stored URL; errors only for a bad or unknown id |
| Validation.ValidateEmailSound | src/middleware/validation.middleware.ts:4-7 | every accepted email matches the pattern, stated by positions |
| Validation.ValidateEmailComplete | src/middleware/validation.middleware.ts:4-7 | every string matching the pattern is accepted |
| Validation.ValidateEmailMatchesPattern | src/middleware/validation.middleware.ts:4-7 | the split-based check and the positional pattern agree in both directions |
| Validation.ValidateRegister | src/middleware/validation.middleware.ts:15-41 | passes iff all three fields are present, the email matches and the password has at least 6 characters; missing fields are reported first |
| Validation.ValidateLogin | src/middleware/validation.middleware.ts:44-64 | passes iff both fields are present and the email matches; the password length is never checked |
| Validation.RegisterImpliesLogin | src/middleware/validation.middleware.ts:15-64 | whatever may register may log in, and a short password is refused only at registration |
| Validation.SampleEmails | src/middleware/validation.middleware.ts:4-7 | "a@b.co" matches; "a@b." and "a@@b.co" do not |
| ImageStorage.MimeMatch | src/utils/image-storage.util.ts:42-45 | the capture is non-empty and holds no `;` |
| ImageStorage.MimeMatchLeftmost | src/utils/image-storage.util.ts:42-45 | no capture iff `data:` followed by a non-`;` occurs nowhere; otherwise the capture is the longest `;`-free run after the leftmost occurrence |
| ImageStorage.MimeType | src/utils/image-storage.util.ts:33-46 | without a comma the MIME type is image/jpeg; it is never empty |
| ImageStorage.Payload | src/utils/image-storage.util.ts:32-39 | with a comma the payload is comma-free (the text between the first two commas); without one it is the whole input |
| ImageStorage.Extension | src/utils/image-storage.util.ts:52-59 | png, gif, webp, checked in that order, else jpg |
| ImageStorage.BaseUrl | src/utils/image-storage.util.ts:10 | the environment's non-empty value, else http://localhost:3000 |
| ImageStorage.FileName | src/utils/image-storage.util.ts:62 | the name starts with the prefix and a dash, and holds no `/` when its parts hold none |
| ImageStorage.SaveBase64Image | src/utils/image-storage.util.ts:27-75 | a failed write is reported as "Failed to save image: …"; otherwise the name, URL and written payload are those of the functions above |
| ImageStorage.DeleteTarget | src/utils/image-storage.util.ts:83-85 | the file name deleted is the last non-empty `/`-piece of the URL |
| ImageStorage.DeleteImage | src/utils/image-storage.util.ts:81-95 | only that file disappears, and nothing is ever reported |
| ImageStorage.DataUrlSaved | src/utils/image-storage.util.ts:35-46 | `data:<m>;base64,<d>` is saved with MIME type m and content d |
| ImageStorage.PlainBase64Saved | src/utils/image-storage.util.ts:32-59 | input without a comma is saved whole, as jpg |
| ImageStorage.SaveThenDelete | src/utils/image-storage.util.ts:62-95 | deleting by the returned URL removes exactly the file written |
| Cors.AllowedOrigins | src/config/cors.ts:4-17 | unset, empty or "*" gives "*"; a value with a comma gives its trimmed pieces, empty ones kept; anything else verbatim |
| Cors.OriginListRoundTrip | src/config/cors.ts:12-14 | a comma-joined list of trimmed, comma-free origins is read back as that list |
| Cors.Credentials | src/config/cors.ts:21 | off exactly for the value "false" |
| Cors.MaxAge | src/config/cors.ts:31 | the number when it is truthy, else 86400; never 0 |
| Cors.MaxAgeRoundTrip | src/config/cors.ts:31 | any non-zero integer written in decimal sets that max age |

## Left out

- HTTP and Express plumbing are not modelled. This covers response bodies and
  messages, `res.json` patching with the image URL, routes and Swagger. A
  status code is kept only as a tag on each failure.
- Network calls are not modelled. This covers the recognition service, camera
  stream fetches and push notifications. Their results are parameters:
  `CameraFlow.CameraIo`, `CameraFlow.DetectIo`, and the write outcome of
  `ImageStorage.SaveBase64Image`.
- The geometry library is an oracle. Only the 0.5 threshold, the guards
  around the oracle calls and the status-update rule are modelled.
- The order in which phase 2 visits the slots is not modelled. The result does
  not depend on it.
- Persistence is in-memory maps. ORM relations, the query builder and MySQL's
  case-insensitive collation of plate comparisons are not modelled.
- The walk-up lookup is filtered on `vehicleId: null`. The ORM's treatment of
  a null `where` value is not modelled; the filter is read as intended.
- Requests run one at a time. The read-then-write races between concurrent
  entries are not modelled.
- Fees are exact integers. Floating-point rates, `decimal(10,2)` prices and
  `toLocaleString` formatting are not modelled.
- Base64 decoding and the file write are not modelled. The saved file is
  represented by its name and its base64 text.
- Case mapping is ASCII, plus the dotless ı that `toUpperCase` maps to I.
  Other Unicode case mappings are not modelled.
- Plates and headers that are neither strings nor arrays of strings are not
  modelled. `String(v)` is not modelled.
- `Cors.NumberValue` covers only blank text and optionally signed decimal
  integers. Every other form is treated as NaN: fractions, exponents, hex,
  and `Infinity`.
- Cors.MaxAge: a fractional or exponent-form max age falls back to 86400 in
  the model. JavaScript's `Number` would accept it.
- `bigint` columns are assumed to come back as numbers, so ids compare
  with `!==` as numbers. MySQL's driver returns them as strings by default.
  Under string hydration two kinds of check fire that the model never
  takes:
  - vehicle-detection.controller.ts:152-156, the slot-lot double check,
    answers 400 after a successful slot choice, because the stored
    `parkingLotId` is a string and the requested one a number. With numeric
    ids it cannot fire, since `Parking.SelectSlot` only chooses slots of
    the lot, so it is not modelled as a branch;
  - uploadImage.controller.ts:159 and 205 refuse a non-admin owner with 403.
- UploadImages.WhoMayModify: the owner's permission holds only when the
  stored `userId` comes back as a number.
- vehicle.controller.ts:47-49, the missing owner, cannot fire, because
  `Vehicles.OwnerFor` never returns 0. It is not modelled as a branch.
- Vehicles.CreateVehicle: body fields other than the plate, type and owner
  are not modelled. The source saves the whole body, and a body `id` naming
  an existing vehicle makes the save update that row, even another user's.
- Validation.ValidateRegister: the password length is counted in characters.
  JavaScript counts UTF-16 code units, so a password of three characters
  outside the Basic Multilingual Plane passes the source and is refused in
  the model.
- Lookups without `ORDER BY` take the lowest id. The database may return any
  matching row.
- Excluded from the model:
  - the Cloudinary upload service;
  - the multer configuration;
  - JWT and bcrypt;
  - the plain CRUD controllers;
  - the recognition service's annotated image output, beyond how its content
    type and payload are chosen.
