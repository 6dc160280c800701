/** The pure rules of the recognition-service client: which part of the
    license-plate service's answer names the plate, how a candidate plate
    is cleaned or rejected, how a data-URL image is split, and which form
    fields and headers the other calls send and read. */
module FastApi {
  import opened Common

  /** A parsed JSON value. A missing property reads as `JNull`, like
      `undefined`, which every rule here treats the same way as `null`. */
  datatype Json =
    | JNull
    | JBool(b: bool)
    | JNum(n: int)
    | JStr(s: string)
    | JArr(items: seq<Json>)
    | JObj(fields: map<string, Json>)

  /** JavaScript truthiness of a JSON value (arrays and objects are truthy). */
  predicate Truthy(v: Json) {
    match v
    case JNull => false
    case JBool(b) => b
    case JNum(n) => n != 0
    case JStr(s) => s != ""
    case JArr(_) => true
    case JObj(_) => true
  }

  /** `v.key` on a value that is not null: an object's own field, and
      nothing on any other value. */
  function Get(v: Json, key: string): (r: Json)
    ensures v.JObj? && key in v.fields ==> r == v.fields[key]
    ensures !(v.JObj? && key in v.fields) ==> r == JNull
  {
    if v.JObj? && key in v.fields then v.fields[key] else JNull
  }

  /** A property name, or a property of a nested object (`result?.plate`). */
  datatype FieldPath = Top(key: string) | Nested(parent: string, key: string)

  function Lookup(v: Json, p: FieldPath): Json {
    match p
    case Top(k) => Get(v, k)
    case Nested(q, k) => Get(Get(v, q), k)
  }

  /** The named fields tried, in order, when the answer has neither a
      `plates` nor a `details` array. */
  const PlateFields: seq<FieldPath> := [
    Top("license_plate"), Top("licensePlate"), Top("license_plate_number"), Top("licensePlateNumber"),
    Top("plate"), Top("detected_plate"), Top("detectedPlate"), Top("plate_number"), Top("plateNumber"),
    Top("number"),
    Nested("result", "license_plate"), Nested("result", "licensePlate"), Nested("result", "plate"),
    Nested("data", "license_plate"), Nested("data", "licensePlate"), Nested("data", "plate")]

  /** `a || b || … || null` over the values of `paths` in `v`: the first
      truthy one, or null when none is. */
  function FirstTruthy(v: Json, paths: seq<FieldPath>): (r: Json)
    ensures r == JNull || Truthy(r)
    ensures r == JNull <==> forall i :: 0 <= i < |paths| ==> !Truthy(Lookup(v, paths[i]))
    ensures Truthy(r) ==>
      exists i :: 0 <= i < |paths| && r == Lookup(v, paths[i])
        && forall k :: 0 <= k < i ==> !Truthy(Lookup(v, paths[k]))
  {
    if paths == [] then JNull
    else if Truthy(Lookup(v, paths[0])) then Lookup(v, paths[0])
    else
      var r := FirstTruthy(v, paths[1..]);
      assert forall i :: 0 < i < |paths| ==> Lookup(v, paths[i]) == Lookup(v, paths[1..][i - 1]);
      if Truthy(r) then
        var i :| 0 <= i < |paths| - 1 && r == Lookup(v, paths[1..][i])
          && forall k :: 0 <= k < i ==> !Truthy(Lookup(v, paths[1..][k]));
        assert forall k :: 0 < k < i + 1 ==> !Truthy(Lookup(v, paths[k]));
        r
      else r
  }

  /** A non-empty array under `key`, if there is one. */
  function NonEmptyArray(v: Json, key: string): (r: Option<seq<Json>>)
    ensures r.Some? <==> Get(v, key).JArr? && |Get(v, key).items| > 0
    ensures r.Some? ==> r.value == Get(v, key).items
  {
    var a := Get(v, key);
    if a.JArr? && |a.items| > 0 then Some(a.items) else None
  }

  /** Reading `details[0].text` throws on a body that is `null` or whose
      first detail is `null`; the plate then stays null. */
  predicate Throws(v: Json) {
    v == JNull
    || (NonEmptyArray(v, "plates").None? && NonEmptyArray(v, "details").Some?
        && NonEmptyArray(v, "details").value[0] == JNull)
  }

  /** The plate candidate of a JSON answer: `plates[0]`, else the `text` or
      `plate` of `details[0]`, else the first truthy named field. */
  function Candidate(v: Json): (r: Json)
    ensures NonEmptyArray(v, "plates").Some? ==> r == NonEmptyArray(v, "plates").value[0]
    ensures NonEmptyArray(v, "plates").None? && NonEmptyArray(v, "details").Some? ==>
      var d := NonEmptyArray(v, "details").value[0];
      (Truthy(Get(d, "text")) ==> r == Get(d, "text"))
      && (!Truthy(Get(d, "text")) && Truthy(Get(d, "plate")) ==> r == Get(d, "plate"))
      && (!Truthy(Get(d, "text")) && !Truthy(Get(d, "plate")) ==> r == JNull)
    ensures NonEmptyArray(v, "plates").None? && NonEmptyArray(v, "details").None? ==>
      (r == JNull <==> forall i :: 0 <= i < |PlateFields| ==> !Truthy(Lookup(v, PlateFields[i])))
      && (Truthy(r) ==> exists i :: 0 <= i < |PlateFields| && r == Lookup(v, PlateFields[i]))
  {
    match NonEmptyArray(v, "plates")
    case Some(plates) => plates[0]
    case None =>
      match NonEmptyArray(v, "details")
      case Some(details) =>
        var d := details[0];
        if Truthy(Get(d, "text")) then Get(d, "text")
        else if Truthy(Get(d, "plate")) then Get(d, "plate")
        else JNull
      case None => FirstTruthy(v, PlateFields)
  }

  /** The values that stand for "no plate": empty, "null" or "none" in any
      case, and exactly "undefined" or "N/A". */
  predicate IsPlaceholder(t: string) {
    t == "" || Lower(t) == "null" || Lower(t) == "none" || t == "undefined" || t == "N/A"
  }

  /** A truthy string candidate is trimmed and rejected if it is a
      placeholder; any other candidate is kept as it is. */
  function CleanPlate(v: Json): (r: Json)
    ensures !(v.JStr? && v.s != "") ==> r == v
    ensures v.JStr? && v.s != "" ==>
      (r == JNull <==> IsPlaceholder(Trim(v.s)))
      && (r != JNull ==> r == JStr(Trim(v.s)))
  {
    if v.JStr? && v.s != "" then
      var t := Trim(v.s);
      if IsPlaceholder(t) then JNull else JStr(t)
    else v
  }

  /** A cleaned string plate is trimmed and never a placeholder. */
  predicate CleanString(v: Json) {
    v.JStr? ==> Trim(v.s) == v.s && !IsPlaceholder(v.s)
  }

  /** Cleaning twice is cleaning once, and leaves a clean string. */
  lemma CleanPlateIdempotent(v: Json)
    ensures CleanPlate(CleanPlate(v)) == CleanPlate(v)
    ensures CleanPlate(v).JStr? && v.JStr? && v.s != "" ==> CleanString(CleanPlate(v))
  {
    if v.JStr? && v.s != "" {
      TrimIdempotent(v.s);
    }
  }

  /** The plate of a JSON answer (None: the body did not parse). */
  function JsonPlate(body: Option<Json>): Json {
    if body.None? || Throws(body.value) then JNull else CleanPlate(Candidate(body.value))
  }

  /** A non-empty `plates` array decides the plate alone: `details` and the
      named fields are not looked at. */
  lemma PlatesArrayWins(fields: map<string, Json>, first: Json, rest: seq<Json>, other: map<string, Json>)
    requires "plates" in fields && fields["plates"] == JArr([first] + rest)
    ensures JsonPlate(Some(JObj(fields))) == CleanPlate(first)
    ensures JsonPlate(Some(JObj(fields))) == JsonPlate(Some(JObj(other + map["plates" := JArr([first] + rest)])))
  {
    var merged := other + map["plates" := JArr([first] + rest)];
    assert Get(JObj(merged), "plates") == JArr([first] + rest);
    assert NonEmptyArray(JObj(merged), "plates") == Some([first] + rest);
  }

  // ---------------------------------------------------------------------
  // Header answers

  /** A response header as the HTTP client exposes it: a string, or a list
      for a repeated header. */
  datatype Header = HText(text: string) | HList(values: seq<string>)

  /** The headers tried, in order, when the answer is an image. */
  const HeaderNames: seq<string> := [
    "x-license-plate", "license-plate", "x-detected-license-plate",
    "detected-license-plate", "x-licenseplate", "licenseplate"]

  predicate HeaderTruthy(h: Header) {
    h.HText? ==> h.text != ""
  }

  /** The plate read from a truthy header: a string is trimmed, a list
      gives its first element untrimmed. */
  function HeaderCandidate(h: Header): Option<string> {
    match h
    case HText(t) => Some(Trim(t))
    case HList(vs) => if |vs| > 0 && vs[0] != "" then Some(vs[0]) else None
  }

  /** The plate a header contributes, if it is present, truthy, and its
      candidate is not a placeholder. */
  function AcceptedHeader(headers: map<string, Header>, name: string): (r: Option<string>)
    ensures r.Some? ==> name in headers && !IsPlaceholder(r.value)
  {
    if name in headers && HeaderTruthy(headers[name]) then
      match HeaderCandidate(headers[name])
      case None => None
      case Some(p) => if IsPlaceholder(p) then None else Some(p)
    else None
  }

  /** The plate of the first header, in the given order, that is accepted. */
  function FirstValidHeader(headers: map<string, Header>, names: seq<string>): Option<string> {
    if names == [] then None
    else if AcceptedHeader(headers, names[0]).Some? then AcceptedHeader(headers, names[0])
    else FirstValidHeader(headers, names[1..])
  }

  /** The first accepted header wins; invalid headers are skipped; no
      accepted header gives no plate. */
  lemma {:induction false} FirstValidHeaderSpec(headers: map<string, Header>, names: seq<string>)
    ensures var r := FirstValidHeader(headers, names);
      (r.None? <==> forall i :: 0 <= i < |names| ==> AcceptedHeader(headers, names[i]).None?)
      && (r.Some? ==>
            exists i :: 0 <= i < |names| && AcceptedHeader(headers, names[i]) == r
              && forall k :: 0 <= k < i ==> AcceptedHeader(headers, names[k]).None?)
  {
    if names != [] {
      FirstValidHeaderSpec(headers, names[1..]);
      var r := FirstValidHeader(headers, names);
      if AcceptedHeader(headers, names[0]).None? {
        assert forall i :: 0 < i < |names| ==> names[i] == names[1..][i - 1];
        if r.Some? {
          var i :| 0 <= i < |names| - 1 && AcceptedHeader(headers, names[1..][i]) == r
            && forall k :: 0 <= k < i ==> AcceptedHeader(headers, names[1..][k]).None?;
          assert AcceptedHeader(headers, names[i + 1]) == r;
        }
      }
    }
  }

  /** The header loop: each truthy header in turn sets the plate, which is
      kept and ends the loop when valid, and reset to null otherwise. */
  method PlateFromHeaders(headers: map<string, Header>) returns (plate: Option<string>)
    ensures plate == FirstValidHeader(headers, HeaderNames)
  {
    plate := None;
    var i := 0;
    while i < |HeaderNames|
      invariant 0 <= i <= |HeaderNames|
      invariant plate.None?
      invariant FirstValidHeader(headers, HeaderNames) == FirstValidHeader(headers, HeaderNames[i..])
    {
      var name := HeaderNames[i];
      assert HeaderNames[i..][1..] == HeaderNames[i + 1..];
      if name in headers && HeaderTruthy(headers[name]) {
        plate := HeaderCandidate(headers[name]);
        if plate.Some? && !IsPlaceholder(plate.value) {
          break;
        } else {
          plate := None;
        }
      }
      i := i + 1;
    }
  }

  /** A string value is accepted by the JSON rule exactly when a header
      holding it is accepted, and both give the same trimmed plate. */
  lemma JsonAndHeaderRulesAgree(s: string, t: string)
    requires s != ""
    ensures CleanPlate(JStr(s)) == JStr(t) <==> AcceptedHeader(map["x-license-plate" := HText(s)], "x-license-plate") == Some(t)
  {
  }

  // ---------------------------------------------------------------------
  // Images carried in a JSON answer

  /** `s.replace(p, "")`: the first occurrence of `p` removed. */
  function DropFirst(s: string, p: string): (r: string)
    requires p != ""
    ensures StartsWith(s, p) ==> r == s[|p|..]
    decreases |s|
  {
    if StartsWith(s, p) then s[|p|..]
    else if s == [] then []
    else [s[0]] + DropFirst(s[1..], p)
  }

  /** The payload of a data URL: the piece after the first comma (up to a
      second one), or the whole text when that piece is missing or empty. */
  function DataUrlPayload(s: string): string {
    var parts := Split(s, ',');
    if |parts| > 1 && parts[1] != "" then parts[1] else s
  }

  /** The media type of a data URL: the text before the first `;` without
      `data:`, or "image/png" when that is empty. */
  function DataUrlMediaType(s: string): string {
    var t := DropFirst(Split(s, ';')[0], "data:");
    if t != "" then t else "image/png"
  }

  /** For `data:<type>;<params>,<payload>` the split gives back the type and
      the payload. */
  lemma DataUrlRoundTrip(mediaType: string, params: string, payload: string)
    requires mediaType != "" && ';' !in mediaType && ',' !in mediaType && ',' !in params
    requires payload != "" && ',' !in payload
    ensures DataUrlMediaType("data:" + mediaType + ";" + params + "," + payload) == mediaType
    ensures DataUrlPayload("data:" + mediaType + ";" + params + "," + payload) == payload
  {
    var head := "data:" + mediaType;
    var s := "data:" + mediaType + ";" + params + "," + payload;
    assert s == head + [';'] + (params + "," + payload);
    SplitAround(head, params + "," + payload, ';');
    SplitNoSeparator(head, ';');
    assert Split(s, ';')[0] == head;
    assert StartsWith(head, "data:");
    var prefix := "data:" + mediaType + ";" + params;
    assert ',' !in prefix;
    assert s == prefix + [','] + payload;
    SplitAround(prefix, payload, ',');
    SplitNoSeparator(prefix, ',');
    SplitNoSeparator(payload, ',');
  }

  /** Whatever follows `data:image`, the media type read from it starts
      with "image". */
  lemma DataUrlMediaTypeIsImage(s: string)
    requires StartsWith(s, "data:image")
    ensures StartsWith(DataUrlMediaType(s), "image")
  {
    FirstPiece(s, ';');
    var first := Split(s, ';')[0];
    assert forall k :: 0 <= k < 10 ==> s[k] == "data:image"[k] != ';';
    assert |first| >= 10;
    assert first[..10] == s[..10] == "data:image";
    assert StartsWith(first, "data:");
    var t := DropFirst(first, "data:");
    assert t == first[5..];
    assert t[..5] == first[5..10] == "image";
  }

  datatype ImagePayload = RawBody | Base64Text(text: string) | NoImage

  datatype Image = Image(payload: ImagePayload, contentType: Json)

  /** The image an image-valued field of answer `v` stands for: a data URL
      is split, any other string is base64 with the answer's own content
      type, and anything else is an empty PNG. */
  function ImageFrom(v: Json, value: Json): (r: Image)
    ensures value.JStr? && StartsWith(value.s, "data:image") ==>
      r.payload == Base64Text(DataUrlPayload(value.s)) && r.contentType.JStr?
      && StartsWith(r.contentType.s, "image")
    ensures !value.JStr? ==> r == Image(NoImage, JStr("image/png"))
  {
    if value.JStr? && StartsWith(value.s, "data:image") then
      DataUrlMediaTypeIsImage(value.s);
      Image(Base64Text(DataUrlPayload(value.s)), JStr(DataUrlMediaType(value.s)))
    else if value.JStr? then
      var ct := FirstTruthy(v, [Top("content_type"), Top("contentType")]);
      Image(Base64Text(value.s), if Truthy(ct) then ct else JStr("image/png"))
    else Image(NoImage, JStr("image/png"))
  }

  /** The image of a JSON answer: `image`, else `annotated_image`, else
      none; a body that did not parse (or threw) is returned raw. */
  function JsonImage(body: Option<Json>): Image {
    if body.None? || Throws(body.value) then Image(RawBody, JStr("image/png"))
    else
      var v := body.value;
      if Truthy(Get(v, "image")) then ImageFrom(v, Get(v, "image"))
      else if Truthy(Get(v, "annotated_image")) then ImageFrom(v, Get(v, "annotated_image"))
      else Image(NoImage, JStr("image/png"))
  }

  // ---------------------------------------------------------------------
  // The whole answer

  /** The answer is read as JSON exactly when its content type mentions
      `application/json`. */
  predicate IsJsonResponse(contentType: string) {
    Contains(contentType, "application/json")
  }

  datatype PlateAnswer = PlateAnswer(image: Image, licensePlate: Json)

  function PlateOf(p: Option<string>): Json {
    if p.Some? then JStr(p.value) else JNull
  }

  /** The plate-detection answer: the body (None when it does not parse as
      JSON) or the headers give the plate, depending on the content type. */
  method ReadPlateAnswer(contentTypeHeader: Option<string>, body: Option<Json>, headers: map<string, Header>)
    returns (answer: PlateAnswer)
    ensures var ct := if TruthyText(contentTypeHeader) then contentTypeHeader.value else "";
      (IsJsonResponse(ct) ==> answer == PlateAnswer(JsonImage(body), JsonPlate(body)))
      && (!IsJsonResponse(ct) ==>
            answer == PlateAnswer(Image(RawBody, JStr(if ct != "" then ct else "image/png")),
                                  PlateOf(FirstValidHeader(headers, HeaderNames))))
  {
    var ct := if TruthyText(contentTypeHeader) then contentTypeHeader.value else "";
    if IsJsonResponse(ct) {
      answer := PlateAnswer(JsonImage(body), JsonPlate(body));
    } else {
      var plate := PlateFromHeaders(headers);
      answer := PlateAnswer(Image(RawBody, JStr(if ct != "" then ct else "image/png")), PlateOf(plate));
    }
  }

  /** Every string plate the client returns is trimmed and not a
      placeholder, whichever branch read it. */
  lemma ReturnedPlateIsClean(body: Option<Json>, headers: map<string, Header>)
    ensures JsonPlate(body).JStr? && Truthy(JsonPlate(body)) ==> CleanString(JsonPlate(body))
    ensures var h := FirstValidHeader(headers, HeaderNames);
      h.Some? ==> !IsPlaceholder(h.value) && h.value != ""
  {
    if body.Some? && !Throws(body.value) {
      CleanPlateIdempotent(Candidate(body.value));
    }
    FirstValidHeaderSpec(headers, HeaderNames);
  }

  // ---------------------------------------------------------------------
  // Other calls

  /** The `parking_lot_id` form field: sent only for a truthy lot id, as
      its decimal text, which reads back as the same id. */
  function LotIdField(parkingLotId: Option<int>): (r: Option<string>)
    ensures r.Some? <==> TruthyId(parkingLotId)
    ensures r.Some? ==> ParseInt(r.value) == parkingLotId
  {
    if TruthyId(parkingLotId) then
      ParseIntToString(parkingLotId.value);
      Some(IntToString(parkingLotId.value))
    else None
  }

  /** The vehicle coordinates of a recommendation: the first truthy of the
      two coordinate headers, parsed; a header that does not parse gives
      null instead of an error. */
  function VehicleCoordinates(xHeader: Option<string>, plainHeader: Option<string>,
                              parse: string -> Option<Json>): (r: Json)
    ensures !TruthyText(xHeader) && !TruthyText(plainHeader) ==> r == JNull
    ensures TruthyText(xHeader) ==> r == (if parse(xHeader.value).Some? then parse(xHeader.value).value else JNull)
    ensures !TruthyText(xHeader) && TruthyText(plainHeader) ==>
      r == (if parse(plainHeader.value).Some? then parse(plainHeader.value).value else JNull)
  {
    var h := if TruthyText(xHeader) then xHeader else if TruthyText(plainHeader) then plainHeader else None;
    match h
    case None => JNull
    case Some(text) =>
      match parse(text)
      case None => JNull
      case Some(v) => v
  }
}
