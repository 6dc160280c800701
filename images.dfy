/** The decisions of the uploaded-image endpoints: what `create` accepts,
    who may update or delete an image, and how `getImageFile` answers. The
    image hosting itself is outside the model. */
module UploadImages {
  import opened Common
  import Roles

  /** An uploaded multipart file: only its MIME type is inspected. */
  datatype UploadedFile = UploadedFile(mimeType: string)

  /** A stored image: its owner (if any) and its hosted URL. */
  datatype StoredImage = StoredImage(owner: Option<int>, url: string)

  datatype ImageFailure =
    | FileRequired        // 400
    | NotAnImage          // 400
    | InvalidImageId      // 400
    | ImageNotFound       // 404
    | NoPermission        // 403

  function ImageFailureCode(f: ImageFailure): (c: int)
    ensures c == 404 <==> f == ImageNotFound
    ensures c == 403 <==> f == NoPermission
    ensures c in {400, 403, 404}
  {
    match f
    case ImageNotFound => 404
    case NoPermission => 403
    case _ => 400
  }

  /** What `create` hands to the image service: the file and its owner. */
  datatype UploadRequest = UploadRequest(file: UploadedFile, owner: Option<int>)

  /** `create`: a file under `image` (preferred) or `file`, whose MIME type
      starts with "image/"; the owner is the user's `id` and never their
      `userId`. */
  function CreateUpload(imageField: Option<UploadedFile>, fileField: Option<UploadedFile>, user: Option<Roles.User>)
    : (r: Result<UploadRequest, ImageFailure>)
    ensures r == Err(FileRequired) <==> imageField.None? && fileField.None?
    ensures imageField.Some? ==> (r.Ok? <==> StartsWith(imageField.value.mimeType, "image/"))
    ensures r.Ok? ==>
      r.value.file == (if imageField.Some? then imageField.value else fileField.value)
      && StartsWith(r.value.file.mimeType, "image/")
      && r.value.owner == (if user.Some? then user.value.id else None)
  {
    var file := if imageField.Some? then imageField else fileField;
    if file.None? then Err(FileRequired)
    else if !StartsWith(file.value.mimeType, "image/") then Err(NotAnImage)
    else Ok(UploadRequest(file.value, if user.Some? then user.value.id else None))
  }

  /** The owner recorded by `create` does not depend on the user's `userId`. */
  lemma CreateIgnoresUserId(imageField: Option<UploadedFile>, fileField: Option<UploadedFile>,
                            u: Roles.User, otherUserId: Option<int>)
    ensures CreateUpload(imageField, fileField, Some(u)) == CreateUpload(imageField, fileField, Some(u.(userId := otherUserId)))
  {
  }

  /** The admin test of `update` and `delete`: role id 2 as a number or as
      the string "2", or a role name that upper-cases to "ADMIN". */
  predicate IsAdmin(user: Option<Roles.User>) {
    user.Some?
    && (user.value.roleId == Some(Num(2)) || user.value.roleId == Some(Str("2"))
        || Upper(Roles.RoleName(user.value)) == "ADMIN")
  }

  /** This test accepts every admin the role guard accepts, and also a
      role id given as the string "2", which the guard refuses. */
  lemma AdminTestsCompared(u: Roles.User)
    ensures Roles.IsAdmin(u) ==> IsAdmin(Some(u))
    ensures u.roleId == Some(Str("2")) && Roles.RoleName(u) == "" ==>
      IsAdmin(Some(u)) && !Roles.IsAdmin(u)
  {
  }

  /** `user.id || user.userId` */
  function RequesterId(u: Roles.User): Option<int> {
    if TruthyId(u.id) then u.id else u.userId
  }

  /** A request is refused when the image has an owner, there is a user,
      that user is someone else, and they are not an admin. */
  predicate Forbidden(image: StoredImage, user: Option<Roles.User>) {
    TruthyId(image.owner) && user.Some? && image.owner != RequesterId(user.value) && !IsAdmin(user)
  }

  /** The checks of `update` and `delete`, in order: a numeric id, an
      existing image, then the permission. */
  function ModifyDecision(images: map<int, StoredImage>, idParam: string, user: Option<Roles.User>)
    : (r: Result<int, ImageFailure>)
    ensures r == Err(InvalidImageId) <==> ParseInt(idParam).None?
    ensures r == Err(ImageNotFound) <==> ParseInt(idParam).Some? && ParseInt(idParam).value !in images
    ensures r == Err(NoPermission) <==>
      ParseInt(idParam).Some? && ParseInt(idParam).value in images && Forbidden(images[ParseInt(idParam).value], user)
    ensures r.Ok? ==> ParseInt(idParam) == Some(r.value) && r.value in images
  {
    match ParseInt(idParam)
    case None => Err(InvalidImageId)
    case Some(id) =>
      if id !in images then Err(ImageNotFound)
      else if Forbidden(images[id], user) then Err(NoPermission)
      else Ok(id)
  }

  /** Who may change an existing image: its owner, an admin, a request
      without a user, and anyone at all when the image has no owner. */
  lemma WhoMayModify(images: map<int, StoredImage>, id: int, user: Option<Roles.User>)
    requires id in images
    ensures ModifyDecision(images, IntToString(id), user).Ok? <==>
      !TruthyId(images[id].owner) || user.None? || images[id].owner == RequesterId(user.value) || IsAdmin(user)
  {
    ParseIntToString(id);
  }

  datatype FileAnswer = UrlAsJson(url: string) | RedirectTo(url: string)

  /** `getImageFile`: the URL as JSON exactly when the query says
      `redirect=false`, a redirect otherwise. */
  function ImageFileAnswer(images: map<int, StoredImage>, idParam: string, redirect: Option<string>)
    : (r: Result<FileAnswer, ImageFailure>)
    ensures r.Err? <==> ParseInt(idParam).None? || ParseInt(idParam).value !in images
    ensures r.Err? ==> r.error in {InvalidImageId, ImageNotFound}
    ensures r.Ok? ==>
      r.value.url == images[ParseInt(idParam).value].url
      && (r.value.UrlAsJson? <==> redirect == Some("false"))
  {
    match ParseInt(idParam)
    case None => Err(InvalidImageId)
    case Some(id) =>
      if id !in images then Err(ImageNotFound)
      else if redirect == Some("false") then Ok(UrlAsJson(images[id].url))
      else Ok(RedirectTo(images[id].url))
  }
}
