/** Saving a base64 image under the upload directory and deleting it
    again by its URL. The directory is a set of file names; the clock, the
    uuid generator and the outcome of the disk write are parameters. */
module ImageStorage {
  import opened Common

  /** Does `data:` followed by a character other than `;` start at `i`? */
  predicate MatchAt(p: string, i: int) {
    0 <= i && i + 6 <= |p| && p[i..i + 5] == "data:" && p[i + 5] != ';'
  }

  /** The capture of `/data:([^;]+)/`: the leftmost `data:` followed by at
      least one character other than `;`, and the longest run of such
      characters after it. */
  function MimeMatch(p: string): (r: Option<string>)
    decreases |p|
    ensures r.Some? ==> r.value != "" && ';' !in r.value
  {
    if |p| < 6 then None
    else if MatchAt(p, 0) then
      FirstPiece(p[5..], ';');
      Some(Split(p[5..], ';')[0])
    else MimeMatch(p[1..])
  }

  /** The match is the leftmost one, and none exists when MimeMatch finds
      none. */
  lemma {:induction false} MimeMatchLeftmost(p: string)
    ensures MimeMatch(p).None? <==> forall i :: 0 <= i < |p| ==> !MatchAt(p, i)
    ensures MimeMatch(p).Some? ==>
      exists i :: MatchAt(p, i) && (forall j :: 0 <= j < i ==> !MatchAt(p, j))
                  && MimeMatch(p).value == Split(p[i + 5..], ';')[0]
    decreases |p|
  {
    if |p| < 6 {
      assert forall i :: 0 <= i < |p| ==> !MatchAt(p, i);
    } else if MatchAt(p, 0) {
      assert forall j :: 0 <= j < 0 ==> !MatchAt(p, j);
    } else {
      MimeMatchLeftmost(p[1..]);
      forall i | 0 <= i < |p| - 1
        ensures MatchAt(p[1..], i) <==> MatchAt(p, i + 1)
      {
        if i + 6 <= |p| - 1 {
          assert p[1..][i..i + 5] == p[i + 1..i + 6];
        }
      }
      if MimeMatch(p).None? {
        forall i | 0 <= i < |p| ensures !MatchAt(p, i) {
          if i > 0 { assert !MatchAt(p[1..], i - 1); }
        }
      } else {
        var i :| MatchAt(p[1..], i) && (forall j :: 0 <= j < i ==> !MatchAt(p[1..], j))
                 && MimeMatch(p).value == Split(p[1..][i + 5..], ';')[0];
        assert p[1..][i + 5..] == p[i + 6..];
        forall j | 0 <= j < i + 1 ensures !MatchAt(p, j) {
          if j > 0 { assert !MatchAt(p[1..], j - 1); }
        }
        assert MatchAt(p, i + 1);
      }
    }
  }

  const DefaultMimeType := "image/jpeg"

  /** The MIME type of the saved image: with a comma in the input, the
      capture of `data:` in the text before the first comma, if any;
      "image/jpeg" otherwise. */
  function MimeType(s: string): (r: string)
    ensures r != "" && ';' !in r
    ensures ',' !in s ==> r == DefaultMimeType
  {
    if ',' in s then
      var m := MimeMatch(Split(s, ',')[0]);
      if m.Some? then m.value else DefaultMimeType
    else DefaultMimeType
  }

  /** The base64 text written: between the first and second comma when the
      input has a comma, the whole input otherwise. */
  function Payload(s: string): (r: string)
    ensures ',' in s ==> ',' !in r
    ensures ',' !in s ==> r == s
  {
    if ',' in s then
      var parts := Split(s, ',');
      assert |parts| >= 2 by { JoinSplit(s, ','); }
      parts[1]
    else s
  }

  /** The file extension: the first of png, gif and webp that the MIME type
      mentions, jpg when it mentions none. */
  function Extension(mime: string): (ext: string)
    ensures ext in {"png", "gif", "webp", "jpg"}
    ensures ext == "png" <==> Contains(mime, "png")
    ensures ext == "gif" <==> !Contains(mime, "png") && Contains(mime, "gif")
    ensures ext == "webp" <==> !Contains(mime, "png") && !Contains(mime, "gif") && Contains(mime, "webp")
    ensures '/' !in ext
  {
    if Contains(mime, "png") then "png"
    else if Contains(mime, "gif") then "gif"
    else if Contains(mime, "webp") then "webp"
    else "jpg"
  }

  const DefaultBaseUrl := "http://localhost:3000"

  /** `BASE_URL`: the environment's value when it is non-empty. */
  function BaseUrl(env: Option<string>): (r: string)
    ensures TruthyText(env) ==> r == env.value
    ensures !TruthyText(env) ==> r == DefaultBaseUrl
  {
    if TruthyText(env) then env.value else DefaultBaseUrl
  }

  /** The prefix argument, "camera" when it is left out. */
  function PrefixOr(prefix: Option<string>): string {
    if prefix.Some? then prefix.value else "camera"
  }

  /** `<prefix>-<uuid>-<milliseconds>.<extension>` */
  function FileName(prefix: string, uuid: string, now: nat, ext: string): (r: string)
    ensures '/' !in prefix && '/' !in uuid && '/' !in ext ==> '/' !in r
    ensures |r| > |prefix| + |uuid| + 2 && r[..|prefix|] == prefix && r[|prefix|] == '-'
  {
    var digits := NatToString(now);
    assert '/' !in digits by {
      forall k | 0 <= k < |digits| ensures digits[k] != '/' {}
    }
    prefix + "-" + uuid + "-" + digits + "." + ext
  }

  /** The URL the image is served from. */
  function ImageUrl(base: string, fileName: string): string {
    base + "/uploads/images/" + fileName
  }

  /** What a successful save produces: the URL it returns, and the file it
      writes with the base64 text decoded into it. */
  datatype SavedImage = SavedImage(url: string, fileName: string, base64Data: string)

  /** `saveBase64Image`: strip a data-URL header, choose the extension from
      its MIME type, name the file, write it and return its URL. A failed
      write (`writeError`) is reported with the prefix "Failed to save
      image: ". */
  method SaveBase64Image(imageBase64: string, prefix: Option<string>, baseUrlEnv: Option<string>,
                         uuid: string, now: nat, writeError: Option<string>)
    returns (r: Result<SavedImage, string>)
    ensures writeError.Some? ==> r == Err("Failed to save image: " + writeError.value)
    ensures writeError.None? ==>
      r.Ok?
      && r.value.fileName == FileName(PrefixOr(prefix), uuid, now, Extension(MimeType(imageBase64)))
      && r.value.url == ImageUrl(BaseUrl(baseUrlEnv), r.value.fileName)
      && r.value.base64Data == Payload(imageBase64)
  {
    var base64Data := imageBase64;
    var mimeType := DefaultMimeType;
    if ',' in imageBase64 {
      var parts := Split(imageBase64, ',');
      assert |parts| >= 2 by { JoinSplit(imageBase64, ','); }
      base64Data := parts[1];
      var mimeMatch := MimeMatch(parts[0]);
      if mimeMatch.Some? {
        mimeType := mimeMatch.value;
      }
    }
    var extension := "jpg";
    if Contains(mimeType, "png") {
      extension := "png";
    } else if Contains(mimeType, "gif") {
      extension := "gif";
    } else if Contains(mimeType, "webp") {
      extension := "webp";
    }
    var fileName := FileName(PrefixOr(prefix), uuid, now, extension);
    if writeError.Some? {
      return Err("Failed to save image: " + writeError.value);
    }
    r := Ok(SavedImage(ImageUrl(BaseUrl(baseUrlEnv), fileName), fileName, base64Data));
  }

  /** The file `deleteImage` removes: the last `/`-separated piece of the
      URL, when it is non-empty. */
  function DeleteTarget(url: string): (r: Option<string>)
    ensures r.Some? ==> r.value != "" && '/' !in r.value
    ensures r.None? <==> LastPiece(url, '/') == ""
  {
    var name := LastPiece(url, '/');
    if name != "" then Some(name) else None
  }

  /** `deleteImage` on the upload directory: the named file is gone if it
      was there; nothing else changes, and nothing is ever reported. */
  function DeleteImage(files: set<string>, url: string): (after: set<string>)
    ensures after <= files
    ensures DeleteTarget(url).Some? ==> after == files - {DeleteTarget(url).value}
    ensures DeleteTarget(url).None? ==> after == files
  {
    match DeleteTarget(url)
    case None => files
    case Some(name) => if name in files then files - {name} else files
  }

  /** A data URL `data:<m>;base64,<d>` is saved with MIME type `m` and
      content `d`. */
  lemma DataUrlSaved(m: string, d: string)
    requires m != "" && ';' !in m && ',' !in m && ',' !in d
    ensures MimeType("data:" + m + ";base64," + d) == m
    ensures Payload("data:" + m + ";base64," + d) == d
  {
    var head := "data:" + m + ";base64";
    var s := "data:" + m + ";base64," + d;
    assert s == head + [','] + d;
    assert ',' !in head by {
      forall k | 0 <= k < |head| ensures head[k] != ',' {
        if 5 <= k < 5 + |m| { assert head[k] == m[k - 5]; }
      }
    }
    SplitAround(head, d, ',');
    SplitNoSeparator(head, ',');
    SplitNoSeparator(d, ',');
    assert Split(s, ',') == [head, d];
    assert head[..5] == "data:" && head[5] == m[0];
    assert MatchAt(head, 0);
    assert head[5..] == m + [';'] + "base64";
    SplitAround(m, "base64", ';');
    SplitNoSeparator(m, ';');
    assert MimeMatch(head) == Some(m);
  }

  /** Without a comma the input is the payload itself, saved as jpg. */
  lemma PlainBase64Saved(s: string)
    requires ',' !in s
    ensures Payload(s) == s && Extension(MimeType(s)) == "jpg"
  {
    assert 'n' !in DefaultMimeType && 'f' !in DefaultMimeType && 'w' !in DefaultMimeType;
    MissingCharNotContained(DefaultMimeType, "png", 1);
    MissingCharNotContained(DefaultMimeType, "gif", 2);
    MissingCharNotContained(DefaultMimeType, "webp", 0);
  }

  /** Deleting by the returned URL removes exactly the file that was
      written, as long as the prefix and the uuid hold no `/`. */
  lemma SaveThenDelete(files: set<string>, base: string, prefix: string, uuid: string, now: nat, mime: string)
    requires '/' !in prefix && '/' !in uuid
    ensures var name := FileName(prefix, uuid, now, Extension(mime));
      DeleteTarget(ImageUrl(base, name)) == Some(name)
      && DeleteImage(files + {name}, ImageUrl(base, name)) == files - {name}
  {
    var name := FileName(prefix, uuid, now, Extension(mime));
    assert ImageUrl(base, name) == (base + "/uploads/images") + ['/'] + name;
    LastPieceAfterSeparator(base + "/uploads/images", name, '/');
  }
}
