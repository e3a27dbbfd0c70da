/** The community form: who may use it, the name of the uploaded banner
    image, the row it inserts and when its button is enabled. */
module CreateCommunity {
  import opened Common
  import opened Text
  import opened Decimal
  import opened Types

  /** `name.toLowerCase().replace(/\s+/g, '-')`: lower-cased, with every run
      of whitespace replaced by a single `-`. */
  function Slug(s: string): (r: string)
    ensures |r| <= |s|
    ensures forall i :: 0 <= i < |r| ==> !IsSpace(r[i]) && LowerChar(r[i]) == r[i]
    decreases |s|
  {
    if |s| == 0 then ""
    else if IsSpace(s[0]) then "-" + Slug(TrimStart(s[1..]))
    else [LowerChar(s[0])] + Slug(s[1..])
  }

  /** A text without whitespace is only lower-cased, and its slug is followed
      by the slug of what comes after it. */
  lemma {:induction false} SlugOfWord(a: string, rest: string)
    requires forall i :: 0 <= i < |a| ==> !IsSpace(a[i])
    ensures Slug(a + rest) == Lower(a) + Slug(rest)
    decreases |a|
  {
    if |a| > 0 {
      assert (a + rest)[1..] == a[1..] + rest;
      SlugOfWord(a[1..], rest);
      assert Lower(a) == [LowerChar(a[0])] + Lower(a[1..]);
    } else {
      assert a + rest == rest;
    }
  }

  /** A run of whitespace after a word becomes one `-`, however long it is. */
  lemma SlugCollapsesRun(a: string, w: string, b: string)
    requires forall i :: 0 <= i < |a| ==> !IsSpace(a[i])
    requires |w| > 0 && IsBlank(w)
    requires |b| == 0 || !IsSpace(b[0])
    ensures Slug(a + w + b) == Lower(a) + "-" + Slug(b)
  {
    assert a + w + b == a + (w + b);
    SlugOfWord(a, w + b);
    SlugOfRun(w, b);
  }

  /** Helper: a leading whitespace run and the whitespace after it become one
      `-`. */
  lemma SlugOfRun(w: string, b: string)
    requires |w| > 0 && IsBlank(w)
    requires |b| == 0 || !IsSpace(b[0])
    ensures Slug(w + b) == "-" + Slug(b)
  {
    assert (w + b)[0] == w[0];
    assert (w + b)[1..] == w[1..] + b;
    TrimStartSkipsBlank(w[1..], b);
  }

  /** A slug is its own slug. */
  lemma SlugIdempotent(s: string)
    ensures Slug(Slug(s)) == Slug(s)
  {
    var r := Slug(s);
    SlugOfWord(r, "");
    assert r + "" == r;
    assert Lower(r) == r;
  }

  const Folder: string := "community-images/"

  /** The uploaded banner's name: the slug, the time in milliseconds and the
      chosen file's extension. */
  function ImageFileName(name: string, fileName: string, now: nat): (r: string)
    ensures StartsWith(r, Slug(name) + "-")
  {
    var head := Slug(name) + "-";
    var r := head + Show(now) + "." + Extension(fileName);
    assert r[..|head|] == head;
    r
  }

  /** The banner's storage path. */
  function ImagePath(name: string, fileName: string, now: nat): (path: string)
    ensures StartsWith(path, Folder) && path[|Folder|..] == ImageFileName(name, fileName, now)
  {
    var path := Folder + ImageFileName(name, fileName, now);
    assert path[..|Folder|] == Folder;
    path
  }

  /** The banner's name reads back as the slug, a `-`, the digits of exactly
      the upload time, a `.` and the chosen file's extension. */
  lemma ImageFileNameReadsBack(name: string, fileName: string, now: nat)
    ensures var r, head, ext := ImageFileName(name, fileName, now), Slug(name) + "-", Extension(fileName);
      |r| > |head| + |ext| + 1 && r[..|head|] == head && r[|r| - |ext| - 1] == '.' && r[|r| - |ext|..] == ext
      && AllDigits(r[|head|..|r| - |ext| - 1]) && Parse(r[|head|..|r| - |ext| - 1]) == now
  {
    StampParts(Slug(name) + "-", now, Extension(fileName));
  }

  /** The banner's path reads back the same way after the folder. */
  lemma ImagePathReadsBack(name: string, fileName: string, now: nat)
    ensures var path, head, ext := ImagePath(name, fileName, now), Folder + Slug(name) + "-", Extension(fileName);
      |path| > |head| + |ext| + 1 && path[..|head|] == head && path[|path| - |ext| - 1] == '.' && path[|path| - |ext|..] == ext
      && AllDigits(path[|head|..|path| - |ext| - 1]) && Parse(path[|head|..|path| - |ext| - 1]) == now
  {
    Regroup(Folder, Slug(name), "-", Show(now), ".", Extension(fileName));
    StampParts(Folder + Slug(name) + "-", now, Extension(fileName));
  }

  lemma Regroup(a: string, b: string, c: string, d: string, e: string, f: string)
    ensures a + (b + c + d + e + f) == a + b + c + d + e + f
  {
  }

  /** The stored banner keeps the chosen file's extension. */
  lemma ImagePathKeepsExtension(name: string, fileName: string, now: nat)
    ensures Extension(ImagePath(name, fileName, now)) == Extension(fileName)
  {
    var head := Folder + Slug(name) + "-" + Show(now);
    assert ImagePath(name, fileName, now) == head + "." + Extension(fileName);
    ExtensionAfterLastDot(head, Extension(fileName));
  }

  /** The `communities` row inserted. */
  datatype CommunityRow = CommunityRow(name: string, description: string, imageUrl: string)

  /** What creating a community does: the upload, if any, and the row. */
  datatype Creation = Creation(upload: Option<string>, row: CommunityRow)

  /** `createCommunity`. The storage service's answer is a parameter:
      `uploadError` is its error for the upload and `publicUrl` its public
      address for a path. */
  function Create(name: string, description: string, file: Option<File>, now: nat,
                  uploadError: Option<string>, publicUrl: string -> string): (r: Result<Creation>)
    ensures file.None? ==> r == Ok(Creation(None, CommunityRow(name, description, "")))
    ensures file.Some? && uploadError.Some? ==> r == Err("Image upload failed: " + uploadError.value)
    ensures file.Some? && uploadError.None? ==>
      var path := ImagePath(name, file.value.name, now);
      r == Ok(Creation(Some(path), CommunityRow(name, description, publicUrl(path))))
  {
    match file
    case None => Ok(Creation(None, CommunityRow(name, description, "")))
    case Some(f) =>
      var path := ImagePath(name, f.name, now);
      if uploadError.Some? then Err("Image upload failed: " + uploadError.value)
      else Ok(Creation(Some(path), CommunityRow(name, description, publicUrl(path))))
  }

  /** An inserted row has an image address exactly when a file was uploaded,
      as long as the storage service never answers with an empty address. */
  lemma ImageUrlIffUploaded(name: string, description: string, file: Option<File>, now: nat,
                            publicUrl: string -> string)
    requires forall p :: publicUrl(p) != ""
    ensures var r := Create(name, description, file, now, None, publicUrl);
      r.Ok? && (r.value.row.imageUrl != "" <==> r.value.upload.Some?)
  {
  }

  /** The form's state. */
  datatype Draft = Draft(name: string, description: string, file: Option<File>, preview: string)

  const EmptyDraft: Draft := Draft("", "", None, "")

  /** `handleFileChange`: the first chosen file, if any, becomes the banner;
      an empty choice keeps the current one. The preview is read
      asynchronously and is not part of this step. */
  function ChooseFile(d: Draft, files: seq<File>): (e: Draft)
    ensures |files| > 0 ==> e.file == Some(files[0])
    ensures |files| == 0 ==> e == d
    ensures e.(file := d.file) == d
  {
    if |files| > 0 then d.(file := Some(files[0])) else d
  }

  /** The remove button on the banner preview. */
  function RemoveImage(d: Draft): (e: Draft)
    ensures e.file.None? && e.preview == ""
    ensures e.name == d.name && e.description == d.description
  {
    d.(file := None, preview := "")
  }

  /** The create button's `disabled`: the button is off while a request is
      pending and whenever the name is whitespace alone. */
  function CreateDisabled(d: Draft, pending: bool): (disabled: bool)
    ensures disabled <==> pending || IsBlank(d.name)
  {
    TrimShape(d.name);
    pending || Trim(d.name) == ""
  }

  /** What the page shows. */
  datatype Screen = Restricted | FormScreen

  function ScreenFor(profile: Option<Profile>): (s: Screen)
    ensures s == FormScreen <==> IsModerator(profile)
  {
    if IsModerator(profile) then FormScreen else Restricted
  }
}
