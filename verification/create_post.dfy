/** The post form: the community picker, the emoji picker, the image, the
    storage path of the upload, the row it inserts and when it submits. */
module CreatePost {
  import opened Common
  import opened Text
  import opened Decimal
  import opened Types

  /** The form's state. */
  datatype Draft = Draft(
    title: string,
    content: string,
    communityId: Option<nat>,
    file: Option<File>,
    preview: string,
    pickerOpen: bool)

  const EmptyDraft: Draft := Draft("", "", None, None, "", false)

  /** What the form sends besides the image. */
  datatype PostInput = PostInput(title: string, content: string, avatarUrl: Option<string>, communityId: Option<nat>)

  /** `handleSubmit`: with no image chosen nothing is sent; otherwise the
      title, content and community as they stand and the user's avatar, or
      `null` when the user has none. */
  function Submit(d: Draft, userAvatar: Option<string>): (r: Option<(PostInput, File)>)
    ensures r.Some? <==> d.file.Some?
    ensures r.Some? ==> r.value.1 == d.file.value
    ensures r.Some? ==> var p := r.value.0;
      p.title == d.title && p.content == d.content && p.communityId == d.communityId
      && (p.avatarUrl.Some? <==> TruthyOpt(userAvatar))
      && (p.avatarUrl.Some? ==> p.avatarUrl == userAvatar)
  {
    match d.file
    case None => None
    case Some(f) =>
      var avatar := if TruthyOpt(userAvatar) then userAvatar else None;
      Some((PostInput(d.title, d.content, avatar, d.communityId), f))
  }

  /** The image is captioned as optional, yet a draft without one is never
      sent, however complete the rest is. */
  lemma ImageIsRequired(d: Draft, userAvatar: Option<string>)
    requires d.file.None? && !SubmitDisabled(d, false)
    ensures Submit(d, userAvatar).None?
  {
  }

  /** The submit button's `disabled`: the button is off while a request is
      pending and whenever the title or the content is whitespace alone. */
  function SubmitDisabled(d: Draft, pending: bool): (disabled: bool)
    ensures disabled <==> pending || IsBlank(d.title) || IsBlank(d.content)
  {
    TrimShape(d.title);
    TrimShape(d.content);
    pending || Trim(d.title) == "" || Trim(d.content) == ""
  }

  /** `handleCommunityChange`: the placeholder option (value `""`) clears the
      choice; any other option carries a community id as its value. */
  function CommunityChange(d: Draft, value: string): (e: Draft)
    requires AllDigits(value)
    ensures value == "" ==> e.communityId.None?
    ensures value != "" ==> e.communityId == Some(Parse(value))
    ensures e.(communityId := d.communityId) == d
  {
    d.(communityId := if value == "" then None else Some(Parse(value)))
  }

  /** Choosing the option of a community selects that community. */
  lemma CommunityOptionRoundTrip(d: Draft, id: nat)
    ensures CommunityChange(d, Show(id)).communityId == Some(id)
  {
    ParseShow(id);
  }

  /** `onEmojiClick`: the emoji goes at the end of the content and the picker
      closes. */
  function EmojiClick(d: Draft, emoji: string): (e: Draft)
    ensures StartsWith(e.content, d.content) && EndsWith(e.content, emoji) && |e.content| == |d.content| + |emoji|
    ensures !e.pickerOpen
    ensures e.(content := d.content, pickerOpen := d.pickerOpen) == d
  {
    var content := d.content + emoji;
    assert content[..|d.content|] == d.content;
    assert content[|content| - |emoji|..] == emoji;
    d.(content := content, pickerOpen := false)
  }

  /** `handleFileChange`: the first chosen file, if any, replaces the image;
      an empty choice keeps it. The preview is read asynchronously and is not
      part of this step. */
  function ChooseFile(d: Draft, files: seq<File>): (e: Draft)
    ensures |files| > 0 ==> e.file == Some(files[0])
    ensures |files| == 0 ==> e == d
    ensures e.(file := d.file) == d
  {
    if |files| > 0 then d.(file := Some(files[0])) else d
  }

  /** `removeImage`. */
  function RemoveImage(d: Draft): (e: Draft)
    ensures e.file.None? && e.preview == ""
    ensures e.(file := d.file, preview := d.preview) == d
  {
    d.(file := None, preview := "")
  }

  /** Removing the image after choosing one leaves no image to send, so the
      draft can no longer be submitted. */
  lemma RemoveBlocksSubmit(d: Draft, files: seq<File>, userAvatar: Option<string>)
    ensures Submit(RemoveImage(ChooseFile(d, files)), userAvatar).None?
  {
  }

  /** `${title}-${Date.now()}-${file.name}`. */
  function StoragePath(title: string, now: nat, fileName: string): (path: string)
    ensures StartsWith(path, title + "-") && EndsWith(path, "-" + fileName)
  {
    var path := title + "-" + Show(now) + "-" + fileName;
    assert path[..|title| + 1] == title + "-";
    assert path[|path| - |fileName| - 1..] == "-" + fileName;
    path
  }

  /** A rendered number has no `-`. */
  lemma ShowHasNoDash(n: nat)
    ensures '-' !in Show(n)
  {
  }

  /** When neither the title nor the file name has a `-`, the path splits
      back into the title, the time and the file name. */
  lemma StoragePathSplits(title: string, now: nat, fileName: string)
    requires '-' !in title && '-' !in fileName
    ensures Split(StoragePath(title, now, fileName), '-') == [title, Show(now), fileName]
  {
    ShowHasNoDash(now);
    var t := Show(now);
    assert StoragePath(title, now, fileName) == title + ['-'] + (t + ['-'] + fileName);
    SplitAtFirstSeparator(title, '-', t + ['-'] + fileName);
    SplitAtFirstSeparator(t, '-', fileName);
    SplitWithoutSeparator(fileName, '-');
  }

  /** The `posts` row inserted. */
  datatype PostRow = PostRow(title: string, content: string, avatarUrl: Option<string>, communityId: Option<nat>, imageUrl: string)

  /** What creating a post does: the upload path and the row. */
  datatype Creation = Creation(upload: string, row: PostRow)

  /** `createPost`. The storage service's answer is a parameter: `uploadError`
      is its error for the upload and `publicUrl` its public address for a
      path. */
  function Create(p: PostInput, f: File, now: nat, uploadError: Option<string>, publicUrl: string -> string): (r: Result<Creation>)
    ensures uploadError.Some? ==> r == Err(uploadError.value)
    ensures uploadError.None? ==>
      r.Ok? && r.value.upload == StoragePath(p.title, now, f.name) &&
      r.value.row == PostRow(p.title, p.content, p.avatarUrl, p.communityId, publicUrl(r.value.upload))
  {
    var path := StoragePath(p.title, now, f.name);
    if uploadError.Some? then Err(uploadError.value)
    else Ok(Creation(path, PostRow(p.title, p.content, p.avatarUrl, p.communityId, publicUrl(path))))
  }

  /** A submitted draft that uploads cleanly stores its title, content and
      community unchanged and files the image under a path that ends with the
      chosen file's name. */
  lemma SubmittedDraftIsStored(d: Draft, userAvatar: Option<string>, now: nat, publicUrl: string -> string)
    requires d.file.Some?
    ensures var (p, f) := Submit(d, userAvatar).value;
      var r := Create(p, f, now, None, publicUrl);
      r.Ok? && r.value.row.title == d.title && r.value.row.content == d.content
      && r.value.row.communityId == d.communityId && EndsWith(r.value.upload, "-" + d.file.value.name)
  {
  }
}
