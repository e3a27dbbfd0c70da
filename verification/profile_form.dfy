/** The profile page's form: the field validators, the edit state with its
    per-field error clearing, the avatar file checks, submission, and the
    load and cancel defaults. */
module ProfileForm {
  import opened Common
  import opened Text
  import Decimal
  import opened Types

  // ---------------------------------------------------------------- validators

  const UsernameRequired: string := "Username is required"
  const UsernameTooShort: string := "Username must be" + " at least 3 characters"
  const UsernameCharset: string := "Username can only contain" + " letters, numbers, and underscores"
  const WebsiteInvalid: string := "Website must be a valid URL" + " (include http:// or https://)"
  const PhoneInvalid: string := "Please enter a" + " valid phone number"
  const BioTooLong: string := "Bio must be less" + " than 500 characters"

  /** `[a-zA-Z0-9_]`. */
  predicate IsWordChar(c: char) {
    'a' <= c <= 'z' || 'A' <= c <= 'Z' || '0' <= c <= '9' || c == '_'
  }

  /** `/^[a-zA-Z0-9_]+$/.test(s)`. */
  predicate AllWordChars(s: string) {
    |s| > 0 && forall i :: 0 <= i < |s| ==> IsWordChar(s[i])
  }

  /** The username checks, first failing one wins: blank, then shorter than
      3, then a character outside `[a-zA-Z0-9_]`. */
  function UsernameError(u: string): (r: Option<string>)
    ensures r == None <==> |u| >= 3 && forall i :: 0 <= i < |u| ==> IsWordChar(u[i])
    ensures IsBlank(u) ==> r == Some(UsernameRequired)
    ensures !IsBlank(u) && |u| < 3 ==> r == Some(UsernameTooShort)
    ensures !IsBlank(u) && |u| >= 3 && r.Some? ==> r == Some(UsernameCharset)
  {
    TrimShape(u);
    if Trim(u) == "" then Some(UsernameRequired)
    else if |u| < 3 then Some(UsernameTooShort)
    else if !AllWordChars(u) then Some(UsernameCharset)
    else None
  }

  /** `/^https?:\/\/.+/`: `http://` or `https://` followed by at least one
      character that is not a line terminator (`.` does not match one). */
  predicate UrlMatches(w: string) {
    || (StartsWith(w, "http://") && |w| > 7 && !IsLineTerminator(w[7]))
    || (StartsWith(w, "https://") && |w| > 8 && !IsLineTerminator(w[8]))
  }

  /** An empty website is accepted; otherwise it has to match the URL pattern. */
  function WebsiteError(w: string): (r: Option<string>)
    ensures r == None <==> w == "" || UrlMatches(w)
    ensures r != None ==> r == Some(WebsiteInvalid)
  {
    if Truthy(w) && !UrlMatches(w) then Some(WebsiteInvalid) else None
  }

  /** Any host after either scheme is accepted, and the bare schemes are not. */
  lemma WebsiteSchemes(rest: string)
    ensures |rest| > 0 && !IsLineTerminator(rest[0]) ==> WebsiteError("http://" + rest) == None && WebsiteError("https://" + rest) == None
    ensures WebsiteError("http://") == Some(WebsiteInvalid) && WebsiteError("https://") == Some(WebsiteInvalid)
  {
    var h := "http://" + rest;
    var hs := "https://" + rest;
    assert h[..7] == "http://";
    assert hs[..8] == "https://";
    assert |rest| > 0 ==> h[7] == rest[0] && hs[8] == rest[0];
    assert !StartsWith("http://", "https://");
    assert "https://"[..7][4] == 's';
  }

  /** `[1-9][\d]{0,15}`: a non-zero digit and at most fifteen more digits. */
  predicate PhoneDigits(d: string) {
    1 <= |d| <= 16 && '1' <= d[0] <= '9' && Decimal.AllDigits(d[1..])
  }

  /** `/^[\+]?[1-9][\d]{0,15}$/` read as the pattern's two alternatives: the
      optional `+` is either absent or present. */
  predicate PhoneMatches(p: string) {
    PhoneDigits(p) || (|p| > 0 && p[0] == '+' && PhoneDigits(p[1..]))
  }

  /** A one-pass reading of the phone pattern: drop one leading `+`, then test
      the digits. */
  predicate PhoneAccepted(p: string) {
    PhoneDigits(if |p| > 0 && p[0] == '+' then p[1..] else p)
  }

  /** Both readings agree: a `+` can never be the leading digit, so which
      alternative applies is decided by the first character. */
  lemma PhoneAcceptedIffMatches(p: string)
    ensures PhoneAccepted(p) <==> PhoneMatches(p)
  {
  }

  /** An empty phone is accepted; otherwise it has to match the phone pattern. */
  function PhoneError(p: string): (r: Option<string>)
    ensures r == None <==> p == "" || PhoneMatches(p)
    ensures r == None && p != "" ==> 1 <= |p| <= 17 && forall i :: 1 <= i < |p| ==> Decimal.IsDigit(p[i])
    ensures r.Some? ==> r == Some(PhoneInvalid)
  {
    PhoneAcceptedIffMatches(p);
    if Truthy(p) && !PhoneAccepted(p) then Some(PhoneInvalid) else None
  }

  /** A bio of up to 500 characters is accepted. */
  function BioError(b: string): (r: Option<string>)
    ensures r == None <==> |b| <= 500
    ensures r.Some? ==> r == Some(BioTooLong)
  {
    if Truthy(b) && |b| > 500 then Some(BioTooLong) else None
  }

  // ---------------------------------------------------------------- form data

  /** The editable fields of `ProfileFormData`. */
  datatype Field = Username | Bio | Location | Website | BirthDate | Phone
                 | PrivacyEmail | PrivacyProfile | NotificationsEmail | NotificationsPush {
    /** Text fields hold strings; the other four hold booleans. */
    predicate IsText() {
      !(PrivacyEmail? || PrivacyProfile? || NotificationsEmail? || NotificationsPush?)
    }
  }

  /** The value an input change event carries. */
  datatype Value = Text(text: string) | Flag(flag: bool)

  /** The declared type of a field admits the value. */
  predicate Fits(field: Field, v: Value) {
    field.IsText() <==> v.Text?
  }

  datatype Form = Form(
    username: string, bio: string, location: string, website: string, birthDate: string, phone: string,
    privacyEmail: bool, privacyProfile: bool, notificationsEmail: bool, notificationsPush: bool)

  /** The initial form state. */
  const DefaultForm: Form := Form("", "", "", "", "", "", true, false, true, false)

  function Get(f: Form, field: Field): (v: Value)
    ensures Fits(field, v)
  {
    match field
    case Username => Text(f.username)
    case Bio => Text(f.bio)
    case Location => Text(f.location)
    case Website => Text(f.website)
    case BirthDate => Text(f.birthDate)
    case Phone => Text(f.phone)
    case PrivacyEmail => Flag(f.privacyEmail)
    case PrivacyProfile => Flag(f.privacyProfile)
    case NotificationsEmail => Flag(f.notificationsEmail)
    case NotificationsPush => Flag(f.notificationsPush)
  }

  /** `{ ...prev, [field]: value }`: that field takes the value and every other
      field keeps its own. */
  function With(f: Form, field: Field, v: Value): (g: Form)
    requires Fits(field, v)
    ensures Get(g, field) == v
    ensures forall other :: other != field ==> Get(g, other) == Get(f, other)
  {
    PutSets(f, field, v);
    PutKeepsOthers(f, field, v);
    SameExceptGet(f, Put(f, field, v), field);
    Put(f, field, v)
  }

  // Helper: the record update itself.
  function Put(f: Form, field: Field, v: Value): Form
    requires Fits(field, v)
  {
    match field
    case Username => f.(username := v.text)
    case Bio => f.(bio := v.text)
    case Location => f.(location := v.text)
    case Website => f.(website := v.text)
    case BirthDate => f.(birthDate := v.text)
    case Phone => f.(phone := v.text)
    case PrivacyEmail => f.(privacyEmail := v.flag)
    case PrivacyProfile => f.(privacyProfile := v.flag)
    case NotificationsEmail => f.(notificationsEmail := v.flag)
    case NotificationsPush => f.(notificationsPush := v.flag)
  }

  lemma PutSets(f: Form, field: Field, v: Value)
    requires Fits(field, v)
    ensures Get(Put(f, field, v), field) == v
  {
  }

  lemma PutKeepsOthers(f: Form, field: Field, v: Value)
    requires Fits(field, v)
    ensures SameExcept(f, Put(f, field, v), field)
  {
  }

  /** Two forms hold the same value in every field but `field`, field by
      field. */
  predicate SameExcept(f: Form, g: Form, field: Field) {
    && (field != Username ==> f.username == g.username)
    && (field != Bio ==> f.bio == g.bio)
    && (field != Location ==> f.location == g.location)
    && (field != Website ==> f.website == g.website)
    && (field != BirthDate ==> f.birthDate == g.birthDate)
    && (field != Phone ==> f.phone == g.phone)
    && (field != PrivacyEmail ==> f.privacyEmail == g.privacyEmail)
    && (field != PrivacyProfile ==> f.privacyProfile == g.privacyProfile)
    && (field != NotificationsEmail ==> f.notificationsEmail == g.notificationsEmail)
    && (field != NotificationsPush ==> f.notificationsPush == g.notificationsPush)
  }

  /** Helper: forms that agree field by field outside `field` read the same
      everywhere else. */
  lemma SameExceptGet(f: Form, g: Form, field: Field)
    requires SameExcept(f, g, field)
    ensures forall other :: other != field ==> Get(g, other) == Get(f, other)
  {
  }

  /** A form is determined by its field values. */
  lemma FormsAgreeOnFields(f: Form, g: Form)
    requires forall field :: Get(f, field) == Get(g, field)
    ensures f == g
  {
    assert Get(f, Username) == Get(g, Username) && Get(f, Bio) == Get(g, Bio);
    assert Get(f, Location) == Get(g, Location) && Get(f, Website) == Get(g, Website);
    assert Get(f, BirthDate) == Get(g, BirthDate) && Get(f, Phone) == Get(g, Phone);
    assert Get(f, PrivacyEmail) == Get(g, PrivacyEmail) && Get(f, PrivacyProfile) == Get(g, PrivacyProfile);
    assert Get(f, NotificationsEmail) == Get(g, NotificationsEmail) && Get(f, NotificationsPush) == Get(g, NotificationsPush);
  }

  /** Where an error message is shown: under a form field, or under the avatar. */
  datatype ErrorKey = FieldError(field: Field) | AvatarError

  type Errors = map<ErrorKey, string>

  /** `validateForm`'s new error set: one entry per failing check, for the
      username, website, phone and bio fields only. */
  function Validate(f: Form): (e: Errors)
    ensures FieldError(Username) in e <==> UsernameError(f.username).Some?
    ensures FieldError(Website) in e <==> WebsiteError(f.website).Some?
    ensures FieldError(Phone) in e <==> PhoneError(f.phone).Some?
    ensures FieldError(Bio) in e <==> BioError(f.bio).Some?
    ensures forall k :: k in e ==> k in {FieldError(Username), FieldError(Website), FieldError(Phone), FieldError(Bio)}
    ensures FieldError(Username) in e ==> Some(e[FieldError(Username)]) == UsernameError(f.username)
    ensures FieldError(Website) in e ==> e[FieldError(Website)] == WebsiteInvalid
    ensures FieldError(Phone) in e ==> e[FieldError(Phone)] == PhoneInvalid
    ensures FieldError(Bio) in e ==> e[FieldError(Bio)] == BioTooLong
  {
    var e0: Errors := map[];
    var e1 := match UsernameError(f.username) case Some(m) => e0[FieldError(Username) := m] case None => e0;
    var e2 := match WebsiteError(f.website) case Some(m) => e1[FieldError(Website) := m] case None => e1;
    var e3 := match PhoneError(f.phone) case Some(m) => e2[FieldError(Phone) := m] case None => e2;
    match BioError(f.bio) case Some(m) => e3[FieldError(Bio) := m] case None => e3
  }

  /** What the form has to satisfy, stated on the patterns themselves. */
  predicate Acceptable(f: Form) {
    && |f.username| >= 3 && (forall i :: 0 <= i < |f.username| ==> IsWordChar(f.username[i]))
    && (f.website == "" || UrlMatches(f.website))
    && (f.phone == "" || PhoneMatches(f.phone))
    && |f.bio| <= 500
  }

  /** `validateForm()` returns true exactly for acceptable forms. */
  lemma ValidateIffAcceptable(f: Form)
    ensures Validate(f) == map[] <==> Acceptable(f)
  {
    var e := Validate(f);
    if !Acceptable(f) {
      assert FieldError(Username) in e || FieldError(Website) in e || FieldError(Phone) in e || FieldError(Bio) in e;
    }
  }

  // ---------------------------------------------------------------- page state

  /** The page's state: the form, the chosen avatar file and its preview, the
      shown errors and whether there are unsaved changes. */
  datatype Page = Page(form: Form, avatarFile: Option<File>, avatarPreview: string, errors: Errors, hasChanges: bool)

  const InitialPage: Page := Page(DefaultForm, None, "", map[], false)

  /** `handleInputChange`: the field takes the value, the page has changes,
      and that field's error (and only that one) is cleared. */
  function ChangeField(pg: Page, field: Field, v: Value): (r: Page)
    requires Fits(field, v)
    ensures Get(r.form, field) == v
    ensures forall other :: other != field ==> Get(r.form, other) == Get(pg.form, other)
    ensures r.hasChanges
    ensures FieldError(field) !in r.errors
    ensures forall k :: k != FieldError(field) ==> (k in r.errors <==> k in pg.errors)
    ensures forall k :: k != FieldError(field) && k in r.errors ==> r.errors[k] == pg.errors[k]
    ensures r.avatarFile == pg.avatarFile && r.avatarPreview == pg.avatarPreview
  {
    var errors := if FieldError(field) in pg.errors then pg.errors - {FieldError(field)} else pg.errors;
    pg.(form := With(pg.form, field, v), hasChanges := true, errors := errors)
  }

  const MaxAvatarBytes: nat := 5 * 1024 * 1024
  const AvatarTooLarge: string := "Avatar image must" + " be less than 5MB"
  const AvatarNotImage: string := "Please select a" + " valid image file"

  /** `handleAvatarChange` for the first selected file, if any: an oversized
      file is refused before its type is looked at; an accepted file is kept
      and marks the page changed. Reading the preview is left out. */
  function ChangeAvatar(pg: Page, file: Option<File>): (r: Page)
    ensures r.form == pg.form && r.avatarPreview == pg.avatarPreview
    ensures file.None? ==> r == pg
    ensures file.Some? && file.value.size > MaxAvatarBytes ==> r == pg.(errors := pg.errors[AvatarError := AvatarTooLarge])
    ensures file.Some? && file.value.size <= MaxAvatarBytes && !StartsWith(file.value.mimeType, "image/") ==> r == pg.(errors := pg.errors[AvatarError := AvatarNotImage])
    ensures r.hasChanges != pg.hasChanges || r.errors != pg.errors ==> file.Some?
    ensures r.errors != pg.errors ==> r.hasChanges == pg.hasChanges && r.avatarFile == pg.avatarFile
    ensures r.avatarFile != pg.avatarFile ==> file.Some? && r.avatarFile == file && file.value.size <= MaxAvatarBytes && StartsWith(file.value.mimeType, "image/")
  {
    match file
    case None => pg
    case Some(f) =>
      if f.size > 5 * 1024 * 1024 then pg.(errors := pg.errors[AvatarError := AvatarTooLarge])
      else if !StartsWith(f.mimeType, "image/") then pg.(errors := pg.errors[AvatarError := AvatarNotImage])
      else pg.(avatarFile := Some(f), hasChanges := true)
  }

  /** A small image is always accepted, whatever was chosen before. */
  lemma SmallImageAccepted(pg: Page, f: File)
    requires f.size <= MaxAvatarBytes && StartsWith(f.mimeType, "image/")
    ensures ChangeAvatar(pg, Some(f)) == pg.(avatarFile := Some(f), hasChanges := true)
  {
  }

  /** The profile update `handleSubmit` sends: the form, the preview as the
      avatar URL, and the chosen file. */
  datatype Update = Update(form: Form, avatarUrl: string, avatarFile: Option<File>)

  datatype Submitted = Submitted(page: Page, update: Option<Update>)

  /** `handleSubmit`: the validation errors replace the shown ones (the
      avatar error too), and the update is sent only when there are none. */
  function Submit(pg: Page): (r: Submitted)
    ensures r.page == pg.(errors := Validate(pg.form))
    ensures r.update.Some? <==> Acceptable(pg.form)
    ensures r.update.Some? ==> r.update.value == Update(pg.form, pg.avatarPreview, pg.avatarFile)
  {
    ValidateIffAcceptable(pg.form);
    var errors := Validate(pg.form);
    var page := pg.(errors := errors);
    if errors != map[] then Submitted(page, None)
    else Submitted(page, Some(Update(pg.form, pg.avatarPreview, pg.avatarFile)))
  }

  /** The mutation's success handler: no unsaved changes, no chosen file. */
  function SubmitSucceeded(pg: Page): (r: Page)
    ensures !r.hasChanges && r.avatarFile.None?
    ensures r.form == pg.form && r.errors == pg.errors && r.avatarPreview == pg.avatarPreview
  {
    pg.(hasChanges := false, avatarFile := None)
  }

  /** The avatar URL stored by `updateProfile`: the uploaded file's public URL
      when a file was chosen, otherwise the URL sent with the form. */
  function StoredAvatarUrl(u: Update, publicUrl: string): (url: string)
    ensures u.avatarFile.None? ==> url == u.avatarUrl
    ensures u.avatarFile.Some? ==> url == publicUrl
  {
    match u.avatarFile
    case Some(_) => publicUrl
    case None => u.avatarUrl
  }

  /** The storage path of an uploaded avatar: `avatars/avatar-{now}.{ext}`. */
  function AvatarPath(fileName: string, now: nat): (path: string)
    ensures StartsWith(path, "avatars/avatar-")
  {
    var path := "avatars/avatar-" + Decimal.Show(now) + "." + Extension(fileName);
    assert path[..15] == "avatars/avatar-";
    path
  }

  /** The avatar path reads back as the folder and `avatar-` prefix, the
      upload time in decimal digits, a `.` and the chosen file's extension. */
  lemma AvatarPathReadsBack(fileName: string, now: nat)
    ensures var path, ext := AvatarPath(fileName, now), Extension(fileName);
      |path| > 16 + |ext| && path[..15] == "avatars/avatar-" && path[|path| - |ext| - 1] == '.' && path[|path| - |ext|..] == ext
      && Decimal.AllDigits(path[15..|path| - |ext| - 1]) && Decimal.Parse(path[15..|path| - |ext| - 1]) == now
  {
    Decimal.StampParts("avatars/avatar-", now, Extension(fileName));
  }

  /** The stored avatar keeps the chosen file's extension. */
  lemma AvatarPathKeepsExtension(fileName: string, now: nat)
    ensures Extension(AvatarPath(fileName, now)) == Extension(fileName)
  {
    ExtensionAfterLastDot("avatars/avatar-" + Decimal.Show(now), Extension(fileName));
  }

  /** The form a profile loads into: absent or empty strings become `''`, and
      absent flags take the defaults email-private, profile-public, email
      notifications on and push notifications off. */
  function FormOf(p: Profile): (f: Form)
    ensures f.username == OrEmpty(p.username) && f.bio == OrEmpty(p.bio) && f.location == OrEmpty(p.location)
    ensures f.website == OrEmpty(p.website) && f.birthDate == OrEmpty(p.birthDate) && f.phone == OrEmpty(p.phone)
    ensures f.privacyEmail == p.privacyEmail.GetOr(true) && f.privacyProfile == p.privacyProfile.GetOr(false)
    ensures f.notificationsEmail == p.notificationsEmail.GetOr(true) && f.notificationsPush == p.notificationsPush.GetOr(false)
  {
    Form(OrEmpty(p.username), OrEmpty(p.bio), OrEmpty(p.location), OrEmpty(p.website), OrEmpty(p.birthDate), OrEmpty(p.phone),
         p.privacyEmail.GetOr(true), p.privacyProfile.GetOr(false), p.notificationsEmail.GetOr(true), p.notificationsPush.GetOr(false))
  }

  /** A profile with nothing filled in loads as the initial form. */
  lemma BareProfileLoadsDefaults(p: Profile)
    requires !TruthyOpt(p.username) && !TruthyOpt(p.bio) && !TruthyOpt(p.location)
    requires !TruthyOpt(p.website) && !TruthyOpt(p.birthDate) && !TruthyOpt(p.phone)
    requires p.privacyEmail.None? && p.privacyProfile.None? && p.notificationsEmail.None? && p.notificationsPush.None?
    ensures FormOf(p) == DefaultForm
  {
  }

  /** The load effect: with a profile, the form and the preview are taken
      from it; without one nothing changes. */
  function Load(pg: Page, profile: Option<Profile>): (r: Page)
    ensures profile.None? ==> r == pg
    ensures profile.Some? ==> r.form == FormOf(profile.value) && r.avatarPreview == OrEmpty(profile.value.avatarUrl)
    ensures r.avatarFile == pg.avatarFile && r.errors == pg.errors && r.hasChanges == pg.hasChanges
  {
    match profile
    case None => pg
    case Some(p) => pg.(form := FormOf(p), avatarPreview := OrEmpty(p.avatarUrl))
  }

  /** `handleCancel`: reload from the profile, and drop the chosen file, the
      unsaved-changes mark and every error. */
  function Cancel(pg: Page, profile: Option<Profile>): (r: Page)
    ensures r.avatarFile.None? && !r.hasChanges && r.errors == map[]
    ensures profile.None? ==> r.form == pg.form && r.avatarPreview == pg.avatarPreview
    ensures profile.Some? ==> r.form == FormOf(profile.value) && r.avatarPreview == OrEmpty(profile.value.avatarUrl)
  {
    Load(pg, profile).(avatarFile := None, hasChanges := false, errors := map[])
  }

  /** Cancelling after any edit returns the form and preview to what the
      profile loaded. */
  lemma CancelUndoesEdit(pg: Page, p: Profile, field: Field, v: Value)
    requires Fits(field, v)
    ensures var loaded := Load(pg, Some(p));
      var r := Cancel(ChangeField(loaded, field, v), Some(p));
      r.form == loaded.form && r.avatarPreview == loaded.avatarPreview && r.errors == map[] && !r.hasChanges
  {
  }
}
