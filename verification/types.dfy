/** The records the pages work on: a user's profile row and a moderation
    report, with the two string enumerations of a report. */
module Types {
  import opened Common

  /** A `profiles` row. Optional columns are `None` when `null` or absent.
      `roleAgeRange` and `funIntroduction` are read by the completion guide
      although the `UserProfile` interface does not declare them. */
  datatype Profile = Profile(
    id: string,
    username: Option<string>,
    isModerator: bool,
    createdAt: string,
    updatedAt: string,
    bio: Option<string>,
    location: Option<string>,
    website: Option<string>,
    birthDate: Option<string>,
    phone: Option<string>,
    avatarUrl: Option<string>,
    privacyEmail: Option<bool>,
    privacyProfile: Option<bool>,
    notificationsEmail: Option<bool>,
    notificationsPush: Option<bool>,
    twitterUrl: Option<string>,
    linkedinUrl: Option<string>,
    instagramUrl: Option<string>,
    facebookUrl: Option<string>,
    roleAgeRange: Option<string>,
    funIntroduction: Option<string>)

  /** `profile?.is_moderator`: only a loaded profile flagged as moderator
      opens the moderation dashboard and the community form. */
  predicate IsModerator(profile: Option<Profile>) {
    profile.Some? && profile.value.isModerator
  }

  /** A file chosen in a file input: its name, size in bytes and MIME type. */
  datatype File = File(name: string, size: nat, mimeType: string)

  /** `'pending' | 'reviewed' | 'resolved' | 'dismissed'`. */
  datatype Status = Pending | Reviewed | Resolved | Dismissed {
    function Name(): string {
      match this
      case Pending => "pending"
      case Reviewed => "reviewed"
      case Resolved => "resolved"
      case Dismissed => "dismissed"
    }
  }

  /** `'post' | 'comment'`. */
  datatype ItemType = Post | Comment {
    function Name(): string {
      match this
      case Post => "post"
      case Comment => "comment"
    }
  }

  /** A `reports` row. */
  datatype Report = Report(
    id: string,
    reporterId: string,
    reportedItemId: int,
    reportedItemType: ItemType,
    reason: string,
    status: Status,
    createdAt: string,
    reviewedAt: Option<string>,
    reviewedBy: Option<string>)

  /** What a user submits to create a report. */
  datatype ReportInput = ReportInput(reportedItemId: int, reportedItemType: ItemType, reason: string)

  /** Reads a status column back from its text. */
  function ParseStatus(name: string): (r: Option<Status>)
    ensures r.Some? ==> r.value.Name() == name
  {
    if name == "pending" then Some(Pending)
    else if name == "reviewed" then Some(Reviewed)
    else if name == "resolved" then Some(Resolved)
    else if name == "dismissed" then Some(Dismissed)
    else None
  }

  /** Every status is stored as its own text and read back unchanged, so
      the four names are distinct. */
  lemma StatusNameRoundTrip(s: Status)
    ensures ParseStatus(s.Name()) == Some(s)
  {
    match s
    case Pending =>
    case Reviewed => assert "reviewed" != "pending";
    case Resolved => assert "resolved" != "pending" && "resolved" != "reviewed";
    case Dismissed => assert "dismissed" != "pending" && "dismissed" != "reviewed" && "dismissed" != "resolved";
  }

  /** Reads an item type back from its text. */
  function ParseItemType(name: string): (r: Option<ItemType>)
    ensures r.Some? ==> r.value.Name() == name
  {
    if name == "post" then Some(Post)
    else if name == "comment" then Some(Comment)
    else None
  }

  lemma ItemTypeNameRoundTrip(t: ItemType)
    ensures ParseItemType(t.Name()) == Some(t)
  {
    if t == Comment { assert "comment" != "post"; }
  }
}
