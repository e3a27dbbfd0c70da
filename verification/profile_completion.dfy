/** The profile completion guide: a fixed checklist of ten profile fields, the
    score and the missing labels it yields, the percentage shown, and the
    colour, message and emoji chosen by percentage band. */
module ProfileCompletion {
  import opened Common
  import opened Text
  import opened Lists
  import opened Types

  /** One checklist entry: its label and the profile value it looks at. */
  datatype Field = Field(caption: string, value: Option<string>)

  /** `a || b` on optional strings: `a` when it is truthy, otherwise `b`. */
  function Or(a: Option<string>, b: Option<string>): Option<string> {
    if TruthyOpt(a) then a else b
  }

  /** The value of the social entry: the first truthy link among twitter,
      linkedin, instagram and facebook, else the facebook value. */
  function SocialLink(p: Profile): Option<string> {
    Or(Or(Or(p.twitterUrl, p.linkedinUrl), p.instagramUrl), p.facebookUrl)
  }

  /** The checklist labels, in checklist order. */
  const Labels: seq<string> := [
    "Username", "Bio", "Location", "Website", "Birth Date", "Phone Number",
    "Profile Photo", "Social Media Links", "Role & Age Range", "Fun Introduction"]

  /** The checklist of a profile. */
  function Fields(p: Profile): (f: seq<Field>)
    ensures |f| == 10
    ensures Map(f, LabelOf) == Labels
  {
    var f := [
      Field("Username", p.username), Field("Bio", p.bio), Field("Location", p.location),
      Field("Website", p.website), Field("Birth Date", p.birthDate), Field("Phone Number", p.phone),
      Field("Profile Photo", p.avatarUrl), Field("Social Media Links", SocialLink(p)),
      Field("Role & Age Range", p.roleAgeRange), Field("Fun Introduction", p.funIntroduction)];
    assert Map(f, LabelOf) == Labels;
    f
  }

  function LabelOf(f: Field): string {
    f.caption
  }

  /** `field.value && field.value.trim() !== ''`. */
  predicate Complete(f: Field) {
    TruthyOpt(f.value) && Trim(f.value.value) != ""
  }

  /** A field is complete exactly when it holds a value that is not all
      whitespace; `null`, absent, `''` and whitespace-only are all missing. */
  lemma CompleteIffNotBlank(f: Field)
    ensures Complete(f) <==> f.value.Some? && !IsBlank(f.value.value)
  {
    if f.value.Some? {
      TrimShape(f.value.value);
      assert f.value.value == "" ==> IsBlank(f.value.value);
    }
  }

  /** The result of `calculateCompletionScore`. */
  datatype Completion = Completion(score: nat, total: nat, missing: seq<string>)

  /** `calculateCompletionScore`: for a profile, the number of complete fields,
      the checklist length and the labels of the missing fields. */
  function Calculate(p: Option<Profile>): (c: Completion)
    ensures c.total == 10
    ensures p.None? ==> c.score == 0 && c.missing == []
    ensures p.Some? ==> c.score + |c.missing| == c.total
    ensures p.Some? ==> IsSubsequence(c.missing, Labels)
  {
    match p
    case None => Completion(0, 10, [])
    case Some(profile) =>
      var fields := Fields(profile);
      var completed := Filter(fields, Complete);
      var incomplete := Filter(fields, Not(Complete));
      FilterComplement(fields, Complete);
      FilterIsSubsequence(fields, Not(Complete));
      MapKeepsSubsequence(incomplete, fields, LabelOf);
      Completion(|completed|, |fields|, Map(incomplete, LabelOf))
  }

  /** The labels are pairwise different. */
  lemma LabelsDistinct()
    ensures forall i, j :: 0 <= i < j < |Labels| ==> Labels[i] != Labels[j]
  {
    assert forall i :: 0 <= i < |Labels| ==> Labels[i][0] == "UBLWBPPSRF"[i];
    assert forall i :: 0 <= i < |Labels| ==> |Labels[i]| == [8, 3, 8, 7, 10, 12, 13, 18, 16, 16][i];
  }

  /** A label is listed as missing exactly when its field is not complete. */
  lemma MissingIffIncomplete(p: Profile, i: nat)
    requires i < 10
    ensures Labels[i] in Calculate(Some(p)).missing <==> !Complete(Fields(p)[i])
  {
    var fields := Fields(p);
    assert Calculate(Some(p)).missing == Map(Filter(fields, Not(Complete)), LabelOf);
    LabelsDistinct();
    forall j | 0 <= j < |fields| ensures fields[j].caption == Labels[j] {
      assert Map(fields, LabelOf)[j] == fields[j].caption;
    }
    FilteredCaptions(fields, i);
  }

  /** Helper: with distinct captions, a caption survives the filter of
      incomplete fields exactly when its field is incomplete. */
  lemma FilteredCaptions(fields: seq<Field>, i: nat)
    requires i < |fields|
    requires forall j, k :: 0 <= j < k < |fields| ==> fields[j].caption != fields[k].caption
    ensures fields[i].caption in Map(Filter(fields, Not(Complete)), LabelOf) <==> !Complete(fields[i])
  {
    var incomplete := Filter(fields, Not(Complete));
    var missing := Map(incomplete, LabelOf);
    if !Complete(fields[i]) {
      assert Not(Complete)(fields[i]);
      var k :| 0 <= k < |incomplete| && incomplete[k] == fields[i];
      assert missing[k] == fields[i].caption;
    }
    if fields[i].caption in missing {
      var k :| 0 <= k < |missing| && missing[k] == fields[i].caption;
      var f := incomplete[k];
      assert f in fields && Not(Complete)(f);
      var j :| 0 <= j < |fields| && fields[j] == f;
      assert j == i;
    }
  }

  /** The social entry looks only at the first truthy link: a whitespace-only
      twitter link leaves the entry missing whatever the other links hold. */
  lemma BlankFirstLinkHidesLaterLinks(p: Profile)
    requires TruthyOpt(p.twitterUrl) && IsBlank(p.twitterUrl.value)
    ensures !Complete(Fields(p)[7])
  {
    assert SocialLink(p) == p.twitterUrl;
    CompleteIffNotBlank(Fields(p)[7]);
  }

  /** `Math.round((score / total) * 100)`, with the division exact:
      `round(x) = floor(x + 1/2)`, here on the rational `100 * score / total`. */
  function Percentage(c: Completion): (pct: int)
    requires c.total > 0
    ensures pct >= 0
    ensures c.total == 10 ==> pct == 10 * c.score
    ensures c.total == 10 && c.score <= 10 ==> pct <= 100
  {
    RoundingTen(c.score);
    (200 * c.score + c.total) / (2 * c.total)
  }

  /** Helper: with ten entries the rounding is exact. */
  lemma RoundingTen(score: nat)
    ensures (200 * score + 10) / 20 == 10 * score
  {
  }

  /** For a profile, the percentage is 100 exactly when nothing is missing. */
  lemma FullExactlyWhenNothingMissing(p: Profile)
    ensures Percentage(Calculate(Some(p))) == 100 <==> Calculate(Some(p)).missing == []
  {
  }

  /** The bands of the message and the emoji. */
  datatype Band = Starting | OnTheWay | GreatProgress | AlmostThere | Perfect {
    function Rank(): nat {
      match this
      case Starting => 0
      case OnTheWay => 1
      case GreatProgress => 2
      case AlmostThere => 3
      case Perfect => 4
    }
  }

  /** The band of a percentage, by range. */
  function BandOf(pct: int): (b: Band)
    ensures b == Perfect <==> pct == 100
    ensures b == AlmostThere <==> 80 <= pct && pct != 100
    ensures b == GreatProgress <==> 60 <= pct < 80
    ensures b == OnTheWay <==> 40 <= pct < 60
    ensures b == Starting <==> pct < 40
  {
    if pct == 100 then Perfect
    else if pct >= 80 then AlmostThere
    else if pct >= 60 then GreatProgress
    else if pct >= 40 then OnTheWay
    else Starting
  }

  /** A higher percentage (up to 100) never falls into a lower band. */
  lemma BandMonotone(pct1: int, pct2: int)
    requires pct1 <= pct2 <= 100
    ensures BandOf(pct1).Rank() <= BandOf(pct2).Rank()
  {
  }

  const Trophy: string := "\U{1F3C6}"
  const Party: string := "\U{1F389}"
  const Glowing: string := "\U{1F31F}"
  const Sparkles: string := "✨"
  const Rocket: string := "\U{1F680}"
  const Target: string := "\U{1F3AF}"

  /** `getCompletionEmoji`: one symbol per band; only 100 gets the trophy, and
      below that the emoji is the symbol the message opens with. */
  function Emoji(pct: int): (e: string)
    ensures |e| == 1
    ensures e == Trophy <==> pct == 100
    ensures pct != 100 ==> e == Lead(BandOf(pct))
  {
    if pct == 100 then Trophy
    else if pct >= 80 then Glowing
    else if pct >= 60 then Sparkles
    else if pct >= 40 then Rocket
    else Target
  }

  /** The five messages, one per band. */
  const PerfectMessage: string := Party + " Your profile is absolutely perfect!" + " You're all set to make the most of Thrive Nation" + " and connect with amazing people!"
  const AlmostThereMessage: string := Glowing + " Almost there!" + " Just a few more details to make your profile shine even brighter!"
  const GreatProgressMessage: string := Sparkles + " Great progress!" + " Adding more information helps others connect with your awesome personality!"
  const OnTheWayMessage: string := Rocket + " You're on your way!" + " Complete more sections to unlock the full magic of our community!"
  const StartingMessage: string := Target + " Let's get started on your amazing journey!" + " Complete your profile to connect with our wonderful community!"

  /** `getCompletionMessage`: the message opens with its band's symbol, which
      below 100 is the emoji shown next to it. */
  function Message(pct: int): (m: string)
    ensures |m| > 1 && m[..1] == Lead(BandOf(pct))
    ensures pct != 100 ==> m[..1] == Emoji(pct)
  {
    if pct == 100 then PerfectMessage
    else if pct >= 80 then AlmostThereMessage
    else if pct >= 60 then GreatProgressMessage
    else if pct >= 40 then OnTheWayMessage
    else StartingMessage
  }

  /** The symbol a message opens with, per band. */
  function Lead(b: Band): string {
    match b
    case Perfect => Party
    case AlmostThere => Glowing
    case GreatProgress => Sparkles
    case OnTheWay => Rocket
    case Starting => Target
  }

  /** The emoji and the message depend only on the band, and different bands
      show different emoji and messages: 100 has its own of each. */
  lemma EmojiAndMessageFollowBand(pct1: int, pct2: int)
    ensures Emoji(pct1) == Emoji(pct2) <==> BandOf(pct1) == BandOf(pct2)
    ensures Message(pct1) == Message(pct2) <==> BandOf(pct1) == BandOf(pct2)
  {
    EmojiFollowsBand(pct1, pct2);
    MessageLead(pct1);
    MessageLead(pct2);
    if BandOf(pct1) != BandOf(pct2) {
      LeadsDiffer(BandOf(pct1), BandOf(pct2));
      assert Message(pct1)[0] != Message(pct2)[0];
    }
  }

  /** Helper: the emoji of two percentages agree exactly when their bands do. */
  lemma EmojiFollowsBand(pct1: int, pct2: int)
    ensures Emoji(pct1) == Emoji(pct2) <==> BandOf(pct1) == BandOf(pct2)
  {
  }

  /** Helper: different bands open with different symbols. */
  lemma LeadsDiffer(b1: Band, b2: Band)
    requires b1 != b2
    ensures Lead(b1)[0] != Lead(b2)[0]
  {
  }

  /** Helper: a message opens with its band's one-symbol lead. */
  lemma MessageLead(pct: int)
    ensures |Message(pct)| > 0 && Message(pct)[0] == Lead(BandOf(pct))[0]
  {
  }

  const Green: string := "from-green-500 to-emerald-500"
  const Yellow: string := "from-yellow-500 to-orange-500"
  const Orange: string := "from-orange-500 to-red-500"
  const Red: string := "from-red-500 to-pink-500"

  /** `getCompletionColor`: four gradient classes with thresholds 80/60/40. The
      colour follows the band, except that 100 shares the green of 80. */
  function Color(pct: int): (c: string)
    ensures ColorRank(c) == if BandOf(pct) == Perfect then 3 else BandOf(pct).Rank()
    ensures BandOf(pct) == Starting ==> c == Red
    ensures BandOf(pct) == OnTheWay ==> c == Orange
    ensures BandOf(pct) == GreatProgress ==> c == Yellow
    ensures BandOf(pct) == AlmostThere || BandOf(pct) == Perfect ==> c == Green
  {
    assert Green[5] == 'g' && Yellow[5] == 'y' && Orange[5] == 'o' && Red[5] == 'r';
    if pct >= 80 then Green
    else if pct >= 60 then Yellow
    else if pct >= 40 then Orange
    else Red
  }

  /** The position of a gradient class, from red (0) to green (3). */
  function ColorRank(color: string): nat {
    if color == Green then 3 else if color == Yellow then 2 else if color == Orange then 1 else 0
  }

  /** The colour never gets worse as the percentage grows, and it is green
      exactly from 80 up. */
  lemma ColorMonotone(pct1: int, pct2: int)
    requires pct1 <= pct2
    ensures ColorRank(Color(pct1)) <= ColorRank(Color(pct2))
    ensures Color(pct2) == Green <==> pct2 >= 80
  {
    assert Green[5] == 'g' && Yellow[5] == 'y' && Orange[5] == 'o' && Red[5] == 'r';
  }

  /** Which sections of the guide are shown. */
  datatype Sections = Sections(missingChips: bool, benefits: bool, celebration: bool)

  function Visible(c: Completion): (s: Sections)
    requires c.total > 0
    ensures c.total == 10 && c.score <= 10 ==> (s.benefits <==> !s.celebration)
    ensures s.missingChips <==> c.missing != []
    ensures s.benefits <==> Percentage(c) < 100
    ensures s.celebration <==> Percentage(c) == 100
  {
    var pct := Percentage(c);
    Sections(|c.missing| > 0, pct < 100, pct == 100)
  }

  /** For a profile, the missing chips and the benefits show together, and
      the celebration shows instead of both, exactly when nothing is
      missing. */
  lemma ProfileSections(p: Profile)
    ensures var s := Visible(Calculate(Some(p)));
      s.missingChips == s.benefits && s.celebration == !s.missingChips
      && (s.celebration <==> Calculate(Some(p)).missing == [])
  {
    FullExactlyWhenNothingMissing(p);
  }

  /** Without a profile the guide shows 0% and the benefits, but no chips:
      the empty missing list hides them. */
  lemma NoProfileSections()
    ensures Percentage(Calculate(None)) == 0
    ensures Visible(Calculate(None)) == Sections(false, true, false)
  {
  }
}
