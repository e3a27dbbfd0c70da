/** A post card's relative creation time and its engagement counts. */
module PostItem {
  import opened Common
  import opened Text
  import opened Decimal

  /** Milliseconds in an hour: `1000 * 60 * 60`. */
  const HourMillis: nat := 3600000

  /** `Math.floor((now - created) / HourMillis)` on whole milliseconds; Dafny's
      division by a positive divisor rounds down like `Math.floor`. */
  function Hours(now: int, created: int): (h: int)
    ensures HourMillis * h <= now - created < HourMillis * (h + 1)
  {
    (now - created) / HourMillis
  }

  /** The bucket a post's age falls in. `created` is `None` when the stored
      date does not parse; every comparison with the resulting NaN fails, so
      such a post falls through to the locale date. */
  datatype Age = JustNow | HoursAgo(n: int) | Yesterday | OnDate {
    /** The buckets' order as time passes. */
    function Rank(): nat {
      match this
      case JustNow => 0
      case HoursAgo(_) => 1
      case Yesterday => 2
      case OnDate => 3
    }
  }

  function AgeOf(now: int, created: Option<int>): (a: Age)
    ensures created.None? ==> a == OnDate
    ensures created.Some? ==>
      (a == JustNow <==> now - created.value < HourMillis) &&
      (a.HoursAgo? <==> HourMillis <= now - created.value < 24 * HourMillis) &&
      (a == Yesterday <==> 24 * HourMillis <= now - created.value < 48 * HourMillis) &&
      (a == OnDate <==> 48 * HourMillis <= now - created.value)
    ensures a.HoursAgo? ==> 1 <= a.n < 24 && a.n == Hours(now, created.value)
  {
    match created
    case None => OnDate
    case Some(c) =>
      var h := Hours(now, c);
      if h < 1 then JustNow
      else if h < 24 then HoursAgo(h)
      else if h < 48 then Yesterday
      else OnDate
  }

  /** A timestamp in the future, as from a skewed clock, reads "Just now". */
  lemma FutureIsJustNow(now: int, created: int)
    requires created > now
    ensures AgeOf(now, Some(created)) == JustNow
  {
  }

  /** As the clock moves on, a post's bucket never moves back. */
  lemma AgeMonotone(now: int, later: int, created: Option<int>)
    requires now <= later
    ensures AgeOf(now, created).Rank() <= AgeOf(later, created).Rank()
    ensures AgeOf(now, created).HoursAgo? && AgeOf(later, created).HoursAgo? ==>
      AgeOf(now, created).n <= AgeOf(later, created).n
  {
    if created.Some? {
      var d, e := now - created.value, later - created.value;
      assert d <= e;
    }
  }

  /** `formatDate`; `localeDate` stands for `toLocaleDateString()`, whose text
      depends on the browser. */
  function Caption(a: Age, localeDate: string): (r: string)
    ensures a.HoursAgo? && a.n >= 0 ==>
      EndsWith(r, "h ago") && AllDigits(r[..|r| - 5]) && Parse(r[..|r| - 5]) == a.n
    ensures a == JustNow || a == Yesterday ==> !EndsWith(r, "h ago")
    ensures a == JustNow ==> r == "Just now"
    ensures a == Yesterday ==> r == "Yesterday"
    ensures a == OnDate ==> r == localeDate
  {
    match a
    case JustNow => "Just now"
    case HoursAgo(n) =>
      HoursCaptionParts(n);
      ShowInt(n) + "h ago"
    case Yesterday => "Yesterday"
    case OnDate => localeDate
  }

  lemma HoursCaptionParts(n: int)
    ensures var c := ShowInt(n) + "h ago";
      c[|c| - 5..] == "h ago" && c[..|c| - 5] == ShowInt(n)
    ensures n >= 0 ==> AllDigits(ShowInt(n)) && Parse(ShowInt(n)) == n
  {
    if n >= 0 {
      ParseShow(n);
    }
  }

  /** The hour count can be read back from an "{n}h ago" caption, so the
      caption tells exactly how many whole hours have passed. */
  lemma HoursCaptionReadsBack(now: int, created: int, localeDate: string)
    requires AgeOf(now, Some(created)).HoursAgo?
    ensures var c := Caption(AgeOf(now, Some(created)), localeDate);
      EndsWith(c, "h ago") && AllDigits(c[..|c| - 5]) && Parse(c[..|c| - 5]) == Hours(now, created)
  {
  }

  /** `count ?? 0`: a missing like or comment count shows as zero. */
  function DisplayCount(count: Option<int>): (n: int)
    ensures count.Some? ==> n == count.value
    ensures count.None? ==> n == 0
  {
    count.GetOr(0)
  }
}
