/** getTimeAgo of the news card: how long ago an article was published, as
    "Just now", "Nh ago", "Nd ago" or the locale date. The clock reading and
    the formatted date are passed in; an unparsable publication date (whose
    time value is NaN) is None. */
module NewsCard {
  import opened Text

  const HourMs := 1000 * 60 * 60
  const DayMs := 1000 * 60 * 60 * 24

  /** The four answers of getTimeAgo, before rendering. */
  datatype Age = JustNow | HoursAgo(hours: int) | DaysAgo(days: int) | OnDate

  /** Math.floor(x / unit) for a positive unit. */
  function FloorDiv(x: int, unit: int): (q: int)
    requires unit > 0
    ensures unit * q <= x < unit * (q + 1)
  {
    x / unit
  }

  /** The bucket chosen by the if-else chain. With a NaN difference every
      comparison is false and the chain falls through to the date. */
  function Bucket(nowMs: int, publishedMs: Option<int>): (a: Age)
    ensures publishedMs.None? ==> a == OnDate
    ensures publishedMs.Some? ==>
      var d := nowMs - publishedMs.value;
      && (a == JustNow <==> d < HourMs)
      && (a.HoursAgo? <==> HourMs <= d < DayMs)
      && (a.DaysAgo? <==> DayMs <= d < 7 * DayMs)
      && (a == OnDate <==> 7 * DayMs <= d)
      && (a.HoursAgo? ==> 1 <= a.hours <= 23 && a.hours * HourMs <= d < (a.hours + 1) * HourMs)
      && (a.DaysAgo? ==> 1 <= a.days <= 6 && a.days * DayMs <= d < (a.days + 1) * DayMs)
  {
    if publishedMs.None? then OnDate
    else
      var diffMs := nowMs - publishedMs.value;
      var diffHours := FloorDiv(diffMs, HourMs);
      var diffDays := FloorDiv(diffMs, DayMs);
      if diffHours < 1 then JustNow
      else if diffHours < 24 then HoursAgo(diffHours)
      else if diffDays < 7 then DaysAgo(diffDays)
      else OnDate
  }

  /** The string getTimeAgo returns; `dateLabel` stands for the
      toLocaleDateString result. */
  function Render(a: Age, dateLabel: string): string
    requires a.HoursAgo? ==> a.hours >= 0
    requires a.DaysAgo? ==> a.days >= 0
  {
    match a
    case JustNow => "Just now"
    case HoursAgo(h) => NatToDecimal(h) + "h ago"
    case DaysAgo(dd) => NatToDecimal(dd) + "d ago"
    case OnDate => dateLabel
  }

  /** getTimeAgo: under an hour (or in the future) "Just now", then whole
      hours below a day, whole days below a week, and the date otherwise or
      when the publication date does not parse. */
  function TimeAgo(nowMs: int, publishedMs: Option<int>, dateLabel: string): (t: string)
    ensures publishedMs.None? ==> t == dateLabel
    ensures publishedMs.Some? ==>
      var d := nowMs - publishedMs.value;
      && (d < HourMs ==> t == "Just now")
      && (HourMs <= d < DayMs ==> t == NatToDecimal(d / HourMs) + "h ago")
      && (DayMs <= d < 7 * DayMs ==> t == NatToDecimal(d / DayMs) + "d ago")
      && (7 * DayMs <= d ==> t == dateLabel)
  {
    Render(Bucket(nowMs, publishedMs), dateLabel)
  }

  /** The order of the buckets, newest first. */
  function Rank(a: Age): nat {
    match a
    case JustNow => 0
    case HoursAgo(_) => 1
    case DaysAgo(_) => 2
    case OnDate => 3
  }

  /** A later publication date never gives a later bucket, nor a larger
      number inside the same bucket. */
  lemma BucketMonotone(nowMs: int, older: int, newer: int)
    requires older <= newer
    ensures var a, b := Bucket(nowMs, Some(newer)), Bucket(nowMs, Some(older));
      Rank(a) <= Rank(b)
      && (a.HoursAgo? && b.HoursAgo? ==> a.hours <= b.hours)
      && (a.DaysAgo? && b.DaysAgo? ==> a.days <= b.days)
  {
  }

  /** A publication date in the future reads "Just now". */
  lemma FutureIsJustNow(nowMs: int, publishedMs: int, dateLabel: string)
    requires publishedMs > nowMs
    ensures TimeAgo(nowMs, Some(publishedMs), dateLabel) == "Just now"
  {
  }

  /** The number in an "Nh ago" label is the number of whole hours elapsed. */
  lemma HoursLabelReadsBack(nowMs: int, publishedMs: int, dateLabel: string)
    requires HourMs <= nowMs - publishedMs < DayMs
    ensures var t := TimeAgo(nowMs, Some(publishedMs), dateLabel);
      var digits := t[..|t| - |"h ago"|];
      && t[|t| - |"h ago"|..] == "h ago"
      && (forall i :: 0 <= i < |digits| ==> '0' <= digits[i] <= '9')
      && DecimalValue(digits) == (nowMs - publishedMs) / HourMs
  {
    var h := Bucket(nowMs, Some(publishedMs)).hours;
    var t := TimeAgo(nowMs, Some(publishedMs), dateLabel);
    assert t == NatToDecimal(h) + "h ago";
    assert t[..|t| - |"h ago"|] == NatToDecimal(h);
    DecimalRoundTrip(h);
  }

  /** The number in an "Nd ago" label is the number of whole days elapsed. */
  lemma DaysLabelReadsBack(nowMs: int, publishedMs: int, dateLabel: string)
    requires DayMs <= nowMs - publishedMs < 7 * DayMs
    ensures var t := TimeAgo(nowMs, Some(publishedMs), dateLabel);
      var digits := t[..|t| - |"d ago"|];
      && t[|t| - |"d ago"|..] == "d ago"
      && (forall i :: 0 <= i < |digits| ==> '0' <= digits[i] <= '9')
      && DecimalValue(digits) == (nowMs - publishedMs) / DayMs
  {
    var dd := Bucket(nowMs, Some(publishedMs)).days;
    var t := TimeAgo(nowMs, Some(publishedMs), dateLabel);
    assert t == NatToDecimal(dd) + "d ago";
    assert t[..|t| - |"d ago"|] == NatToDecimal(dd);
    DecimalRoundTrip(dd);
  }
}
