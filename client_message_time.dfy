/** Bucket selection of the client's relative-time formatters `formatMessageTime` and
    `formatMessageTimeForSeen` (frontend/src/utils/formateMessageTime.js). Only which form is
    chosen is modelled, not the locale text. A timestamp is `None` when `new Date(timestamp)` is
    an invalid date: every difference is then `NaN` and every comparison with it is false.
    The calendar years of the message and of `now` are inputs. */
module ClientMessageTime {
  import opened Common

  const MsPerMinute := 60000
  const MinutesPerHour := 60
  const HoursPerDay := 24

  /** The forms `formatMessageTime` returns; `TimeOfDay` is its final 24-hour fallback. */
  datatype Bucket = JustNow | MinutesAgo(minutes: int) | HoursAgo(hours: int)
                  | DateWithYear | DateWithoutYear | TimeOfDay

  /** The forms `formatMessageTimeForSeen` returns; `AtTime` is "at HH:MM". */
  datatype SeenBucket = SeenJustNow | SeenMinutesAgo(minutes: int) | SeenHoursAgo(hours: int) | AtTime

  /** `Math.floor(diff / (1000 * 60))`, on the real quotient as JavaScript computes it. */
  function DiffInMinutes(diff: int): int {
    ((diff as real) / (MsPerMinute as real)).Floor
  }

  /** `Math.floor(diffInMinutes / 60)`. */
  function DiffInHours(minutes: int): int {
    ((minutes as real) / (MinutesPerHour as real)).Floor
  }

  /** Flooring a real quotient by a positive integer is integer (Euclidean) division. */
  lemma FloorIsDivision(n: int, d: int)
    requires d > 0
    ensures ((n as real) / (d as real)).Floor == n / d
  {
    var q, r := n / d, n % d;
    assert n == q * d + r && 0 <= r < d;
    var x := (n as real) / (d as real);
    assert x == (q as real) + (r as real) / (d as real) by {
      assert (n as real) == (q as real) * (d as real) + (r as real);
    }
    assert 0.0 <= (r as real) / (d as real) < 1.0;
  }

  lemma MinutesIsDivision(diff: int)
    ensures DiffInMinutes(diff) == diff / MsPerMinute
  {
    FloorIsDivision(diff, MsPerMinute);
  }

  lemma HoursIsDivision(minutes: int)
    ensures DiffInHours(minutes) == minutes / MinutesPerHour
  {
    FloorIsDivision(minutes, MinutesPerHour);
  }

  function FormatMessageTime(timestamp: Option<int>, now: int, messageYear: int, nowYear: int): (b: Bucket)
    // an invalid date fails every comparison and reaches the fallback, a valid one never does
    ensures b == TimeOfDay <==> timestamp.None?
    ensures timestamp.Some? && now - timestamp.value < MsPerMinute ==> b == JustNow
    ensures timestamp.Some? && MsPerMinute <= now - timestamp.value < 60 * MsPerMinute
      ==> b == MinutesAgo((now - timestamp.value) / MsPerMinute) && 1 <= b.minutes < 60
    ensures timestamp.Some? && 60 * MsPerMinute <= now - timestamp.value < 24 * 60 * MsPerMinute
      ==> b == HoursAgo((now - timestamp.value) / (60 * MsPerMinute)) && 1 <= b.hours <= 23
    ensures timestamp.Some? && now - timestamp.value >= 24 * 60 * MsPerMinute
      ==> b == (if messageYear < nowYear then DateWithYear else DateWithoutYear)
  {
    match timestamp
    case None => TimeOfDay
    case Some(ts) =>
      var minutes := DiffInMinutes(now - ts);
      var hours := DiffInHours(minutes);
      MinutesIsDivision(now - ts);
      HoursIsDivision(minutes);
      if minutes < 1 then JustNow
      else if minutes < MinutesPerHour then MinutesAgo(minutes)
      else if hours < HoursPerDay then HoursAgo(hours)
      else if hours >= HoursPerDay then
        (if messageYear < nowYear then DateWithYear else DateWithoutYear)
      else TimeOfDay
  }

  function FormatMessageTimeForSeen(timestamp: Option<int>, now: int): (b: SeenBucket)
    ensures timestamp.None? ==> b == AtTime
    ensures timestamp.Some? && now - timestamp.value >= 24 * 60 * MsPerMinute ==> b == AtTime
  {
    match timestamp
    case None => AtTime
    case Some(ts) =>
      var minutes := DiffInMinutes(now - ts);
      var hours := DiffInHours(minutes);
      MinutesIsDivision(now - ts);
      HoursIsDivision(minutes);
      if minutes < 1 then SeenJustNow
      else if minutes < MinutesPerHour then SeenMinutesAgo(minutes)
      else if hours < HoursPerDay then SeenHoursAgo(hours)
      else AtTime
  }

  /** The seen formatter makes the same first three choices as `formatMessageTime` and turns
      every older message into the "at HH:MM" form. */
  lemma SeenAgreesWithMessageTime(timestamp: Option<int>, now: int, messageYear: int, nowYear: int)
    ensures var b := FormatMessageTime(timestamp, now, messageYear, nowYear);
      match FormatMessageTimeForSeen(timestamp, now)
      case SeenJustNow => b == JustNow
      case SeenMinutesAgo(m) => b == MinutesAgo(m)
      case SeenHoursAgo(h) => b == HoursAgo(h)
      case AtTime => b.DateWithYear? || b.DateWithoutYear? || b.TimeOfDay?
  {
  }
}
