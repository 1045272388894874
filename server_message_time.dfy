/** Bucket selection of the backend helper `formatMessageTime` (backend/utils/formateMessageTime.js).
    A timestamp is `None` when it makes an invalid date, so that the difference is `NaN` and the
    comparison with 24 hours is false. The calendar years are inputs. */
module ServerMessageTime {
  import opened Common

  const MsPerHour := 1000 * 60 * 60
  const DayInMs := 86400000

  /** The three forms: a date with the year, a date without it, or the 12-hour time of day. */
  datatype Bucket = DateWithYear | DateWithoutYear | TimeOfDay12h

  /** `(now - messageDate) / (1000 * 60 * 60) > 24`, on real numbers; `NaN` is never greater. */
  predicate OlderThanADay(timestamp: Option<int>, now: int) {
    timestamp.Some? && ((now - timestamp.value) as real) / (MsPerHour as real) > 24.0
  }

  /** The test on the real quotient is the integer test against 86,400,000 ms. */
  lemma OlderThanADayIff(timestamp: Option<int>, now: int)
    ensures OlderThanADay(timestamp, now) <==> timestamp.Some? && now - timestamp.value > DayInMs
  {
    if timestamp.Some? {
      var d := (now - timestamp.value) as real;
      assert d / (MsPerHour as real) > 24.0 <==> d > 24.0 * (MsPerHour as real);
    }
  }

  function FormatMessageTime(timestamp: Option<int>, now: int, messageYear: int, nowYear: int): (b: Bucket)
    ensures timestamp.Some? && now - timestamp.value > DayInMs && messageYear < nowYear ==> b == DateWithYear
    ensures timestamp.Some? && now - timestamp.value > DayInMs && messageYear >= nowYear ==> b == DateWithoutYear
    // exactly 24 hours, a future timestamp and an invalid date all give the time of day
    ensures (timestamp.None? || now - timestamp.value <= DayInMs) <==> b == TimeOfDay12h
  {
    OlderThanADayIff(timestamp, now);
    if OlderThanADay(timestamp, now) then
      (if messageYear < nowYear then DateWithYear else DateWithoutYear)
    else
      TimeOfDay12h
  }
}
