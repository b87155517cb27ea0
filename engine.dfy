/** The decisions the form's two tabs take around the tables: the delay
    of an arrival against its booked slot, the row written for a new
    arrival, the validation and durations of a service registration, and
    the default values of the time pickers. `today` and `now` come from
    the caller (the form reads them from the clock). */
module Engine {
  import opened Wrappers
  import opened Calendar
  import opened TimeText
  import opened Records

  /** Minutes since midnight. */
  function MinuteOfDay(t: TimeOfDay): int { t.hour * 60 + t.minute }

  /** Two times combined with the same date are the minutes-of-day apart,
      and compare as their minutes of day. */
  lemma SameDayGap(d: Date, a: TimeOfDay, b: TimeOfDay)
    requires ValidDate(d) && ValidTime(a) && ValidTime(b)
    ensures Seconds(Combine(d, b)) - Seconds(Combine(d, a)) == (MinuteOfDay(b) - MinuteOfDay(a)) * 60
    ensures Before(Combine(d, a), Combine(d, b)) <==> MinuteOfDay(a) < MinuteOfDay(b)
  {
    BeforeIffEarlier(Combine(d, a), Combine(d, b));
  }

  /** app.py lines 409-413: `Tiempo_retraso` is the signed minutes from the
      booked start (on today's date) to the arrival; `None` when the slot
      text does not parse. */
  function ArrivalDelay(today: Date, slot: string, arrival: TimeOfDay): (r: Option<int>)
    requires ValidDate(today) && ValidTime(arrival)
    ensures r.None? <==> ParseTimeRange(slot).None?
    ensures r.Some? ==> r.value == MinuteOfDay(arrival) - MinuteOfDay(ParseTimeRange(slot).value)
  {
    match ParseTimeRange(slot)
    case None => None
    case Some(booked) =>
      SameDayGap(today, booked, arrival);
      TruncMinutesWhole(MinuteOfDay(arrival) - MinuteOfDay(booked));
      TimeDifference(Some(Combine(today, booked)), Some(Combine(today, arrival)))
  }

  /** Late, early and punctual are exactly the three orders of the arrival
      and the booked start. */
  lemma ArrivalDelaySign(today: Date, slot: string, arrival: TimeOfDay)
    requires ValidDate(today) && ValidTime(arrival) && ParseTimeRange(slot).Some?
    ensures var booked := Combine(today, ParseTimeRange(slot).value);
            var arrived := Combine(today, arrival);
            && (ArrivalDelay(today, slot, arrival).value > 0 <==> Before(booked, arrived))
            && (ArrivalDelay(today, slot, arrival).value < 0 <==> Before(arrived, booked))
            && (ArrivalDelay(today, slot, arrival).value == 0 <==> arrived == booked)
  {
    var b := ParseTimeRange(slot).value;
    var d := ArrivalDelay(today, slot, arrival).value;
    assert d == MinuteOfDay(arrival) - MinuteOfDay(b);
    SameDayGap(today, b, arrival);
    SameDayGap(today, arrival, b);
  }

  /** For a slot starting at 09:00 (such as `"09:00-09:30"`, by
      `ParseTimeRangeCompactExample`), arriving at 09:15 is 15 minutes late
      and arriving at 08:50 is 10 minutes early. */
  lemma ArrivalDelayExamples(today: Date, slot: string, booked: TimeOfDay, late: TimeOfDay, early: TimeOfDay)
    requires ValidDate(today) && ParseTimeRange(slot) == Some(booked) && booked == TimeOfDay(9, 0)
    requires late == TimeOfDay(9, 15) && early == TimeOfDay(8, 50)
    ensures ArrivalDelay(today, slot, late) == Some(15)
    ensures ArrivalDelay(today, slot, early) == Some(-10)
  {
    SameDayGap(today, booked, late);
    SameDayGap(today, booked, early);
    TruncMinutesWhole(15);
    TruncMinutesWhole(-10);
  }

  /** The message shown after saving an arrival (app.py lines 433-439). */
  datatype DelayNotice = Late(minutes: int) | Early(minutes: int) | OnTime | NoNotice

  function Notice(delay: Option<int>): (n: DelayNotice)
    ensures n.Late? <==> delay.Some? && delay.value > 0
    ensures n.Early? <==> delay.Some? && delay.value < 0
    ensures n == OnTime <==> delay == Some(0)
    ensures n == NoNotice <==> delay.None?
    ensures n.Late? || n.Early? ==> n.minutes > 0 && (n.minutes == delay.value || n.minutes == -delay.value)
  {
    match delay
    case None => NoNotice
    case Some(d) => if d > 0 then Late(d) else if d < 0 then Early(-d) else OnTime
  }

  /** The row written for an arrival at `t` today (app.py lines 406-427):
      supplier and packages from the reservation, the arrival timestamp as
      text, no service data, and the delay. */
  function ArrivalData(res: Reservation, today: Date, t: TimeOfDay): (r: Record)
    requires ValidDate(today) && ValidTime(t)
    ensures r.order == res.order && r.supplier == res.supplier && r.packages == res.packages
    ensures r.arrivalAt == Some(FormatDateTime(Combine(today, t)))
    ensures ArrivedOn(r, today) && ParseDateTime(r.arrivalAt.value) == Some(Combine(today, t))
    ensures !ServiceRegistered(r) && r.serviceStart.None? && r.serviceEnd.None?
    ensures r.waitMinutes.None? && r.serviceMinutes.None? && r.totalMinutes.None?
    ensures r.delayMinutes == ArrivalDelay(today, res.slot, t)
  {
    var at := Combine(today, t);
    FormatDateTimeContainsDate(at);
    ParseFormatDateTime(at);
    Record(res.order, res.supplier, res.packages, Some(FormatDateTime(at)),
           None, None, None, None, None, ArrivalDelay(today, res.slot, t))
  }

  /** Why a service registration is refused. `NoArrivalToday` and
      `AlreadyRegistered` are the form's own guards (the order list holds
      only today's arrivals, app.py lines 454-461; a completed order shows
      its times instead of the inputs, lines 477-487); `ArrivalUnreadable`
      is the `ValueError` of `fromisoformat` (line 549); the last two are
      the checks of lines 552-555. */
  datatype ServiceError = NoArrivalToday | AlreadyRegistered | ArrivalUnreadable | EndNotAfterStart | StartBeforeArrival

  /** The stored arrival cell reads back as a datetime. */
  predicate Readable(arrivalText: Option<string>)
  {
    arrivalText.Some? && ParseDateTime(arrivalText.value).Some?
  }

  /** The five cells written by a service registration (lines 563-569). */
  datatype ServiceData = ServiceData(start: string, end: string, wait: int, service: int, total: int)

  /** app.py lines 544-569: read back the arrival, validate the two picked
      times of today against each other and against the arrival, and
      compute the three durations. */
  function ServiceTimes(arrivalText: Option<string>, today: Date, start: TimeOfDay, end: TimeOfDay): (r: Result<ServiceData, ServiceError>)
    requires ValidDate(today) && ValidTime(start) && ValidTime(end)
    ensures r == Failure(ArrivalUnreadable) <==> !Readable(arrivalText)
    ensures r == Failure(EndNotAfterStart) <==>
              Readable(arrivalText) && MinuteOfDay(end) <= MinuteOfDay(start)
    ensures r == Failure(StartBeforeArrival) <==>
              Readable(arrivalText) && MinuteOfDay(start) < MinuteOfDay(end)
              && Before(Combine(today, start), ParseDateTime(arrivalText.value).value)
    ensures r.Failure? ==> r.error == ArrivalUnreadable || r.error == EndNotAfterStart || r.error == StartBeforeArrival
    ensures r.Success? ==> r.value.wait >= 0 && r.value.service > 0 && r.value.total >= 0
    ensures r.Success? ==> r.value.wait + r.value.service == r.value.total
    ensures r.Success? ==> r.value.service == MinuteOfDay(end) - MinuteOfDay(start)
    ensures r.Success? ==>
              var a := ParseDateTime(arrivalText.value).value;
              && r.value.wait == TimeDifference(Some(a), Some(Combine(today, start))).value
              && r.value.total == TimeDifference(Some(a), Some(Combine(today, end))).value
    ensures r.Success? ==>
              r.value.start == FormatDateTime(Combine(today, start)) && r.value.end == FormatDateTime(Combine(today, end))
    ensures r.Success? ==> ParseDateTime(r.value.start) == Some(Combine(today, start))
    ensures r.Success? ==> ParseDateTime(r.value.end) == Some(Combine(today, end))
  {
    var s, e := Combine(today, start), Combine(today, end);
    if !Readable(arrivalText) then Failure(ArrivalUnreadable)
    else
      var a := ParseDateTime(arrivalText.value).value;
      SameDayGap(today, start, end);
      if !Before(s, e) then Failure(EndNotAfterStart)
      else if Before(s, a) then Failure(StartBeforeArrival)
      else
        Durations(today, start, end, a);
        ParseFormatDateTime(s);
        ParseFormatDateTime(e);
        var wait := TimeDifference(Some(a), Some(s)).value;
        var service := TimeDifference(Some(s), Some(e)).value;
        var total := TimeDifference(Some(a), Some(e)).value;
        Success(ServiceData(FormatDateTime(s), FormatDateTime(e), wait, service, total))
  }

  /** Once validated, the service starts no earlier than the arrival and
      ends at least a minute after it starts, all on whole minutes. */
  lemma Durations(today: Date, start: TimeOfDay, end: TimeOfDay, a: DateTime)
    requires ValidDate(today) && ValidTime(start) && ValidTime(end) && ValidDateTime(a)
    requires MinuteOfDay(start) < MinuteOfDay(end) && !Before(Combine(today, start), a)
    ensures var s, e := Combine(today, start), Combine(today, end);
            var wait := TimeDifference(Some(a), Some(s)).value;
            var service := TimeDifference(Some(s), Some(e)).value;
            var total := TimeDifference(Some(a), Some(e)).value;
            wait >= 0 && service == MinuteOfDay(end) - MinuteOfDay(start) && wait + service == total
  {
    var s, e := Combine(today, start), Combine(today, end);
    BeforeIffEarlier(s, a);
    SameDayGap(today, start, end);
    var k := MinuteOfDay(end) - MinuteOfDay(start);
    TruncMinutesWhole(k);
    TruncMinutesAddWhole(Seconds(s) - Seconds(a), k);
    assert Seconds(e) - Seconds(a) == Seconds(s) - Seconds(a) + k * 60;
  }

  /** The worked scenario: arrival 09:15, service 09:20 to 10:05. */
  lemma ServiceTimesExample(today: Date)
    requires ValidDate(today)
    ensures var r := ServiceTimes(Some(FormatDateTime(Combine(today, TimeOfDay(9, 15)))), today, TimeOfDay(9, 20), TimeOfDay(10, 5));
            r.Success? && r.value.wait == 5 && r.value.service == 45 && r.value.total == 50
  {
    var a := Combine(today, TimeOfDay(9, 15));
    ParseFormatDateTime(a);
    SameDayGap(today, TimeOfDay(9, 15), TimeOfDay(9, 20));
    SameDayGap(today, TimeOfDay(9, 15), TimeOfDay(10, 5));
    SameDayGap(today, TimeOfDay(9, 20), TimeOfDay(10, 5));
    TruncMinutesWhole(5);
    TruncMinutesWhole(50);
  }

  // ---------------------------------------------------------------------
  // Time pickers
  // ---------------------------------------------------------------------

  /** The minute a picker preselects (app.py lines 385-390, 507-513): the
      option at index `m // 5` of `range(0, 60, 5)`, that is `m` rounded
      DOWN to a multiple of five, though the comment calls it the closest. */
  function PickerMinute(m: int): (r: int)
    requires 0 <= m < 60
    ensures r % 5 == 0 && 0 <= r <= m < r + 5 && r <= 55
  {
    (m / 5) * 5
  }

  /** Rounding down is not rounding to the closest option. */
  lemma PickerMinuteNotClosest()
    ensures PickerMinute(4) == 0 && 5 - 4 < 4 - PickerMinute(4)
  {
  }

  /** The preselected arrival time (app.py lines 357-391): the booked
      start when the slot parses, otherwise the current time; the minute
      rounded down to the picker's grid. */
  function DefaultArrivalTime(slot: string, now: TimeOfDay): (t: TimeOfDay)
    requires ValidTime(now)
    ensures ValidTime(t) && t.minute % 5 == 0
    ensures var base := if ParseTimeRange(slot).Some? then ParseTimeRange(slot).value else now;
            t.hour == base.hour && t.minute <= base.minute < t.minute + 5
  {
    var base := match ParseTimeRange(slot) case Some(b) => b case None => now;
    TimeOfDay(base.hour, PickerMinute(base.minute))
  }
}
