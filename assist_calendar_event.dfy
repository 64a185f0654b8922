/**
 * One calendar event on the assistant page: whether it is going on, about
 * to start or further off, how many minutes remain before it starts, and
 * which time labels it shows.
 */
module AssistCalendarEvent {
  import opened Common

  /** An event as read from the calendar provider; times in milliseconds. */
  datatype SimpleCalendarEvent = SimpleCalendarEvent(id: int, title: string, startTime: int, endTime: int, allDay: bool)

  /** The three timing states (codes 0, 1 and 2 in the view), which select the event's colours. */
  datatype Timing = Ongoing | Upcoming | Further

  const ONE_MINUTE: int := 60000
  /** An event starting within fifteen minutes is upcoming. */
  const UPCOMING_LIMIT: int := ONE_MINUTE * 15

  /** `getEventTimingState` at time `now`. */
  function TimingState(allDay: bool, start: int, end: int, now: int): (r: Timing)
    ensures r == Ongoing <==> !allDay && start <= now <= end
    ensures r == Upcoming <==> !allDay && !(start <= now <= end) && start - now <= UPCOMING_LIMIT
    ensures allDay ==> r == Further
  {
    if allDay then Further
    else if now >= start && now <= end then Ongoing
    else if start - now <= UPCOMING_LIMIT then Upcoming
    else Further
  }

  /** The calendar keeps only events that have not ended yet. */
  predicate NotEnded(end: int, now: int)
  {
    end >= now
  }

  /**
   * For an event the calendar keeps: it is going on once started, upcoming
   * in the fifteen minutes before its start, and further off otherwise or
   * when it lasts all day.
   */
  lemma TimingOfKeptEvent(allDay: bool, start: int, end: int, now: int)
    requires NotEnded(end, now)
    ensures TimingState(allDay, start, end, now) == Ongoing <==> !allDay && start <= now
    ensures TimingState(allDay, start, end, now) == Upcoming <==> !allDay && 0 < start - now <= UPCOMING_LIMIT
    ensures TimingState(allDay, start, end, now) == Further <==> allDay || start - now > UPCOMING_LIMIT
  {
  }

  /** Without the calendar's filter an event that has already ended counts as upcoming. */
  lemma EndedEventIsUpcoming()
    ensures TimingState(false, 0, 10, 20) == Upcoming
  {
  }

  /** Java's narrowing cast of a long to an int: the low 32 bits, signed. */
  function ToInt(x: int): (r: int)
    ensures -0x8000_0000 <= r < 0x8000_0000
    ensures -0x8000_0000 <= x < 0x8000_0000 ==> r == x
  {
    (x + 0x8000_0000) % 0x1_0000_0000 - 0x8000_0000
  }

  /** The minutes before the start before the int cast: the quotient, plus one when the remainder is positive. */
  function CeilMinutes(diff: int): int
  {
    JavaDiv(diff, ONE_MINUTE) + if JavaRem(diff, ONE_MINUTE) > 0 then 1 else 0
  }

  /** The minutes shown while an event is upcoming. */
  function RemainingMinutes(start: int, now: int): int
  {
    ToInt(CeilMinutes(start - now))
  }

  /** The count rounds the time left up to whole minutes, whatever its sign. */
  lemma CeilMinutesIsCeiling(diff: int)
    ensures (CeilMinutes(diff) - 1) * ONE_MINUTE < diff <= CeilMinutes(diff) * ONE_MINUTE
  {
    var q := JavaDiv(diff, ONE_MINUTE);
    var r := JavaRem(diff, ONE_MINUTE);
    assert diff == q * ONE_MINUTE + r;
    if r > 0 {
      assert (q + 1) * ONE_MINUTE == q * ONE_MINUTE + ONE_MINUTE;
    } else {
      assert (q - 1) * ONE_MINUTE == q * ONE_MINUTE - ONE_MINUTE;
    }
  }

  /** An upcoming event the calendar keeps shows between 1 and 15 minutes, the time left rounded up. */
  lemma UpcomingMinutesInRange(start: int, end: int, now: int)
    requires NotEnded(end, now) && TimingState(false, start, end, now) == Upcoming
    ensures 1 <= RemainingMinutes(start, now) <= 15
    ensures (RemainingMinutes(start, now) - 1) * ONE_MINUTE < start - now <= RemainingMinutes(start, now) * ONE_MINUTE
  {
    var diff := start - now;
    CeilMinutesIsCeiling(diff);
    var m := CeilMinutes(diff);
    MulStrict(0, m, ONE_MINUTE);
    MulStrict(m - 1, 15, ONE_MINUTE);
    assert -0x8000_0000 <= m < 0x8000_0000;
  }

  /** The description line under the title. */
  datatype Description = StartDate(millis: int) | OnGoingText | MinutesLeft(minutes: int) | NoText

  /** `updateLabels`' description: the start date all day, else by timing state; `labelNow` is its own clock reading. */
  function DescriptionOf(allDay: bool, start: int, timing: Timing, labelNow: int): Description
  {
    if allDay then StartDate(start)
    else match timing
      case Ongoing => OnGoingText
      case Upcoming => MinutesLeft(RemainingMinutes(start, labelNow))
      case Further => NoText
  }

  /** Which time labels are visible. */
  datatype Labels = Labels(startVisible: bool, endVisible: bool, allDayVisible: bool)

  /** The view shown for one event. */
  class CalendarEventView {
    var id: int
    var title: string
    var allDay: bool
    var startTimeMillis: int
    var endTimeMillis: int
    var timing: Timing
    var description: Description
    var labels: Labels

    /**
     * `applyFrom`: take the event's fields, set the label visibility, the
     * timing state at `now` and the description at `labelNow` (the source
     * reads the clock twice).
     */
    method ApplyFrom(event: SimpleCalendarEvent, now: int, labelNow: int)
      modifies this
      ensures id == event.id && title == event.title && allDay == event.allDay
      ensures startTimeMillis == event.startTime && endTimeMillis == event.endTime
      ensures labels.allDayVisible == event.allDay
      ensures labels.startVisible == labels.endVisible == !event.allDay
      ensures timing == TimingState(event.allDay, event.startTime, event.endTime, now)
      ensures description == DescriptionOf(event.allDay, event.startTime, timing, labelNow)
    {
      id := event.id;
      title := event.title;
      startTimeMillis := event.startTime;
      endTimeMillis := event.endTime;
      allDay := event.allDay;
      UpdateVisibilityForTimeLabels();
      timing := GetEventTimingState(now);
      UpdateLabels(labelNow);
    }

    /** `updateVisibilityForTimeLabels`: start and end times, or the all-day label. */
    method UpdateVisibilityForTimeLabels()
      modifies this
      ensures labels.allDayVisible == allDay && labels.startVisible == !allDay && labels.endVisible == !allDay
      ensures allDay == old(allDay) && startTimeMillis == old(startTimeMillis) && endTimeMillis == old(endTimeMillis)
      ensures id == old(id) && title == old(title) && timing == old(timing) && description == old(description)
    {
      if allDay {
        labels := Labels(false, false, true);
      } else {
        labels := Labels(true, true, false);
      }
    }

    /** `getEventTimingState`. */
    method GetEventTimingState(now: int) returns (t: Timing)
      ensures t == TimingState(allDay, startTimeMillis, endTimeMillis, now)
    {
      if allDay {
        return Further;
      }
      if now >= startTimeMillis && now <= endTimeMillis {
        return Ongoing;
      }
      if startTimeMillis - now <= UPCOMING_LIMIT {
        return Upcoming;
      }
      return Further;
    }

    /** `updateLabels`: the description for the current timing state. */
    method UpdateLabels(labelNow: int)
      modifies this
      ensures description == DescriptionOf(allDay, startTimeMillis, timing, labelNow)
      ensures allDay == old(allDay) && startTimeMillis == old(startTimeMillis) && endTimeMillis == old(endTimeMillis)
      ensures id == old(id) && title == old(title) && timing == old(timing) && labels == old(labels)
    {
      if allDay {
        description := StartDate(startTimeMillis);
      } else if timing == Ongoing {
        description := OnGoingText;
      } else if timing == Upcoming {
        var millisDiff := startTimeMillis - labelNow;
        var minutes := ToInt(JavaDiv(millisDiff, ONE_MINUTE));
        if JavaRem(millisDiff, ONE_MINUTE) > 0 {
          minutes := ToInt(minutes + 1);
        }
        MinutesCast(millisDiff);
        description := MinutesLeft(minutes);
      } else {
        description := NoText;
      }
    }
  }

  /** Casting the quotient and then adding one, as the source does, gives the cast of the rounded-up count. */
  lemma MinutesCast(diff: int)
    ensures ToInt(JavaDiv(diff, ONE_MINUTE) + if JavaRem(diff, ONE_MINUTE) > 0 then 1 else 0)
      == (if JavaRem(diff, ONE_MINUTE) > 0 then ToInt(ToInt(JavaDiv(diff, ONE_MINUTE)) + 1) else ToInt(JavaDiv(diff, ONE_MINUTE)))
  {
    var q := JavaDiv(diff, ONE_MINUTE);
    var k := (q + 0x8000_0000) / 0x1_0000_0000;
    assert ToInt(q) == q - k * 0x1_0000_0000;
    assert ToInt(q + 1) == ToInt(ToInt(q) + 1) by {
      ModShift(q + 1 + 0x8000_0000, k);
    }
  }

  /** Shifting by whole multiples of 2^32 does not change the remainder. */
  lemma ModShift(x: int, k: int)
    ensures (x - k * 0x1_0000_0000) % 0x1_0000_0000 == x % 0x1_0000_0000
  {
  }
}
