/**
 * The pickup-date calendar: the earliest selectable day, the public
 * holiday test on zero-padded "DD-MM" keys, the disabled rule, the month
 * length, and the day buttons of one month.
 */
module Calendar {
  import opened Wrappers
  import opened Decimal
  import opened Dates
  import opened Types

  /**
   * `minDate`, computed once when the calendar is mounted at instant `now`:
   * seven calendar days later, at local midnight.
   */
  function MinDate(now: DateTime): (r: DateTime)
    requires Valid(now)
    ensures Valid(r) && r.ms == 0 && SameDay(r, AddDays(now, 7))
  {
    StartOfDay(AddDays(now, 7))
  }

  /** `getDaysInMonth(year, month)`: the date of day 0 of the next month, i.e. the last day of this one. */
  function GetDaysInMonth(year: int, month0: int): (r: int)
    requires 0 <= month0 < 12
    ensures r == MonthLength(year, month0)
    ensures 28 <= r <= 31
    ensures r == 29 <==> month0 == 1 && IsLeapYear(year)
  {
    var firstOfNext := if month0 < 11 then DateTime(year, month0 + 1, 1, 0) else DateTime(year + 1, 0, 1, 0);
    PreviousDay(firstOfNext).day
  }

  /** `` `${day}-${month}` `` with both parts padded to two digits. */
  function HolidayKey(day: nat, month: nat): (k: string)
    requires day < 100 && month < 100
    ensures |k| == 5 && k[2] == '-'
  {
    TwoDigits(day) + "-" + TwoDigits(month)
  }

  /** Reads a "DD-MM" key back into its day and month. */
  function ParseKey(k: string): Option<(nat, nat)> {
    if |k| == 5 && AllDigits(k[..2]) && k[2] == '-' && AllDigits(k[3..]) then
      Some((DigitsValue(k[..2]), DigitsValue(k[3..])))
    else None
  }

  lemma KeyRoundTrip(day: nat, month: nat)
    requires day < 100 && month < 100
    ensures ParseKey(HolidayKey(day, month)) == Some((day, month))
  {
    var k := HolidayKey(day, month);
    assert k[..2] == TwoDigits(day) && k[3..] == TwoDigits(month);
  }

  /** Two keys are equal exactly when their day and month are. */
  lemma KeyInjective(d1: nat, m1: nat, d2: nat, m2: nat)
    requires d1 < 100 && m1 < 100 && d2 < 100 && m2 < 100
    ensures HolidayKey(d1, m1) == HolidayKey(d2, m2) <==> d1 == d2 && m1 == m2
  {
    KeyRoundTrip(d1, m1);
    KeyRoundTrip(d2, m2);
  }

  /** `isHoliday(date)`: the date's zero-padded day and 1-based month form a key of the holiday list. */
  function IsHoliday(date: DateTime): bool
    requires Valid(date)
  {
    HolidayKey(date.day, date.month0 + 1) in CzechHolidays
  }

  /** The holidays as (day, month) pairs, month 1-based, in the order of the key list. */
  const HolidayDays: seq<(nat, nat)> :=
    [(1, 1), (1, 5), (8, 5), (5, 7), (6, 7), (28, 9), (28, 10), (17, 11), (24, 12), (25, 12), (26, 12)]

  /** Entry `i` of the key list is the key of entry `i` of `HolidayDays`. */
  lemma HolidayKeyAt(i: int)
    requires 0 <= i < |HolidayDays|
    ensures |CzechHolidays| == |HolidayDays| == 11
    ensures HolidayDays[i].0 < 100 && HolidayDays[i].1 < 100
    ensures CzechHolidays[i] == HolidayKey(HolidayDays[i].0, HolidayDays[i].1)
  {
    if i == 0 {
      KeyChars(1, 1);
    } else if i == 1 {
      KeyChars(1, 5);
    } else if i == 2 {
      KeyChars(8, 5);
    } else if i == 3 {
      KeyChars(5, 7);
    } else if i == 4 {
      KeyChars(6, 7);
    } else if i == 5 {
      KeyChars(28, 9);
    } else if i == 6 {
      KeyChars(28, 10);
    } else if i == 7 {
      KeyChars(17, 11);
    } else if i == 8 {
      KeyChars(24, 12);
    } else if i == 9 {
      KeyChars(25, 12);
    } else {
      KeyChars(26, 12);
    }
  }

  /** The five characters of a key. */
  lemma KeyChars(day: nat, month: nat)
    requires day < 100 && month < 100
    ensures HolidayKey(day, month) == [DigitChar(day / 10), DigitChar(day % 10), '-', DigitChar(month / 10), DigitChar(month % 10)]
  {
    TwoDigitsChars(day);
    TwoDigitsChars(month);
  }

  /**
   * Whether a date is a holiday depends only on its day and month, in every
   * year: exactly the eleven listed days.
   */
  lemma IsHolidayIff(date: DateTime)
    requires Valid(date)
    ensures IsHoliday(date) <==> (date.day, date.month0 + 1) in HolidayDays
  {
    var key := HolidayKey(date.day, date.month0 + 1);
    if IsHoliday(date) {
      var i :| 0 <= i < |CzechHolidays| && CzechHolidays[i] == key;
      HolidayKeyAt(i);
      KeyInjective(date.day, date.month0 + 1, HolidayDays[i].0, HolidayDays[i].1);
      assert HolidayDays[i] == (date.day, date.month0 + 1);
    }
    if (date.day, date.month0 + 1) in HolidayDays {
      var i :| 0 <= i < |HolidayDays| && HolidayDays[i] == (date.day, date.month0 + 1);
      HolidayKeyAt(i);
      assert CzechHolidays[i] == key;
    }
  }

  /** The eleven holidays are distinct days, each a real day of its month in every year. */
  lemma HolidaysWellFormed(year: int)
    ensures forall i, j :: 0 <= i < j < |HolidayDays| ==> HolidayDays[i] != HolidayDays[j]
    ensures forall i :: 0 <= i < |HolidayDays| ==>
      1 <= HolidayDays[i].1 <= 12 && 1 <= HolidayDays[i].0 <= MonthLength(year, HolidayDays[i].1 - 1)
  {
  }

  /** `isDisabled(date)`: before `minDate`, or a holiday. */
  function IsDisabled(minDate: DateTime, date: DateTime): bool
    requires Valid(date)
  {
    Before(date, minDate) || IsHoliday(date)
  }

  /** Every moment of the mount day and of the six days after it is disabled. */
  lemma FirstWeekDisabled(now: DateTime, k: nat, date: DateTime)
    requires Valid(now) && Valid(date) && k < 7 && SameDay(date, AddDays(now, k))
    ensures IsDisabled(MinDate(now), date)
  {
    AddDaysIncreasing(now, k, 7);
  }

  /**
   * From the seventh day after mounting on, a date (at any time of day) is
   * disabled exactly when it is a holiday; in particular midnight of that
   * seventh day, the `minDate` itself, is selectable unless it is a holiday.
   */
  lemma LaterDaysOnlyHolidays(now: DateTime, k: nat, date: DateTime)
    requires Valid(now) && Valid(date) && k >= 7 && SameDay(date, AddDays(now, k))
    ensures IsDisabled(MinDate(now), date) <==> IsHoliday(date)
  {
    if k > 7 {
      AddDaysIncreasing(now, 7, k);
    }
  }

  /** One button of the month grid: its day, the date it selects, and how it is shown. */
  datatype DayButton = DayButton(day: int, date: DateTime, disabled: bool, selected: bool, holidayTitle: bool)

  /**
   * What the day-button loop of `renderDays` produces for month `month0`
   * of `year`: one button per day, each for local midnight of that day.
   */
  ghost predicate IsMonthGrid(buttons: seq<DayButton>, year: int, month0: int, minDate: DateTime, selected: Option<DateTime>)
    requires 0 <= month0 < 12
  {
    |buttons| == MonthLength(year, month0)
    && forall i :: 0 <= i < |buttons| ==>
      var date := DateTime(year, month0, i + 1, 0);
      && buttons[i].day == i + 1
      && buttons[i].date == date
      && buttons[i].disabled == IsDisabled(minDate, date)
      && buttons[i].holidayTitle == IsHoliday(date)
      && buttons[i].selected == (selected.Some? && SameDay(selected.value, date))
  }

  /** The day-button loop of `renderDays` (the blank cells before day 1 are not modelled). */
  method DayButtons(year: int, month0: int, minDate: DateTime, selected: Option<DateTime>)
    returns (buttons: seq<DayButton>)
    requires 0 <= month0 < 12
    ensures IsMonthGrid(buttons, year, month0, minDate, selected)
  {
    var daysInMonth := GetDaysInMonth(year, month0);
    buttons := [];
    var d := 1;
    while d <= daysInMonth
      invariant 1 <= d <= daysInMonth + 1
      invariant |buttons| == d - 1
      invariant forall i :: 0 <= i < |buttons| ==>
        var date := DateTime(year, month0, i + 1, 0);
        && buttons[i].day == i + 1
        && buttons[i].date == date
        && buttons[i].disabled == IsDisabled(minDate, date)
        && buttons[i].holidayTitle == IsHoliday(date)
        && buttons[i].selected == (selected.Some? && SameDay(selected.value, date))
    {
      var currentDay := DateTime(year, month0, d, 0);
      var disabled := IsDisabled(minDate, currentDay);
      var isSelected := selected.Some? && selected.value.day == d
        && selected.value.month0 == month0 && selected.value.year == year;
      buttons := buttons + [DayButton(d, currentDay, disabled, isSelected, IsHoliday(currentDay))];
      d := d + 1;
    }
  }

  /** A click on a button: a disabled button does not call `onSelect`. */
  function Click(b: DayButton): Option<DateTime> {
    if b.disabled then None else Some(b.date)
  }

  /**
   * A date chosen through the grid is never before `minDate` and never a
   * holiday, and every other day of the month can be chosen.
   */
  lemma GridSelectsOnlyAllowedDays(buttons: seq<DayButton>, year: int, month0: int, minDate: DateTime, selected: Option<DateTime>, i: int)
    requires 0 <= month0 < 12 && IsMonthGrid(buttons, year, month0, minDate, selected) && 0 <= i < |buttons|
    ensures var date := DateTime(year, month0, i + 1, 0);
      Valid(date) && (Click(buttons[i]).Some? <==> !Before(date, minDate) && !IsHoliday(date))
    ensures Click(buttons[i]).Some? ==> Click(buttons[i]).value == buttons[i].date
  {
  }
}
