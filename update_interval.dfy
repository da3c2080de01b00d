/** The period of automatic wallpaper updates. */
module UpdateIntervals {
  import opened Localizable

  /**
   * Hours and minutes, compared field by field. Nothing clamps the fields:
   * any pair of integers is a value of the type.
   */
  datatype UpdateInterval = UpdateInterval(hours: int, minutes: int) {

    /** `timeInterval`, in whole seconds. */
    function TimeInterval(): (seconds: int)
      ensures seconds % 60 == 0
      ensures seconds / 60 == hours * 60 + minutes
    {
      hours * 3600 + minutes * 60
    }

    /**
     * `localizedDescription`: `String(format:)` over one of three format
     * entries, chosen by which fields are zero.
     */
    function LocalizedDescription(): (d: FormattedText)
      ensures d.format == MinutesOnlyFormat <==> hours == 0
      ensures d.format == HoursOnlyFormat <==> hours != 0 && minutes == 0
      ensures d.format == HoursAndMinutesFormat <==> hours != 0 && minutes != 0
      ensures d.format == MinutesOnlyFormat ==> d.arguments == [minutes]
      ensures d.format == HoursOnlyFormat ==> d.arguments == [hours]
      ensures d.format == HoursAndMinutesFormat ==> d.arguments == [hours, minutes]
    {
      if hours == 0 then Formatted(MinutesOnlyFormat, [minutes])
      else if minutes == 0 then Formatted(HoursOnlyFormat, [hours])
      else Formatted(HoursAndMinutesFormat, [hours, minutes])
    }
  }

  /** A format string applied to integer arguments. */
  datatype FormattedText = Formatted(format: Text, arguments: seq<int>)

  /** `UpdateInterval.default`. */
  const Default := UpdateInterval(24, 0)

  /** `UpdateInterval.minimum`. */
  const Minimum := UpdateInterval(0, 30)

  lemma DefaultIsOneDay()
    ensures Default.TimeInterval() == 86400
    ensures Minimum.TimeInterval() == 1800
  {
  }

  /** The seconds are hours and minutes scaled; equality still tells (1 h, 0 min) from (0 h, 60 min). */
  lemma SecondsDoNotDetermineInterval(h: int, m: int)
    ensures UpdateInterval(h, m).TimeInterval() == UpdateInterval(h + 1, m - 60).TimeInterval()
    ensures UpdateInterval(h, m) != UpdateInterval(h + 1, m - 60)
  {
  }

  /**
   * The interval picker's OK button is disabled for `hours == 0 && minutes < 30`:
   * the only place where the 30-minute minimum is enforced.
   */
  predicate PickerAccepts(hours: int, minutes: int) {
    !(hours == 0 && minutes < 30)
  }

  /** Whatever the picker accepts (non-negative sliders) is at least the minimum. */
  lemma PickerAcceptsAtLeastMinimum(hours: int, minutes: int)
    requires hours >= 0 && minutes >= 0
    ensures PickerAccepts(hours, minutes) <==>
              UpdateInterval(hours, minutes).TimeInterval() >= Minimum.TimeInterval() || hours > 0
    ensures PickerAccepts(hours, minutes) ==>
              UpdateInterval(hours, minutes).TimeInterval() >= Minimum.TimeInterval()
  {
  }

  /** The type itself does not clamp: zero, negative and over-a-day values exist. */
  lemma NotClamped()
    ensures UpdateInterval(0, 0).TimeInterval() < Minimum.TimeInterval()
    ensures UpdateInterval(48, 0).TimeInterval() > Default.TimeInterval()
    ensures UpdateInterval(-1, 0).TimeInterval() < 0
  {
    DefaultIsOneDay();
  }
}
