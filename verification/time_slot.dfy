/** The TimeSlot value object: a weekly lesson slot inside office hours. */
module Slots {
  import opened Basics
  import opened Errors

  const OfficeStart: Minutes := 540   // 09:00
  const OfficeEnd: Minutes := 1020    // 17:00
  const OneHour: int := 60

  /** TimeOnly subtraction: the time span from `from` forward to `to`,
      wrapping past midnight when `to` is earlier than `from`. */
  function Elapsed(from: Minutes, to: Minutes): (span: int)
    ensures 0 <= span < MinutesPerDay
    ensures from <= to ==> span == to - from
    ensures to < from ==> span == MinutesPerDay - (from - to)
  {
    (to - from) % MinutesPerDay
  }

  /** The three fields of a slot, before validation. */
  datatype Slot = Slot(day: Day, start: Minutes, end: Minutes)

  /** The four rules the constructor enforces. */
  predicate WellFormed(s: Slot) {
    && !IsWeekend(s.day)
    && OfficeStart <= s.start
    && s.end <= OfficeEnd
    && s.start < s.end
    && s.end - s.start >= OneHour
  }

  /** A constructed TimeSlot: the constructor never hands out an invalid one. */
  type TimeSlot = s: Slot | WellFormed(s) witness Slot(Monday, 540, 600)

  /** The TimeSlot constructor. The checks run in TimeSlot.cs's order, and
      the first that fails names the fault. */
  function NewTimeSlot(day: Day, start: Minutes, end: Minutes): (r: Result<TimeSlot>)
    ensures r.Ok? <==>
      && !IsWeekend(day)
      && OfficeStart <= start && end <= OfficeEnd
      && start < end
      && end - start >= OneHour
    ensures r.Ok? ==> r.value.day == day && r.value.start == start && r.value.end == end
    ensures r.Ok? ==> r.value.start <= At(16, 0) && At(10, 0) <= r.value.end
    ensures r.Err? ==> r.failure.InvalidArgument?
    ensures start >= end ==> r == Err(InvalidArgument(StartNotBeforeEnd))
    ensures start < end && (start < OfficeStart || OfficeEnd < end) ==>
      r == Err(InvalidArgument(OutsideOfficeHours))
    ensures start < end && OfficeStart <= start && end <= OfficeEnd && IsWeekend(day) ==>
      r == Err(InvalidArgument(WeekendDay))
    ensures OfficeStart <= start < end <= OfficeEnd && !IsWeekend(day) && end - start < OneHour ==>
      r == Err(InvalidArgument(ShorterThanOneHour))
  {
    if start >= end then Err(InvalidArgument(StartNotBeforeEnd))
    else if start < OfficeStart || end > OfficeEnd then Err(InvalidArgument(OutsideOfficeHours))
    else if IsWeekend(day) then Err(InvalidArgument(WeekendDay))
    else if Elapsed(start, end) < OneHour then Err(InvalidArgument(ShorterThanOneHour))
    else Ok(Slot(day, start, end))
  }

  /** Course.AddTimeSlot's duplicate test: equal day, start and end. */
  predicate SameSlot(a: Slot, b: Slot) {
    a.day == b.day && a.start == b.start && a.end == b.end
  }

  /** Field-wise sameness is value equality, so "no two entries equal in
      (day, start, end)" is "no duplicates". */
  lemma SameSlotIsEquality(a: Slot, b: Slot)
    ensures SameSlot(a, b) <==> a == b
  {
  }

  /** The cases the TimeSlot tests exercise. */
  lemma ConstructorExamples()
    ensures NewTimeSlot(Monday, At(9, 0), At(11, 0)) == Ok(Slot(Monday, At(9, 0), At(11, 0)))
    ensures NewTimeSlot(Saturday, At(10, 0), At(12, 0)) == Err(InvalidArgument(WeekendDay))
    ensures NewTimeSlot(Sunday, At(10, 0), At(12, 0)) == Err(InvalidArgument(WeekendDay))
    ensures NewTimeSlot(Tuesday, At(8, 0), At(10, 0)) == Err(InvalidArgument(OutsideOfficeHours))
    ensures NewTimeSlot(Tuesday, At(16, 30), At(17, 30)) == Err(InvalidArgument(OutsideOfficeHours))
    ensures NewTimeSlot(Wednesday, At(14, 0), At(14, 45)) == Err(InvalidArgument(ShorterThanOneHour))
    ensures NewTimeSlot(Thursday, At(15, 0), At(14, 0)) == Err(InvalidArgument(StartNotBeforeEnd))
    ensures NewTimeSlot(Friday, At(9, 0), At(17, 0)).Ok?
    ensures NewTimeSlot(Friday, At(16, 0), At(17, 0)).Ok?
  {
  }
}
