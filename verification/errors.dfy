/** Failure kinds of the domain layer.

    TimeSlot.cs, Course.cs and Coach.cs signal every rejected call with an exception. Two exception
    types are used: ArgumentException when a constructor refuses its
    arguments, and InvalidOperationException when a call is not allowed in
    the object's current state. Each fault below names the check that fired,
    so the order of the checks is part of the model. */
module Errors {

  /** Reasons carried by ArgumentException. */
  datatype ArgumentFault =
    | StartNotBeforeEnd      // TimeSlot: start >= end
    | OutsideOfficeHours     // TimeSlot: before 09:00 or after 17:00
    | WeekendDay             // TimeSlot: Saturday or Sunday
    | ShorterThanOneHour     // TimeSlot: lasts less than an hour
    | EmptyCourseName        // Course: blank name
    | StartDateAfterEndDate  // Course: start date after end date
    | EmptyCoachName         // Coach: blank name
    | EmptyCoachEmail        // Coach: blank email

  /** Reasons carried by InvalidOperationException. */
  datatype OperationFault =
    | SkillsLocked           // required skills changed after confirmation
    | SlotsLocked            // time slot added after confirmation
    | DuplicateSlot          // same (day, start, end) already present
    | AlreadyConfirmed       // second confirmation
    | NoTimeSlots            // confirmation without a time slot
    | DatesReversed          // confirmation with start date after end date
    | NameMissing            // confirmation with a blank name

  datatype Failure =
    | InvalidArgument(argument: ArgumentFault)
    | InvalidOperation(operation: OperationFault)

  /** Either the new value produced by a call, or the failure it threw. */
  datatype Result<+T> = Ok(value: T) | Err(failure: Failure)
}
