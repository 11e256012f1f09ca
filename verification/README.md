# HorsesForCourses domain core in Dafny

A functional model of the domain layer of HorsesForCourses, a system that
assigns coaches to courses. It covers the three classes of the core:

- **TimeSlot**: a weekly slot (day, start, end) that its constructor accepts
  only on a weekday, inside 09:00-17:00, with start before end and lasting at
  least one hour.
- **Course**: a dated course with required skills and time slots, which can
  change only while the course is a draft; confirmation is one-way.
- **Coach**: a person with skills, a suitability test against a course's
  required skills, an availability test against the courses already
  assigned, and the bookkeeping of that assigned list.

Each C# object becomes an immutable datatype and each mutating method a pure
function returning `Result<T>`: `Ok` with the new state, or `Err` with the
exception the method would throw. `InvalidArgument` stands for
`ArgumentException`, `InvalidOperation` for `InvalidOperationException`, and
the fault inside names the check that fired. Because every check in
`Course.cs` and `Coach.cs` runs before any mutation, a thrown exception leaves the object as it
was; `Courses.Run` applies a sequence of calls with exactly that behaviour.

Encoding choices:

- `TimeOnly` is minutes since midnight (0..1439); `DateOnly` is an integer day
  number; `Guid` is a natural number passed to the constructors in place of
  `Guid.NewGuid()`.
- `List<T>` is `seq<T>`: order and append behaviour are kept. `List.Remove`
  drops only the first occurrence, and the model does the same.
- `TimeOnly` subtraction wraps around midnight in .NET; `Slots.Elapsed` models
  that wrap explicitly. The constructor's earlier start-before-end check makes
  the wrap unreachable.
- `string.IsNullOrWhiteSpace` is `Basics.IsBlank` over the characters
  `char.IsWhiteSpace` accepts.
- `TimeSlot` is a subset type of the raw `Slot` record, so a time slot held
  by a course is always one the constructor accepted.
- `Coach.assignedCourses` holds course snapshots. `Coach.cs` stores live
  references and `List.Remove` matches them by object identity; the model
  matches by course id instead.

Files: `errors.dfy` (failure kinds, `Result`), `basics.dfy` (days, times,
dates, skills, blank strings), `lists.dfy` (the `List<T>` operations used),
`time_slot.dfy`, `course.dfy`, `coach.dfy`.

The availability rule counts an assigned course only when its date range
overlaps the candidate's (`Coach.cs:55`).

## Model

| member | source | states |
|---|---|---|
| Slots.NewTimeSlot | HorsesForCourses.Core/ValueObjects/TimeSlot.cs:9-29 | Succeeds iff the day is a weekday, 09:00 <= start, end <= 17:00, start < end and the slot lasts at least an hour. A success carries exactly the given day, start and end, which puts start at or before 16:00 and end at or after 10:00. Every failure is an argument error. A reversed slot is reported as reversed, an out-of-hours slot as out of hours, a weekend slot with valid hours as a weekend slot, and a valid weekday slot under an hour as too short |
| Slots.Elapsed | HorsesForCourses.Core/ValueObjects/TimeSlot.cs:23 | `end - start` on TimeOnly is a span in [0, 24h): the plain difference when start <= end, otherwise the difference wrapped past midnight |
| Slots.SameSlotIsEquality | HorsesForCourses.Core/Models/Course.cs:55-58 | The duplicate test on (day, start, end) holds exactly when the two slots are equal values |
| Slots.ConstructorExamples | HorsesForCourses.Tests/ValueObjects/TimeSlotTests.cs:7-53 | Monday 09:00-11:00 round-trips. Saturday and Sunday are rejected. 08:00-10:00 and 16:30-17:30 are out of hours. 14:00-14:45 is too short. 15:00-14:00 is reversed. 09:00-17:00 and a slot of exactly one hour are accepted |
| Lists.AddIfAbsent | HorsesForCourses.Core/Models/Course.cs:36-39 | The old list is a prefix of the result. The result contains x and nothing other than x and the old entries. It is unchanged exactly when x was present, and it keeps a duplicate-free list duplicate-free |
| Lists.AddIfAbsentIdempotent | HorsesForCourses.Core/Models/Coach.cs:26-29 | Adding the same element twice equals adding it once |
| Lists.IndexOf | HorsesForCourses.Core/Models/Course.cs:47 | The position found holds x and is the first one that does; it equals the length exactly when x is absent |
| Lists.RemoveFirst | HorsesForCourses.Core/Models/Course.cs:47 | Removes the first occurrence of x, keeping the other entries in order, so exactly one copy goes (as multisets); an absent x leaves the list unchanged; on a duplicate-free list x is then gone and the list stays duplicate-free |
| Lists.RemoveAt | HorsesForCourses.Core/Models/Coach.cs:48 | Entries before k keep their positions, later ones shift down by one, and exactly the entry at k is lost |
| Courses.NewCourse | HorsesForCourses.Core/Models/Course.cs:17-28 | Fails with an argument error on a blank name (empty or whitespace only, `Basics.IsBlank`), checked first, or on start date > end date; equal dates are accepted. A success has the given id, name and dates, is a draft with no slots or skills, and satisfies the course invariant |
| Courses.AddRequiredSkill | HorsesForCourses.Core/Models/Course.cs:31-40 | Fails with a state error iff the course is confirmed. Otherwise the skill is present afterwards and the old list is a prefix of the new one. Nothing but the skill is added, an already-required skill changes nothing, and no other field changes. The invariant is preserved |
| Courses.AddRequiredSkillTwice | HorsesForCourses.Core/Models/Course.cs:36-39 | Adding the same required skill twice gives the same course as adding it once |
| Courses.RemoveRequiredSkill | HorsesForCourses.Core/Models/Course.cs:42-48 | Fails with a state error iff the course is confirmed. Otherwise the first occurrence of the skill is removed, the remaining skills keep their order, and no other field changes. Removing an absent skill is a no-op. On a valid course the skill is absent afterwards |
| Courses.AddTimeSlot | HorsesForCourses.Core/Models/Course.cs:50-64 | A confirmed course gives a state error; an equal slot already present gives a duplicate error. Otherwise the slot is appended, the list grows by exactly one, the old entries are kept in order, and no other field changes. The invariant is preserved, including no two equal slots |
| Courses.Confirm | HorsesForCourses.Core/Models/Course.cs:66-81 | Succeeds iff the course is a draft with at least one slot, ordered dates and a non-blank name. A second confirmation and a confirmation without slots are rejected by those reasons. Every failure is a state error. A success only sets the confirmed flag |
| Courses.ConfirmOnValidCourse | HorsesForCourses.Core/Models/Course.cs:66-81 | On any valid course Confirm succeeds iff it is a draft with a slot; the date and name checks never fire |
| Courses.ConfirmedRefusesEveryCommand | HorsesForCourses.Core/Models/Course.cs:31-69 | Once confirmed, each of AddRequiredSkill, RemoveRequiredSkill, AddTimeSlot and Confirm fails with a state error |
| Courses.Run | HorsesForCourses.Core/Models/Course.cs:17-81 | Across any sequence of calls the id, name and dates never change, a confirmed course stays exactly as it is, and the invariant holds: non-blank name, ordered dates, no duplicate slots or skills, and at least one slot once confirmed |
| Coaches.NewCoach | HorsesForCourses.Core/Models/Coach.cs:16-24 | Fails with an argument error on a blank name, checked first, or a blank email. A success has the given id, name and email, no skills and no assigned courses |
| Coaches.AddSkill | HorsesForCourses.Core/Models/Coach.cs:26-29 | Never fails. The skill is present afterwards, the old list is a prefix of the new one, and nothing else is added. A present skill changes nothing and other fields are untouched. The skill list stays duplicate-free |
| Coaches.RemoveSkill | HorsesForCourses.Core/Models/Coach.cs:31-34 | Never fails. The first occurrence is removed and the remaining skills keep their order, an absent skill is a no-op, and on a valid coach the skill is gone afterwards |
| Coaches.IsSuitableFor | HorsesForCourses.Core/Models/Coach.cs:36-39 | True iff every required skill of the course is among the coach's skills; always true for a course with no requirements |
| Coaches.SuitabilityAfterAddSkill | HorsesForCourses.Core/Models/Coach.cs:26-39 | After adding a skill the coach suits a course iff each requirement is that skill or one the coach already had |
| Coaches.SuitabilityAfterRemoveSkill | HorsesForCourses.Core/Models/Coach.cs:31-39 | On a coach with no duplicate skills, after removing a skill the coach suits a course iff it did before and the course does not require that skill |
| Coaches.AssignCourse | HorsesForCourses.Core/Models/Coach.cs:41-44 | Appends exactly the given course to the assigned list, with no check, and changes nothing else |
| Coaches.IndexOfCourse | HorsesForCourses.Core/Models/Coach.cs:48 | Finds the first assigned entry carrying the course's id, or the list length when there is none |
| Coaches.UnassignCourse | HorsesForCourses.Core/Models/Coach.cs:46-49 | Without an entry for the course nothing changes. Otherwise exactly the first entry for it is removed, with the others kept in order. No new entry appears and other fields are untouched |
| Coaches.AssignThenUnassign | HorsesForCourses.Core/Models/Coach.cs:41-49 | Assigning a course the coach did not hold and then unassigning it restores the coach |
| Coaches.IsAvailableFor | HorsesForCourses.Core/Models/Coach.cs:51-78 | The nested loops return false iff some assigned course has an inclusively overlapping date range (`DatesOverlap`: start <= other end and end >= other start) and some pair of slots on the same day whose half-open intervals intersect |
| Coaches.ConflictAndOverlapAreSymmetric | HorsesForCourses.Core/Models/Coach.cs:61-78 | Slot conflict, date overlap and blocking are symmetric in their two arguments |
| Coaches.ConflictCases | HorsesForCourses.Core/Models/Coach.cs:61-63 | Slots on different days never conflict, slots that only touch never conflict, and a constructed slot conflicts with itself |
| Coaches.AvailableWhenNoPeriodOverlaps | HorsesForCourses.Core/Models/Coach.cs:53-55 | A coach with no assigned courses, or whose assigned periods are all disjoint from the candidate's, is available whatever the slots |
| Coaches.AvailabilityAfterAssign | HorsesForCourses.Core/Models/Coach.cs:41-73 | After assigning one more course, the coach is available for a candidate iff it was before and the new course does not block the candidate |
| Coaches.AvailabilityAfterUnassign | HorsesForCourses.Core/Models/Coach.cs:46-73 | Unassigning a course never turns an available coach unavailable |
| Coaches.AvailabilityExamples | HorsesForCourses.Tests/Models/CourseAssignCoachTests.cs:33-51 | A Wednesday 14:00-16:00 September course blocks a course in late September on Wednesday 15:00-17:00 |
| Coaches.DisjointPeriodsExample | HorsesForCourses.Core/Models/Coach.cs:53-55 | The same Friday 10:00-12:00 slot in two disjoint periods (January-March and April-June) does not block |

## Left out

- Courses.Run: the invariant holds only for callers that change a course through its methods. `Course.TimeSlots`, `Course.RequiredSkills` and `Coach.Skills` are public mutable `List<T>` values, so code that edits them directly (for example clearing the slots of a confirmed course) can break it.
- Null arguments: C# names and emails may be null, which `IsNullOrWhiteSpace` treats as blank; Dafny strings are never null, so only the empty and whitespace cases are modelled. Null object arguments are not modelled either: `Course.AddTimeSlot(null)` on a course with no slots appends null, and `Coach.AssignCourse(null)` appends null, which a later `IsAvailableFor` dereferences in `DatesOverlap`; every slot and course in the model is a real value.
- `TimeOnly` precision below a minute: ticks and seconds are not represented, so a slot 59 minutes and 30 seconds long cannot be expressed.
- `Guid.NewGuid()`: identifiers are parameters, and their uniqueness is assumed rather than generated.
- Course assign/unassign of a coach, `RemoveTimeSlot`, `AssignedCoach` and `Coach.AssignCourseTimeSlots`: the tests and controller call them, but `Course.cs` and `Coach.cs` do not define them, so their behaviour cannot be read from the code.
- Live references in the coach's assigned list: later changes to an assigned `Course` object would show through in C#. The model stores the snapshot taken at assignment time.
- The HTTP controllers, request and response DTOs, error-to-status mapping, the in-memory repositories, and `Program.cs` wiring: plumbing outside the domain core.
- Concurrency: the C# objects have no synchronisation and the Web API shares them across requests; the model is purely sequential.
