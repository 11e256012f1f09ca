/** The Course aggregate: a dated course whose required skills and weekly
    time slots may change only while it is a draft. */
module Courses {
  import opened Basics
  import opened Errors
  import opened Lists
  import opened Slots

  datatype Course = Course(
    id: Guid,
    name: string,
    startDate: Date,
    endDate: Date,
    timeSlots: seq<TimeSlot>,
    requiredSkills: seq<Skill>,
    isConfirmed: bool)

  /** What every course reachable through the methods satisfies. */
  predicate Valid(c: Course) {
    && !IsBlank(c.name)
    && c.startDate <= c.endDate
    && NoDuplicates(c.timeSlots)
    && NoDuplicates(c.requiredSkills)
    && (c.isConfirmed ==> |c.timeSlots| > 0)
  }

  /** Two courses agree on everything but their required skills. */
  predicate SameExceptSkills(a: Course, b: Course) {
    a.(requiredSkills := b.requiredSkills) == b
  }

  /** Two courses agree on everything but their time slots. */
  predicate SameExceptSlots(a: Course, b: Course) {
    a.(timeSlots := b.timeSlots) == b
  }

  /** The Course constructor; the id stands for Guid.NewGuid(). */
  function NewCourse(id: Guid, name: string, startDate: Date, endDate: Date): (r: Result<Course>)
    ensures r.Ok? <==> !IsBlank(name) && startDate <= endDate
    ensures IsBlank(name) ==> r == Err(InvalidArgument(EmptyCourseName))
    ensures !IsBlank(name) && startDate > endDate ==> r == Err(InvalidArgument(StartDateAfterEndDate))
    ensures r.Ok? ==>
      && r.value.id == id && r.value.name == name
      && r.value.startDate == startDate && r.value.endDate == endDate
      && !r.value.isConfirmed
      && |r.value.timeSlots| == 0 && |r.value.requiredSkills| == 0
      && Valid(r.value)
  {
    if IsBlank(name) then Err(InvalidArgument(EmptyCourseName))
    else if startDate > endDate then Err(InvalidArgument(StartDateAfterEndDate))
    else Ok(Course(id, name, startDate, endDate, [], [], false))
  }

  /** Course.AddRequiredSkill: refused once confirmed, otherwise the skill
      is appended unless already required. */
  function AddRequiredSkill(c: Course, skill: Skill): (r: Result<Course>)
    ensures r.Err? <==> c.isConfirmed
    ensures r.Err? ==> r.failure == InvalidOperation(SkillsLocked)
    ensures r.Ok? ==>
      && SameExceptSkills(r.value, c)
      && skill in r.value.requiredSkills
      && |c.requiredSkills| <= |r.value.requiredSkills| <= |c.requiredSkills| + 1
      && r.value.requiredSkills[..|c.requiredSkills|] == c.requiredSkills
      && (forall s | s in r.value.requiredSkills :: s in c.requiredSkills || s == skill)
      && (skill in c.requiredSkills ==> r.value == c)
    ensures Valid(c) && r.Ok? ==> Valid(r.value)
  {
    if c.isConfirmed then Err(InvalidOperation(SkillsLocked))
    else Ok(c.(requiredSkills := AddIfAbsent(c.requiredSkills, skill)))
  }

  /** Course.RemoveRequiredSkill: refused once confirmed, otherwise the
      first occurrence of the skill goes, and an absent skill is ignored. */
  function RemoveRequiredSkill(c: Course, skill: Skill): (r: Result<Course>)
    ensures r.Err? <==> c.isConfirmed
    ensures r.Err? ==> r.failure == InvalidOperation(SkillsLocked)
    ensures r.Ok? ==>
      && SameExceptSkills(r.value, c)
      && multiset(r.value.requiredSkills) == multiset(c.requiredSkills) - multiset{skill}
      && (skill in c.requiredSkills ==> exists k | 0 <= k < |c.requiredSkills| ::
            && c.requiredSkills[k] == skill
            && (forall i | 0 <= i < k :: c.requiredSkills[i] != skill)
            && r.value.requiredSkills == c.requiredSkills[..k] + c.requiredSkills[k + 1..])
      && (skill !in c.requiredSkills ==> r.value == c)
    ensures Valid(c) && r.Ok? ==> skill !in r.value.requiredSkills && Valid(r.value)
  {
    if c.isConfirmed then Err(InvalidOperation(SkillsLocked))
    else Ok(c.(requiredSkills := RemoveFirst(c.requiredSkills, skill)))
  }

  /** True when the list already holds a slot with the same day, start and end. */
  predicate HasSameSlot(slots: seq<TimeSlot>, slot: TimeSlot) {
    exists i | 0 <= i < |slots| :: SameSlot(slots[i], slot)
  }

  /** Course.AddTimeSlot: refused once confirmed, refused for a slot equal
      in (day, start, end) to one already present, otherwise appended. */
  function AddTimeSlot(c: Course, slot: TimeSlot): (r: Result<Course>)
    ensures r.Ok? <==> !c.isConfirmed && slot !in c.timeSlots
    ensures c.isConfirmed ==> r == Err(InvalidOperation(SlotsLocked))
    ensures !c.isConfirmed && slot in c.timeSlots ==> r == Err(InvalidOperation(DuplicateSlot))
    ensures r.Ok? ==>
      && SameExceptSlots(r.value, c)
      && |r.value.timeSlots| == |c.timeSlots| + 1
      && r.value.timeSlots[..|c.timeSlots|] == c.timeSlots
      && r.value.timeSlots[|c.timeSlots|] == slot
    ensures Valid(c) && r.Ok? ==> Valid(r.value)
  {
    if c.isConfirmed then Err(InvalidOperation(SlotsLocked))
    else if HasSameSlot(c.timeSlots, slot) then Err(InvalidOperation(DuplicateSlot))
    else Ok(c.(timeSlots := c.timeSlots + [slot]))
  }

  /** Course.Confirm: the one-way step from draft to confirmed. */
  function Confirm(c: Course): (r: Result<Course>)
    ensures r.Ok? <==>
      !c.isConfirmed && |c.timeSlots| > 0 && c.startDate <= c.endDate && !IsBlank(c.name)
    ensures c.isConfirmed ==> r == Err(InvalidOperation(AlreadyConfirmed))
    ensures !c.isConfirmed && |c.timeSlots| == 0 ==> r == Err(InvalidOperation(NoTimeSlots))
    ensures r.Err? ==> r.failure.InvalidOperation?
    ensures r.Ok? ==> r.value.isConfirmed && r.value.(isConfirmed := false) == c
    ensures Valid(c) && r.Ok? ==> Valid(r.value)
  {
    if c.isConfirmed then Err(InvalidOperation(AlreadyConfirmed))
    else if |c.timeSlots| == 0 then Err(InvalidOperation(NoTimeSlots))
    else if c.startDate > c.endDate then Err(InvalidOperation(DatesReversed))
    else if IsBlank(c.name) then Err(InvalidOperation(NameMissing))
    else Ok(c.(isConfirmed := true))
  }

  /** On a valid course, Confirm fails only for the first two reasons: the
      date and name checks repeat the constructor's and never fire. */
  lemma ConfirmOnValidCourse(c: Course)
    requires Valid(c)
    ensures Confirm(c).Ok? <==> !c.isConfirmed && |c.timeSlots| > 0
    ensures Confirm(c).Err? ==>
      Confirm(c).failure in {InvalidOperation(AlreadyConfirmed), InvalidOperation(NoTimeSlots)}
  {
  }

  /** Adding the same required skill twice is the same as adding it once. */
  lemma AddRequiredSkillTwice(c: Course, skill: Skill)
    requires AddRequiredSkill(c, skill).Ok?
    ensures AddRequiredSkill(AddRequiredSkill(c, skill).value, skill) == AddRequiredSkill(c, skill)
  {
    AddIfAbsentIdempotent(c.requiredSkills, skill);
  }

  /** A call on a course, as the public methods offer them. */
  datatype Command =
    | AddRequired(skill: Skill)
    | RemoveRequired(skill: Skill)
    | AddSlot(slot: TimeSlot)
    | ConfirmCourse

  function Apply(c: Course, cmd: Command): Result<Course> {
    match cmd
    case AddRequired(s) => AddRequiredSkill(c, s)
    case RemoveRequired(s) => RemoveRequiredSkill(c, s)
    case AddSlot(t) => AddTimeSlot(c, t)
    case ConfirmCourse => Confirm(c)
  }

  /** Once confirmed, every call fails and the course stays as it is. */
  lemma ConfirmedRefusesEveryCommand(c: Course, cmd: Command)
    requires c.isConfirmed
    ensures Apply(c, cmd).Err? && Apply(c, cmd).failure.InvalidOperation?
  {
  }

  /** The course after a sequence of calls, each of which either succeeds or
      throws before changing anything (the caller catching the exception). */
  function Run(c: Course, cmds: seq<Command>): (r: Course)
    ensures r.id == c.id && r.name == c.name
    ensures r.startDate == c.startDate && r.endDate == c.endDate
    ensures c.isConfirmed ==> r == c
    ensures Valid(c) ==> Valid(r)
    decreases |cmds|
  {
    if |cmds| == 0 then c
    else
      var next := match Apply(c, cmds[0]) case Ok(v) => v case Err(_) => c;
      Run(next, cmds[1..])
  }
}
