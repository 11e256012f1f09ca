/** The Coach aggregate: skills, suitability, and availability against the
    courses already assigned. */
module Coaches {
  import opened Basics
  import opened Errors
  import opened Lists
  import opened Slots
  import opened Courses

  /** assignedCourses holds a snapshot of each assigned course; Coach.cs
      keeps live references and tells them apart by object identity, which
      the model replaces by the course id. */
  datatype Coach = Coach(
    id: Guid,
    name: string,
    email: string,
    skills: seq<Skill>,
    assignedCourses: seq<Course>)

  predicate Valid(c: Coach) {
    && !IsBlank(c.name)
    && !IsBlank(c.email)
    && NoDuplicates(c.skills)
  }

  /** The Coach constructor; the id stands for Guid.NewGuid(). */
  function NewCoach(id: Guid, name: string, email: string): (r: Result<Coach>)
    ensures r.Ok? <==> !IsBlank(name) && !IsBlank(email)
    ensures IsBlank(name) ==> r == Err(InvalidArgument(EmptyCoachName))
    ensures !IsBlank(name) && IsBlank(email) ==> r == Err(InvalidArgument(EmptyCoachEmail))
    ensures r.Ok? ==>
      && r.value.id == id && r.value.name == name && r.value.email == email
      && |r.value.skills| == 0 && |r.value.assignedCourses| == 0
      && Valid(r.value)
  {
    if IsBlank(name) then Err(InvalidArgument(EmptyCoachName))
    else if IsBlank(email) then Err(InvalidArgument(EmptyCoachEmail))
    else Ok(Coach(id, name, email, [], []))
  }

  /** Coach.AddSkill: always allowed; appends the skill unless present. */
  function AddSkill(c: Coach, skill: Skill): (r: Coach)
    ensures r.(skills := c.skills) == c
    ensures skill in r.skills
    ensures |c.skills| <= |r.skills| <= |c.skills| + 1
    ensures r.skills[..|c.skills|] == c.skills
    ensures forall s | s in r.skills :: s in c.skills || s == skill
    ensures skill in c.skills ==> r == c
    ensures Valid(c) ==> Valid(r)
  {
    c.(skills := AddIfAbsent(c.skills, skill))
  }

  /** Coach.RemoveSkill: always allowed; drops the first occurrence, and an
      absent skill is ignored. */
  function RemoveSkill(c: Coach, skill: Skill): (r: Coach)
    ensures r.(skills := c.skills) == c
    ensures multiset(r.skills) == multiset(c.skills) - multiset{skill}
    ensures skill in c.skills ==> exists k | 0 <= k < |c.skills| ::
      && c.skills[k] == skill
      && (forall i | 0 <= i < k :: c.skills[i] != skill)
      && r.skills == c.skills[..k] + c.skills[k + 1..]
    ensures skill !in c.skills ==> r == c
    ensures Valid(c) ==> skill !in r.skills && Valid(r)
  {
    c.(skills := RemoveFirst(c.skills, skill))
  }

  /** Coach.IsSuitableFor: the coach has every skill the course requires. */
  function IsSuitableFor(c: Coach, course: Course): (ok: bool)
    ensures ok <==> forall s | s in course.requiredSkills :: s in c.skills
    ensures |course.requiredSkills| == 0 ==> ok
  {
    forall i | 0 <= i < |course.requiredSkills| :: course.requiredSkills[i] in c.skills
  }

  /** Adding a skill makes a coach suitable for exactly the courses whose
      only missing requirement was that skill. */
  lemma SuitabilityAfterAddSkill(c: Coach, course: Course, skill: Skill)
    ensures IsSuitableFor(AddSkill(c, skill), course) <==>
      forall s | s in course.requiredSkills :: s in c.skills || s == skill
  {
  }

  /** Removing a skill keeps suitability exactly for the courses that do
      not require it. */
  lemma SuitabilityAfterRemoveSkill(c: Coach, course: Course, skill: Skill)
    requires Valid(c)
    ensures IsSuitableFor(RemoveSkill(c, skill), course) <==>
      IsSuitableFor(c, course) && skill !in course.requiredSkills
  {
    var r := RemoveSkill(c, skill);
    forall s | s in c.skills && s != skill
      ensures s in r.skills
    {
      assert multiset(c.skills)[s] > 0;
      assert multiset(r.skills)[s] == multiset(c.skills)[s];
    }
  }

  /** Coach.AssignCourse: appends the course, without any check. */
  function AssignCourse(c: Coach, course: Course): (r: Coach)
    ensures r.(assignedCourses := c.assignedCourses) == c
    ensures |r.assignedCourses| == |c.assignedCourses| + 1
    ensures r.assignedCourses[..|c.assignedCourses|] == c.assignedCourses
    ensures r.assignedCourses[|c.assignedCourses|] == course
  {
    c.(assignedCourses := c.assignedCourses + [course])
  }

  /** Position of the first assigned course with the given id, or the
      length of the list when there is none. */
  function IndexOfCourse(courses: seq<Course>, id: Guid): (k: nat)
    ensures k <= |courses|
    ensures k < |courses| ==> courses[k].id == id
    ensures forall i | 0 <= i < k :: courses[i].id != id
  {
    if |courses| == 0 then 0
    else if courses[0].id == id then 0
    else 1 + IndexOfCourse(courses[1..], id)
  }

  /** Coach.UnassignCourse: drops the first entry for that course, or
      nothing when the coach does not hold it. */
  function UnassignCourse(c: Coach, course: Course): (r: Coach)
    ensures r.(assignedCourses := c.assignedCourses) == c
    ensures (forall i | 0 <= i < |c.assignedCourses| :: c.assignedCourses[i].id != course.id) ==> r == c
    ensures (exists i | 0 <= i < |c.assignedCourses| :: c.assignedCourses[i].id == course.id) ==>
      exists k | 0 <= k < |c.assignedCourses| ::
        && c.assignedCourses[k].id == course.id
        && (forall i | 0 <= i < k :: c.assignedCourses[i].id != course.id)
        && r.assignedCourses == c.assignedCourses[..k] + c.assignedCourses[k + 1..]
    ensures forall x | x in r.assignedCourses :: x in c.assignedCourses
  {
    var k := IndexOfCourse(c.assignedCourses, course.id);
    if k == |c.assignedCourses| then c
    else c.(assignedCourses := RemoveAt(c.assignedCourses, k))
  }

  /** Assigning a course the coach did not hold and then unassigning it
      restores the assigned list. */
  lemma AssignThenUnassign(c: Coach, course: Course)
    requires forall i | 0 <= i < |c.assignedCourses| :: c.assignedCourses[i].id != course.id
    ensures UnassignCourse(AssignCourse(c, course), course) == c
  {
    var a := AssignCourse(c, course).assignedCourses;
    assert IndexOfCourse(a, course.id) == |c.assignedCourses|;
    assert a[..|c.assignedCourses|] == c.assignedCourses;
  }

  // ---- Availability ----

  /** Coach.DatesOverlap: the two inclusive date ranges share a day. */
  predicate DatesOverlap(a: Course, b: Course) {
    a.startDate <= b.endDate && a.endDate >= b.startDate
  }

  /** The inner test of IsAvailableFor: same day, and the half-open
      intervals [start, end) intersect. */
  predicate SlotsConflict(newSlot: Slot, existing: Slot) {
    newSlot.day == existing.day && newSlot.start < existing.end && newSlot.end > existing.start
  }

  /** An assigned course stands in the candidate's way: their periods
      overlap and some pair of their slots conflicts. */
  predicate Blocks(candidate: Course, held: Course) {
    && DatesOverlap(candidate, held)
    && exists i, j | 0 <= i < |candidate.timeSlots| && 0 <= j < |held.timeSlots| ::
         SlotsConflict(candidate.timeSlots[i], held.timeSlots[j])
  }

  /** No held course blocks the candidate. */
  predicate Available(c: Coach, course: Course) {
    forall k | 0 <= k < |c.assignedCourses| :: !Blocks(course, c.assignedCourses[k])
  }

  /** Coach.IsAvailableFor, with its three nested loops and early exit. */
  method IsAvailableFor(c: Coach, course: Course) returns (available: bool)
    ensures available <==> Available(c, course)
  {
    var k := 0;
    while k < |c.assignedCourses|
      invariant 0 <= k <= |c.assignedCourses|
      invariant forall m | 0 <= m < k :: !Blocks(course, c.assignedCourses[m])
    {
      var held := c.assignedCourses[k];
      if DatesOverlap(course, held) {
        var i := 0;
        while i < |course.timeSlots|
          invariant 0 <= i <= |course.timeSlots|
          invariant forall a, b | 0 <= a < i && 0 <= b < |held.timeSlots| ::
            !SlotsConflict(course.timeSlots[a], held.timeSlots[b])
        {
          var newSlot := course.timeSlots[i];
          var j := 0;
          while j < |held.timeSlots|
            invariant 0 <= j <= |held.timeSlots|
            invariant forall a, b | 0 <= a < i && 0 <= b < |held.timeSlots| ::
              !SlotsConflict(course.timeSlots[a], held.timeSlots[b])
            invariant forall b | 0 <= b < j :: !SlotsConflict(newSlot, held.timeSlots[b])
          {
            var existingSlot := held.timeSlots[j];
            if newSlot.day == existingSlot.day
              && newSlot.start < existingSlot.end
              && newSlot.end > existingSlot.start
            {
              assert SlotsConflict(course.timeSlots[i], held.timeSlots[j]);
              assert Blocks(course, c.assignedCourses[k]);
              return false;
            }
            j := j + 1;
          }
          i := i + 1;
        }
      }
      k := k + 1;
    }
    return true;
  }

  /** Conflict and overlap do not depend on which side is the candidate. */
  lemma ConflictAndOverlapAreSymmetric(s: Slot, t: Slot, a: Course, b: Course)
    ensures SlotsConflict(s, t) <==> SlotsConflict(t, s)
    ensures DatesOverlap(a, b) <==> DatesOverlap(b, a)
    ensures Blocks(a, b) <==> Blocks(b, a)
  {
    if Blocks(a, b) {
      var i, j :| 0 <= i < |a.timeSlots| && 0 <= j < |b.timeSlots| &&
        SlotsConflict(a.timeSlots[i], b.timeSlots[j]);
      assert SlotsConflict(b.timeSlots[j], a.timeSlots[i]);
    }
    if Blocks(b, a) {
      var j, i :| 0 <= j < |b.timeSlots| && 0 <= i < |a.timeSlots| &&
        SlotsConflict(b.timeSlots[j], a.timeSlots[i]);
      assert SlotsConflict(a.timeSlots[i], b.timeSlots[j]);
    }
  }

  /** Slots on different days, or that merely touch, never conflict; a
      constructed slot always conflicts with itself. */
  lemma ConflictCases(s: Slot, t: Slot, u: TimeSlot)
    ensures s.day != t.day ==> !SlotsConflict(s, t)
    ensures s.end == t.start || t.end == s.start ==> !SlotsConflict(s, t)
    ensures SlotsConflict(u, u)
  {
  }

  /** With nothing held, or with every held period disjoint from
      the candidate's, the coach is available whatever the slots. */
  lemma AvailableWhenNoPeriodOverlaps(c: Coach, course: Course)
    requires forall k | 0 <= k < |c.assignedCourses| :: !DatesOverlap(course, c.assignedCourses[k])
    ensures Available(c, course)
  {
  }

  /** Assigning one more course removes availability exactly for the
      candidates that course blocks. */
  lemma AvailabilityAfterAssign(c: Coach, other: Course, course: Course)
    ensures Available(AssignCourse(c, other), course) <==>
      Available(c, course) && !Blocks(course, other)
  {
    var a := AssignCourse(c, other).assignedCourses;
    assert a[|c.assignedCourses|] == other;
    assert forall k | 0 <= k < |c.assignedCourses| :: a[k] == c.assignedCourses[k];
  }

  /** Unassigning a course never makes a coach less available. */
  lemma AvailabilityAfterUnassign(c: Coach, other: Course, course: Course)
    requires Available(c, course)
    ensures Available(UnassignCourse(c, other), course)
  {
    var r := UnassignCourse(c, other);
    forall k | 0 <= k < |r.assignedCourses|
      ensures !Blocks(course, r.assignedCourses[k])
    {
      assert r.assignedCourses[k] in c.assignedCourses;
    }
  }

  /** The situation of the assignment test: a coach holding a Wednesday
      14:00-16:00 course in September is not available for a course in the
      second half of September on Wednesday 15:00-17:00. */
  lemma AvailabilityExamples(coach: Coach)
    requires |coach.assignedCourses| == 0
    ensures
      var wednesday: TimeSlot := Slot(Wednesday, At(14, 0), At(16, 0));
      var later: TimeSlot := Slot(Wednesday, At(15, 0), At(17, 0));
      var existing := Course(1, "Testcursus", 20250901, 20250930, [wednesday], [DotNet], true);
      var candidate := Course(2, "OverlapCursus", 20250915, 20250930, [later], [DotNet], true);
      !Available(AssignCourse(coach, existing), candidate)
  {
    var wednesday: TimeSlot := Slot(Wednesday, At(14, 0), At(16, 0));
    var later: TimeSlot := Slot(Wednesday, At(15, 0), At(17, 0));
    var existing := Course(1, "Testcursus", 20250901, 20250930, [wednesday], [DotNet], true);
    var candidate := Course(2, "OverlapCursus", 20250915, 20250930, [later], [DotNet], true);
    assert SlotsConflict(candidate.timeSlots[0], existing.timeSlots[0]);
    assert AssignCourse(coach, existing).assignedCourses[0] == existing;
  }

  /** Two courses with the same Friday slot in disjoint periods do not
      block each other. */
  lemma DisjointPeriodsExample(coach: Coach)
    requires |coach.assignedCourses| == 0
    ensures
      var friday: TimeSlot := Slot(Friday, At(10, 0), At(12, 0));
      var spring := Course(3, "Q1", 20250101, 20250331, [friday], [], true);
      var summer := Course(4, "Q2", 20250401, 20250630, [friday], [], true);
      Available(AssignCourse(coach, spring), summer)
  {
  }
}
