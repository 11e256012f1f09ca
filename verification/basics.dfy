/** Primitive types shared by the domain: week days, times of day, dates,
    identifiers, skills and the blank-string test. */
module Basics {

  /** System.DayOfWeek, in its own order (Sunday is 0). */
  datatype Day = Sunday | Monday | Tuesday | Wednesday | Thursday | Friday | Saturday

  predicate IsWeekend(d: Day) {
    d == Saturday || d == Sunday
  }

  const MinutesPerDay: int := 1440

  /** A TimeOnly value, counted in minutes since midnight. */
  type Minutes = m: int | 0 <= m < MinutesPerDay

  /** The time of day hh:mm. */
  function At(hour: int, minute: int): (t: Minutes)
    requires 0 <= hour < 24 && 0 <= minute < 60
    ensures t / 60 == hour && t % 60 == minute
  {
    hour * 60 + minute
  }

  /** A DateOnly value, as a day number; only its order matters here. */
  type Date = int

  /** An identifier produced by Guid.NewGuid(); the model receives it as a parameter. */
  type Guid = nat

  /** The skill tags the domain and its tests use. */
  datatype Skill = Agile | Backend | Frontend | DevOps | Security | Communication | DotNet

  /** char.IsWhiteSpace: the Unicode space, line and paragraph separators,
      the control characters U+0009..U+000D, and U+0085. */
  predicate IsWhiteSpace(ch: char) {
    || ('\t' <= ch <= '\r')
    || ch == ' '
    || ch == '\U{0085}'
    || ch == '\U{00A0}'
    || ch == '\U{1680}'
    || ('\U{2000}' <= ch <= '\U{200A}')
    || ch == '\U{2028}'
    || ch == '\U{2029}'
    || ch == '\U{202F}'
    || ch == '\U{205F}'
    || ch == '\U{3000}'
  }

  /** string.IsNullOrWhiteSpace for a non-null string: empty, or whitespace only. */
  predicate IsBlank(s: string) {
    forall i | 0 <= i < |s| :: IsWhiteSpace(s[i])
  }
}
