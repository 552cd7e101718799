/**
 * The admin dashboard figures (`adminStatsHandler`, server.js): how many
 * students and instructors are stored, how many lessons fall on today and
 * are not cancelled, and how many are still scheduled.
 */
module Stats {
  import opened Common
  import opened Data
  import opened Access

  const CancelledStatus: string := "cancelled"

  datatype Stats = Stats(totalStudents: nat, totalInstructors: nat, todaysLessons: nat, pendingActions: nat)

  /** `date.slice(0, 10)`: the first ten characters, or the whole string when shorter. */
  function DatePrefix(date: string): (r: string)
    ensures |r| == if |date| < 10 then |date| else 10
    ensures r <= date
  {
    if |date| < 10 then date else date[..10]
  }

  predicate IsStudent(u: User) { u.role == StudentRole }
  predicate IsInstructor(u: User) { u.role == InstructorRole }

  /** A lesson counted for `today`: its date starts with `today` and it is not cancelled. */
  predicate OnDay(l: Lesson, today: string) {
    DatePrefix(l.date) == today && l.status != CancelledStatus
  }

  predicate Pending(l: Lesson) { l.status == ScheduledStatus }

  /** The four figures; `today` is the current date, `YYYY-MM-DD`, a parameter
      because the handler reads the clock. */
  function ComputeStats(users: seq<User>, lessons: seq<Lesson>, today: string): (s: Stats)
    ensures s.totalStudents + s.totalInstructors <= |users|
    ensures s.todaysLessons <= |lessons| && s.pendingActions <= |lessons|
  {
    CountDisjoint(users, IsStudent, IsInstructor);
    Stats(Count(users, IsStudent), Count(users, IsInstructor),
          Count(lessons, (l: Lesson) => OnDay(l, today)), Count(lessons, Pending))
  }

  /** GET /api/admin/stats and /api/dashboard/stats: admins only. */
  function AdminStats(users: seq<User>, lessons: seq<Lesson>, caller: User, today: string): (r: Reply<Stats>)
    ensures r.Ok? <==> caller.role == AdminRole
    ensures r.Fail? ==> r == Fail(403, Forbidden)
    ensures r.Ok? ==> r.status == 200 && r.value == ComputeStats(users, lessons, today)
  {
    if caller.role != AdminRole then Fail(403, Forbidden) else Ok(200, ComputeStats(users, lessons, today))
  }

  /** A count grows by one for an appended element that qualifies, and not otherwise. */
  lemma CountAppend<T>(s: seq<T>, x: T, p: T -> bool)
    ensures Count(s + [x], p) == Count(s, p) + (if p(x) then 1 else 0)
  {
    FilterAppend(s, [x], p);
    assert Filter([x], p) == (if p(x) then [x] else []) + Filter([], p);
  }

  /** Creating or booking a lesson (which appends a scheduled lesson) raises
      the pending figure by exactly one, and today's figure by one exactly when
      the lesson's date starts with today. */
  lemma NewLessonCounts(users: seq<User>, lessons: seq<Lesson>, l: Lesson, today: string)
    requires l.status == ScheduledStatus
    ensures var before, after := ComputeStats(users, lessons, today), ComputeStats(users, lessons + [l], today);
            && after.pendingActions == before.pendingActions + 1
            && after.todaysLessons == before.todaysLessons + (if DatePrefix(l.date) == today then 1 else 0)
            && after.totalStudents == before.totalStudents && after.totalInstructors == before.totalInstructors
  {
    CountAppend(lessons, l, Pending);
    CountAppend(lessons, l, (m: Lesson) => OnDay(m, today));
  }

  /** Cancelling a lesson (an update writing "cancelled") takes it out of
      today's figure and, if it was scheduled, out of the pending figure. */
  lemma CancelledLessonCounts(users: seq<User>, lessons: seq<Lesson>, k: nat, today: string)
    requires k < |lessons|
    ensures var before := ComputeStats(users, lessons, today);
            var after := ComputeStats(users, lessons[k := lessons[k].(status := CancelledStatus)], today);
            && after.todaysLessons == before.todaysLessons - (if OnDay(lessons[k], today) then 1 else 0)
            && after.pendingActions == before.pendingActions - (if Pending(lessons[k]) then 1 else 0)
  {
    var c := lessons[k].(status := CancelledStatus);
    var onDay := (m: Lesson) => OnDay(m, today);
    assert lessons == lessons[..k] + [lessons[k]] + lessons[k + 1..];
    assert lessons[k := c] == lessons[..k] + [c] + lessons[k + 1..];
    FilterAppend(lessons[..k] + [lessons[k]], lessons[k + 1..], onDay);
    FilterAppend(lessons[..k], [lessons[k]], onDay);
    FilterAppend(lessons[..k] + [c], lessons[k + 1..], onDay);
    FilterAppend(lessons[..k], [c], onDay);
    FilterAppend(lessons[..k] + [lessons[k]], lessons[k + 1..], Pending);
    FilterAppend(lessons[..k], [lessons[k]], Pending);
    FilterAppend(lessons[..k] + [c], lessons[k + 1..], Pending);
    FilterAppend(lessons[..k], [c], Pending);
    assert Filter([lessons[k]], onDay) == (if onDay(lessons[k]) then [lessons[k]] else []) + Filter([], onDay);
    assert Filter([c], onDay) == [] + Filter([], onDay);
    assert Filter([lessons[k]], Pending) == (if Pending(lessons[k]) then [lessons[k]] else []) + Filter([], Pending);
    assert Filter([c], Pending) == [] + Filter([], Pending);
  }
}
