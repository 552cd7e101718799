/**
 * The in-memory data of the backend: the records kept in the three
 * module-level arrays `users`, `lessons` and `notifications`, the two
 * first-match lookups, and the demo seeding done at start-up.
 */
module Data {
  import opened Common

  const StudentRole: string := "student"
  const InstructorRole: string := "instructor"
  const AdminRole: string := "admin"
  const ScheduledStatus: string := "scheduled"
  const DefaultPassword: string := "password123"

  /** A stored user. `role` is a free string: the update handler accepts any
      role other than "admin". */
  datatype User = User(id: string, name: string, email: string, password: string,
                       role: string, isActive: bool)

  /** A user as sent to clients: every field but the password. */
  datatype PublicUser = PublicUser(id: string, name: string, email: string,
                                   role: string, isActive: bool)

  /** A stored lesson; `studentId` and `instructorId` are raw user ids. */
  datatype Lesson = Lesson(id: string, lessonType: string, date: string, time: string,
                           status: string, studentId: string, instructorId: string)

  /** A message; `from` is the sender's public projection at posting time. */
  datatype Notification = Notification(id: string, from: PublicUser, toRole: string,
                                       subject: string, body: string, createdAt: string)

  function UserId(u: User): string { u.id }
  function LessonId(l: Lesson): string { l.id }

  ghost predicate UserIdsUnique(users: seq<User>) {
    UniqueBy(users, UserId)
  }

  ghost predicate LessonIdsUnique(lessons: seq<Lesson>) {
    UniqueBy(lessons, LessonId)
  }

  /** `findUserById`: the first user with this id, or None. */
  function FindUserById(users: seq<User>, id: string): (r: Option<User>)
    ensures r.None? <==> forall i :: 0 <= i < |users| ==> users[i].id != id
    ensures r.Some? ==> exists i :: 0 <= i < |users| && users[i] == r.value && users[i].id == id &&
                                    forall j :: 0 <= j < i ==> users[j].id != id
  {
    match FindFirst(users, (u: User) => u.id == id)
    case None => None
    case Some(i) => Some(users[i])
  }

  /** `findLessonById`: the first lesson with this id, or None. */
  function FindLessonById(lessons: seq<Lesson>, id: string): (r: Option<Lesson>)
    ensures r.None? <==> forall i :: 0 <= i < |lessons| ==> lessons[i].id != id
    ensures r.Some? ==> exists i :: 0 <= i < |lessons| && lessons[i] == r.value && lessons[i].id == id &&
                                    forall j :: 0 <= j < i ==> lessons[j].id != id
  {
    match FindFirst(lessons, (l: Lesson) => l.id == id)
    case None => None
    case Some(i) => Some(lessons[i])
  }

  /** `findUserById` returns the very record at the index `findIndex` gives
      for the same id, so a handler may edit the record in place at that index. */
  lemma FindUserAtIndex(users: seq<User>, id: string)
    ensures FindUserById(users, id) ==
            match FindFirst(users, (u: User) => u.id == id) case None => None case Some(k) => Some(users[k])
  {
  }

  /** `findLessonById` returns the very record at the index `findIndex` gives
      for the same id. */
  lemma FindLessonAtIndex(lessons: seq<Lesson>, id: string)
    ensures FindLessonById(lessons, id) ==
            match FindFirst(lessons, (l: Lesson) => l.id == id) case None => None case Some(k) => Some(lessons[k])
  {
  }

  /** With unique ids, looking up a stored user's id finds exactly that user. */
  lemma FindStoredUser(users: seq<User>, u: User)
    requires UserIdsUnique(users) && u in users
    ensures FindUserById(users, u.id) == Some(u)
  {
    var k :| 0 <= k < |users| && users[k] == u;
    var r := FindUserById(users, u.id);
    var i :| 0 <= i < |users| && users[i] == r.value && users[i].id == u.id;
    assert i == k;
  }

  /** The users that `createDemoData` seeds, in the order it pushes them. */
  function DemoUsers(studentId: string, instructorId: string, adminId: string): seq<User> {
    [User(studentId, "Sarah Student", "student@drivepro.com", DefaultPassword, StudentRole, true),
     User(instructorId, "Ivan Instructor", "instructor@drivepro.com", DefaultPassword, InstructorRole, true),
     User(adminId, "Alice Admin", "admin@drivepro.com", DefaultPassword, AdminRole, true)]
  }

  /** The lessons that `createDemoData` seeds: today's and tomorrow's. */
  function DemoLessons(lesson1Id: string, lesson2Id: string, studentId: string, instructorId: string,
                       today: string, tomorrow: string): seq<Lesson> {
    [Lesson(lesson1Id, "Practical#1", today, "10:00", ScheduledStatus, studentId, instructorId),
     Lesson(lesson2Id, "Theory#1", tomorrow, "14:00", ScheduledStatus, studentId, instructorId)]
  }

  /** The seeded users hold one account of each role, all active, and each
      seeded lesson's references resolve to the seeded student and instructor. */
  lemma DemoDataConsistent(studentId: string, instructorId: string, adminId: string,
                           lesson1Id: string, lesson2Id: string, today: string, tomorrow: string)
    requires studentId != instructorId && studentId != adminId && instructorId != adminId
    ensures var us := DemoUsers(studentId, instructorId, adminId);
            && UserIdsUnique(us)
            && Count(us, (u: User) => u.role == StudentRole) == 1
            && Count(us, (u: User) => u.role == InstructorRole) == 1
            && Count(us, (u: User) => u.role == AdminRole) == 1
            && (forall u :: u in us ==> u.isActive)
    ensures var us := DemoUsers(studentId, instructorId, adminId);
            forall l :: l in DemoLessons(lesson1Id, lesson2Id, studentId, instructorId, today, tomorrow) ==>
              && l.status == ScheduledStatus
              && FindUserById(us, l.studentId) == Some(us[0]) && us[0].role == StudentRole
              && FindUserById(us, l.instructorId) == Some(us[1]) && us[1].role == InstructorRole
  {
    var us := DemoUsers(studentId, instructorId, adminId);
    FindStoredUser(us, us[0]);
    FindStoredUser(us, us[1]);
    FilterOfThree(us[0], us[1], us[2], (u: User) => u.role == StudentRole);
    FilterOfThree(us[0], us[1], us[2], (u: User) => u.role == InstructorRole);
    FilterOfThree(us[0], us[1], us[2], (u: User) => u.role == AdminRole);
  }

  lemma FilterOfThree<T>(a: T, b: T, c: T, p: T -> bool)
    ensures Filter([a, b, c], p) == (if p(a) then [a] else []) + (if p(b) then [b] else []) + (if p(c) then [c] else [])
  {
    assert [a, b, c][1..] == [b, c];
    assert [b, c][1..] == [c];
    assert [c][1..] == [];
    assert Filter([c], p) == (if p(c) then [c] else []) + Filter([], p);
    assert Filter([b, c], p) == (if p(b) then [b] else []) + Filter([c], p);
  }

  /** The three collections every handler reads and changes. */
  class Store {
    var users: seq<User>
    var lessons: seq<Lesson>
    var notifications: seq<Notification>

    /** Ids are unique: every id the store hands out is a fresh UUID. */
    ghost predicate Valid()
      reads this
    {
      UserIdsUnique(users) && LessonIdsUnique(lessons)
    }

    /** The collections start empty. */
    constructor ()
      ensures Valid()
      ensures users == [] && lessons == [] && notifications == []
    {
      users, lessons, notifications := [], [], [];
    }

    /** `createDemoData`: seeds three users and two lessons, unless there are
        users already, in which case it changes nothing. The ids are the fresh
        UUIDs the seeding draws, `today` and `tomorrow` its ISO timestamps. */
    method CreateDemoData(studentId: string, instructorId: string, adminId: string,
                          lesson1Id: string, lesson2Id: string, today: string, tomorrow: string)
      requires Valid()
      requires studentId != instructorId && studentId != adminId && instructorId != adminId
      requires lesson1Id != lesson2Id
      requires forall l :: l in lessons ==> l.id != lesson1Id && l.id != lesson2Id
      modifies this`users, this`lessons
      ensures Valid()
      ensures old(users) != [] ==> users == old(users) && lessons == old(lessons)
      ensures old(users) == [] ==>
                && users == DemoUsers(studentId, instructorId, adminId)
                && lessons == old(lessons) + DemoLessons(lesson1Id, lesson2Id, studentId, instructorId, today, tomorrow)
    {
      if |users| > 0 {
        return;
      }
      users := users + DemoUsers(studentId, instructorId, adminId);
      lessons := lessons + DemoLessons(lesson1Id, lesson2Id, studentId, instructorId, today, tomorrow);
    }
  }
}
