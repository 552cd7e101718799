/**
 * The booking engine (server.js): listing lessons by role, creating and
 * booking lessons (with automatic assignment of the first active
 * instructor), updating them, marking attendance and deleting them, and
 * `serializeLesson`, which replaces the two user ids of a lesson by the
 * users' public views.
 */
module Lessons {
  import opened Common
  import opened Data
  import opened Access

  const CompletedStatus: string := "completed"

  /** A lesson as sent to clients: `studentId` and `instructorId` become the
      public users they name, or None (`null`) when the id no longer resolves. */
  datatype SerializedLesson = SerializedLesson(id: string, lessonType: string, date: string, time: string,
                                               status: string, student: Option<PublicUser>,
                                               instructor: Option<PublicUser>)

  function PublicById(users: seq<User>, id: string): (r: Option<PublicUser>)
    ensures r.Some? <==> exists i :: 0 <= i < |users| && users[i].id == id
    ensures r.Some? ==> exists i :: 0 <= i < |users| && users[i].id == id &&
                                    (forall j :: 0 <= j < i ==> users[j].id != id) &&
                                    r.value == ToPublicUser(users[i])
  {
    match FindUserById(users, id)
    case None => None
    case Some(u) => Some(ToPublicUser(u))
  }

  /** `serializeLesson`: the lesson's own fields are kept; each reference
      becomes the public view of the user it names, or None when no stored
      user has that id. */
  function SerializeLesson(users: seq<User>, l: Lesson): (r: SerializedLesson)
    ensures r.id == l.id && r.lessonType == l.lessonType && r.date == l.date && r.time == l.time && r.status == l.status
    ensures r.student.Some? <==> exists i :: 0 <= i < |users| && users[i].id == l.studentId
    ensures r.instructor.Some? <==> exists i :: 0 <= i < |users| && users[i].id == l.instructorId
    ensures r.student == PublicById(users, l.studentId) && r.instructor == PublicById(users, l.instructorId)
  {
    SerializedLesson(l.id, l.lessonType, l.date, l.time, l.status,
                     PublicById(users, l.studentId), PublicById(users, l.instructorId))
  }

  /** `map(serializeLesson)` */
  function SerializeAll(users: seq<User>, ls: seq<Lesson>): seq<SerializedLesson>
  {
    seq(|ls|, k requires 0 <= k < |ls| => SerializeLesson(users, ls[k]))
  }

  /** The lessons a caller may see: a student those where they are the
      student, an instructor those where they are the instructor, any other
      role all of them. */
  function VisibleLessons(lessons: seq<Lesson>, caller: User): seq<Lesson> {
    if caller.role == StudentRole then Filter(lessons, (l: Lesson) => l.studentId == caller.id)
    else if caller.role == InstructorRole then Filter(lessons, (l: Lesson) => l.instructorId == caller.id)
    else lessons
  }

  /** GET /api/lessons (any authenticated caller). */
  function ListLessons(users: seq<User>, lessons: seq<Lesson>, caller: User): (r: Reply<seq<SerializedLesson>>)
    ensures r.Ok? && r.status == 200
    ensures |r.value| == |VisibleLessons(lessons, caller)|
    ensures forall k :: 0 <= k < |r.value| ==> r.value[k] == SerializeLesson(users, VisibleLessons(lessons, caller)[k])
  {
    Ok(200, SerializeAll(users, VisibleLessons(lessons, caller)))
  }

  /** The listing holds exactly the caller's lessons (all of them for an admin). */
  lemma VisibleLessonsExact(lessons: seq<Lesson>, caller: User, l: Lesson)
    ensures l in VisibleLessons(lessons, caller) <==>
            && l in lessons
            && (caller.role == StudentRole ==> l.studentId == caller.id)
            && (caller.role == InstructorRole ==> l.instructorId == caller.id)
  {
    if caller.role == StudentRole {
      FilterMembership(lessons, (l: Lesson) => l.studentId == caller.id, l);
    } else if caller.role == InstructorRole {
      FilterMembership(lessons, (l: Lesson) => l.instructorId == caller.id, l);
    }
  }

  /** The listing keeps stored order: the lessons visible in `a + b` are those
      visible in `a` followed by those visible in `b`. */
  lemma VisibleLessonsInOrder(a: seq<Lesson>, b: seq<Lesson>, caller: User)
    ensures VisibleLessons(a + b, caller) == VisibleLessons(a, caller) + VisibleLessons(b, caller)
  {
    if caller.role == StudentRole {
      FilterAppend(a, b, (l: Lesson) => l.studentId == caller.id);
    } else if caller.role == InstructorRole {
      FilterAppend(a, b, (l: Lesson) => l.instructorId == caller.id);
    }
  }

  /** The JSON body of POST /api/lessons; every field may be missing. */
  datatype NewLessonRequest = NewLessonRequest(studentId: Option<string>, instructorId: Option<string>,
                                               date: Option<string>, time: Option<string>,
                                               lessonType: Option<string>)

  predicate NewLessonComplete(req: NewLessonRequest) {
    Present(req.studentId) && Present(req.instructorId) && Present(req.date) && Present(req.time) &&
    Present(req.lessonType)
  }

  predicate UserExists(users: seq<User>, id: string) {
    exists i :: 0 <= i < |users| && users[i].id == id
  }

  /** POST /api/lessons (admins and instructors): needs all five fields and
      two ids that name stored users (of any role); appends a scheduled
      lesson. `newId` is the fresh UUID the handler draws. */
  method CreateLesson(store: Store, caller: User, req: NewLessonRequest, newId: string)
    returns (r: Reply<SerializedLesson>)
    requires store.Valid()
    requires forall l :: l in store.lessons ==> l.id != newId
    modifies store`lessons
    ensures store.Valid()
    ensures caller.role !in [AdminRole, InstructorRole] ==> r == Fail(403, Forbidden)
    ensures caller.role in [AdminRole, InstructorRole] && !NewLessonComplete(req) ==>
              r == Fail(400, "studentId, instructorId, date, time and type are required")
    ensures caller.role in [AdminRole, InstructorRole] && NewLessonComplete(req) &&
            !(UserExists(store.users, req.studentId.value) && UserExists(store.users, req.instructorId.value)) ==>
              r == Fail(400, "Invalid studentId or instructorId")
    ensures caller.role in [AdminRole, InstructorRole] && NewLessonComplete(req) &&
            UserExists(store.users, req.studentId.value) && UserExists(store.users, req.instructorId.value) ==>
              r.Ok?
    ensures r.Fail? ==> store.lessons == old(store.lessons)
    ensures r.Ok? ==>
              && NewLessonComplete(req)
              && UserExists(store.users, req.studentId.value) && UserExists(store.users, req.instructorId.value)
              && var l := Lesson(newId, req.lessonType.value, req.date.value, req.time.value, ScheduledStatus,
                                 req.studentId.value, req.instructorId.value);
                 && store.lessons == old(store.lessons) + [l]
                 && r == Ok(201, SerializeLesson(store.users, l))
  {
    if caller.role !in [AdminRole, InstructorRole] {
      return Fail(403, Forbidden);
    }
    if !NewLessonComplete(req) {
      return Fail(400, "studentId, instructorId, date, time and type are required");
    }
    if FindUserById(store.users, req.studentId.value).None? || FindUserById(store.users, req.instructorId.value).None? {
      return Fail(400, "Invalid studentId or instructorId");
    }
    var l := Lesson(newId, req.lessonType.value, req.date.value, req.time.value, ScheduledStatus,
                    req.studentId.value, req.instructorId.value);
    AppendKeepsUnique(store.lessons, l, LessonId);
    store.lessons := store.lessons + [l];
    r := Ok(201, SerializeLesson(store.users, l));
  }

  predicate ActiveInstructor(u: User) {
    u.role == InstructorRole && u.isActive
  }

  /** The instructor a booking without `instructorId` gets: the first active
      instructor in stored order, or None when there is none. */
  function FirstActiveInstructor(users: seq<User>): (r: Option<User>)
    ensures r.None? <==> forall i :: 0 <= i < |users| ==> !ActiveInstructor(users[i])
    ensures r.Some? ==> exists i :: 0 <= i < |users| && users[i] == r.value && ActiveInstructor(r.value) &&
                                    forall j :: 0 <= j < i ==> !ActiveInstructor(users[j])
  {
    match FindFirst(users, ActiveInstructor)
    case None => None
    case Some(i) => Some(users[i])
  }

  /** The JSON body of POST /api/lessons/book; every field may be missing. */
  datatype BookingRequest = BookingRequest(date: Option<string>, time: Option<string>, lessonType: Option<string>,
                                           studentId: Option<string>, instructorId: Option<string>)

  /** The student a booking is for: the given `studentId`, else the caller's
      own id when the caller is a student, else "" (none). */
  function BookedStudentId(caller: User, req: BookingRequest): string {
    if Present(req.studentId) then req.studentId.value
    else if caller.role == StudentRole then caller.id
    else ""
  }

  /** The instructor a booking is for: the given `instructorId`, else the id
      of the first active instructor; None when neither exists. */
  function BookedInstructorId(users: seq<User>, req: BookingRequest): Option<string> {
    if Present(req.instructorId) then Some(req.instructorId.value)
    else match FirstActiveInstructor(users)
      case None => None
      case Some(u) => Some(u.id)
  }

  predicate HasRole(users: seq<User>, id: string, role: string) {
    FindUserById(users, id).Some? && FindUserById(users, id).value.role == role
  }

  /** POST /api/lessons/book (students, admins and instructors). The checks
      run in the source's order; a success appends one scheduled lesson whose
      student is a stored student and whose instructor is a stored
      instructor. `newId` is the fresh UUID the handler draws. */
  method BookLesson(store: Store, caller: User, req: BookingRequest, newId: string)
    returns (r: Reply<SerializedLesson>)
    requires store.Valid()
    requires forall l :: l in store.lessons ==> l.id != newId
    modifies store`lessons
    ensures store.Valid()
    ensures caller.role !in [StudentRole, AdminRole, InstructorRole] ==> r == Fail(403, Forbidden)
    ensures caller.role in [StudentRole, AdminRole, InstructorRole] ==>
              var sid := BookedStudentId(caller, req);
              var iid := BookedInstructorId(store.users, req);
              && (!(Present(req.date) && Present(req.time) && Present(req.lessonType)) ==>
                    r == Fail(400, "date, time and type are required"))
              && (Present(req.date) && Present(req.time) && Present(req.lessonType) ==>
                    && (sid == "" ==> r == Fail(400, "studentId is required when not booking as a student"))
                    && (sid != "" && !HasRole(store.users, sid, StudentRole) ==> r == Fail(400, "Invalid studentId"))
                    && (sid != "" && HasRole(store.users, sid, StudentRole) && iid.None? ==>
                          r == Fail(400, "No available instructor to assign"))
                    && ((sid != "" && HasRole(store.users, sid, StudentRole) && iid.Some? &&
                         !HasRole(store.users, iid.value, InstructorRole)) ==> r == Fail(400, "Invalid instructorId")))
    ensures var sid := BookedStudentId(caller, req);
            var iid := BookedInstructorId(store.users, req);
            caller.role in [StudentRole, AdminRole, InstructorRole] &&
            Present(req.date) && Present(req.time) && Present(req.lessonType) &&
            sid != "" && HasRole(store.users, sid, StudentRole) &&
            iid.Some? && HasRole(store.users, iid.value, InstructorRole) ==>
              r.Ok?
    ensures r.Fail? ==> store.lessons == old(store.lessons)
    ensures r.Ok? ==>
              var sid := BookedStudentId(caller, req);
              var iid := BookedInstructorId(store.users, req);
              && caller.role in [StudentRole, AdminRole, InstructorRole]
              && Present(req.date) && Present(req.time) && Present(req.lessonType)
              && HasRole(store.users, sid, StudentRole)
              && iid.Some? && HasRole(store.users, iid.value, InstructorRole)
              && var l := Lesson(newId, req.lessonType.value, req.date.value, req.time.value, ScheduledStatus,
                                 sid, iid.value);
                 && store.lessons == old(store.lessons) + [l]
                 && r == Ok(201, SerializeLesson(store.users, l))
  {
    if caller.role !in [StudentRole, AdminRole, InstructorRole] {
      return Fail(403, Forbidden);
    }
    if !(Present(req.date) && Present(req.time) && Present(req.lessonType)) {
      return Fail(400, "date, time and type are required");
    }
    var studentId := if Present(req.studentId) then req.studentId.value else "";
    if studentId == "" && caller.role == StudentRole {
      studentId := caller.id;
    }
    if studentId == "" {
      return Fail(400, "studentId is required when not booking as a student");
    }
    var student := FindUserById(store.users, studentId);
    if student.None? || student.value.role != StudentRole {
      return Fail(400, "Invalid studentId");
    }
    var instructorId := if Present(req.instructorId) then req.instructorId.value else "";
    if instructorId == "" {
      var first := FirstActiveInstructor(store.users);
      if first.None? {
        return Fail(400, "No available instructor to assign");
      }
      instructorId := first.value.id;
    }
    var instructor := FindUserById(store.users, instructorId);
    if instructor.None? || instructor.value.role != InstructorRole {
      return Fail(400, "Invalid instructorId");
    }
    var l := Lesson(newId, req.lessonType.value, req.date.value, req.time.value, ScheduledStatus,
                    studentId, instructorId);
    AppendKeepsUnique(store.lessons, l, LessonId);
    store.lessons := store.lessons + [l];
    r := Ok(201, SerializeLesson(store.users, l));
  }

  /** Auto-assignment always yields a valid instructor: with unique ids, the
      first active instructor's id resolves to that instructor. So a booking
      without `instructorId` by a valid student fails only when no instructor
      is active. */
  lemma AutoAssignedInstructorValid(users: seq<User>, req: BookingRequest)
    requires UserIdsUnique(users)
    requires !Present(req.instructorId) && FirstActiveInstructor(users).Some?
    ensures BookedInstructorId(users, req) == Some(FirstActiveInstructor(users).value.id)
    ensures HasRole(users, FirstActiveInstructor(users).value.id, InstructorRole)
  {
    FindStoredUser(users, FirstActiveInstructor(users).value);
  }

  /** The JSON body of PUT /api/lessons/:id; every field may be missing. */
  datatype LessonPatch = LessonPatch(date: Option<string>, time: Option<string>, lessonType: Option<string>,
                                     status: Option<string>)

  /** PUT /api/lessons/:id writes each supplied field (even ""), unchecked. */
  function PatchedLesson(l: Lesson, patch: LessonPatch): Lesson {
    l.(date := if patch.date.Some? then patch.date.value else l.date,
       time := if patch.time.Some? then patch.time.value else l.time,
       lessonType := if patch.lessonType.Some? then patch.lessonType.value else l.lessonType,
       status := if patch.status.Some? then patch.status.value else l.status)
  }

  /** An update leaves the lesson's id and both references untouched, and a
      field not supplied keeps its value. */
  lemma PatchedLessonKeepsReferences(l: Lesson, patch: LessonPatch)
    ensures var p := PatchedLesson(l, patch);
            && p.id == l.id && p.studentId == l.studentId && p.instructorId == l.instructorId
            && (patch.date.None? ==> p.date == l.date) && (patch.time.None? ==> p.time == l.time)
            && (patch.lessonType.None? ==> p.lessonType == l.lessonType)
            && (patch.status.None? ==> p.status == l.status)
  {
  }

  /** The index of the lesson with this id (the first one). */
  function LessonIndex(lessons: seq<Lesson>, id: string): Option<nat> {
    FindFirst(lessons, (l: Lesson) => l.id == id)
  }

  /** The lesson at `LessonIndex` is the one `findLessonById` returns, so
      writing at that index is editing the found object in place. */
  lemma LessonIndexIsFound(lessons: seq<Lesson>, id: string)
    ensures LessonIndex(lessons, id).None? <==> FindLessonById(lessons, id).None?
    ensures LessonIndex(lessons, id).Some? ==>
              LessonIndex(lessons, id).value < |lessons| &&
              FindLessonById(lessons, id) == Some(lessons[LessonIndex(lessons, id).value])
  {
    FindLessonAtIndex(lessons, id);
  }

  /** PUT /api/lessons/:id (admins and instructors): 404 for an unknown id;
      otherwise the supplied fields are written to the stored lesson, in place. */
  method UpdateLesson(store: Store, caller: User, id: string, patch: LessonPatch)
    returns (r: Reply<SerializedLesson>)
    requires store.Valid()
    modifies store`lessons
    ensures store.Valid()
    ensures caller.role !in [AdminRole, InstructorRole] ==> r == Fail(403, Forbidden)
    ensures caller.role in [AdminRole, InstructorRole] && LessonIndex(old(store.lessons), id).None? ==>
              r == Fail(404, "Lesson not found")
    ensures caller.role in [AdminRole, InstructorRole] && LessonIndex(old(store.lessons), id).Some? ==> r.Ok?
    ensures r.Fail? ==> store.lessons == old(store.lessons)
    ensures r.Ok? ==>
              var k := LessonIndex(old(store.lessons), id);
              && k.Some?
              && store.lessons == old(store.lessons)[k.value := PatchedLesson(old(store.lessons)[k.value], patch)]
              && r == Ok(200, SerializeLesson(store.users, store.lessons[k.value]))
  {
    if caller.role !in [AdminRole, InstructorRole] {
      return Fail(403, Forbidden);
    }
    var k := LessonIndex(store.lessons, id);
    if k.None? {
      return Fail(404, "Lesson not found");
    }
    var updated := PatchedLesson(store.lessons[k.value], patch);
    ReplaceKeepsUnique(store.lessons, k.value, updated, LessonId);
    store.lessons := store.lessons[k.value := updated];
    r := Ok(200, SerializeLesson(store.users, updated));
  }

  /** POST /api/lessons/:id/attendance (admins and instructors): 404 for an
      unknown id; otherwise sets the status to the one supplied, "completed"
      when none is. */
  method MarkAttendance(store: Store, caller: User, id: string, status: Option<string>)
    returns (r: Reply<SerializedLesson>)
    requires store.Valid()
    modifies store`lessons
    ensures store.Valid()
    ensures caller.role !in [AdminRole, InstructorRole] ==> r == Fail(403, Forbidden)
    ensures caller.role in [AdminRole, InstructorRole] && LessonIndex(old(store.lessons), id).None? ==>
              r == Fail(404, "Lesson not found")
    ensures caller.role in [AdminRole, InstructorRole] && LessonIndex(old(store.lessons), id).Some? ==> r.Ok?
    ensures r.Fail? ==> store.lessons == old(store.lessons)
    ensures r.Ok? ==>
              var k := LessonIndex(old(store.lessons), id);
              var newStatus := match status case None => CompletedStatus case Some(s) => s;
              && k.Some?
              && store.lessons == old(store.lessons)[k.value := old(store.lessons)[k.value].(status := newStatus)]
              && r == Ok(200, SerializeLesson(store.users, store.lessons[k.value]))
  {
    if caller.role !in [AdminRole, InstructorRole] {
      return Fail(403, Forbidden);
    }
    var k := LessonIndex(store.lessons, id);
    if k.None? {
      return Fail(404, "Lesson not found");
    }
    var newStatus := match status case None => CompletedStatus case Some(s) => s;
    var updated := store.lessons[k.value].(status := newStatus);
    ReplaceKeepsUnique(store.lessons, k.value, updated, LessonId);
    store.lessons := store.lessons[k.value := updated];
    r := Ok(200, SerializeLesson(store.users, updated));
  }

  /** DELETE /api/lessons/:id (admins, instructors and students): 404 for an
      unknown id; 403 when a student tries to delete someone else's lesson;
      otherwise removes that one lesson with `splice`. */
  method DeleteLesson(store: Store, caller: User, id: string) returns (r: Reply<()>)
    requires store.Valid()
    modifies store`lessons
    ensures store.Valid()
    ensures r.Fail? ==> store.lessons == old(store.lessons)
    ensures caller.role !in [AdminRole, InstructorRole, StudentRole] ==> r == Fail(403, Forbidden)
    ensures var k := LessonIndex(old(store.lessons), id);
            caller.role in [AdminRole, InstructorRole, StudentRole] ==>
              && (k.None? ==> r == Fail(404, "Lesson not found"))
              && (k.Some? && caller.role == StudentRole && old(store.lessons)[k.value].studentId != caller.id ==>
                    r == Fail(403, "You can only cancel your own lessons"))
              && (k.Some? && (caller.role != StudentRole || old(store.lessons)[k.value].studentId == caller.id) ==>
                    && r == Ok(204, ())
                    && store.lessons == old(store.lessons)[..k.value] + old(store.lessons)[k.value + 1..])
  {
    if caller.role !in [AdminRole, InstructorRole, StudentRole] {
      return Fail(403, Forbidden);
    }
    var k := LessonIndex(store.lessons, id);
    if k.None? {
      return Fail(404, "Lesson not found");
    }
    var i := k.value;
    if caller.role == StudentRole && store.lessons[i].studentId != caller.id {
      return Fail(403, "You can only cancel your own lessons");
    }
    RemoveKeepsUnique(store.lessons, i, LessonId);
    store.lessons := store.lessons[..i] + store.lessons[i + 1..];
    r := Ok(204, ());
  }

  /** Deleting the lesson at index `k` removes exactly that lesson: the rest
      keep their relative order, and with unique ids no lesson with that id
      remains. */
  lemma RemovedExactlyOne(lessons: seq<Lesson>, k: nat)
    requires k < |lessons| && LessonIdsUnique(lessons)
    ensures var rest := lessons[..k] + lessons[k + 1..];
            && |rest| == |lessons| - 1
            && multiset(rest) + multiset{lessons[k]} == multiset(lessons)
            && (forall l :: l in rest ==> l.id != lessons[k].id)
  {
    var rest := lessons[..k] + lessons[k + 1..];
    assert lessons == lessons[..k] + [lessons[k]] + lessons[k + 1..];
    forall l | l in rest ensures l.id != lessons[k].id {
      var j :| 0 <= j < |rest| && rest[j] == l;
      var j' := if j < k then j else j + 1;
      assert rest[j] == lessons[j'];
      assert LessonId(lessons[j']) != LessonId(lessons[k]);
    }
  }
}
