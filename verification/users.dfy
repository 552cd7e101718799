/**
 * User administration (server.js, admin only): listing, creating, updating
 * and deleting users. Deleting a user also deletes every lesson that names
 * the user as student or instructor.
 */
module Users {
  import opened Common
  import opened Data
  import opened Access

  /** The key under which emails must be unique: the email ignoring case. */
  function EmailKey(u: User): string { ToLower(u.email) }

  ghost predicate EmailsUnique(users: seq<User>) {
    UniqueBy(users, EmailKey)
  }

  /** `users.some((u) => u.email.toLowerCase() === email.toLowerCase())` */
  predicate EmailTaken(users: seq<User>, email: string) {
    exists i :: 0 <= i < |users| && SameIgnoringCase(users[i].email, email)
  }

  /** `map(toPublicUser)` */
  function Publish(us: seq<User>): seq<PublicUser>
  {
    seq(|us|, k requires 0 <= k < |us| => ToPublicUser(us[k]))
  }

  /** The users GET /api/users lists: the non-admins, narrowed to `role` when one is given. */
  function ListedUsers(users: seq<User>, role: Option<string>): seq<User> {
    var nonAdmins := Filter(users, (u: User) => u.role != AdminRole);
    if Present(role) then Filter(nonAdmins, (u: User) => u.role == role.value) else nonAdmins
  }

  /** GET /api/users (admin only): the public view of the listed users, in stored order. */
  function ListUsers(users: seq<User>, caller: User, role: Option<string>): (r: Reply<seq<PublicUser>>)
    ensures caller.role != AdminRole <==> r == Fail(403, Forbidden)
    ensures r.Ok? ==> r.status == 200 && r.value == Publish(ListedUsers(users, role))
  {
    if caller.role != AdminRole then Fail(403, Forbidden)
    else Ok(200, Publish(ListedUsers(users, role)))
  }

  /** The listing holds exactly the stored non-admin users of the requested role. */
  lemma ListedUsersExact(users: seq<User>, role: Option<string>, u: User)
    ensures u in ListedUsers(users, role) <==>
            u in users && u.role != AdminRole && (Present(role) ==> u.role == role.value)
  {
    var nonAdmins := Filter(users, (u: User) => u.role != AdminRole);
    FilterMembership(users, (u: User) => u.role != AdminRole, u);
    if Present(role) {
      FilterMembership(nonAdmins, (u: User) => u.role == role.value, u);
    }
  }

  /** The JSON body of POST /api/users; every field may be missing. */
  datatype NewUserRequest = NewUserRequest(name: Option<string>, email: Option<string>, role: Option<string>,
                                           password: Option<string>, isActive: Option<bool>)

  /** The user POST /api/users stores: the password defaults to "password123"
      (also when given as ""), `isActive` to true when absent. */
  function NewUser(id: string, req: NewUserRequest): User
    requires req.name.Some? && req.email.Some? && req.role.Some?
  {
    User(id, req.name.value, req.email.value,
         if Present(req.password) then req.password.value else DefaultPassword,
         req.role.value,
         match req.isActive case None => true case Some(b) => b)
  }

  /** POST /api/users (admin only). `newId` is the fresh UUID the handler draws. */
  method CreateUser(store: Store, caller: User, req: NewUserRequest, newId: string) returns (r: Reply<PublicUser>)
    requires store.Valid()
    requires forall u :: u in store.users ==> u.id != newId
    modifies store`users
    ensures store.Valid()
    ensures caller.role != AdminRole ==> r == Fail(403, Forbidden)
    ensures caller.role == AdminRole && !(Present(req.name) && Present(req.email) && Present(req.role)) ==>
              r == Fail(400, "name, email and role are required")
    ensures caller.role == AdminRole && Present(req.name) && Present(req.email) && Present(req.role) ==>
              && (req.role.value !in [StudentRole, InstructorRole] ==> r == Fail(400, "role must be student or instructor"))
              && (req.role.value in [StudentRole, InstructorRole] && EmailTaken(old(store.users), req.email.value) ==>
                    r == Fail(409, "Email already in use"))
    ensures caller.role == AdminRole && Present(req.name) && Present(req.email) && Present(req.role) &&
            req.role.value in [StudentRole, InstructorRole] && !EmailTaken(old(store.users), req.email.value) ==>
              r.Ok?
    ensures r.Fail? ==> store.users == old(store.users)
    ensures r.Ok? ==>
              && r.status == 201
              && Present(req.name) && Present(req.email) && req.role.value in [StudentRole, InstructorRole]
              && !EmailTaken(old(store.users), req.email.value)
              && store.users == old(store.users) + [NewUser(newId, req)]
              && r.value == ToPublicUser(NewUser(newId, req))
    ensures EmailsUnique(old(store.users)) ==> EmailsUnique(store.users)
  {
    if caller.role != AdminRole {
      return Fail(403, Forbidden);
    }
    if !(Present(req.name) && Present(req.email) && Present(req.role)) {
      return Fail(400, "name, email and role are required");
    }
    if req.role.value !in [StudentRole, InstructorRole] {
      return Fail(400, "role must be student or instructor");
    }
    if EmailTaken(store.users, req.email.value) {
      return Fail(409, "Email already in use");
    }
    var user := NewUser(newId, req);
    AppendKeepsUnique(store.users, user, UserId);
    if EmailsUnique(store.users) {
      AppendKeepsUnique(store.users, user, EmailKey);
    }
    store.users := store.users + [user];
    r := Ok(201, ToPublicUser(user));
  }

  /** The JSON body of PUT /api/users/:id; every field may be missing. */
  datatype UserPatch = UserPatch(name: Option<string>, email: Option<string>, role: Option<string>,
                                 isActive: Option<bool>)

  /** The fields PUT /api/users/:id assigns: each one supplied (even as ""),
      except that a role of "admin" is ignored. */
  function Patched(u: User, patch: UserPatch): User {
    u.(name := if patch.name.Some? then patch.name.value else u.name,
       email := if patch.email.Some? then patch.email.value else u.email,
       role := if patch.role.Some? && patch.role.value != AdminRole then patch.role.value else u.role,
       isActive := if patch.isActive.Some? then patch.isActive.value else u.isActive)
  }

  /** An update never makes a user an admin, and keeps the id and password. */
  lemma PatchedNeverAdmin(u: User, patch: UserPatch)
    requires u.role != AdminRole
    ensures Patched(u, patch).role != AdminRole
    ensures Patched(u, patch).id == u.id && Patched(u, patch).password == u.password
  {
  }

  /** The 409 check of PUT /api/users/:id: a truthy email different from the
      target's current one that another user (by id) already holds, ignoring case. */
  predicate EmailConflict(users: seq<User>, id: string, target: User, email: Option<string>) {
    Present(email) && email.value != target.email &&
    exists i :: 0 <= i < |users| && SameIgnoringCase(users[i].email, email.value) && users[i].id != id
  }

  /** The index of the user PUT /api/users/:id edits: the first with that id. */
  function UserIndex(users: seq<User>, id: string): Option<nat> {
    FindFirst(users, (u: User) => u.id == id)
  }

  /** The user at `UserIndex` is the one `findUserById` returns, so writing
      at that index is editing the found object in place. */
  lemma UserIndexIsFound(users: seq<User>, id: string)
    ensures UserIndex(users, id).None? <==> FindUserById(users, id).None?
    ensures UserIndex(users, id).Some? ==>
              UserIndex(users, id).value < |users| && FindUserById(users, id) == Some(users[UserIndex(users, id).value])
  {
    FindUserAtIndex(users, id);
  }

  /** PUT /api/users/:id (admin only): 404 for an unknown id or an admin
      target; 409 on an email conflict; otherwise the supplied fields are
      written to the stored user, in place. */
  method UpdateUser(store: Store, caller: User, id: string, patch: UserPatch) returns (r: Reply<PublicUser>)
    requires store.Valid()
    modifies store`users
    ensures store.Valid()
    ensures caller.role != AdminRole ==> r == Fail(403, Forbidden)
    ensures var k := UserIndex(old(store.users), id);
            caller.role == AdminRole && (k.None? || old(store.users)[k.value].role == AdminRole) ==>
              r == Fail(404, "User not found")
    ensures var k := UserIndex(old(store.users), id);
            caller.role == AdminRole && k.Some? && old(store.users)[k.value].role != AdminRole &&
            EmailConflict(old(store.users), id, old(store.users)[k.value], patch.email) ==>
              r == Fail(409, "Email already in use")
    ensures var k := UserIndex(old(store.users), id);
            caller.role == AdminRole && k.Some? && old(store.users)[k.value].role != AdminRole &&
            !EmailConflict(old(store.users), id, old(store.users)[k.value], patch.email) ==>
              r.Ok?
    ensures r.Fail? ==> store.users == old(store.users)
    ensures r.Ok? ==>
              var k := UserIndex(old(store.users), id);
              && r.status == 200 && caller.role == AdminRole
              && k.Some? && old(store.users)[k.value].role != AdminRole
              && !EmailConflict(old(store.users), id, old(store.users)[k.value], patch.email)
              && store.users == old(store.users)[k.value := Patched(old(store.users)[k.value], patch)]
              && r.value == ToPublicUser(store.users[k.value])
    ensures r.Ok? ==> forall i :: 0 <= i < |store.users| ==>
              (store.users[i].role == AdminRole <==> old(store.users)[i].role == AdminRole)
    ensures patch.email != Some("") && EmailsUnique(old(store.users)) ==> EmailsUnique(store.users)
  {
    if caller.role != AdminRole {
      return Fail(403, Forbidden);
    }
    var k := UserIndex(store.users, id);
    if k.None? || store.users[k.value].role == AdminRole {
      return Fail(404, "User not found");
    }
    var i := k.value;
    var user := store.users[i];
    if EmailConflict(store.users, id, user, patch.email) {
      return Fail(409, "Email already in use");
    }
    var updated := Patched(user, patch);
    ReplaceKeepsUnique(store.users, i, updated, UserId);
    if patch.email != Some("") && EmailsUnique(store.users) {
      UpdateKeepsEmailsUnique(store.users, i, patch);
    }
    store.users := store.users[i := updated];
    r := Ok(200, ToPublicUser(updated));
  }

  /** The update keeps emails unique whenever the email it is given is not "". */
  lemma UpdateKeepsEmailsUnique(users: seq<User>, k: nat, patch: UserPatch)
    requires k < |users| && UserIdsUnique(users) && EmailsUnique(users)
    requires patch.email != Some("")
    requires !EmailConflict(users, users[k].id, users[k], patch.email)
    ensures EmailsUnique(users[k := Patched(users[k], patch)])
  {
    var updated := Patched(users[k], patch);
    if patch.email.None? || patch.email.value == users[k].email {
      ReplaceKeepsUnique(users, k, updated, EmailKey);
    } else {
      var r := users[k := updated];
      forall i, j | 0 <= i < |r| && 0 <= j < |r| && EmailKey(r[i]) == EmailKey(r[j]) ensures i == j {
        if i == k && j != k {
          assert users[j].id != users[k].id;
          assert SameIgnoringCase(users[j].email, patch.email.value);
        } else if j == k && i != k {
          assert users[i].id != users[k].id;
          assert SameIgnoringCase(users[i].email, patch.email.value);
        }
      }
    }
  }

  /** PUT /api/users/:id with an empty email skips the duplicate check (it
      only runs for a truthy email) yet still writes the email, so two users
      can end up sharing the email "". */
  lemma EmptyEmailUpdateBreaksUniqueness(a: User, b: User)
    requires a.id != b.id && a.role != AdminRole && b.role != AdminRole
    ensures var p := UserPatch(None, Some(""), None, None);
            && !EmailConflict([a, b], a.id, a, p.email)
            && !EmailConflict([a, b], b.id, b, p.email)
            && !EmailsUnique([Patched(a, p), Patched(b, p)])
  {
    var p := UserPatch(None, Some(""), None, None);
    var r := [Patched(a, p), Patched(b, p)];
    assert EmailKey(r[0]) == EmailKey(r[1]);
  }

  /** Whether a lesson names the user as its student or its instructor. */
  predicate RefersTo(l: Lesson, id: string) {
    l.studentId == id || l.instructorId == id
  }

  /** DELETE /api/users/:id (admin only): 404 unless some non-admin user has
      the id; otherwise removes every lesson referring to the user (a
      backwards scan with `splice`), then the user. */
  method DeleteUser(store: Store, caller: User, id: string) returns (r: Reply<()>)
    requires store.Valid()
    modifies store`users, store`lessons
    ensures store.Valid()
    ensures caller.role != AdminRole ==> r == Fail(403, Forbidden)
    ensures r.Fail? ==> store.users == old(store.users) && store.lessons == old(store.lessons)
    ensures var k := FindFirst(old(store.users), (u: User) => u.id == id && u.role != AdminRole);
            caller.role == AdminRole ==>
              && (k.None? ==> r == Fail(404, "User not found"))
              && (k.Some? ==> r == Ok(204, ()) &&
                              store.users == old(store.users)[..k.value] + old(store.users)[k.value + 1..] &&
                              store.lessons == Filter(old(store.lessons), (l: Lesson) => !RefersTo(l, id)))
  {
    if caller.role != AdminRole {
      return Fail(403, Forbidden);
    }
    var k := FindFirst(store.users, (u: User) => u.id == id && u.role != AdminRole);
    if k.None? {
      return Fail(404, "User not found");
    }
    RemoveLessonsOf(store, id);
    RemoveKeepsUnique(store.users, k.value, UserId);
    store.users := store.users[..k.value] + store.users[k.value + 1..];
    r := Ok(204, ());
  }

  /** The cascade of DELETE /api/users/:id: scanning the lessons from the
      back, `splice` out each one that refers to the user. */
  method RemoveLessonsOf(store: Store, id: string)
    requires LessonIdsUnique(store.lessons)
    modifies store`lessons
    ensures LessonIdsUnique(store.lessons)
    ensures store.lessons == Filter(old(store.lessons), (l: Lesson) => !RefersTo(l, id))
  {
    var keep := (l: Lesson) => !RefersTo(l, id);
    ghost var before := store.lessons;
    var i := |store.lessons|;
    while i > 0
      invariant 0 <= i <= |before|
      invariant store.lessons == before[..i] + Filter(before[i..], keep)
    {
      i := i - 1;
      assert before[i..] == [before[i]] + before[i + 1..];
      assert store.lessons[i] == before[i];
      if store.lessons[i].studentId == id || store.lessons[i].instructorId == id {
        store.lessons := store.lessons[..i] + store.lessons[i + 1..];
      }
    }
    assert before[0..] == before;
    FilterKeepsUnique(before, keep, LessonId);
  }

  /** The lessons the cascade keeps are exactly those not referring to the
      user; together with the ones referring to it they are all the lessons. */
  lemma CascadeRemovesExactlyReferences(lessons: seq<Lesson>, id: string)
    ensures var kept := Filter(lessons, (l: Lesson) => !RefersTo(l, id));
            && (forall l :: l in kept <==> l in lessons && !RefersTo(l, id))
            && |kept| + Count(lessons, (l: Lesson) => RefersTo(l, id)) == |lessons|
  {
    var keep := (l: Lesson) => !RefersTo(l, id);
    var refers := (l: Lesson) => RefersTo(l, id);
    forall l ensures l in Filter(lessons, keep) <==> l in lessons && !RefersTo(l, id) {
      FilterMembership(lessons, keep, l);
    }
    FilterPartition(lessons, refers, keep);
    assert |multiset(Filter(lessons, refers))| + |multiset(Filter(lessons, keep))| == |multiset(lessons)|;
  }
}
