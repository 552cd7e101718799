/**
 * Messages and notifications (server.js): any signed-in student, instructor
 * or admin posts a message addressed to a role (`toRole`, "admin" when not
 * given, or "all"), and each caller lists the notifications addressed to
 * them; admins see every one.
 */
module Notifications {
  import opened Common
  import opened Data
  import opened Access

  const Broadcast: string := "all"

  /** The JSON body of POST /api/messages; every field may be missing. */
  datatype MessageRequest = MessageRequest(toRole: Option<string>, subject: Option<string>, body: Option<string>)

  /** The addressee of a message: the given `toRole` (even ""), "admin" when
      the field is missing. */
  function Addressee(req: MessageRequest): string {
    match req.toRole
    case None => AdminRole
    case Some(role) => role
  }

  /** POST /api/messages (admins, instructors and students): 400 unless a
      subject and a body are given; otherwise appends one notification from
      the caller's public view and returns it. `newId` and `now` are the
      fresh UUID and the ISO timestamp the handler draws. */
  method PostMessage(store: Store, caller: User, req: MessageRequest, newId: string, now: string)
    returns (r: Reply<Notification>)
    requires store.Valid()
    requires forall n :: n in store.notifications ==> n.id != newId
    modifies store`notifications
    ensures store.Valid()
    ensures caller.role !in [AdminRole, InstructorRole, StudentRole] ==> r == Fail(403, Forbidden)
    ensures caller.role in [AdminRole, InstructorRole, StudentRole] && !(Present(req.subject) && Present(req.body)) ==>
              r == Fail(400, "subject and body are required")
    ensures caller.role in [AdminRole, InstructorRole, StudentRole] && Present(req.subject) && Present(req.body) ==>
              r.Ok?
    ensures r.Fail? ==> store.notifications == old(store.notifications)
    ensures r.Ok? ==>
              && caller.role in [AdminRole, InstructorRole, StudentRole]
              && Present(req.subject) && Present(req.body)
              && var n := Notification(newId, ToPublicUser(caller), Addressee(req), req.subject.value,
                                       req.body.value, now);
                 && store.notifications == old(store.notifications) + [n]
                 && r == Ok(201, n)
  {
    if caller.role !in [AdminRole, InstructorRole, StudentRole] {
      return Fail(403, Forbidden);
    }
    if !(Present(req.subject) && Present(req.body)) {
      return Fail(400, "subject and body are required");
    }
    var n := Notification(newId, ToPublicUser(caller), Addressee(req), req.subject.value, req.body.value, now);
    store.notifications := store.notifications + [n];
    r := Ok(201, n);
  }

  /** Whether a non-admin caller with this role is addressed by `n`. */
  predicate AddressedTo(n: Notification, role: string) {
    n.toRole == Broadcast || n.toRole == role
  }

  /** The notifications a caller sees: all of them for an admin, otherwise
      those addressed to everyone or to the caller's role, in stored order. */
  function VisibleNotifications(notifications: seq<Notification>, caller: User): seq<Notification> {
    if caller.role == AdminRole then notifications
    else Filter(notifications, (n: Notification) => AddressedTo(n, caller.role))
  }

  /** GET /api/notifications (any authenticated caller). */
  function ListNotifications(notifications: seq<Notification>, caller: User): (r: Reply<seq<Notification>>)
    ensures r.Ok? && r.status == 200
    ensures r.value == VisibleNotifications(notifications, caller)
    ensures |r.value| <= |notifications|
    ensures forall n :: n in r.value ==> n in notifications
    ensures caller.role == AdminRole ==> r.value == notifications
  {
    var visible := VisibleNotifications(notifications, caller);
    assert forall n :: n in visible ==> n in notifications by {
      if caller.role != AdminRole {
        forall n | n in visible ensures n in notifications {
          FilterMembership(notifications, (n: Notification) => AddressedTo(n, caller.role), n);
        }
      }
    }
    Ok(200, visible)
  }

  /** A caller sees a stored notification exactly when they are an admin, or
      it is addressed to everyone or to their role. */
  lemma VisibleNotificationsExact(notifications: seq<Notification>, caller: User, n: Notification)
    ensures n in VisibleNotifications(notifications, caller) <==>
            n in notifications && (caller.role == AdminRole || n.toRole == Broadcast || n.toRole == caller.role)
  {
    if caller.role != AdminRole {
      FilterMembership(notifications, (n: Notification) => AddressedTo(n, caller.role), n);
    }
  }

  /** A message posted without `toRole` reaches the admins only: every admin
      sees it and no caller of another role does. */
  lemma DefaultMessageReachesAdminsOnly(notifications: seq<Notification>, caller: User, newId: string,
                                        from: User, req: MessageRequest, now: string)
    requires req.toRole.None? && Present(req.subject) && Present(req.body)
    ensures var n := Notification(newId, ToPublicUser(from), Addressee(req), req.subject.value, req.body.value, now);
            n in VisibleNotifications(notifications + [n], caller) <==> caller.role == AdminRole
  {
    var n := Notification(newId, ToPublicUser(from), Addressee(req), req.subject.value, req.body.value, now);
    VisibleNotificationsExact(notifications + [n], caller, n);
  }

  /** A message posted to "all" is seen by every caller. */
  lemma BroadcastReachesEveryone(notifications: seq<Notification>, caller: User, n: Notification)
    requires n.toRole == Broadcast
    ensures n in VisibleNotifications(notifications + [n], caller)
  {
    VisibleNotificationsExact(notifications + [n], caller, n);
  }

  /** Posting never hides anything: what a caller saw before stays visible,
      followed by the new message exactly when it is visible to them. */
  lemma PostingAppendsToListing(notifications: seq<Notification>, caller: User, n: Notification)
    ensures VisibleNotifications(notifications + [n], caller) ==
            VisibleNotifications(notifications, caller) +
            (if caller.role == AdminRole || AddressedTo(n, caller.role) then [n] else [])
  {
    if caller.role != AdminRole {
      var p := (m: Notification) => AddressedTo(m, caller.role);
      FilterAppend(notifications, [n], p);
      assert Filter([n], p) == (if p(n) then [n] else []) + Filter([], p);
    }
  }
}
