# DrivePro backend — a Dafny model

This project models the back end of the DrivePro driving-school scheduler
(`backend/src/server.js` and `backend/src/data.js`). The back end is an
in-memory store of three collections: users, lessons and notifications.
A small authentication layer guards it:

- A login returns an unsigned, JWT-like token. It is made of a base64
  header, a base64 payload and an empty signature.
- Every request presents that token as `Authorization: Bearer <token>`.
- Route guards admit only certain roles: admin, instructor or student.

Admins manage users; admins and instructors create and edit lessons.
Students book lessons, and an instructor is assigned automatically when
none is named. Everyone posts messages and reads the notifications
addressed to them. Admins read dashboard statistics.

The model is split into modules:

| module | file | models |
|---|---|---|
| `Common` | common.dfy | optional values, the handler reply `Reply` (status plus body or `{message}`), the middleware outcome `Gate`, `find`/`findIndex`/`filter`, ASCII `toLowerCase` |
| `Base64` | base64.dfy | base64 of RFC 4648 section 4: encoding, strict decoding, and the round trip |
| `Payload` | payload.dfy | the byte serialization of the token payload, standing in for `JSON.stringify` and UTF-8, with its round trip |
| `Data` | data.dfy | the records, `findUserById`, `findLessonById`, the `Store` class holding the three collections, and `createDemoData` |
| `Token` | token.dfy | `createTokenForUser`, `split('.')`, and `parseUserFromToken` |
| `Access` | access.dfy | `toPublicUser`, `authMiddleware`, `requireRole`, `requireAnyRole`, and `loginHandler` |
| `Users` | users.dfy | the users GET/POST/PUT/DELETE handlers, including the cascading lesson removal |
| `Lessons` | lessons.dfy | `serializeLesson` and the lesson list/create/book/update/attendance/delete handlers |
| `Notifications` | notifications.dfy | the live `POST /api/messages` handler and `GET /api/notifications` |
| `Stats` | stats.dfy | `adminStatsHandler` |

The three collections are the fields of a `Store` class; its methods are
the constructor and `createDemoData`. Each handler that changes the
collections is a module-level method that takes the `Store` as a parameter.
Its frame names only the collections it changes. It returns a `Reply`, and
its contract states both directions:
- each failing check gives that error with the store unchanged;
- once every check passes, the call succeeds, and the new contents are given
  outright (for example, the old lessons plus exactly the appended one).

Read-only handlers and projections are functions.

Each handler receives the caller that `authMiddleware` resolved.
`Authenticate` models how that caller is obtained from the header. Each
handler starts with its route's role guard, in the same form as
`RequireRole` and `RequireAnyRole`.

Request bodies are records of `Option` fields. A missing field is `None`.
JavaScript truthiness (`!email`) is the predicate `Present`, which treats
`None` and `""` alike. Destructuring defaults (`toRole = 'admin'`,
`status = 'completed'`, `isActive = true`) and `!== undefined` tests only
look at whether the field is `None`.

## Model

| member | source | states |
|---|---|---|
| Common.FindFirst | nuru-driving-student-/backend/src/server.js:238 | `findIndex`: the index returned satisfies the predicate and no earlier element does; None exactly when no element does |
| Common.Filter | nuru-driving-student-/backend/src/server.js:175 | `filter`: never longer than the input, and every element kept satisfies the predicate |
| Common.FilterMembership | nuru-driving-student-/backend/src/server.js:175-177 | an element is in the filtered array exactly when it is in the array and satisfies the predicate |
| Common.FilterAppend | nuru-driving-student-/backend/src/server.js:272-276 | filtering distributes over concatenation, so stored order is preserved |
| Common.FilterPartition | nuru-driving-student-/backend/src/server.js:245-249 | what a filter drops is what the complementary filter keeps; together they are the whole array, with multiplicity |
| Common.CountDisjoint | nuru-driving-student-/backend/src/server.js:150-151 | two counts over predicates that never hold together sum to at most the length |
| Common.FilterKeepsUnique | nuru-driving-student-/backend/src/server.js:245-249 | filtering keeps ids unique |
| Common.RemoveKeepsUnique | nuru-driving-student-/backend/src/server.js:251 | removing one element (`splice(index, 1)`) keeps ids unique |
| Common.AppendKeepsUnique | nuru-driving-student-/backend/src/server.js:207 | pushing an element with a new key keeps keys unique |
| Common.ReplaceKeepsUnique | nuru-driving-student-/backend/src/server.js:228-231 | overwriting a record in place without changing its key keeps keys unique |
| Common.ToLower | nuru-driving-student-/backend/src/server.js:122 | `toLowerCase` keeps the length, leaves no capital A-Z, keeps every other character, and maps each capital to its lower-case letter |
| Common.ToLowerIdempotent | nuru-driving-student-/backend/src/server.js:122 | lowering twice is lowering once |
| Base64.EncodeSextet | nuru-driving-student-/backend/src/server.js:41 | a base64 digit is never the pad `=` and never `.` |
| Base64.DecodeSextet | nuru-driving-student-/backend/src/server.js:62 | a character decodes only if it is the encoding of the value returned |
| Base64.SextetRoundTrip | nuru-driving-student-/backend/src/server.js:41 | each of the 64 values decodes back from its digit |
| Base64.Encode | nuru-driving-student-/backend/src/server.js:41-49 | output has 4 characters per started group of 3 bytes (with padding) and contains no `.` |
| Base64.Decode | nuru-driving-student-/backend/src/server.js:62 | only padded text, a multiple of 4 long, decodes |
| Base64.OneRoundTrip | nuru-driving-student-/backend/src/server.js:41-49 | a final group of one byte (`xx==`) decodes back |
| Base64.TwoRoundTrip | nuru-driving-student-/backend/src/server.js:41-49 | a final group of two bytes (`xxx=`) decodes back |
| Base64.ThreeRoundTrip | nuru-driving-student-/backend/src/server.js:41-49 | a full group of three bytes decodes back |
| Base64.DecodeFullGroup | nuru-driving-student-/backend/src/server.js:62 | a full group followed by decodable text decodes to the two results concatenated |
| Base64.DecodeEncodeShort | nuru-driving-student-/backend/src/server.js:41-62 | the round trip for one or two bytes |
| Base64.DecodeEncode | nuru-driving-student-/backend/src/server.js:41-62 | decoding the encoding of any byte string gives back that byte string |
| Payload.CodePointBytes | nuru-driving-student-/backend/src/server.js:42-49 | each character takes three bytes, the first never the field terminator |
| Payload.EncodeText | nuru-driving-student-/backend/src/server.js:42-49 | a text field takes three bytes per character plus a terminator |
| Payload.DecodeText | nuru-driving-student-/backend/src/server.js:62-63 | decoding a field consumes at least one byte |
| Payload.CodePointRoundTrip | nuru-driving-student-/backend/src/server.js:42-63 | the three bytes of a character recombine to its code point |
| Payload.DecodeEncodeText | nuru-driving-student-/backend/src/server.js:42-63 | a field decodes back to its text and leaves the bytes after it untouched |
| Payload.DecodeEncode | nuru-driving-student-/backend/src/server.js:42-63 | `Payload.Decode` inverts `Payload.Encode`: the payload `{id, name, email, role}` reads back to the same four claims |
| Data.FindUserById | nuru-driving-student-/backend/src/data.js:73-75 | the first user with the id, or None exactly when no user has it |
| Data.FindLessonById | nuru-driving-student-/backend/src/data.js:77-79 | the first lesson with the id, or None exactly when no lesson has it |
| Data.FindStoredUser | nuru-driving-student-/backend/src/data.js:73-75 | with unique ids, looking up a stored user's id returns that user |
| Data.DemoDataConsistent | nuru-driving-student-/backend/src/data.js:16-70 | the seed has distinct user ids, one user of each role, all active, and two scheduled lessons whose references resolve to the seeded student and instructor |
| Data.Store.constructor | nuru-driving-student-/backend/src/data.js:5-7 | the three collections start empty |
| Data.Store.CreateDemoData | nuru-driving-student-/backend/src/data.js:13-71 | changes nothing when users exist (idempotent); otherwise users become exactly the three demo users and the two demo lessons are appended |
| Token.Split | nuru-driving-student-/backend/src/server.js:57 | `split('.')` yields at least one piece, and no piece contains `.` |
| Token.JoinSplit | nuru-driving-student-/backend/src/server.js:57 | joining the pieces with `.` gives back the token, so splitting loses nothing |
| Token.SplitAfterPiece | nuru-driving-student-/backend/src/server.js:57 | a dot-free piece followed by `.` is the first piece of the split |
| Token.CreateToken | nuru-driving-student-/backend/src/server.js:40-52 | a token splits into exactly three pieces (header, payload, and an empty last piece), and reading it back gives exactly the user's id, name, email and role |
| Token.TokenClaims | nuru-driving-student-/backend/src/server.js:56-63 | an empty token gives no claims; a non-empty token with at least two pieces whose second piece decodes from base64 is read, whatever the other pieces (the signature is never checked), and its claims are the payload decoding of that piece; otherwise none |
| Token.ParseUserFromToken | nuru-driving-student-/backend/src/server.js:54-74 | a stored user is returned exactly when the token has claims and some user has the id claimed; it is the first user with that id (`users.find`) |
| Token.ParseCreatedToken | nuru-driving-student-/backend/src/server.js:40-74 | parsing a created token is the lookup of the user's id: it returns the user while stored (ids unique) and null once no user has the id |
| Token.ClaimsOfPieces | nuru-driving-student-/backend/src/server.js:57-63 | any token whose first piece has no `.` and whose second piece is encoded claims reads back as exactly those claims, whatever follows the second `.` |
| Token.SignatureIgnored | nuru-driving-student-/backend/src/server.js:57-69 | an issued token with any text appended after its last `.` still parses to the token's user: the signature is never checked |
| Token.UndottedTokenRejected | nuru-driving-student-/backend/src/server.js:57-61 | a token with no `.` is rejected |
| Access.PublicUserForgetsOnlyPassword | nuru-driving-student-/backend/src/server.js:34-38 | `toPublicUser` (`ToPublicUser`) forgets the password and nothing else: two users project alike exactly when they differ at most in the password |
| Access.Authenticate | nuru-driving-student-/backend/src/server.js:76-91 | passes a user exactly when the header starts with `Bearer ` and the rest parses to a user, and that user is the one the token parses to; otherwise 401 |
| Access.BearerTokenAuthenticates | nuru-driving-student-/backend/src/server.js:76-91 | `Bearer ` plus a created token authenticates that user while it is stored |
| Access.RequireRole | nuru-driving-student-/backend/src/server.js:93-100 | passes exactly a caller with the role; otherwise 403 `Forbidden` |
| Access.RequireAnyRole | nuru-driving-student-/backend/src/server.js:102-109 | passes exactly a caller whose role is listed; otherwise 403 `Forbidden` |
| Access.Login | nuru-driving-student-/backend/src/server.js:112-139 | 400 exactly when a field is missing. Success means the first account with a matching email (case-insensitive) and role has this password and is active; it returns its token and public view. 403 only when that first match has the password but is inactive; 401 when the first match has another password or nothing matches |
| Access.LoginUnknownAccount | nuru-driving-student-/backend/src/server.js:121-127 | no account with that email and role gives 401 whatever the password |
| Access.LoginTokenAuthenticates | nuru-driving-student-/backend/src/server.js:133-138 | the token a login returns parses to the account that logged in, whose public view is the returned user |
| Users.ListUsers | nuru-driving-student-/backend/src/server.js:172-181 | 403 exactly for non-admins; otherwise the public view of the listed users |
| Users.ListedUsersExact | nuru-driving-student-/backend/src/server.js:175-178 | `ListedUsers` holds exactly the stored non-admins, of the given role when one is given |
| Users.CreateUser | nuru-driving-student-/backend/src/server.js:183-210 | 403, 400 (missing fields), 400 (bad role), 409 (email taken ignoring case), in that order, with nothing changed. Otherwise appends exactly one student or instructor with the default password and `isActive`. Case-insensitive email uniqueness is preserved |
| Users.PatchedNeverAdmin | nuru-driving-student-/backend/src/server.js:228-231 | an update never makes a user an admin and keeps id and password |
| Users.UserIndexIsFound | nuru-driving-student-/backend/src/server.js:214 | the user at `UserIndex` is the one `findUserById` returns, so writing there edits the found object |
| Users.UpdateUser | nuru-driving-student-/backend/src/server.js:212-234 | 404 for an unknown id or an admin target; 409 on conflict; otherwise only the supplied fields are written to that user. Who is admin never changes, and emails stay unique unless the email given is `""` |
| Users.UpdateKeepsEmailsUnique | nuru-driving-student-/backend/src/server.js:222-229 | an update that passes the conflict check with an email other than `""` keeps emails unique ignoring case |
| Users.EmptyEmailUpdateBreaksUniqueness | nuru-driving-student-/backend/src/server.js:222-229 | setting two users' email to `""` passes the check both times and leaves two users with the same email |
| Users.DeleteUser | nuru-driving-student-/backend/src/server.js:236-254 | 404 when no non-admin has the id, nothing changed; otherwise removes exactly that user and every lesson referring to it, the rest in order |
| Users.RemoveLessonsOf | nuru-driving-student-/backend/src/server.js:245-249 | the backwards `splice` scan leaves exactly the lessons not referring to the user, in order, with ids unique |
| Users.CascadeRemovesExactlyReferences | nuru-driving-student-/backend/src/server.js:245-249 | kept lessons are exactly those not naming the user; kept plus removed is all of them |
| Lessons.PublicById | nuru-driving-student-/backend/src/server.js:257-262 | a reference becomes a public user exactly when some user has the id, and then it is `toPublicUser` of the first user with that id |
| Lessons.SerializeLesson | nuru-driving-student-/backend/src/server.js:256-265 | keeps the lesson's fields; each reference becomes `PublicById` of its id: the public view of the first user with that id, or null when none has it |
| Lessons.ListLessons | nuru-driving-student-/backend/src/server.js:268-279 | always 200, serializing each visible lesson in order |
| Lessons.VisibleLessonsExact | nuru-driving-student-/backend/src/server.js:270-276 | in `VisibleLessons`, a student sees exactly their lessons as student, an instructor as instructor, other roles all |
| Lessons.VisibleLessonsInOrder | nuru-driving-student-/backend/src/server.js:272-276 | visibility distributes over concatenation, so listings keep stored order |
| Lessons.CreateLesson | nuru-driving-student-/backend/src/server.js:281-307 | 403, 400 (missing field), 400 (an id names no user, role unchecked), with nothing changed; otherwise appends exactly one scheduled lesson and returns it serialized |
| Lessons.FirstActiveInstructor | nuru-driving-student-/backend/src/server.js:362 | the first active instructor in stored order, None exactly when there is none |
| Lessons.BookLesson | nuru-driving-student-/backend/src/server.js:337-387 | each 400 case in order (fields, missing student, not a student, no active instructor, not an instructor), nothing changed on failure; a student caller without `studentId` books for themself, and a supplied `studentId` is used as given; success appends exactly one scheduled lesson whose student is a student and whose instructor is an instructor |
| Lessons.AutoAssignedInstructorValid | nuru-driving-student-/backend/src/server.js:360-371 | the auto-assigned instructor id resolves to an instructor, so auto-assignment never hits `Invalid instructorId` |
| Lessons.PatchedLessonKeepsReferences | nuru-driving-student-/backend/src/server.js:403-406 | an update keeps id, student and instructor, and every field not supplied |
| Lessons.LessonIndexIsFound | nuru-driving-student-/backend/src/server.js:395 | the lesson at `LessonIndex` is the one `findLessonById` returns, so writing there edits the found object |
| Lessons.UpdateLesson | nuru-driving-student-/backend/src/server.js:389-410 | 404 for an unknown id with nothing changed; otherwise writes the supplied fields to that lesson only |
| Lessons.MarkAttendance | nuru-driving-student-/backend/src/server.js:412-429 | 404 for an unknown id; otherwise sets that lesson's status to the one given, `completed` by default |
| Lessons.DeleteLesson | nuru-driving-student-/backend/src/server.js:431-452 | 404 for an unknown id; 403 for a student who is not the lesson's student, nothing changed; otherwise removes exactly that lesson |
| Lessons.RemovedExactlyOne | nuru-driving-student-/backend/src/server.js:448 | `splice(index, 1)` leaves the others (as a multiset, in order) and, ids being unique, no lesson with that id |
| Notifications.PostMessage | nuru-driving-student-/backend/src/server.js:310-334 | 403, then 400 without subject or body, nothing changed; otherwise appends exactly one notification from the caller's public view, to `admin` when no `toRole` |
| Notifications.ListNotifications | nuru-driving-student-/backend/src/server.js:479-493 | always 200 with exactly `VisibleNotifications`: every notification for admins, a sub-list for others |
| Notifications.VisibleNotificationsExact | nuru-driving-student-/backend/src/server.js:483-490 | in `VisibleNotifications`, a caller sees a notification exactly when admin, or it is addressed to `all` or their role |
| Notifications.DefaultMessageReachesAdminsOnly | nuru-driving-student-/backend/src/server.js:316 | a message with no `toRole` is seen by admins and no one else |
| Notifications.BroadcastReachesEveryone | nuru-driving-student-/backend/src/server.js:489 | a message to `all` is seen by every caller |
| Notifications.PostingAppendsToListing | nuru-driving-student-/backend/src/server.js:330 | posting keeps each caller's listing and adds the new message at the end exactly when it is visible to them |
| Stats.DatePrefix | nuru-driving-student-/backend/src/server.js:155 | `slice(0, 10)`: a prefix of at most ten characters |
| Stats.ComputeStats | nuru-driving-student-/backend/src/server.js:149-166 | students plus instructors never exceed the users; today's and pending lessons never exceed the lessons |
| Stats.AdminStats | nuru-driving-student-/backend/src/server.js:149-169 | 200 with the figures exactly for admins, otherwise 403 |
| Stats.CountAppend | nuru-driving-student-/backend/src/server.js:151-160 | a count grows by one for an appended element exactly when it qualifies |
| Stats.NewLessonCounts | nuru-driving-student-/backend/src/server.js:154-160 | a new scheduled lesson adds one to pending, and one to today's exactly when dated today |
| Stats.CancelledLessonCounts | nuru-driving-student-/backend/src/server.js:154-160 | cancelling a lesson removes it from today's figure and, if it was scheduled, from pending |

## Left out

- Express wiring is not modelled: `cors`, `morgan`, `express.json`, static files, `app.listen`, `/health`, and the `/api` 404 and 500 handlers. It has no logic of its own.
- `GET /api/profile` returns `toPublicUser(req.user)`. It is `Access.Authenticate` followed by `Access.ToPublicUser` and has no member of its own.
- Handlers take the authenticated caller as a parameter. Chaining middleware with `next()` is modelled by `Access.Authenticate`, `Access.RequireRole` and `Access.RequireAnyRole` as separate functions.
- `uuidv4()` is not modelled. Fresh ids are method parameters, required to differ from the ids already in the collection they are added to.
- `new Date().toISOString()` is not modelled. Creation times, the seeded dates and "today" in the statistics are string parameters.
- `JSON.stringify`/`JSON.parse` and UTF-8 are replaced by the `Payload` serialization: three bytes per code point and a terminator per field. Tokens are decoded from that format only. Hand-made tokens carrying other JSON are outside the model.
- Node's `Buffer.from(s, 'base64')` is lenient: it skips bad characters and accepts missing padding. `Base64.Decode` is strict and returns None. The two agree on every token `createTokenForUser` produces.
- Token.ParseUserFromToken: an exception inside the `try` is modelled as None, like every other failure. A non-string token cannot occur, because the header is a string. `console.error` logging is left out.
- `toLowerCase` is modelled for ASCII letters only. Other letters are compared unchanged.
- Request fields that are not strings are not modelled: a number or an object where a string is expected. `isActive` is a boolean, so `Boolean(isActive)` is the identity.
- Records are values. Assigning fields of a found object in place is modelled as replacing the record at the index `findIndex` gives. `Users.UserIndexIsFound` and `Lessons.LessonIndexIsFound` show that this is the record `find` returns. Aliasing is not modelled: no other reference to a record exists in the handlers.
- The second `POST /api/messages` registration (`server.js:455-477`) is not modelled. It can never run, because the first registration always responds.
- Users.UpdateUser: email uniqueness is guaranteed only when the email supplied is not `""`. As written, the conflict check runs only for a truthy email, yet `""` is still stored. `Users.EmptyEmailUpdateBreaksUniqueness` shows two users ending up with the same email.
