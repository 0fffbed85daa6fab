# Codeython rooms, members and ranking in Dafny

This project models the business logic of the Codeython server. The server runs
multiplayer coding rooms. Members sign up, create rooms and join them by password or by
invite code. A room has a fixed member limit and at most one owner. Members are ranked by
their accumulated exp.

The model has seven modules:

- `Common`: `Option` and `Result`. They stand for Java's nullable values and thrown exceptions.
- `Levels`: converts exp to a (level, remainder) pair. There are two functions because the
  source has two boundaries. `ProfileLevel` uses `exp > 100`. `NoticeLevel` uses `exp >= 100`.
- `SecretPassword`: the secret-room password rule. `Integer.valueOf` must succeed first
  (an optional sign, digits, and the 32-bit range). Then the length must be 4.
- `RoomDomain`: the `RoomMember` entity as a class. Its owner flag and accuracy are updated
  in place. `MemberRow` is the value the membership store keeps once a row is saved.
- `Members`: `MemberService` as a class over the member table (sign-up, nickname update,
  profile). It also has the ranking method and the rank specification it is proved against.
- `Rooms`: `RoomService` as a class over the room catalog, the membership rows, the known
  problem ids and a ghost log of published join notices. Two pure functions
  (`PasswordAdmission`, `InviteAdmission`) decide a join, and `CreationIssue` decides room
  creation. Lemmas prove that every successful join keeps three invariants:
  - no room holds more rows than its limit;
  - no (room, member) pair has two rows;
  - no room has two owners.
- `RoomCounts`: proves that a room's row list holds each of its rows as often as the store
  does, so its length is the count the capacity check and the room listing use.

## Model

| member | source | states |
|---|---|---|
| `Levels.ProfileLevel` | src/main/java/clofi/codeython/member/service/MemberService.java:54-59 | level is at least 1; (level-1)*100 + remainder rebuilds exp; level 1 exactly when exp <= 100; above level 1 the remainder is in [0,100) |
| `Levels.NoticeLevel` | src/main/java/clofi/codeython/room/service/RoomService.java:141-146 | the same facts with the `>=` boundary: level 1 exactly when exp < 100 |
| `Levels.NoticeLevelUnique` | src/main/java/clofi/codeython/room/service/RoomService.java:141-146 | the notice level is the only split of exp into a level >= 1 and a remainder below 100 (non-negative above level 1) |
| `Levels.LevelsDisagreeOnlyAtHundred` | src/main/java/clofi/codeython/member/service/MemberService.java:54-59 | the profile and notice levels are equal for every exp except exactly 100 |
| `Levels.ProfileLevelExamples` | src/main/java/clofi/codeython/member/service/MemberService.java:54-59 | 0 gives (1,0), 100 gives (1,100), 101 gives (2,1), 250 gives (3,50) |
| `Levels.NoticeLevelExamples` | src/main/java/clofi/codeython/room/service/RoomService.java:141-146 | 100 gives (2,0), 99 gives (1,99) |
| `SecretPassword.PasswordIssue` | src/main/java/clofi/codeython/room/service/RoomService.java:103-113 | no error exactly when the password is non-null, parses as an int and has length 4; the numeric error exactly when it is null or does not parse, so the numeric check wins over the length check |
| `SecretPassword.FourCharacterPasswords` | src/main/java/clofi/codeython/room/service/RoomService.java:103-113 | a 4-character password is accepted exactly when it is four digits or a sign followed by three digits |
| `SecretPassword.PasswordExamples` | src/main/java/clofi/codeython/room/service/RoomService.java:103-113 | "1234", "-123" and "+123" pass; "12a3", "", "-" and null fail the numeric check; "12345" fails the length check |
| `SecretPassword.OverflowIsNotNumeric` | src/main/java/clofi/codeython/room/service/RoomService.java:104-108 | "2147483648" is out of int range, so it fails the numeric check before the length check |
| `RoomDomain.RaisedAccuracy` | src/main/java/clofi/codeython/room/domain/RoomMember.java:41-43 | the result is at least the current and the reported accuracy, and equals one of them |
| `RoomDomain.RoomMember.constructor` | src/main/java/clofi/codeython/room/domain/RoomMember.java:31-35 | room, user and owner flag are set as given; accuracy is left null |
| `RoomDomain.RoomMember.UpdateOwner` | src/main/java/clofi/codeython/room/domain/RoomMember.java:37-39 | sets the owner flag; room, user and accuracy unchanged |
| `RoomDomain.RoomMember.UpdateAccuracy` | src/main/java/clofi/codeython/room/domain/RoomMember.java:41-43 | needs a recorded accuracy (null cannot be unboxed); the new accuracy is the maximum of old and reported and never decreases; nothing else changes |
| `RoomDomain.RoomMember.AccuracyReset` | src/main/java/clofi/codeython/room/domain/RoomMember.java:45-47 | accuracy becomes 0; nothing else changes |
| `RoomDomain.RaisedAccuracyIdempotent` | src/main/java/clofi/codeython/room/domain/RoomMember.java:41-43 | reporting the same accuracy twice equals reporting it once |
| `RoomDomain.RaiseAfterReset` | src/main/java/clofi/codeython/room/domain/RoomMember.java:41-47 | after a reset to 0, a non-negative report is taken exactly |
| `RoomDomain.RaisedAccuracyMonotone` | src/main/java/clofi/codeython/room/domain/RoomMember.java:41-43 | a higher recorded accuracy never gives a lower result for the same report |
| `RoomDomain.ResetThenReport` | src/main/java/clofi/codeython/room/domain/RoomMember.java:41-47 | on an entity, reset followed by a non-negative report leaves exactly that report |
| `Members.FindByUsername` | src/main/java/clofi/codeython/member/service/MemberService.java:42-44 | finds a member with that username, and finds none exactly when no member has it |
| `Members.MemberService.SignUp` | src/main/java/clofi/codeython/member/service/MemberService.java:30-39 | a taken nickname is rejected first, then a taken username; otherwise exactly one member is appended; nicknames and usernames stay unique |
| `Members.MemberService.Update` | src/main/java/clofi/codeython/member/service/MemberService.java:41-50 | an unknown user is rejected; any nickname in use is rejected, the caller's own included; otherwise only that member's nickname changes; uniqueness is kept |
| `Members.MemberService.GetMember` | src/main/java/clofi/codeython/member/service/MemberService.java:52-61 | an unknown user is rejected; an existing user always gets a profile, which carries the member found under that username and exactly its `ProfileLevel` pair: a level/remainder that rebuilds its exp, level 1 exactly when exp <= 100 |
| `Members.IndexOf` | src/main/java/clofi/codeython/member/service/MemberService.java:89-91 | the first position holding the member, or -1 when it is absent |
| `Members.LastIndexOf` | src/main/java/clofi/codeython/member/service/MemberService.java:79-87 | the last position holding the member, or -1 when it is absent |
| `Members.Ranking` | src/main/java/clofi/codeython/member/service/MemberService.java:72-94 | one ranker per top member in the same order with ranks 1..k; the user's rank is its place in the top list, otherwise its index in the full exp-descending list plus 1 (0 when absent) |
| `Members.RankWithinPrefix` | src/main/java/clofi/codeython/member/service/MemberService.java:76-91 | when the top list is a head of the full list and user numbers are unique, the rank is the member's 1-based place in the full list |
| `Members.SixthPlaceExample` | src/main/java/clofi/codeython/member/service/MemberService.java:76-91 | with exps 500, 400, 300, 200, 100, 50, the member with 50 ranks 6 |
| `Rooms.FindById` | src/main/java/clofi/codeython/room/service/RoomService.java:41-42 | a found room is in the catalog under that number; none is found exactly when no room has it |
| `Rooms.FindByInviteCode` | src/main/java/clofi/codeython/room/service/RoomService.java:66-69 | a found room carries that code; none is found exactly when no room has it |
| `Rooms.InviteCodeOf` | src/main/java/clofi/codeython/room/service/RoomService.java:95-96 | the code is the prefix of the UUID text before its first '-' |
| `Rooms.RowsOf` | src/main/java/clofi/codeython/room/service/RoomService.java:44 | holds exactly the rows of that room, and is empty when no row belongs to it |
| `RoomCounts.RowsOfCounts` | src/main/java/clofi/codeython/room/service/RoomService.java:44 | every row of the room appears in `RowsOf` as many times as in the store, and no other row does, so its length is the room's `roomMember.size()` |
| `Rooms.PasswordAdmission` | src/main/java/clofi/codeython/room/service/RoomService.java:39-62 | each error happens exactly when all earlier checks pass and its own check fails, in this order: room, password (secret: must match; public: must be null), capacity, duplicate; the saved row is owner exactly when the room had no rows |
| `Rooms.InviteAdmission` | src/main/java/clofi/codeython/room/service/RoomService.java:64-75 | an unknown code, a full room and a duplicate are the only errors, in that order; no password is looked at; the saved row is never owner |
| `Rooms.AdmissionWithinCapacity` | src/main/java/clofi/codeython/room/service/RoomService.java:55-57 | after the capacity check, appending the row keeps every room within its limit |
| `Rooms.AdmissionAtMostOneOwner` | src/main/java/clofi/codeython/room/service/RoomService.java:58-61 | an owner row that goes only into an empty room keeps at most one owner per room |
| `Rooms.AdmissionKeepsInvariants` | src/main/java/clofi/codeython/room/service/RoomService.java:127-137 | a row admitted by the capacity and duplicate checks keeps all membership invariants |
| `Rooms.PasswordJoinKeepsInvariants` | src/main/java/clofi/codeython/room/service/RoomService.java:39-62 | every successful password join keeps capacity, no-duplicate and single-owner |
| `Rooms.InviteJoinKeepsInvariants` | src/main/java/clofi/codeython/room/service/RoomService.java:64-75 | every successful invite-code join keeps capacity, no-duplicate and single-owner |
| `Rooms.FiveJoinsIntoRoomOfTwo` | src/main/java/clofi/codeython/room/service/RoomService.java:55-61 | five members join a public room of limit 2 one after another: the first two get in (the first as owner), every later one gets RoomFull |
| `Rooms.InviteBypassesSecrecy` | src/main/java/clofi/codeython/room/service/RoomService.java:64-75 | an invite code admits a member to a secret room, with no password, whenever capacity and duplicate allow |
| `Rooms.CreationIssue` | src/main/java/clofi/codeython/room/service/RoomService.java:77-93 | errors come in order: taken name, invalid secret password (secret rooms only), limit not 2/4/6, unknown problem; no error means the name is free and the room's settings are valid |
| `Rooms.CreationKeepsInvariants` | src/main/java/clofi/codeython/room/service/RoomService.java:77-101 | appending the created room keeps room numbers ordered, names unique, settings valid and all membership invariants |
| `Rooms.AllRooms` | src/main/java/clofi/codeython/room/service/RoomService.java:115-125 | one entry per room in store order, with that room's row count |
| `Rooms.RoomService.JoinRoomWithPassword` | src/main/java/clofi/codeython/room/service/RoomService.java:39-62 | the result is `PasswordAdmission`'s decision; on success exactly that row is appended and one notice is published, otherwise nothing changes; invariants kept |
| `Rooms.RoomService.JoinRoomWithInviteCode` | src/main/java/clofi/codeython/room/service/RoomService.java:64-75 | the result is `InviteAdmission`'s decision; on success exactly that row is appended and one notice with owner false is published, otherwise nothing changes |
| `Rooms.RoomService.ProcessRoomJoin` | src/main/java/clofi/codeython/room/service/RoomService.java:127-138 | an existing (room, member) row gives AlreadyJoined and nothing is saved; otherwise exactly one row is appended, the rest unchanged |
| `Rooms.RoomService.NotifyRoomParticipants` | src/main/java/clofi/codeython/room/service/RoomService.java:140-150 | publishes one notice with the nickname, the `>=` level and remainder, and the owner flag |
| `Rooms.RoomService.CreateRoom` | src/main/java/clofi/codeython/room/service/RoomService.java:77-101 | saves exactly one room, with the next number and the UUID-prefix invite code, when `CreationIssue` finds nothing; otherwise fails with that issue and saves nothing |
| `Rooms.RoomService.GetAllRoom` | src/main/java/clofi/codeython/room/service/RoomService.java:115-125 | one entry per room in store order with its row count, and no count exceeds its room's limit |

## Left out

- The WebSocket publish (`convertAndSend`) is I/O. It is modelled as a ghost log of
  notices. The channel text `/sub/room/{roomNo}` is reduced to the room number.
- `findByUser` in the notification expects a single row per user. When the joining member
  already has a row in another room, the program, unlike the model, finds two rows, throws,
  and rolls the join back. The model accepts that join and publishes a notice with the owner
  flag of the row just saved.
- The random UUID is a parameter of `Rooms.RoomService.CreateRoom`. The method requires
  its text to contain '-', as every UUID text does.
- Hashing the sign-up password (BCrypt) and `loadUserByUsername` are library glue and are left out.
- Transactions and concurrent requests are left out. The model is sequential. It proves that
  each operation keeps the invariants, not that the unguarded check-then-insert is race-free.
- The tie order of `findTop5ByOrderByExpDesc` and `findAllByOrderByExpDesc` is left out.
  `Members.Ranking` takes both lists as parameters.
- Both joins take the joining member as a parameter. The lookup `findByUsername` at lines 40
  and 65 of RoomService.java, and the null member it could return, are left out.
- `Members.Ranking` takes the caller as a member. The lookup by username, and the null member
  it could return, are left out. Members are equal when their user numbers are equal. Within
  one transaction the store returns one instance per row, so `indexOf` compares the same way.
- Response DTOs are left out. A join returns the room only. The problem lookup at line 129
  of RoomService.java only feeds the response, so it is not modelled.
- `SecretPassword.PasswordIssue`: only ASCII '0'-'9' count as digits. Java's
  `Integer.valueOf` also accepts other Unicode decimal digits.
- `Rooms.FindByInviteCode` returns the first room with the code. Spring Data would throw if
  two rooms shared a code. Creation does not guard against that.
- Null dereferences become error results:
  - A secret room with a null stored password would throw in Java. It gives PasswordMismatch
    here, and room creation makes it impossible.
  - An unknown username in `update` and `getMember` would throw a NullPointerException. It gives
    MemberNotFound here.
  - A null exp is not modelled.
- Room and user numbers are the store's identity values: the next number is the store size
  plus 1, because nothing is deleted.
- `CreateRoomRequest.toRoom` and `CreateMemberRequest.toMember` are not part of this model.
  The room copies the request's fields. A new member starts with exp 0.
- Integers are unbounded. With 32-bit inputs no arithmetic here overflows: `exp / 100 + 1`
  and `Math.max` stay in range.
- Saved rows are snapshots. The game flow that calls the entity's mutators on stored rows is
  not part of this model.
- Three behaviours of the code are kept as written:
  - A public room rejects any non-null password, the empty string included.
  - The two exp boundaries (`>` and `>=`) stay as two functions.
  - `update` refuses a nickname already in use even though its message speaks of an ID.
