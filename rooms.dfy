/**
 * Room creation and admission (RoomService). The service holds the room catalog in store
 * order, the saved RoomMember rows, and the ids of the problems that exist. A join either
 * saves exactly one row and publishes one notice, or fails with the first check it breaks.
 */
module Rooms {
  import opened Common
  import opened Levels
  import opened SecretPassword
  import opened RoomDomain
  import opened Members

  datatype Room = Room(
    roomNo: int,
    roomName: string,
    isSecret: bool,
    password: Option<string>,
    inviteCode: string,
    limitMemberCnt: int,
    problemNo: int)

  datatype CreateRoomRequest = CreateRoomRequest(
    roomName: string,
    isSecret: bool,
    password: Option<string>,
    limitMemberCnt: int,
    problemId: int)

  datatype JoinError = RoomNotFound | PasswordMismatch | PasswordNotAllowed | RoomFull | AlreadyJoined

  datatype CreateError = DuplicateRoomName | InvalidPassword(reason: PasswordError) | InvalidCapacity | ProblemNotFound

  /** The room a join enters and the row it saves there. */
  datatype Admission = Admission(room: Room, row: MemberRow)

  /** What is published on the room's channel after a successful join. */
  datatype Notice = Notice(roomNo: int, nickname: string, level: int, remainder: int, isOwner: bool)

  /** One entry of the room listing. */
  datatype RoomSummary = RoomSummary(room: Room, playMemberCount: nat)

  // ---------------------------------------------------------------- catalog lookups

  /** `findById`: the room with this number, if the catalog has one. */
  function FindById(rooms: seq<Room>, roomNo: int): (r: Option<Room>)
    ensures r.Some? ==> r.value in rooms && r.value.roomNo == roomNo
    ensures r.None? ==> forall k | 0 <= k < |rooms| :: rooms[k].roomNo != roomNo
  {
    if rooms == [] then None
    else if rooms[0].roomNo == roomNo then Some(rooms[0])
    else FindById(rooms[1..], roomNo)
  }

  /** `findByInviteCode`: the first room carrying this invite code, if any. */
  function FindByInviteCode(rooms: seq<Room>, code: string): (r: Option<Room>)
    ensures r.Some? ==> r.value in rooms && r.value.inviteCode == code
    ensures r.None? ==> forall k | 0 <= k < |rooms| :: rooms[k].inviteCode != code
  {
    if rooms == [] then None
    else if rooms[0].inviteCode == code then Some(rooms[0])
    else FindByInviteCode(rooms[1..], code)
  }

  predicate NameTaken(rooms: seq<Room>, roomName: string)
  {
    exists k | 0 <= k < |rooms| :: rooms[k].roomName == roomName
  }

  /** The invite code cut from a random UUID's text: everything before its first '-'. */
  function InviteCodeOf(uuid: string): (code: string)
    requires '-' in uuid
    ensures |code| < |uuid| && code == uuid[..|code|]
    ensures '-' !in code
    ensures uuid[|code|] == '-'
  {
    if uuid[0] == '-' then []
    else
      assert '-' in uuid[1..] by {
        var k :| 0 <= k < |uuid| && uuid[k] == '-';
        assert uuid[1..][k - 1] == '-';
      }
      [uuid[0]] + InviteCodeOf(uuid[1..])
  }

  // ---------------------------------------------------------------- membership store

  /** `findAllByRoomRoomNo`: the rows of one room, in store order. */
  function RowsOf(rows: seq<MemberRow>, roomNo: int): (r: seq<MemberRow>)
    ensures |r| <= |rows|
    ensures forall x :: x in r <==> x in rows && x.roomNo == roomNo
    ensures (forall k | 0 <= k < |rows| :: rows[k].roomNo != roomNo) ==> r == []
  {
    if rows == [] then []
    else
      var last := rows[|rows| - 1];
      assert rows == rows[..|rows| - 1] + [last];
      var earlier := RowsOf(rows[..|rows| - 1], roomNo);
      if last.roomNo == roomNo then earlier + [last] else earlier
  }

  /** How many members a room holds. */
  function Occupancy(rows: seq<MemberRow>, roomNo: int): nat
  {
    |RowsOf(rows, roomNo)|
  }

  /** `existsRoomMemberByRoomAndUser`. */
  predicate HasRow(rows: seq<MemberRow>, roomNo: int, userNo: int)
  {
    exists k | 0 <= k < |rows| :: rows[k].roomNo == roomNo && rows[k].userNo == userNo
  }

  lemma RowsOfAppend(rows: seq<MemberRow>, x: MemberRow, roomNo: int)
    ensures RowsOf(rows + [x], roomNo) == RowsOf(rows, roomNo) + (if x.roomNo == roomNo then [x] else [])
  {
    assert (rows + [x])[..|rows|] == rows;
  }

  // ---------------------------------------------------------------- invariants

  /** The settings createRoom admits: a valid secret password, a limit of 2, 4 or 6, a known problem. */
  predicate SettingsValid(room: Room, problems: set<int>)
  {
    && (room.isSecret ==> PasswordIssue(room.password).None?)
    && (room.limitMemberCnt == 2 || room.limitMemberCnt == 4 || room.limitMemberCnt == 6)
    && room.problemNo in problems
  }

  /** Room numbers are handed out in order, names are unique, every room passed creation's checks. */
  ghost predicate RoomsWellFormed(rooms: seq<Room>, problems: set<int>)
  {
    && (forall k | 0 <= k < |rooms| :: rooms[k].roomNo == k + 1)
    && (forall i, j | 0 <= i < j < |rooms| :: rooms[i].roomName != rooms[j].roomName)
    && (forall k | 0 <= k < |rooms| :: SettingsValid(rooms[k], problems))
  }

  ghost predicate RowsInRooms(rooms: seq<Room>, rows: seq<MemberRow>)
  {
    forall k | 0 <= k < |rows| :: FindById(rooms, rows[k].roomNo).Some?
  }

  ghost predicate WithinCapacity(rooms: seq<Room>, rows: seq<MemberRow>)
  {
    forall k | 0 <= k < |rooms| :: Occupancy(rows, rooms[k].roomNo) <= rooms[k].limitMemberCnt
  }

  ghost predicate NoDuplicateRows(rows: seq<MemberRow>)
  {
    forall i, j | 0 <= i < j < |rows| :: !(rows[i].roomNo == rows[j].roomNo && rows[i].userNo == rows[j].userNo)
  }

  ghost predicate AtMostOneOwner(rows: seq<MemberRow>)
  {
    forall i, j | 0 <= i < j < |rows| && rows[i].roomNo == rows[j].roomNo :: !(rows[i].isOwner && rows[j].isOwner)
  }

  /** The three membership invariants, over rows that all belong to catalogued rooms. */
  ghost predicate MembershipValid(rooms: seq<Room>, rows: seq<MemberRow>)
  {
    && RowsInRooms(rooms, rows)
    && WithinCapacity(rooms, rows)
    && NoDuplicateRows(rows)
    && AtMostOneOwner(rows)
  }

  // ---------------------------------------------------------------- admission

  /** The password rule: a secret room wants its own password, a public room wants none at all. */
  predicate PasswordAccepted(room: Room, password: Option<string>)
  {
    if room.isSecret then room.password.Some? && password == room.password
    else password.None?
  }

  /** The capacity check shared by both join paths, then processRoomJoin's duplicate check. */
  function AdmitToRoom(room: Room, rows: seq<MemberRow>, userNo: int, isOwner: bool): Result<Admission, JoinError>
  {
    if Occupancy(rows, room.roomNo) >= room.limitMemberCnt then Failure(RoomFull)
    else if HasRow(rows, room.roomNo, userNo) then Failure(AlreadyJoined)
    else Success(Admission(room, MemberRow(room.roomNo, userNo, isOwner, None)))
  }

  /**
   * joinRoomWithPassword's decision. Each error is raised exactly when every earlier check
   * passed and its own failed: room, then password, then capacity, then duplicate. The new
   * row is the room's owner exactly when the room had no rows.
   */
  function PasswordAdmission(rooms: seq<Room>, rows: seq<MemberRow>, roomId: int, password: Option<string>, userNo: int)
    : (r: Result<Admission, JoinError>)
    ensures r == Failure(RoomNotFound) <==> FindById(rooms, roomId).None?
    ensures r == Failure(PasswordMismatch) <==>
              FindById(rooms, roomId).Some? && FindById(rooms, roomId).value.isSecret
              && !PasswordAccepted(FindById(rooms, roomId).value, password)
    ensures r == Failure(PasswordNotAllowed) <==>
              FindById(rooms, roomId).Some? && !FindById(rooms, roomId).value.isSecret && password.Some?
    ensures r == Failure(RoomFull) <==>
              FindById(rooms, roomId).Some? && PasswordAccepted(FindById(rooms, roomId).value, password)
              && Occupancy(rows, roomId) >= FindById(rooms, roomId).value.limitMemberCnt
    ensures r == Failure(AlreadyJoined) <==>
              FindById(rooms, roomId).Some? && PasswordAccepted(FindById(rooms, roomId).value, password)
              && Occupancy(rows, roomId) < FindById(rooms, roomId).value.limitMemberCnt
              && HasRow(rows, roomId, userNo)
    ensures r.Success? ==>
              && r.value.room == FindById(rooms, roomId).value
              && r.value.row == MemberRow(roomId, userNo, RowsOf(rows, roomId) == [], None)
  {
    match FindById(rooms, roomId)
    case None => Failure(RoomNotFound)
    case Some(room) =>
      if room.isSecret && !PasswordAccepted(room, password) then Failure(PasswordMismatch)
      else if !room.isSecret && password.Some? then Failure(PasswordNotAllowed)
      else AdmitToRoom(room, rows, userNo, RowsOf(rows, room.roomNo) == [])
  }

  /**
   * joinRoomWithInviteCode's decision: no password is looked at, and the new row is never
   * the owner, even in an empty room.
   */
  function InviteAdmission(rooms: seq<Room>, rows: seq<MemberRow>, code: string, userNo: int)
    : (r: Result<Admission, JoinError>)
    ensures r == Failure(RoomNotFound) <==> FindByInviteCode(rooms, code).None?
    ensures r == Failure(RoomFull) <==>
              FindByInviteCode(rooms, code).Some?
              && Occupancy(rows, FindByInviteCode(rooms, code).value.roomNo) >= FindByInviteCode(rooms, code).value.limitMemberCnt
    ensures r == Failure(AlreadyJoined) <==>
              FindByInviteCode(rooms, code).Some?
              && Occupancy(rows, FindByInviteCode(rooms, code).value.roomNo) < FindByInviteCode(rooms, code).value.limitMemberCnt
              && HasRow(rows, FindByInviteCode(rooms, code).value.roomNo, userNo)
    ensures r.Failure? ==> r.error in {RoomNotFound, RoomFull, AlreadyJoined}
    ensures r.Success? ==>
              && r.value.room == FindByInviteCode(rooms, code).value
              && r.value.row == MemberRow(r.value.room.roomNo, userNo, false, None)
  {
    match FindByInviteCode(rooms, code)
    case None => Failure(RoomNotFound)
    case Some(room) => AdmitToRoom(room, rows, userNo, false)
  }

  /** With room numbers handed out in order, a catalogued room is found under its own number. */
  lemma FindByIdSequential(rooms: seq<Room>, k: nat)
    requires forall i | 0 <= i < |rooms| :: rooms[i].roomNo == i + 1
    requires k < |rooms|
    ensures FindById(rooms, rooms[k].roomNo) == Some(rooms[k])
  {
    var r := FindById(rooms, rooms[k].roomNo);
    var j :| 0 <= j < |rooms| && rooms[j] == r.value;
  }

  /** An admitted row brings its room to at most its limit and leaves every other room as it was. */
  lemma {:induction false} AdmissionWithinCapacity(rooms: seq<Room>, rows: seq<MemberRow>, room: Room, x: MemberRow)
    requires forall i | 0 <= i < |rooms| :: rooms[i].roomNo == i + 1
    requires WithinCapacity(rooms, rows)
    requires FindById(rooms, room.roomNo) == Some(room)
    requires x.roomNo == room.roomNo && Occupancy(rows, room.roomNo) < room.limitMemberCnt
    ensures WithinCapacity(rooms, rows + [x])
  {
    forall k | 0 <= k < |rooms|
      ensures Occupancy(rows + [x], rooms[k].roomNo) <= rooms[k].limitMemberCnt
    {
      RowsOfAppend(rows, x, rooms[k].roomNo);
      if rooms[k].roomNo == room.roomNo {
        FindByIdSequential(rooms, k);
      }
    }
  }

  /** An owner row only goes into a room with no rows, so it never meets another owner. */
  lemma AdmissionAtMostOneOwner(rows: seq<MemberRow>, x: MemberRow)
    requires AtMostOneOwner(rows)
    requires x.isOwner ==> RowsOf(rows, x.roomNo) == []
    ensures AtMostOneOwner(rows + [x])
  {
  }

  /**
   * Saving an admitted row keeps every membership invariant, provided the room is the
   * catalogued one and an owner row only goes into an empty room.
   */
  lemma AdmissionKeepsInvariants(rooms: seq<Room>, rows: seq<MemberRow>, room: Room, userNo: int, isOwner: bool)
    requires forall i | 0 <= i < |rooms| :: rooms[i].roomNo == i + 1
    requires MembershipValid(rooms, rows)
    requires FindById(rooms, room.roomNo) == Some(room)
    requires isOwner ==> RowsOf(rows, room.roomNo) == []
    requires AdmitToRoom(room, rows, userNo, isOwner).Success?
    ensures MembershipValid(rooms, rows + [AdmitToRoom(room, rows, userNo, isOwner).value.row])
  {
    var x := MemberRow(room.roomNo, userNo, isOwner, None);
    AdmissionWithinCapacity(rooms, rows, room, x);
    AdmissionAtMostOneOwner(rows, x);
  }

  lemma PasswordJoinKeepsInvariants(rooms: seq<Room>, rows: seq<MemberRow>, roomId: int, password: Option<string>, userNo: int)
    requires forall i | 0 <= i < |rooms| :: rooms[i].roomNo == i + 1
    requires MembershipValid(rooms, rows)
    ensures var r := PasswordAdmission(rooms, rows, roomId, password, userNo);
            r.Success? ==> MembershipValid(rooms, rows + [r.value.row])
  {
    var found := FindById(rooms, roomId);
    if found.Some? {
      var room := found.value;
      var r := PasswordAdmission(rooms, rows, roomId, password, userNo);
      if r.Success? {
        AdmissionKeepsInvariants(rooms, rows, room, userNo, RowsOf(rows, roomId) == []);
      }
    }
  }

  lemma InviteJoinKeepsInvariants(rooms: seq<Room>, rows: seq<MemberRow>, code: string, userNo: int)
    requires forall i | 0 <= i < |rooms| :: rooms[i].roomNo == i + 1
    requires MembershipValid(rooms, rows)
    ensures var r := InviteAdmission(rooms, rows, code, userNo);
            r.Success? ==> MembershipValid(rooms, rows + [r.value.row])
  {
    var found := FindByInviteCode(rooms, code);
    if found.Some? {
      var room := found.value;
      var k :| 0 <= k < |rooms| && rooms[k] == room;
      FindByIdSequential(rooms, k);
      if InviteAdmission(rooms, rows, code, userNo).Success? {
        AdmissionKeepsInvariants(rooms, rows, room, userNo, false);
      }
    }
  }

  /**
   * Five members try one public room of limit 2, one after the other: the first two get
   * in (the first as owner), the other three find it full, and the room holds two rows.
   */
  lemma FiveJoinsIntoRoomOfTwo()
    ensures var rooms := [Room(1, "arena", false, None, "c0de", 2, 7)];
            var first := MemberRow(1, 11, true, None);
            var second := MemberRow(1, 12, false, None);
            && PasswordAdmission(rooms, [], 1, None, 11) == Success(Admission(rooms[0], first))
            && PasswordAdmission(rooms, [first], 1, None, 12) == Success(Admission(rooms[0], second))
            && Occupancy([first, second], 1) == 2
            && forall userNo :: PasswordAdmission(rooms, [first, second], 1, None, userNo) == Failure(RoomFull)
  {
    var rooms := [Room(1, "arena", false, None, "c0de", 2, 7)];
    var first := MemberRow(1, 11, true, None);
    var second := MemberRow(1, 12, false, None);
    assert FindById(rooms, 1) == Some(rooms[0]);
    assert RowsOf([], 1) == [];
    assert !HasRow([], 1, 11);
    RowsOfAppend([], first, 1);
    assert [] + [first] == [first];
    assert !HasRow([first], 1, 12);
    RowsOfAppend([first], second, 1);
    assert [first] + [second] == [first, second];
  }

  /** An invite code lets a member into a secret room without any password. */
  lemma InviteBypassesSecrecy(rooms: seq<Room>, rows: seq<MemberRow>, code: string, userNo: int)
    requires FindByInviteCode(rooms, code).Some?
    requires FindByInviteCode(rooms, code).value.isSecret
    requires Occupancy(rows, FindByInviteCode(rooms, code).value.roomNo) < FindByInviteCode(rooms, code).value.limitMemberCnt
    requires !HasRow(rows, FindByInviteCode(rooms, code).value.roomNo, userNo)
    ensures InviteAdmission(rooms, rows, code, userNo).Success?
  {
  }

  // ---------------------------------------------------------------- creation

  /** The room createRoom saves for a request, under a store-assigned number and invite code. */
  function RoomOf(request: CreateRoomRequest, roomNo: int, inviteCode: string): Room
  {
    Room(roomNo, request.roomName, request.isSecret, request.password, inviteCode, request.limitMemberCnt, request.problemId)
  }

  /**
   * The first check createRoom fails, if any: name, then password (secret rooms only),
   * then member limit, then problem. No issue exactly when the name is free and the
   * settings are ones the catalog may hold.
   */
  function CreationIssue(rooms: seq<Room>, problems: set<int>, request: CreateRoomRequest): (r: Option<CreateError>)
    ensures r == Some(DuplicateRoomName) <==> NameTaken(rooms, request.roomName)
    ensures (r.Some? && r.value.InvalidPassword?) <==>
              !NameTaken(rooms, request.roomName) && request.isSecret && PasswordIssue(request.password).Some?
    ensures r.Some? && r.value.InvalidPassword? ==> r.value.reason == PasswordIssue(request.password).value
    ensures r == Some(InvalidCapacity) <==>
              && !NameTaken(rooms, request.roomName)
              && !(request.isSecret && PasswordIssue(request.password).Some?)
              && !(request.limitMemberCnt in {2, 4, 6})
    ensures r == Some(ProblemNotFound) <==>
              && !NameTaken(rooms, request.roomName)
              && !(request.isSecret && PasswordIssue(request.password).Some?)
              && request.limitMemberCnt in {2, 4, 6}
              && request.problemId !in problems
    ensures r.None? ==>
              !NameTaken(rooms, request.roomName) && forall roomNo, code :: SettingsValid(RoomOf(request, roomNo, code), problems)
  {
    if NameTaken(rooms, request.roomName) then Some(DuplicateRoomName)
    else if request.isSecret && PasswordIssue(request.password).Some? then Some(InvalidPassword(PasswordIssue(request.password).value))
    else if !(request.limitMemberCnt == 2 || request.limitMemberCnt == 4 || request.limitMemberCnt == 6) then Some(InvalidCapacity)
    else if request.problemId !in problems then Some(ProblemNotFound)
    else None
  }

  /** Appending the room createRoom builds keeps the catalog well formed. */
  lemma CreationKeepsInvariants(rooms: seq<Room>, problems: set<int>, rows: seq<MemberRow>, request: CreateRoomRequest, code: string)
    requires RoomsWellFormed(rooms, problems) && MembershipValid(rooms, rows)
    requires CreationIssue(rooms, problems, request).None?
    ensures var rooms' := rooms + [RoomOf(request, |rooms| + 1, code)];
            RoomsWellFormed(rooms', problems) && MembershipValid(rooms', rows)
  {
    var room := RoomOf(request, |rooms| + 1, code);
    var rooms' := rooms + [room];
    assert SettingsValid(room, problems);
    forall k | 0 <= k < |rows| ensures FindById(rooms', rows[k].roomNo).Some? {
      var j :| 0 <= j < |rooms| && rooms[j] == FindById(rooms, rows[k].roomNo).value;
      FindByIdSequential(rooms', j);
    }
    forall k | 0 <= k < |rows| ensures rows[k].roomNo != room.roomNo {
      var j :| 0 <= j < |rooms| && rooms[j] == FindById(rooms, rows[k].roomNo).value;
    }
    assert Occupancy(rows, room.roomNo) == 0;
  }

  // ---------------------------------------------------------------- listing

  /** getAllRoom: every room in store order, with its current member count. */
  function AllRooms(rooms: seq<Room>, rows: seq<MemberRow>): (r: seq<RoomSummary>)
    ensures |r| == |rooms|
    ensures forall k | 0 <= k < |rooms| :: r[k].room == rooms[k] && r[k].playMemberCount == Occupancy(rows, rooms[k].roomNo)
  {
    seq(|rooms|, k requires 0 <= k < |rooms| => RoomSummary(rooms[k], Occupancy(rows, rooms[k].roomNo)))
  }

  // ---------------------------------------------------------------- the service

  /** The payload published for a member who just joined: the `exp >= 100` level rule. */
  function JoinNotice(room: Room, member: Member, isOwner: bool): Notice
  {
    var l := NoticeLevel(member.exp);
    Notice(room.roomNo, member.nickname, l.level, l.remainder, isOwner)
  }

  class RoomService {
    var rooms: seq<Room>
    var roomMembers: seq<MemberRow>
    /** The problem catalog's ids; this service never changes it. */
    const problems: set<int>
    /** Every notice published so far, in order. */
    ghost var notices: seq<Notice>

    ghost predicate Valid()
      reads this
    {
      RoomsWellFormed(rooms, problems) && MembershipValid(rooms, roomMembers)
    }

    constructor (problems: set<int>)
      ensures Valid() && this.problems == problems
      ensures rooms == [] && roomMembers == [] && notices == []
    {
      this.problems := problems;
      rooms := [];
      roomMembers := [];
      notices := [];
    }

    method JoinRoomWithPassword(roomId: int, password: Option<string>, member: Member) returns (r: Result<Room, JoinError>)
      requires Valid()
      modifies this`roomMembers, this`notices
      ensures Valid()
      ensures var a := PasswordAdmission(old(rooms), old(roomMembers), roomId, password, member.userNo);
              if a.Success? then
                && r == Success(a.value.room)
                && roomMembers == old(roomMembers) + [a.value.row]
                && notices == old(notices) + [JoinNotice(a.value.room, member, a.value.row.isOwner)]
              else
                r == Failure(a.error) && roomMembers == old(roomMembers) && notices == old(notices)
    {
      ghost var decision := PasswordAdmission(rooms, roomMembers, roomId, password, member.userNo);
      var found := FindById(rooms, roomId);
      if found.None? {
        r := Failure(RoomNotFound);
      } else {
        var room := found.value;
        var roomMember := RowsOf(roomMembers, room.roomNo);
        if room.isSecret && (room.password.None? || room.password != password) {
          r := Failure(PasswordMismatch);
        } else if !room.isSecret && password.Some? {
          r := Failure(PasswordNotAllowed);
        } else if |roomMember| >= room.limitMemberCnt {
          r := Failure(RoomFull);
        } else {
          assert decision == AdmitToRoom(room, roomMembers, member.userNo, roomMember == []);
          r := ProcessRoomJoin(room, member, roomMember == []);
        }
      }
    }

    method JoinRoomWithInviteCode(inviteCode: string, member: Member) returns (r: Result<Room, JoinError>)
      requires Valid()
      modifies this`roomMembers, this`notices
      ensures Valid()
      ensures var a := InviteAdmission(old(rooms), old(roomMembers), inviteCode, member.userNo);
              if a.Success? then
                && r == Success(a.value.room)
                && roomMembers == old(roomMembers) + [a.value.row]
                && notices == old(notices) + [JoinNotice(a.value.room, member, false)]
              else
                r == Failure(a.error) && roomMembers == old(roomMembers) && notices == old(notices)
    {
      ghost var decision := InviteAdmission(rooms, roomMembers, inviteCode, member.userNo);
      var found := FindByInviteCode(rooms, inviteCode);
      if found.None? {
        r := Failure(RoomNotFound);
      } else {
        var room := found.value;
        var roomMember := RowsOf(roomMembers, room.roomNo);
        if |roomMember| >= room.limitMemberCnt {
          r := Failure(RoomFull);
        } else {
          var k :| 0 <= k < |rooms| && rooms[k] == room;
          FindByIdSequential(rooms, k);
          assert decision == AdmitToRoom(room, roomMembers, member.userNo, false);
          r := ProcessRoomJoin(room, member, false);
        }
      }
    }

    /** Builds the RoomMember, refuses a second row for the same member, saves and notifies. */
    method ProcessRoomJoin(room: Room, member: Member, isOwner: bool) returns (r: Result<Room, JoinError>)
      requires Valid()
      requires FindById(rooms, room.roomNo) == Some(room)
      requires Occupancy(roomMembers, room.roomNo) < room.limitMemberCnt
      requires isOwner ==> RowsOf(roomMembers, room.roomNo) == []
      modifies this`roomMembers, this`notices
      ensures Valid()
      ensures HasRow(old(roomMembers), room.roomNo, member.userNo) ==>
                r == Failure(AlreadyJoined) && roomMembers == old(roomMembers) && notices == old(notices)
      ensures !HasRow(old(roomMembers), room.roomNo, member.userNo) ==>
                && r == Success(room)
                && roomMembers == old(roomMembers) + [MemberRow(room.roomNo, member.userNo, isOwner, None)]
                && notices == old(notices) + [JoinNotice(room, member, isOwner)]
    {
      var roomMember := new RoomMember(room.roomNo, member.userNo, isOwner);
      if HasRow(roomMembers, room.roomNo, member.userNo) {
        r := Failure(AlreadyJoined);
      } else {
        AdmissionKeepsInvariants(rooms, roomMembers, room, member.userNo, isOwner);
        roomMembers := roomMembers + [roomMember.Row()];
        assert MembershipValid(rooms, roomMembers);
        NotifyRoomParticipants(room, member, roomMember.isOwner);
        r := Success(room);
      }
    }

    /** Publishes the joining member's nickname, level, remainder and owner flag on the room's channel. */
    method NotifyRoomParticipants(room: Room, member: Member, isOwner: bool)
      modifies this`notices
      ensures notices == old(notices) + [JoinNotice(room, member, isOwner)]
    {
      notices := notices + [JoinNotice(room, member, isOwner)];
    }

    /** Saves one room when every check passes; `uuid` is the random UUID's text. */
    method CreateRoom(request: CreateRoomRequest, uuid: string) returns (r: Result<Room, CreateError>)
      requires Valid()
      requires '-' in uuid
      modifies this`rooms
      ensures Valid()
      ensures var issue := CreationIssue(old(rooms), problems, request);
              if issue.None? then
                && r == Success(RoomOf(request, |old(rooms)| + 1, InviteCodeOf(uuid)))
                && rooms == old(rooms) + [r.value]
              else
                r == Failure(issue.value) && rooms == old(rooms)
    {
      var issue: Option<CreateError> := None;
      if NameTaken(rooms, request.roomName) {
        issue := Some(DuplicateRoomName);
      } else if request.isSecret && PasswordIssue(request.password).Some? {
        issue := Some(InvalidPassword(PasswordIssue(request.password).value));
      } else if !(request.limitMemberCnt == 2 || request.limitMemberCnt == 4 || request.limitMemberCnt == 6) {
        issue := Some(InvalidCapacity);
      } else if request.problemId !in problems {
        issue := Some(ProblemNotFound);
      }
      if issue.Some? {
        r := Failure(issue.value);
      } else {
        var inviteCode := InviteCodeOf(uuid);
        var room := RoomOf(request, |rooms| + 1, inviteCode);
        CreationKeepsInvariants(rooms, problems, roomMembers, request, inviteCode);
        rooms := rooms + [room];
        r := Success(room);
        assert RoomsWellFormed(rooms, problems) && MembershipValid(rooms, roomMembers);
      }
    }

    /** The room listing; under the invariants no count exceeds its room's limit. */
    method GetAllRoom() returns (r: seq<RoomSummary>)
      requires Valid()
      ensures |r| == |rooms|
      ensures forall k | 0 <= k < |r| :: r[k].room == rooms[k] && r[k].playMemberCount == Occupancy(roomMembers, rooms[k].roomNo)
      ensures forall k | 0 <= k < |r| :: r[k].playMemberCount <= r[k].room.limitMemberCnt
    {
      r := AllRooms(rooms, roomMembers);
    }
  }
}
