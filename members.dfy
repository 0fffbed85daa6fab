/**
 * The member directory (MemberService): sign-up and nickname change over a table of members
 * whose nicknames and usernames are unique, the profile view, and the exp ranking.
 */
module Members {
  import opened Common
  import opened Levels

  datatype Member = Member(userNo: int, username: string, nickname: string, exp: int)

  /** What sign-up keeps of a request; the password is hashed outside this model. */
  datatype CreateMemberRequest = CreateMemberRequest(username: string, nickname: string)

  datatype MemberError = DuplicateNickname | DuplicateUsername | MemberNotFound

  /** The profile response: the member with the level and the exp left inside that level. */
  datatype MemberProfile = MemberProfile(member: Member, level: int, exp: int)

  /** One line of the leaderboard. */
  datatype Ranker = Ranker(nickname: string, rank: int)

  predicate NicknameTaken(members: seq<Member>, nickname: string)
  {
    exists k | 0 <= k < |members| :: members[k].nickname == nickname
  }

  predicate UsernameTaken(members: seq<Member>, username: string)
  {
    exists k | 0 <= k < |members| :: members[k].username == username
  }

  /** `findByUsername`: the position of the member with that username, if any. */
  function FindByUsername(members: seq<Member>, username: string): (r: Option<nat>)
    ensures r.Some? ==> r.value < |members| && members[r.value].username == username
    ensures r.None? <==> !UsernameTaken(members, username)
  {
    if members == [] then None
    else if members[|members| - 1].username == username then Some(|members| - 1)
    else FindByUsername(members[..|members| - 1], username)
  }

  /** User numbers are handed out in order, and nicknames and usernames are unique. */
  ghost predicate DirectoryValid(members: seq<Member>)
  {
    && (forall k | 0 <= k < |members| :: members[k].userNo == k + 1)
    && (forall i, j | 0 <= i < j < |members| :: members[i].nickname != members[j].nickname)
    && (forall i, j | 0 <= i < j < |members| :: members[i].username != members[j].username)
  }

  class MemberService {
    var members: seq<Member>

    ghost predicate Valid()
      reads this
    {
      DirectoryValid(members)
    }

    constructor ()
      ensures Valid() && members == []
    {
      members := [];
    }

    /** Rejects a taken nickname first, then a taken username; otherwise saves one new member. */
    method SignUp(request: CreateMemberRequest) returns (r: Result<int, MemberError>)
      requires Valid()
      modifies this
      ensures Valid()
      ensures NicknameTaken(old(members), request.nickname) ==>
                r == Failure(DuplicateNickname) && members == old(members)
      ensures !NicknameTaken(old(members), request.nickname) && UsernameTaken(old(members), request.username) ==>
                r == Failure(DuplicateUsername) && members == old(members)
      ensures !NicknameTaken(old(members), request.nickname) && !UsernameTaken(old(members), request.username) ==>
                && r == Success(|old(members)| + 1)
                && members == old(members) + [Member(|old(members)| + 1, request.username, request.nickname, 0)]
    {
      if NicknameTaken(members, request.nickname) {
        return Failure(DuplicateNickname);
      }
      if UsernameTaken(members, request.username) {
        return Failure(DuplicateUsername);
      }
      var member := Member(|members| + 1, request.username, request.nickname, 0);
      members := members + [member];
      r := Success(member.userNo);
    }

    /**
     * Changes the nickname of the member named `userName`. Any nickname already in use is
     * refused, the caller's own current one included.
     */
    method Update(userName: string, nickname: string) returns (r: Result<int, MemberError>)
      requires Valid()
      modifies this
      ensures Valid()
      ensures FindByUsername(old(members), userName).None? ==>
                r == Failure(MemberNotFound) && members == old(members)
      ensures FindByUsername(old(members), userName).Some? && NicknameTaken(old(members), nickname) ==>
                r == Failure(DuplicateNickname) && members == old(members)
      ensures FindByUsername(old(members), userName).Some? && !NicknameTaken(old(members), nickname) ==>
                var k := FindByUsername(old(members), userName).value;
                && r == Success(old(members)[k].userNo)
                && members == old(members)[k := old(members)[k].(nickname := nickname)]
    {
      var found := FindByUsername(members, userName);
      if found.None? {
        return Failure(MemberNotFound);
      }
      var k := found.value;
      if NicknameTaken(members, nickname) {
        return Failure(DuplicateNickname);
      }
      members := members[k := members[k].(nickname := nickname)];
      r := Success(members[k].userNo);
    }

    /** The profile of the member named `userName`, with the strict `exp > 100` level rule. */
    method GetMember(userName: string) returns (r: Result<MemberProfile, MemberError>)
      ensures !UsernameTaken(members, userName) <==> r == Failure(MemberNotFound)
      ensures r.Success? <==> UsernameTaken(members, userName)
      ensures r.Success? ==>
                && r.value.member.username == userName
                && r.value.member in members
                && Level(r.value.level, r.value.exp) == ProfileLevel(r.value.member.exp)
                && r.value.member == members[FindByUsername(members, userName).value]
    {
      var found := FindByUsername(members, userName);
      if found.None? {
        return Failure(MemberNotFound);
      }
      var member := members[found.value];
      var level := ProfileLevel(member.exp);
      r := Success(MemberProfile(member, level.level, level.remainder));
    }
  }

  /** `List.indexOf`: the first position holding this member, or -1. */
  function IndexOf(s: seq<Member>, userNo: int): (i: int)
    ensures -1 <= i < |s|
    ensures i >= 0 ==> s[i].userNo == userNo && forall j | 0 <= j < i :: s[j].userNo != userNo
    ensures i == -1 ==> forall j | 0 <= j < |s| :: s[j].userNo != userNo
  {
    if s == [] then -1
    else if s[0].userNo == userNo then 0
    else
      var i := IndexOf(s[1..], userNo);
      if i == -1 then -1 else i + 1
  }

  /** The last position holding this member, or -1: the ranking loop keeps overwriting its match. */
  function LastIndexOf(s: seq<Member>, userNo: int): (i: int)
    ensures -1 <= i < |s|
    ensures i >= 0 ==> s[i].userNo == userNo && forall j | i < j < |s| :: s[j].userNo != userNo
    ensures i == -1 ==> forall j | 0 <= j < |s| :: s[j].userNo != userNo
  {
    if s == [] then -1
    else if s[|s| - 1].userNo == userNo then |s| - 1
    else LastIndexOf(s[..|s| - 1], userNo)
  }

  /**
   * The rank reported to a member: its 1-based place in the top list if it is there,
   * otherwise its 1-based place in the whole exp-descending list (0 when absent).
   */
  function UserRank(top: seq<Member>, byExpDesc: seq<Member>, userNo: int): int
  {
    var t := LastIndexOf(top, userNo);
    if t >= 0 then t + 1 else IndexOf(byExpDesc, userNo) + 1
  }

  /**
   * MemberService.ranking over the two lists the store returns: one leaderboard line per top
   * member, ranked 1, 2, ... in order, and the caller's rank.
   */
  method Ranking(me: Member, top5: seq<Member>, byExpDesc: seq<Member>) returns (rankers: seq<Ranker>, userRank: int)
    ensures |rankers| == |top5|
    ensures forall i | 0 <= i < |top5| :: rankers[i] == Ranker(top5[i].nickname, i + 1)
    ensures userRank == UserRank(top5, byExpDesc, me.userNo)
  {
    rankers := [];
    userRank := -1;
    var i := 0;
    while i < |top5|
      invariant 0 <= i <= |top5|
      invariant |rankers| == i
      invariant forall j | 0 <= j < i :: rankers[j] == Ranker(top5[j].nickname, j + 1)
      invariant userRank == (if LastIndexOf(top5[..i], me.userNo) >= 0 then LastIndexOf(top5[..i], me.userNo) + 1 else -1)
    {
      var current := top5[i];
      rankers := rankers + [Ranker(current.nickname, i + 1)];
      if current.userNo == me.userNo {
        userRank := i + 1;
      }
      assert top5[..i + 1][..i] == top5[..i];
      i := i + 1;
    }
    assert top5[..i] == top5;
    if userRank == -1 {
      userRank := IndexOf(byExpDesc, me.userNo) + 1;
    }
  }

  /**
   * When the top list is the head of the exp-descending list and user numbers are unique,
   * the reported rank is simply the member's 1-based place in the full list.
   */
  lemma RankWithinPrefix(top: seq<Member>, byExpDesc: seq<Member>, userNo: int)
    requires top <= byExpDesc
    requires forall i, j | 0 <= i < j < |byExpDesc| :: byExpDesc[i].userNo != byExpDesc[j].userNo
    ensures UserRank(top, byExpDesc, userNo) == IndexOf(byExpDesc, userNo) + 1
  {
    var t := LastIndexOf(top, userNo);
    if t >= 0 {
      assert byExpDesc[t] == top[t];
    }
  }

  /** Six members with exp 500 down to 50: the one with 50 is outside the top five and ranks sixth. */
  lemma SixthPlaceExample()
    ensures var all := [Member(1, "a", "a", 500), Member(2, "b", "b", 400), Member(3, "c", "c", 300),
                        Member(4, "d", "d", 200), Member(5, "e", "e", 100), Member(6, "f", "f", 50)];
            UserRank(all[..5], all, 6) == 6
  {
    var all := [Member(1, "a", "a", 500), Member(2, "b", "b", 400), Member(3, "c", "c", 300),
                Member(4, "d", "d", 200), Member(5, "e", "e", 100), Member(6, "f", "f", 50)];
    RankWithinPrefix(all[..5], all, 6);
  }
}
