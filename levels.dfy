/**
 * Converting a member's cumulative exp into the (level, remainder) pair shown to players.
 *
 * The source has this arithmetic in two places with different boundaries: the profile view
 * (MemberService.getMember) leaves level 1 only when exp is strictly above 100, the join
 * notification (RoomService.notifyRoomParticipants) already at 100. They are kept apart here.
 *
 * Java's int `/` and `%` truncate toward zero; both functions divide only a positive exp,
 * where that agrees with Dafny's Euclidean operators.
 */
module Levels {

  datatype Level = Level(level: int, remainder: int)

  /** Level shown on a member's profile: strict `exp > 100`. */
  function ProfileLevel(exp: int): (r: Level)
    ensures r.level >= 1
    ensures (r.level - 1) * 100 + r.remainder == exp
    ensures r.level == 1 <==> exp <= 100
    ensures r.level > 1 ==> 0 <= r.remainder < 100
  {
    if exp > 100 then Level(exp / 100 + 1, exp % 100) else Level(1, exp)
  }

  /** Level published when a member joins a room: `exp >= 100`. */
  function NoticeLevel(exp: int): (r: Level)
    ensures r.level >= 1
    ensures (r.level - 1) * 100 + r.remainder == exp
    ensures r.level == 1 <==> exp < 100
    ensures r.level > 1 ==> 0 <= r.remainder < 100
  {
    if exp >= 100 then Level(exp / 100 + 1, exp % 100) else Level(1, exp)
  }

  /** A split of exp into a level of at least 1 and a remainder below 100 (non-negative above level 1). */
  ghost predicate IsNoticeSplit(exp: int, l: Level)
  {
    && l.level >= 1
    && (l.level - 1) * 100 + l.remainder == exp
    && l.remainder < 100
    && (l.level > 1 ==> 0 <= l.remainder)
  }

  /** The notification's level is the one and only such split. */
  lemma NoticeLevelUnique(exp: int, l: Level)
    ensures NoticeLevel(exp) == l <==> IsNoticeSplit(exp, l)
  {
  }

  /** The two call sites agree on every exp except exactly 100. */
  lemma LevelsDisagreeOnlyAtHundred(exp: int)
    ensures ProfileLevel(exp) == NoticeLevel(exp) <==> exp != 100
  {
  }

  lemma ProfileLevelExamples()
    ensures ProfileLevel(0) == Level(1, 0)
    ensures ProfileLevel(100) == Level(1, 100)
    ensures ProfileLevel(101) == Level(2, 1)
    ensures ProfileLevel(250) == Level(3, 50)
  {
  }

  lemma NoticeLevelExamples()
    ensures NoticeLevel(100) == Level(2, 0)
    ensures NoticeLevel(99) == Level(1, 99)
  {
  }
}
