/**
 * The RoomMember entity: one member's seat in one room, with an owner flag and the best
 * accuracy the member has reported in the current game.
 */
module RoomDomain {
  import opened Common

  /** A RoomMember as the membership store holds it once saved. */
  datatype MemberRow = MemberRow(roomNo: int, userNo: int, isOwner: bool, accuracy: Option<int>)

  /** `Math.max(current, reported)`: the larger of the two, and one of them. */
  function RaisedAccuracy(current: int, reported: int): (r: int)
    ensures r >= current && r >= reported
    ensures r == current || r == reported
  {
    if current >= reported then current else reported
  }

  class RoomMember {
    var roomNo: int
    var userNo: int
    var isOwner: bool
    /** A nullable Integer column: the constructor leaves it null. */
    var accuracy: Option<int>

    constructor (roomNo: int, userNo: int, isOwner: bool)
      ensures this.roomNo == roomNo && this.userNo == userNo && this.isOwner == isOwner
      ensures accuracy == None
    {
      this.roomNo := roomNo;
      this.userNo := userNo;
      this.isOwner := isOwner;
      accuracy := None;
    }

    /** The row the store keeps when this entity is saved. */
    function Row(): MemberRow
      reads this
    {
      MemberRow(roomNo, userNo, isOwner, accuracy)
    }

    method UpdateOwner(b: bool)
      modifies this
      ensures isOwner == b
      ensures roomNo == old(roomNo) && userNo == old(userNo) && accuracy == old(accuracy)
    {
      isOwner := b;
    }

    /** Unboxing a null accuracy throws, so an accuracy must already be recorded. */
    method UpdateAccuracy(reported: int)
      requires accuracy.Some?
      modifies this
      ensures accuracy == Some(RaisedAccuracy(old(accuracy.value), reported))
      ensures accuracy.value >= old(accuracy.value)
      ensures roomNo == old(roomNo) && userNo == old(userNo) && isOwner == old(isOwner)
    {
      accuracy := Some(RaisedAccuracy(accuracy.value, reported));
    }

    method AccuracyReset()
      modifies this
      ensures accuracy == Some(0)
      ensures roomNo == old(roomNo) && userNo == old(userNo) && isOwner == old(isOwner)
    {
      accuracy := Some(0);
    }
  }

  /** Reporting the same accuracy twice has the effect of reporting it once. */
  lemma RaisedAccuracyIdempotent(current: int, reported: int)
    ensures RaisedAccuracy(RaisedAccuracy(current, reported), reported) == RaisedAccuracy(current, reported)
  {
  }

  /** After a reset, the first non-negative report is taken as it is. */
  lemma RaiseAfterReset(reported: int)
    requires reported >= 0
    ensures RaisedAccuracy(0, reported) == reported
  {
  }

  /** A higher recorded accuracy never leads to a lower one after the same report. */
  lemma RaisedAccuracyMonotone(low: int, high: int, reported: int)
    requires low <= high
    ensures RaisedAccuracy(low, reported) <= RaisedAccuracy(high, reported)
  {
  }

  /** A reset followed by a report leaves exactly that report, however high the accuracy was. */
  method ResetThenReport(m: RoomMember, reported: int)
    requires reported >= 0
    modifies m
    ensures m.accuracy == Some(reported)
    ensures m.roomNo == old(m.roomNo) && m.userNo == old(m.userNo) && m.isOwner == old(m.isOwner)
  {
    m.AccuracyReset();
    m.UpdateAccuracy(reported);
  }
}
