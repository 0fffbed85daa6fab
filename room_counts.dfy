/** Row counts of the membership store: what `findAllByRoomRoomNo(...).size()` counts. */
module RoomCounts {
  import opened RoomDomain
  import opened Rooms

  /** `RowsOf` keeps every row of the room as many times as the store holds it and no other
      row, so its length is the room's row count. */
  lemma {:induction false} RowsOfCounts(rows: seq<MemberRow>, roomNo: int)
    ensures forall x :: multiset(RowsOf(rows, roomNo))[x] ==
                          (if x.roomNo == roomNo then multiset(rows)[x] else 0)
  {
    if rows != [] {
      var earlier, last := rows[..|rows| - 1], rows[|rows| - 1];
      assert rows == earlier + [last];
      RowsOfCounts(earlier, roomNo);
      assert multiset(rows) == multiset(earlier) + multiset{last};
    }
  }
}
