/** The call sequence of driver.c, proved against the src/cvector.h model: the
    contents and capacity it ends with follow from the operations'
    contracts alone. The sequence is split into steps so that each step is
    proved on its own. */
module Driver {
  import opened Errors
  import opened CVector

  /** push_back of 1, 2, 3, 4 onto an empty vector of capacity 1. */
  method PushFirstFour(v: CVector)
    requires v.Valid() && v.Contents() == [] && v.capacity == 1
    modifies v, v.data
    ensures v.Valid() && fresh(v.data)
    ensures v.Contents() == [1, 2, 3, 4] && v.capacity == 4
  {
    var it: Option<nat>;
    it := v.PushBack(1);
    it := v.PushBack(2);
    it := v.PushBack(3);
    it := v.PushBack(4);
  }

  /** push_back of 6 to 9 (5 is skipped): the vector doubles to 8. */
  method PushSixToNine(v: CVector)
    requires v.Valid() && v.Contents() == [1, 2, 3, 4] && v.capacity == 4
    modifies v, v.data
    ensures v.Valid() && fresh(v.data)
    ensures v.Contents() == [1, 2, 3, 4, 6, 7, 8, 9] && v.capacity == 8
  {
    var it: Option<nat>;
    it := v.PushBack(6);
    it := v.PushBack(7);
    it := v.PushBack(8);
    it := v.PushBack(9);
  }

  /** push_back of 10 to 13: the vector doubles to 16. */
  method PushTenToThirteen(v: CVector)
    requires v.Valid() && v.Contents() == [1, 2, 3, 4, 6, 7, 8, 9] && v.capacity == 8
    modifies v, v.data
    ensures v.Valid() && fresh(v.data)
    ensures v.Contents() == [1, 2, 3, 4, 6, 7, 8, 9, 10, 11, 12, 13] && v.capacity == 16
  {
    var it: Option<nat>;
    it := v.PushBack(10);
    it := v.PushBack(11);
    it := v.PushBack(12);
    it := v.PushBack(13);
  }

  /** push_back of 14 to 17: the vector is then full at 16. */
  method PushFourteenToSeventeen(v: CVector)
    requires v.Valid() && v.Contents() == [1, 2, 3, 4, 6, 7, 8, 9, 10, 11, 12, 13] && v.capacity == 16
    modifies v, v.data
    ensures v.Valid() && v.data == old(v.data)
    ensures v.Contents() == [1, 2, 3, 4, 6, 7, 8, 9, 10, 11, 12, 13, 14, 15, 16, 17]
    ensures v.capacity == 16
  {
    var it: Option<nat>;
    it := v.PushBack(14);
    it := v.PushBack(15);
    it := v.PushBack(16);
    it := v.PushBack(17);
  }

  /** Two pop_backs, push_back of 16, and insert of 5 at index 4. */
  method FixUp(v: CVector)
    requires v.Valid() && v.capacity == 16
    requires v.Contents() == [1, 2, 3, 4, 6, 7, 8, 9, 10, 11, 12, 13, 14, 15, 16, 17]
    modifies v, v.data
    ensures v.Valid() && v.data == old(v.data) && v.capacity == 16
    ensures v.Contents() == [1, 2, 3, 4, 5, 6, 7, 8, 9, 10, 11, 12, 13, 14, 15, 16]
  {
    v.PopBack();
    v.PopBack();
    var it := v.PushBack(16);
    assert v.Contents() == [1, 2, 3, 4, 6, 7, 8, 9, 10, 11, 12, 13, 14, 15, 16];
    var pos := v.AtIter(4);
    it := v.Insert(pos.value, 5);
  }

  /** resize_val(20, 100), resize(5), and erase at index 2. */
  method ResizeAndErase(v: CVector)
    requires v.Valid() && v.capacity == 16
    requires v.Contents() == [1, 2, 3, 4, 5, 6, 7, 8, 9, 10, 11, 12, 13, 14, 15, 16]
    modifies v, v.data
    ensures v.Valid() && fresh(v.data) && v.capacity == 32
    ensures v.Contents() == [1, 2, 4, 5]
    ensures v.data[4..20] == SeqOps.Repeat(0, 16)
  {
    v.ResizeVal(20, 100);
    assert v.Contents() == [1, 2, 3, 4, 5, 6, 7, 8, 9, 10, 11, 12, 13, 14, 15, 16, 100, 100, 100, 100];
    v.Resize(5);
    var pos := v.AtIter(2);
    var it := v.Erase(pos.value);
  }

  /** The whole of driver.c: the vector ends as [1, 2, 4, 5] with capacity
      32, and the slots from the end up to the old size 20 hold zeros. */
  method DriverScenario() returns (contents: seq<int>, capacity: nat, tail: seq<int>)
    ensures contents == [1, 2, 4, 5]
    ensures capacity == 32
    ensures tail == SeqOps.Repeat(0, 16)
  {
    var v := CVector.NewWithCap(1);
    PushFirstFour(v);
    PushSixToNine(v);
    PushTenToThirteen(v);
    PushFourteenToSeventeen(v);
    FixUp(v);
    ResizeAndErase(v);
    contents := v.Contents();
    capacity := v.Capacity();
    tail := v.data[4..20];
  }
}
