/** The older cvector.h at the repository root. Its struct, capacity rule,
    constructors, at, at_iter, insert, push_back, pop_back, resize,
    resize_val and reserve are the same code as in src/cvector.h and are
    modelled by the members of module CVector; it has no erase and no
    shrink_to_fit. What differs is front and back, modelled here. */
module CVectorOld {
  import opened CVector

  /** front: slot 0, with no emptiness check. On a non-empty vector it is
      the first element; on an empty one it is whatever the dead slot 0
      holds, never an error. */
  function Front(v: CVector): (r: int)
    reads v, v.data
    requires v.Valid()
    ensures v.Contents() != [] ==> r == v.Contents()[0]
    ensures v.Contents() == [] ==> r == v.data[0]
  {
    v.data[0]
  }

  /** back: reads the slot at index m_size, one past the last live element.
      That slot exists only when the vector is not full. */
  function Back(v: CVector): (r: int)
    reads v, v.data
    requires v.Valid() && v.size < v.capacity
    ensures r == v.data[|v.Contents()|]
  {
    v.data[v.size]
  }

  /** A vector holding just 7, built by new_cVector and push_back: the old
      back yields the zero in the dead slot after it, where the back of
      src/cvector.h yields 7. */
  method BackReadsPastEnd() returns (oldBack: int, fixedBack: int)
    ensures oldBack == 0 && fixedBack == 7
  {
    var v := CVector.New();
    var _ := v.PushBack(7);
    oldBack := Back(v);
    var b := v.Back();
    fixedBack := b.value;
  }
}
