/** The cVector of src/cvector.h: a growable array of int with a logical
    size (m_size) and a physical capacity (m_capacity), whose capacity is
    always a power of two. Pointers into the buffer are modelled as indices. */
module CVector {
  import opened Errors
  import opened Pow2
  import opened SeqOps

  /** The capacity new_cVector asks for. */
  const DEFAULT_CAPACITY: int := 4

  /** Capacity after one insertion into a vector of the given size and
      capacity: it grows only when the new size would not fit. */
  function CapacityAfterInsert(size: nat, cap: nat): nat
  {
    if size + 1 > cap then CeilPow2(cap + 1) else cap
  }

  /** Capacity after resize(n), resize_val(n, _) or reserve(n): it grows to
      the normalised request only when the request exceeds it. */
  function CapacityFor(n: int, cap: nat): nat
  {
    if n > cap then CeilPow2(n) else cap
  }

  /** An insertion keeps the capacity a power of two with room for the new
      element, and for a full vector it exactly doubles. */
  lemma InsertCapacityStep(size: nat, cap: nat)
    requires IsPow2(cap) && size <= cap
    ensures IsPow2(CapacityAfterInsert(size, cap))
    ensures size + 1 <= CapacityAfterInsert(size, cap)
    ensures CapacityAfterInsert(size, cap) == if size < cap then cap else GROWTH_FACTOR * cap
  {
    if size == cap {
      CeilPow2Next(cap);
    }
  }

  /** shrink_to_fit never grows the buffer and always keeps room for the
      live elements. */
  lemma ShrinkToFitBounds(size: nat, cap: nat)
    requires IsPow2(cap) && size <= cap
    ensures size <= CeilPow2(size) <= cap
  {
    CeilPow2IsLeast(size, cap);
  }

  /** Capacity after k push_backs starting from the given size and capacity. */
  function CapacityAfterPushes(size: nat, cap: nat, k: nat): nat
    decreases k
  {
    if k == 0 then cap else CapacityAfterPushes(size + 1, CapacityAfterInsert(size, cap), k - 1)
  }

  /** Once a full power-of-two capacity has doubled, normalising the larger
      of the doubled capacity and a later size m beyond the old capacity
      gives the same as normalising m alone. */
  lemma DoubledCapacityCovers(cap: nat, m: int)
    requires IsPow2(cap) && cap < m
    ensures CeilPow2(if m > 2 * cap then m else 2 * cap) == CeilPow2(m)
  {
    Pow2Gap(cap, CeilPow2(m));
    if m <= 2 * cap {
      assert IsPow2(2 * cap);
      CeilPow2IsLeast(m, 2 * cap);
      CeilPow2OfPow2(2 * cap);
    }
  }

  /** After k push_backs the capacity is the normalised maximum of the old
      capacity and the new size: growth by doubling lands on the least
      sufficient power of two. */
  lemma {:induction false} PushesCapacity(size: nat, cap: nat, k: nat)
    requires IsPow2(cap) && size <= cap
    ensures CapacityAfterPushes(size, cap, k) == CeilPow2(if size + k > cap then size + k else cap)
    decreases k
  {
    if k == 0 {
      CeilPow2OfPow2(cap);
    } else {
      InsertCapacityStep(size, cap);
      PushesCapacity(size + 1, CapacityAfterInsert(size, cap), k - 1);
      if size == cap {
        DoubledCapacityCovers(cap, size + k);
      }
    }
  }

  /** The loop of insert: moves a[lo..hi-1) up one slot to a[lo+1..hi),
      highest index first so nothing is overwritten before it is read. */
  method ShiftUp(a: array<int>, lo: nat, hi: nat)
    requires lo < hi <= a.Length
    modifies a
    ensures forall k :: 0 <= k <= lo || hi <= k < a.Length ==> a[k] == old(a[k])
    ensures forall k :: lo < k < hi ==> a[k] == old(a[k - 1])
  {
    var i := hi - 1;
    while i > lo
      invariant lo <= i < hi
      invariant forall k :: 0 <= k <= i || hi <= k < a.Length ==> a[k] == old(a[k])
      invariant forall k :: i < k < hi ==> a[k] == old(a[k - 1])
      decreases i
    {
      a[i] := a[i - 1];
      i := i - 1;
    }
  }

  /** The loop of erase: moves a[lo+1..hi) down one slot to a[lo..hi-1),
      lowest index first. */
  method ShiftDown(a: array<int>, lo: nat, hi: nat)
    requires lo < hi <= a.Length
    modifies a
    ensures forall k :: 0 <= k < lo || hi - 1 <= k < a.Length ==> a[k] == old(a[k])
    ensures forall k :: lo <= k < hi - 1 ==> a[k] == old(a[k + 1])
  {
    var i := lo;
    while i < hi - 1
      invariant lo <= i <= hi - 1
      invariant forall k :: 0 <= k < lo || i <= k < a.Length ==> a[k] == old(a[k])
      invariant forall k :: lo <= k < i ==> a[k] == old(a[k + 1])
    {
      a[i] := a[i + 1];
      i := i + 1;
    }
  }

  /** The fill loops of resize, resize_val and new_cVector_with_cap_val:
      sets a[lo..hi) to v and nothing else. */
  method FillRange(a: array<int>, lo: nat, hi: nat, v: int)
    requires lo <= hi <= a.Length
    modifies a
    ensures forall k :: 0 <= k < lo || hi <= k < a.Length ==> a[k] == old(a[k])
    ensures forall k :: lo <= k < hi ==> a[k] == v
  {
    var i := lo;
    while i < hi
      invariant lo <= i <= hi
      invariant forall k :: 0 <= k < lo || i <= k < a.Length ==> a[k] == old(a[k])
      invariant forall k :: lo <= k < i ==> a[k] == v
    {
      a[i] := v;
      i := i + 1;
    }
  }

  /** struct cVector. The buffer is data; its live prefix is data[..size]. */
  class CVector {
    var data: array<int>
    var size: nat
    var capacity: nat

    /** The object invariant every operation keeps: the buffer has
        capacity slots, the live elements fit, and the capacity is a power
        of two. */
    ghost predicate Valid()
      reads this
    {
      data.Length == capacity && size <= capacity && IsPow2(capacity)
    }

    /** The live elements [begin, end). */
    function Contents(): seq<int>
      reads this, data
      requires Valid()
    {
      data[..size]
    }

    /** UTIL_allocate: a zero-filled buffer (calloc) with the given capacity
        and no live elements. */
    constructor Allocate(cap: nat)
      requires IsPow2(cap)
      ensures Valid() && fresh(data)
      ensures size == 0 && capacity == cap && Contents() == []
      ensures data[..] == Repeat(0, cap)
    {
      data := new int[cap](_ => 0);
      size := 0;
      capacity := cap;
    }

    /** UTIL_reallocate: the buffer is replaced by one of the new capacity
        that keeps the first min(old, new) slots; slots past the old
        capacity are left unspecified, as realloc leaves them. */
    method Reallocate(newCap: nat)
      modifies this
      ensures size == old(size) && capacity == newCap
      ensures fresh(data) && data.Length == newCap
      ensures forall k :: 0 <= k < newCap && k < old(data.Length) ==> data[k] == old(data[k])
    {
      capacity := newCap;
      var prev := data;
      data := new int[newCap](k reads prev => if 0 <= k < prev.Length then prev[k] else 0);
    }

    /** new_cVector: an empty vector of the normalised default capacity. */
    static method New() returns (v: CVector)
      ensures fresh(v) && fresh(v.data) && v.Valid()
      ensures v.size == 0 && v.capacity == 4
      ensures v.data[..] == Repeat(0, 4)
    {
      var cap := GetNewCap(DEFAULT_CAPACITY);
      CeilPow2OfPow2(4);
      v := new CVector.Allocate(cap);
    }

    /** new_cVector_with_cap: NULL for a non-positive request, otherwise an
        empty zero-filled vector of the normalised capacity. */
    static method NewWithCap(cap: int) returns (v: CVector?)
      ensures cap <= 0 ==> v == null
      ensures cap > 0 ==> v != null && fresh(v) && fresh(v.data) && v.Valid()
      ensures cap > 0 ==> v.size == 0 && v.capacity == CeilPow2(cap)
      ensures cap > 0 ==> v.data[..] == Repeat(0, v.capacity)
    {
      if cap > 0 {
        var c := GetNewCap(cap);
        v := new CVector.Allocate(c);
      } else {
        v := null;
      }
    }

    /** new_cVector_with_cap_val: as new_cVector_with_cap, but the first cap
        slots (the request, not the normalised capacity) hold val, the rest
        stay zero, and the size is still 0. */
    static method NewWithCapVal(cap: int, val: int) returns (v: CVector?)
      ensures cap <= 0 ==> v == null
      ensures cap > 0 ==> v != null && fresh(v) && fresh(v.data) && v.Valid()
      ensures cap > 0 ==> v.size == 0 && v.capacity == CeilPow2(cap)
      ensures cap > 0 ==> v.data[..] == Repeat(val, cap) + Repeat(0, v.capacity - cap)
    {
      if cap > 0 {
        var c := GetNewCap(cap);
        v := new CVector.Allocate(c);
        FillRange(v.data, 0, cap, val);
        assert v.data[..] == Repeat(val, cap) + Repeat(0, c - cap);
      } else {
        v := null;
      }
    }

    /** size */
    function Size(): (n: nat)
      reads this, data
      requires Valid()
      ensures n == |Contents()| && n <= Capacity()
    {
      size
    }

    /** capacity: a power of two with room for every live element. */
    function Capacity(): (c: nat)
      reads this
      requires Valid()
      ensures IsPow2(c) && c == data.Length && size <= c
    {
      capacity
    }

    /** empty */
    function Empty(): (b: bool)
      reads this, data
      requires Valid()
      ensures b <==> Contents() == []
    {
      size == 0
    }

    /** begin: the index of the first slot. */
    function Begin(): (b: nat)
      reads this, data
      requires Valid()
      ensures b <= End() && Contents() == data[b..End()]
    {
      0
    }

    /** end: the index one past the last live element. */
    function End(): (e: nat)
      reads this, data
      requires Valid()
      ensures e == |Contents()| && e <= data.Length
    {
      size
    }

    /** at_iter: the position of element n, or NULL when n is not the index
        of a live element. */
    function AtIter(n: int): (r: Option<nat>)
      reads this, data
      requires Valid()
      ensures r.Some? <==> 0 <= n < |Contents()|
      ensures r.Some? ==> r.value == n
    {
      if n < 0 || n > size - 1 then None else Some(n)
    }

    /** at: element n, or ERR when n is not the index of a live element. */
    function At(n: int): (r: Option<int>)
      reads this, data
      requires Valid()
      ensures r.Some? <==> 0 <= n < |Contents()|
      ensures r.Some? ==> r.value == Contents()[n]
    {
      if n < 0 || n > size - 1 then None else Some(data[n])
    }

    /** front: the first element, or ERR on an empty vector. */
    function Front(): (r: Option<int>)
      reads this, data
      requires Valid()
      ensures r.Some? <==> Contents() != []
      ensures r.Some? ==> r.value == Contents()[0]
    {
      if !Empty() then Some(data[0]) else None
    }

    /** back: the last element, or ERR on an empty vector. */
    function Back(): (r: Option<int>)
      reads this, data
      requires Valid()
      ensures r.Some? <==> Contents() != []
      ensures r.Some? ==> r.value == Contents()[|Contents()| - 1]
    {
      if !Empty() then Some(data[size - 1]) else None
    }

    /** insert: for a position in [begin, end], makes room by shifting the
        tail up one slot (growing a full buffer first), stores val there and
        returns its position; any other position is refused with NULL and
        nothing changes. */
    method Insert(pos: int, val: int) returns (r: Option<nat>)
      requires Valid()
      modifies this, data
      ensures Valid()
      ensures r == if 0 <= pos <= old(size) then Some(pos) else None
      ensures r.None? ==> size == old(size) && capacity == old(capacity) && data == old(data) && data[..] == old(data[..])
      ensures r.Some? ==> Contents() == InsertAt(old(Contents()), pos, val)
      ensures r.Some? ==> capacity == CapacityAfterInsert(old(size), old(capacity))
      ensures r.Some? && old(size) < old(capacity) ==> data == old(data)
      ensures r.Some? && old(size) < old(capacity) ==> forall k :: size <= k < capacity ==> data[k] == old(data[k])
      ensures r.Some? && old(size) == old(capacity) ==> fresh(data)
    {
      if 0 <= pos <= size {
        ghost var before := Contents();
        var posDist := pos;
        size := size + 1;
        if size > capacity {
          InsertCapacityStep(size - 1, capacity);
          var newCap := GetNewCap(capacity + 1);
          Reallocate(newCap);
        }
        ghost var grown := data[..size];
        assert grown[..size - 1] == before;
        ShiftUp(data, posDist, size);
        data[posDist] := val;
        r := Some(posDist);
        ShiftedIsInsert(before, grown, data[..size], posDist, val);
      } else {
        r := None;
      }
    }

    /** push_back: insert at end. */
    method PushBack(val: int) returns (r: Option<nat>)
      requires Valid()
      modifies this, data
      ensures Valid()
      ensures r == Some(old(size))
      ensures Contents() == old(Contents()) + [val]
      ensures capacity == CapacityAfterInsert(old(size), old(capacity))
      ensures capacity == if old(size) < old(capacity) then old(capacity) else GROWTH_FACTOR * old(capacity)
      ensures old(size) < old(capacity) ==> data == old(data)
      ensures old(size) < old(capacity) ==> forall k :: size <= k < capacity ==> data[k] == old(data[k])
      ensures old(size) == old(capacity) ==> fresh(data)
    {
      InsertCapacityStep(size, capacity);
      r := Insert(End(), val);
      RemoveLastAfterAppend(old(Contents()), val);
    }

    /** pop_back: on a non-empty vector zeroes the last live slot and drops
        it; on an empty vector does nothing. The buffer is never replaced. */
    method PopBack()
      requires Valid()
      modifies data, this`size
      ensures Valid() && data == old(data) && capacity == old(capacity)
      ensures old(size) == 0 ==> size == 0 && data[..] == old(data[..])
      ensures old(size) > 0 ==> size == old(size) - 1 && data[..] == old(data[..])[old(size) - 1 := 0]
      ensures Contents() == if old(size) == 0 then [] else RemoveAt(old(Contents()), old(size) - 1)
    {
      if !Empty() {
        var it := AtIter(Size() - 1);
        data[it.value] := 0;
        size := size - 1;
      }
    }

    /** erase: for a live position, shifts the elements after it down one
        slot, zeroes the vacated last slot and returns the position; at end
        it behaves as pop_back and returns the new end; any other position is
        refused with NULL and nothing changes. The buffer is never replaced. */
    method Erase(pos: int) returns (r: Option<nat>)
      requires Valid()
      modifies data, this`size
      ensures Valid() && data == old(data) && capacity == old(capacity)
      ensures 0 <= pos < old(size) ==> r == Some(pos) && Contents() == RemoveAt(old(Contents()), pos)
      ensures 0 <= pos < old(size) ==> data[size] == 0 && forall k :: old(size) <= k < capacity ==> data[k] == old(data[k])
      ensures pos == old(size) ==> r == Some(size)
      ensures pos == old(size) ==> Contents() == if old(size) == 0 then [] else RemoveAt(old(Contents()), old(size) - 1)
      ensures pos == old(size) ==> data[..] == if old(size) == 0 then old(data[..]) else old(data[..])[old(size) - 1 := 0]
      ensures (pos < 0 || pos > old(size)) ==> r == None && size == old(size) && data[..] == old(data[..])
    {
      if 0 <= pos < size {
        var posDist := pos;
        ShiftDown(data, pos, size);
        data[size - 1] := 0;
        size := size - 1;
        r := Some(posDist);
        assert forall k :: 0 <= k < size ==> data[k] == RemoveAt(old(Contents()), pos)[k];
      } else if pos == size {
        PopBack();
        r := Some(End());
      } else {
        r := None;
      }
    }

    /** resize_val: sets the size to n. Growing past the capacity first
        reallocates to the normalised n; growing fills the new slots with
        val; shrinking zeroes the dropped slots; n == size changes nothing
        (the source only reports "Cannot resize"). The branch where n and
        the size are both 0 frees the caller's vector and is excluded. */
    method ResizeVal(n: nat, val: int)
      requires Valid()
      requires n != 0 || size != 0
      modifies this, data
      ensures Valid() && size == n
      ensures Contents() == Resized(old(Contents()), n, val)
      ensures capacity == CapacityFor(n, old(capacity))
      ensures n <= old(capacity) ==> data == old(data)
      ensures n > old(capacity) ==> fresh(data)
      ensures forall k :: n <= k < old(size) ==> data[k] == 0
      ensures forall k :: n <= k < old(capacity) && old(size) <= k ==> data[k] == old(data[k])
    {
      if n > capacity {
        var newCap := GetNewCap(n);
        Reallocate(newCap);
        FillRange(data, size, n, val);
        size := n;
      } else if n > size {
        FillRange(data, size, n, val);
        size := n;
      } else if n < size {
        FillRange(data, n, size, 0);
        size := n;
      } else {
        // n == size != 0: reported as an error, nothing changes
      }
      assert forall k :: 0 <= k < n ==> data[k] == Resized(old(Contents()), n, val)[k];
    }

    /** resize: resize_val with 0 as the fill value (the two functions are
        the same code but for the fill). */
    method Resize(n: nat)
      requires Valid()
      requires n != 0 || size != 0
      modifies this, data
      ensures Valid() && size == n
      ensures Contents() == Resized(old(Contents()), n, 0)
      ensures capacity == CapacityFor(n, old(capacity))
      ensures n <= old(capacity) ==> data == old(data)
      ensures n > old(capacity) ==> fresh(data)
      ensures forall k :: n <= k < old(size) ==> data[k] == 0
      ensures forall k :: n <= k < old(capacity) && old(size) <= k ==> data[k] == old(data[k])
    {
      ResizeVal(n, 0);
    }

    /** reserve: when n exceeds the capacity, reallocates to the normalised
        n, keeping every old slot; otherwise does nothing. */
    method Reserve(n: int)
      requires Valid()
      modifies this
      ensures Valid() && size == old(size)
      ensures Contents() == old(Contents())
      ensures capacity == CapacityFor(n, old(capacity))
      ensures n <= old(capacity) ==> data == old(data)
      ensures n > old(capacity) ==> fresh(data)
      ensures forall k :: 0 <= k < old(capacity) ==> data[k] == old(data[k])
    {
      if n > capacity {
        var newCap := GetNewCap(n);
        Reallocate(newCap);
      }
    }

    /** shrink_to_fit: always reallocates, to the normalised size, which
        never exceeds the old capacity; the live elements are kept. */
    method ShrinkToFit()
      requires Valid()
      modifies this
      ensures Valid() && size == old(size) && fresh(data)
      ensures Contents() == old(Contents())
      ensures capacity == CeilPow2(old(size)) && capacity <= old(capacity)
      ensures forall k :: 0 <= k < capacity ==> data[k] == old(data[k])
    {
      ShrinkToFitBounds(size, capacity);
      var newCap := GetNewCap(Size());
      Reallocate(newCap);
    }
  }
}
