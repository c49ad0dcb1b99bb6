/** The Vector of vector.h, the earliest variant: an append-only growable
    array of int. Its capacity (size) is taken exactly as requested, starts
    at 8 by default, and doubles whenever an append finds it full. */
module Vector {
  import opened Errors

  /** The capacity of vect_createVector. */
  const INITIAL_SIZE: nat := 8

  /** The observable state of a Vector: its live elements and its capacity. */
  datatype VecModel = VecModel(elems: seq<int>, size: nat)

  /** vect_insert on the model: append x, doubling the capacity when full. */
  function Append(m: VecModel, x: int): VecModel
  {
    VecModel(m.elems + [x], if |m.elems| < m.size then m.size else 2 * m.size)
  }

  /** A run of appends, first to last. */
  function AppendAll(m: VecModel, xs: seq<int>): VecModel
    decreases |xs|
  {
    if xs == [] then m else AppendAll(Append(m, xs[0]), xs[1..])
  }

  /** A run of appends adds exactly the appended values after the old
      elements, keeps room for them all, never shrinks the capacity, and
      doubles only when needed: a grown capacity is less than twice the
      number of elements. */
  lemma {:induction false} AppendAllSpec(m: VecModel, xs: seq<int>)
    requires 0 < m.size && |m.elems| <= m.size
    ensures AppendAll(m, xs).elems == m.elems + xs
    ensures |AppendAll(m, xs).elems| <= AppendAll(m, xs).size
    ensures AppendAll(m, xs).size >= m.size
    ensures AppendAll(m, xs).size == m.size || AppendAll(m, xs).size < 2 * |AppendAll(m, xs).elems|
    decreases |xs|
  {
    if xs != [] {
      var m' := Append(m, xs[0]);
      AppendAllSpec(m', xs[1..]);
      assert m.elems + xs == m'.elems + xs[1..];
    }
  }

  /** After k appends to a fresh default vector, the live elements are
      exactly the appended values in order, and the capacity is 8 or less
      than twice their number. */
  lemma AppendsToDefault(xs: seq<int>)
    ensures AppendAll(VecModel([], INITIAL_SIZE), xs).elems == xs
    ensures |xs| <= AppendAll(VecModel([], INITIAL_SIZE), xs).size
    ensures AppendAll(VecModel([], INITIAL_SIZE), xs).size == INITIAL_SIZE
         || AppendAll(VecModel([], INITIAL_SIZE), xs).size < 2 * |xs|
  {
    AppendAllSpec(VecModel([], INITIAL_SIZE), xs);
  }

  /** struct Vector: size is the capacity of pool_addr, curr_size the number
      of live elements. */
  class Vector {
    var size: nat
    var currSize: nat
    var pool: array<int>

    /** The pool has size slots, at least one, and the live elements fit. */
    ghost predicate Valid()
      reads this
    {
      pool.Length == size && 0 < size && currSize <= size
    }

    /** The live elements. */
    function Contents(): seq<int>
      reads this, pool
      requires Valid()
    {
      pool[..currSize]
    }

    ghost function Model(): VecModel
      reads this, pool
      requires Valid()
    {
      VecModel(Contents(), size)
    }

    /** vect_createVector: capacity 8, no elements, a zeroed pool (calloc). */
    constructor Create()
      ensures Valid() && fresh(pool)
      ensures Model() == VecModel([], INITIAL_SIZE)
      ensures pool[..] == seq(INITIAL_SIZE, _ => 0)
    {
      size := INITIAL_SIZE;
      currSize := 0;
      pool := new int[INITIAL_SIZE](_ => 0);
    }

    /** vect_createVectorWithSize: a non-positive request falls back to the
        default vector; otherwise the capacity is exactly the request, with
        no rounding. */
    constructor CreateWithSize(requested: int)
      ensures Valid() && fresh(pool)
      ensures Model() == VecModel([], if requested <= 0 then INITIAL_SIZE else requested)
      ensures pool[..] == seq(size, _ => 0)
    {
      var n := if requested <= 0 then INITIAL_SIZE else requested;
      size := n;
      currSize := 0;
      pool := new int[n](_ => 0);
    }

    /** vect_insert: appends data; when the pool is full it first doubles
        the capacity and reallocates, keeping the live elements. */
    method Insert(data: int)
      requires Valid()
      modifies this, pool
      ensures Valid()
      ensures Contents() == old(Contents()) + [data]
      ensures size == if old(currSize) < old(size) then old(size) else 2 * old(size)
      ensures Model() == Append(old(Model()), data)
      ensures old(currSize) < old(size) ==> pool == old(pool)
      ensures old(currSize) < old(size) ==> forall k :: currSize <= k < size ==> pool[k] == old(pool[k])
      ensures old(currSize) == old(size) ==> fresh(pool)
    {
      if currSize < size {
        pool[currSize] := data;
        currSize := currSize + 1;
      } else {
        size := size * 2;
        var prev := pool;
        pool := new int[size](k reads prev => if 0 <= k < prev.Length then prev[k] else 0);
        pool[currSize] := data;
        currSize := currSize + 1;
      }
      assert Contents() == old(Contents()) + [data];
    }

    /** vect_at: element pos, or -1 when pos is not below curr_size.
        Negative positions are not checked by the source and are excluded. */
    function At(pos: nat): (r: Option<int>)
      reads this, pool
      requires Valid()
      ensures r.Some? <==> pos < |Contents()|
      ensures r.Some? ==> r.value == Contents()[pos]
    {
      if pos >= currSize then None else Some(pool[pos])
    }
  }
}
