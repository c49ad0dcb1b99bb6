/** What the element-shifting mutators do to the live elements, stated on
    sequences: the specification the in-place buffer code is proved against. */
module SeqOps {

  /** n copies of v. */
  function Repeat(v: int, n: nat): seq<int>
  {
    seq(n, _ => v)
  }

  /** The live elements after inserting v at index p: the prefix stays,
      v lands at p, and the old elements from p on move up one slot. */
  function InsertAt(s: seq<int>, p: nat, v: int): (r: seq<int>)
    requires p <= |s|
    ensures |r| == |s| + 1
    ensures r[p] == v
    ensures forall k :: 0 <= k < p ==> r[k] == s[k]
    ensures forall k :: p <= k < |s| ==> r[k + 1] == s[k]
  {
    s[..p] + [v] + s[p..]
  }

  /** The live elements after removing index p: the prefix stays and the
      elements after p move down one slot. */
  function RemoveAt(s: seq<int>, p: nat): (r: seq<int>)
    requires p < |s|
    ensures |r| == |s| - 1
    ensures forall k :: 0 <= k < p ==> r[k] == s[k]
    ensures forall k :: p <= k < |r| ==> r[k] == s[k + 1]
  {
    s[..p] + s[p + 1..]
  }

  /** The live elements after resizing to n: truncated when n is smaller,
      padded with fill when n is larger. */
  function Resized(s: seq<int>, n: nat, fill: int): (r: seq<int>)
    ensures |r| == n
    ensures forall k :: 0 <= k < n && k < |s| ==> r[k] == s[k]
    ensures forall k :: |s| <= k < n ==> r[k] == fill
  {
    if n <= |s| then s[..n] else s + Repeat(fill, n - |s|)
  }

  /** The buffer steps of insert produce InsertAt: grown extends before by
      one slot, after shifts grown's slots from p on up by one and stores v
      at p. */
  lemma ShiftedIsInsert(before: seq<int>, grown: seq<int>, after: seq<int>, p: nat, v: int)
    requires p <= |before| && |grown| == |after| == |before| + 1
    requires grown[..|before|] == before
    requires forall k :: 0 <= k < p ==> after[k] == grown[k]
    requires after[p] == v
    requires forall k :: p < k < |after| ==> after[k] == grown[k - 1]
    ensures after == InsertAt(before, p, v)
  {
    var r := InsertAt(before, p, v);
    forall k | 0 <= k < |after|
      ensures after[k] == r[k]
    {
      if k < p {
        assert grown[k] == before[k];
      } else if k > p {
        assert grown[k - 1] == before[k - 1];
      }
    }
  }

  /** Erasing at the index just inserted at gives back the original. */
  lemma RemoveAtInsertAt(s: seq<int>, p: nat, v: int)
    requires p <= |s|
    ensures RemoveAt(InsertAt(s, p, v), p) == s
  {
    var r := RemoveAt(InsertAt(s, p, v), p);
    assert forall k :: 0 <= k < |s| ==> r[k] == s[k];
  }

  /** Re-inserting an erased element at its index gives back the original. */
  lemma InsertAtRemoveAt(s: seq<int>, p: nat)
    requires p < |s|
    ensures InsertAt(RemoveAt(s, p), p, s[p]) == s
  {
    var r := InsertAt(RemoveAt(s, p), p, s[p]);
    assert forall k :: 0 <= k < |s| ==> r[k] == s[k];
  }

  /** push_back then pop_back: appending and dropping the last element. */
  lemma RemoveLastAfterAppend(s: seq<int>, v: int)
    ensures InsertAt(s, |s|, v) == s + [v]
    ensures RemoveAt(s + [v], |s|) == s
  {
  }

  /** Resizing to n and then to m <= n is the same as resizing straight to
      m: growing and shrinking back returns the original elements. */
  lemma ResizedTwice(s: seq<int>, n: nat, m: nat, fill: int)
    requires m <= n
    ensures Resized(Resized(s, n, fill), m, fill) == Resized(s, m, fill)
  {
    var a := Resized(Resized(s, n, fill), m, fill);
    var b := Resized(s, m, fill);
    assert forall k :: 0 <= k < m ==> a[k] == b[k];
  }

  /** The special case of ResizedTwice: grow, then resize back to the
      original length. */
  lemma ResizedBack(s: seq<int>, n: nat, fill: int)
    requires n >= |s|
    ensures Resized(Resized(s, n, fill), |s|, fill) == s
  {
    ResizedTwice(s, n, |s|, fill);
    assert Resized(s, |s|, fill) == s;
  }
}
