/** Putting an element into a sequence and taking one out. */
module Sequences {

  function InsertAt<T>(q: seq<T>, r: nat, x: T): seq<T>
    requires r <= |q|
  {
    q[..r] + [x] + q[r..]
  }

  /** What stands where after an insertion. */
  lemma InsertedAt<T>(q: seq<T>, r: nat, x: T)
    requires r <= |q|
    ensures |InsertAt(q, r, x)| == |q| + 1
    ensures forall k {:trigger InsertAt(q, r, x)[k]} :: 0 <= k <= |q| ==>
              InsertAt(q, r, x)[k] == if k < r then q[k] else if k == r then x else q[k - 1]
  {
  }

  lemma InsertedAround<T>(q: seq<T>, r: nat, x: T)
    requires r <= |q|
    ensures |InsertAt(q, r, x)| == |q| + 1
    ensures InsertAt(q, r, x)[..r] + InsertAt(q, r, x)[r + 1..] == q
  {
  }

  lemma DistinctInsert<T>(q: seq<T>, r: nat, x: T)
    requires r <= |q| && x !in q && forall i, j :: 0 <= i < j < |q| ==> q[i] != q[j]
    ensures |InsertAt(q, r, x)| == |q| + 1
    ensures forall i, j :: 0 <= i < j <= |q| ==> InsertAt(q, r, x)[i] != InsertAt(q, r, x)[j]
  {
    hide InsertAt;
    InsertedAt(q, r, x);
    forall i, j | 0 <= i < j <= |q| ensures InsertAt(q, r, x)[i] != InsertAt(q, r, x)[j] {
      assert i != r ==> InsertAt(q, r, x)[i] in q;
      assert j != r ==> InsertAt(q, r, x)[j] in q;
    }
  }

  lemma InsertAtEnd<T>(q: seq<T>, x: T)
    ensures InsertAt(q, |q|, x) == q + [x]
  {
  }

  function DeleteAt<T>(s: seq<T>, i: nat): seq<T>
    requires i < |s|
  {
    s[..i] + s[i + 1..]
  }

  lemma DeletedAt<T>(s: seq<T>, i: nat)
    requires i < |s|
    ensures |DeleteAt(s, i)| == |s| - 1
    ensures forall k {:trigger DeleteAt(s, i)[k]} :: 0 <= k < |s| - 1 ==>
              DeleteAt(s, i)[k] == if k < i then s[k] else s[k + 1]
  {
  }

  lemma DeleteInsert<T>(s: seq<T>, i: nat, x: T)
    requires i < |s|
    ensures |DeleteAt(s, i)| == |s| - 1 && InsertAt(DeleteAt(s, i), i, x) == s[i := x]
  {
  }
}
