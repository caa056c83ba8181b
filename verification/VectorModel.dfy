/**
  The slots of MP/Vector/vector.c on values. A slot is NULL or a copy the vector
  has made of an element; a copy is a number that is never used again, and the
  elements that are live are what has been copied and not been destroyed yet.
 */
module VectorModel {
  import opened Prelude
  import opened Sequences

  const INITIAL_CAPACITY: nat := 10

  type Slot = Option<nat>
  type Live<V> = map<nat, V>

  // ---------- capacities ----------

  /** Ten, doubled any number of times. */
  predicate IsCapacity(c: nat)
  {
    c == INITIAL_CAPACITY || (c > INITIAL_CAPACITY && c % 2 == 0 && IsCapacity(c / 2))
  }

  lemma {:induction false} CapacityIsPower(c: nat)
    requires IsCapacity(c)
    ensures exists k: nat :: c == INITIAL_CAPACITY * Power2(k)
    decreases c
  {
    if c == INITIAL_CAPACITY {
      assert c == INITIAL_CAPACITY * Power2(0);
    } else {
      CapacityIsPower(c / 2);
      var k: nat :| c / 2 == INITIAL_CAPACITY * Power2(k);
      assert c == INITIAL_CAPACITY * Power2(k + 1);
    }
  }

  function Power2(k: nat): nat
  {
    if k == 0 then 1 else 2 * Power2(k - 1)
  }

  /** Not more than twice what is needed, if more than the least. */
  predicate Fits(capacity: nat, size: nat)
  {
    size <= capacity && IsCapacity(capacity) && (capacity > INITIAL_CAPACITY ==> capacity <= 2 * size)
  }

  /** The capacity after `Vector_resize` from capacity `before` and size `size` to size `n`. */
  predicate Recapped(before: nat, size: nat, n: nat, after: nat)
  {
    && IsCapacity(after)
    && if n == size then after == before
       else if n > before then n <= after < 2 * n
       else if before > INITIAL_CAPACITY && before > 2 * n then
         (if 2 * n < INITIAL_CAPACITY then after == INITIAL_CAPACITY else n < after <= 2 * n)
       else after == before
  }

  lemma {:induction false} CapacitiesDouble(a: nat, b: nat)
    requires IsCapacity(a) && IsCapacity(b) && a < b
    ensures 2 * a <= b
  {
    if a == INITIAL_CAPACITY {
      CapacityIsLeast(b / 2);
    } else {
      CapacityIsLeast(a / 2);
      CapacitiesDouble(a / 2, b / 2);
    }
  }

  lemma {:induction false} CapacityIsLeast(c: nat)
    requires IsCapacity(c)
    ensures c >= INITIAL_CAPACITY
  {
  }

  /** That says which capacity it is. */
  lemma RecappedIsUnique(before: nat, size: nat, n: nat, a: nat, b: nat)
    requires Recapped(before, size, n, a) && Recapped(before, size, n, b)
    ensures a == b
  {
    if a < b { CapacitiesDouble(a, b); }
    if b < a { CapacitiesDouble(b, a); }
  }

  // ---------- slots ----------

  /** The copies in the slots. */
  ghost function Copies(s: seq<Slot>): set<nat>
  {
    set i | 0 <= i < |s| && s[i].Some? :: s[i].value
  }

  /** Every slot has its own copy, and it is live. */
  ghost predicate Owned<V>(s: seq<Slot>, live: Live<V>)
  {
    && (forall i :: 0 <= i < |s| && s[i].Some? ==> s[i].value in live)
    && forall i, j :: 0 <= i < j < |s| && s[i].Some? && s[j].Some? ==> s[i].value != s[j].value
  }

  /** What the slots hold. */
  ghost function Contents<V>(s: seq<Slot>, live: Live<V>): (c: seq<Option<V>>)
    ensures |c| == |s|
  {
    seq(|s|, i requires 0 <= i < |s| =>
      if s[i].Some? && s[i].value in live then Some(live[s[i].value]) else None)
  }

  /** The live elements that are not the vector's. */
  ghost function Others<V>(s: seq<Slot>, live: Live<V>): Live<V>
  {
    live - Copies(s)
  }

  function Nulls(n: nat): (s: seq<Slot>)
    ensures |s| == n
  {
    seq(n, _ => None)
  }

  /** What a slot is for a copy, or for NULL. */
  ghost predicate Stored<V>(x: Slot, elem: Option<V>, before: Live<V>, after: Live<V>)
  {
    if elem == None then x == None && after == before
    else x.Some? && x.value !in before && after == before[x.value := elem.value]
  }

  lemma HasCopy(s: seq<Slot>, k: nat, c: nat)
    requires k < |s| && s[k] == Some(c)
    ensures c in Copies(s)
  {
  }

  lemma CopyIsAt(s: seq<Slot>, c: nat) returns (k: nat)
    requires c in Copies(s)
    ensures k < |s| && s[k] == Some(c)
  {
    k :| 0 <= k < |s| && s[k] == Some(c);
  }

  lemma InsertCopies(s: seq<Slot>, i: nat, x: Slot)
    requires i <= |s|
    ensures Copies(InsertAt(s, i, x)) == Copies(s) + if x.Some? then {x.value} else {}
  {
    var r := InsertAt(s, i, x);
    InsertedAt(s, i, x);
    forall c | c in Copies(s) ensures c in Copies(r) {
      var k := CopyIsAt(s, c);
      HasCopy(r, if k < i then k else k + 1, c);
    }
    if x.Some? { HasCopy(r, i, x.value); }
  }

  lemma DeleteCopies(s: seq<Slot>, i: nat)
    requires i < |s|
    ensures Copies(s) == Copies(DeleteAt(s, i)) + if s[i].Some? then {s[i].value} else {}
  {
    assert InsertAt(DeleteAt(s, i), i, s[i]) == s;
    InsertCopies(DeleteAt(s, i), i, s[i]);
  }

  /** A slot is put in anywhere. */
  lemma InsertKeeps<V>(s: seq<Slot>, i: nat, x: Slot, elem: Option<V>, before: Live<V>, after: Live<V>)
    requires i <= |s| && Owned(s, before) && Stored(x, elem, before, after)
    ensures Owned(InsertAt(s, i, x), after)
    ensures Contents(InsertAt(s, i, x), after) == InsertAt(Contents(s, before), i, elem)
    ensures Others(InsertAt(s, i, x), after) == Others(s, before)
  {
    hide Copies;
    InsertedAt(s, i, x);
    InsertedAt(Contents(s, before), i, elem);
    InsertCopies(s, i, x);
    var r, c := InsertAt(s, i, x), InsertAt(Contents(s, before), i, elem);
    forall k | 0 <= k < |r|
      ensures r[k] == (if k < i then s[k] else if k == i then x else s[k - 1])
      ensures (r[k].Some? ==> r[k].value in after) && Contents(r, after)[k] == c[k] {
    }
    assert Others(r, after) == Others(s, before);
  }

  /** A slot is taken out, its copy destroyed. */
  lemma DeleteKeeps<V>(s: seq<Slot>, i: nat, before: Live<V>, after: Live<V>)
    requires i < |s| && Owned(s, before) && after == (if s[i].Some? then before - {s[i].value} else before)
    ensures Owned(DeleteAt(s, i), after)
    ensures Contents(DeleteAt(s, i), after) == DeleteAt(Contents(s, before), i)
    ensures Others(DeleteAt(s, i), after) == Others(s, before)
  {
    hide Copies;
    DeletedAt(s, i);
    DeletedAt(Contents(s, before), i);
    DeleteCopies(s, i);
    var r, c := DeleteAt(s, i), DeleteAt(Contents(s, before), i);
    forall k | 0 <= k < |r|
      ensures r[k] == (if k < i then s[k] else s[k + 1])
      ensures (r[k].Some? ==> r[k].value in after) && Contents(r, after)[k] == c[k] {
    }
    assert Others(r, after) == Others(s, before);
  }

  /** A slot's copy is destroyed and another put in its place. */
  lemma SetKeeps<V>(s: seq<Slot>, i: nat, x: Slot, elem: Option<V>, before: Live<V>, middle: Live<V>, after: Live<V>)
    requires i < |s| && Owned(s, before) && middle == (if s[i].Some? then before - {s[i].value} else before)
    requires Stored(x, elem, middle, after)
    ensures Owned(s[i := x], after)
    ensures Contents(s[i := x], after) == Contents(s, before)[i := elem]
    ensures Others(s[i := x], after) == Others(s, before)
  {
    DeleteKeeps(s, i, before, middle);
    InsertKeeps(DeleteAt(s, i), i, x, elem, middle, after);
    DeleteInsert(s, i, x);
    DeleteInsert(Contents(s, before), i, elem);
  }

  lemma NullsKeep<V>(s: seq<Slot>, n: nat, live: Live<V>)
    requires Owned(s, live)
    ensures Owned(s + Nulls(n), live) && Others(s + Nulls(n), live) == Others(s, live)
    ensures Contents(s + Nulls(n), live) == Contents(s, live) + seq(n, _ => None)
  {
    var r := s + Nulls(n);
    assert forall k :: |s| <= k < |r| ==> r[k] == None;
    forall c ensures c in Copies(r) <==> c in Copies(s) {
      if c in Copies(s) {
        var k :| 0 <= k < |s| && s[k] == Some(c);
        assert r[k] == Some(c);
      }
    }
  }

  // ---------- what the operations do to a sequence ----------

  function Padded<V>(items: seq<Option<V>>, n: nat): seq<Option<V>>
    requires |items| <= n
  {
    items + seq(n - |items|, _ => None)
  }

  /** `Vector_insert`: past the end the sequence is filled up with NULL. */
  function Inserted<V>(items: seq<Option<V>>, i: nat, elem: Option<V>): seq<Option<V>>
  {
    if i < |items| then InsertAt(items, i, elem) else Padded(items, i) + [elem]
  }

  /** Slots grown past their end by more than one. */
  lemma PaddedSlots<V>(before: seq<Slot>, after: seq<Slot>, i: nat, live: Live<V>)
    requires |before| <= i && after == before + Nulls(i + 1 - |before|)
    ensures after == after[..i] + Nulls(1) && Contents(after[..i], live) == Padded(Contents(before, live), i)
  {
  }

  /** What is where after an insertion, in or past the sequence. */
  lemma InsertedMeans<V>(items: seq<Option<V>>, i: nat, elem: Option<V>)
    ensures var r := Inserted(items, i, elem);
            && |r| == (if i < |items| then |items| else i) + 1 && r[i] == elem
            && forall k {:trigger r[k]} :: 0 <= k < |r| && k != i ==>
                 r[k] == if k > i then items[k - 1] else if k < |items| then items[k] else None
  {
    if i < |items| { InsertedAt(items, i, elem); }
  }

  datatype Op<V> =
    | Insert(index: nat, elem: Option<V>)
    | Append(elem: Option<V>)
    | Set(index: nat, elem: Option<V>)
    | Delete(index: nat)

  /** None where vector.c asserts. */
  function Apply<V>(items: seq<Option<V>>, op: Op<V>): Option<seq<Option<V>>>
  {
    match op
    case Insert(i, elem) => Some(Inserted(items, i, elem))
    case Append(elem) => Some(items + [elem])
    case Set(i, elem) => if i < |items| then Some(items[i := elem]) else None
    case Delete(i) => if i < |items| then Some(DeleteAt(items, i)) else None
  }

  function ApplyAll<V>(items: seq<Option<V>>, ops: seq<Op<V>>): Option<seq<Option<V>>>
    decreases |ops|
  {
    if ops == [] then Some(items)
    else
      var next := Apply(items, ops[0]);
      if next == None then None else ApplyAll(next.value, ops[1..])
  }

  // ---------- resizing ----------

  /** The array after a resize: the slots that were there, and NULL where there were none. */
  ghost predicate Resized(before: seq<Slot>, after: seq<Slot>)
  {
    forall i :: 0 <= i < |after| ==> after[i] == if i < |before| then before[i] else None
  }

  /** The capacity that `Vector_resize` settles on. */
  lemma {:induction false} DoubledIsCapacity(c: nat)
    requires IsCapacity(c)
    ensures c >= INITIAL_CAPACITY && IsCapacity(2 * c)
  {
  }

  lemma HalvedIsCapacity(c: nat)
    requires IsCapacity(c)
    ensures c == INITIAL_CAPACITY || IsCapacity(c / 2)
  {
  }

  /** Resizing past slots that are NULL destroys nothing and forgets nothing. */
  lemma ResizeKeeps<V>(before: seq<Slot>, size: nat, after: seq<Slot>, n: nat, live: Live<V>, left: Live<V>)
    requires Resized(before, after) && size <= |before| && n <= |after| && Owned(before[..size], live)
    requires forall i :: size <= i < |before| ==> before[i] == None
    requires forall i :: n <= i < size ==> before[i] == None
    requires left == live - Copies(after[n..])
    ensures left == live && forall i :: n <= i < |after| ==> after[i] == None
    ensures after[..n] == if n <= size then before[..n] else before[..size] + Nulls(n - size)
  {
    assert forall i :: n <= i < |after| ==> after[i] == None;
    assert Copies(after[n..]) == {};
  }

  /** Dropping slots that are NULL. */
  lemma DropKeeps<V>(s: seq<Slot>, n: nat, live: Live<V>)
    requires n <= |s| && Owned(s, live) && forall i :: n <= i < |s| ==> s[i] == None
    ensures Owned(s[..n], live) && Others(s[..n], live) == Others(s, live)
    ensures Contents(s[..n], live) == Contents(s, live)[..n]
  {
    assert s == s[..n] + Nulls(|s| - n);
    NullsKeep(s[..n], |s| - n, live);
  }

  /** A vector's state: its slots past the size are NULL, its copies its own, and no other live element is new. */
  ghost predicate Whole<V>(slots: seq<Slot>, size: nat, live: Live<V>, others: Live<V>)
  {
    && size <= |slots| && (forall i :: size <= i < |slots| ==> slots[i] == None)
    && Owned(slots[..size], live) && Others(slots[..size], live) == others
  }

  /** A resize leaves a vector whole, nothing dangling and nothing forgotten, exactly when it drops only NULLs. */
  lemma ResizeIsSafeIff<V>(before: seq<Slot>, size: nat, after: seq<Slot>, n: nat,
                           live: Live<V>, left: Live<V>, others: Live<V>)
    requires Whole(before, size, live, others) && Resized(before, after) && n <= |after|
    requires left == live - Copies(after[n..])
    ensures Whole(after, n, left, others) <==> forall i :: n <= i < size ==> before[i] == None
  {
    if forall i :: n <= i < size ==> before[i] == None {
      ResizeKeeps(before, size, after, n, live, left);
      if n <= size {
        assert before[..size][..n] == before[..n];
        DropKeeps(before[..size], n, live);
      } else {
        NullsKeep(before[..size], n - size, live);
      }
    } else {
      var i :| n <= i < size && before[i].Some?;
      if i >= |after| { Forgotten(before, size, after, n, i, live, left); }
    }
  }

  /** An element past the new capacity stays live, and is nobody's. */
  lemma Forgotten<V>(before: seq<Slot>, size: nat, after: seq<Slot>, n: nat, i: nat, live: Live<V>, left: Live<V>)
    requires size <= |before| && Owned(before[..size], live) && Resized(before, after) && n <= |after| <= i < size
    requires forall k :: size <= k < |before| ==> before[k] == None
    requires left == live - Copies(after[n..]) && before[i].Some?
    ensures before[i].value in Others(after[..n], left) && before[i].value !in Others(before[..size], live)
  {
    var c := before[i].value;
    assert before[..size][i] == before[i];
    HasCopy(before[..size], i, c);
    forall k | 0 <= k < |after| ensures after[k] != Some(c) {
      assert after[k] == before[..size][k];
    }
  }
}
