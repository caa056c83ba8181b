/** MP/Vector/vector.c: the vector over its array, and the elements it copies and destroys. */
module VectorClass {
  import opened Prelude
  import opened Sequences
  import opened VectorModel

  /** The copy constructor and the destructor, and the copies that are live. */
  class Elements<V> {
    var live: Live<V>
    var next: nat

    ghost predicate Valid()
      reads this
    {
      forall c :: c in live ==> c < next
    }

    /** A copy, under a number that was never used before. */
    method Copy(v: V) returns (c: nat)
      requires Valid()
      modifies this
      ensures Valid() && c == old(next) < next && c !in old(live) && live == old(live)[c := v]
    {
      c := next;
      live := live[c := v];
      next := next + 1;
    }

    /** The copy must be live: nothing can be destroyed twice. */
    method Destroy(c: nat)
      requires Valid() && c in live
      modifies this
      ensures Valid() && live == old(live) - {c} && next == old(next)
    {
      live := live - {c};
    }
  }

  class Vector<V> {
    const elements: Elements<V>
    var slots: array<Slot>      // the source's `array`
    var size: nat
    var capacity: nat

    ghost predicate Shaped()
      reads this, slots, elements
    {
      && elements.Valid() && slots.Length == capacity && Fits(capacity, size)
      && forall i :: size <= i < capacity ==> slots[i] == None
    }

    ghost predicate Valid()
      reads this, slots, elements
    {
      Shaped() && Owned(slots[..size], elements.live)
    }

    /** What the vector is: a sequence of elements or NULL. */
    ghost function Items(): seq<Option<V>>
      requires Valid()
      reads this, slots, elements
    {
      Contents(slots[..size], elements.live)
    }

    /** The live elements that are not the vector's. */
    ghost function Rest(): Live<V>
      requires Valid()
      reads this, slots, elements
    {
      Others(slots[..size], elements.live)
    }

    /** `Vector_create` */
    constructor (elements: Elements<V>)
      requires elements.Valid()
      ensures Valid() && this.elements == elements && fresh(slots)
      ensures Items() == [] && capacity == INITIAL_CAPACITY && Rest() == elements.live
    {
      this.elements := elements;
      slots := new Slot[INITIAL_CAPACITY];
      size, capacity := 0, INITIAL_CAPACITY;
      new;
      var i := 0;
      while i < INITIAL_CAPACITY
        invariant i <= INITIAL_CAPACITY && forall k :: 0 <= k < i ==> slots[k] == None
        modifies slots
      {
        slots[i] := None;
        i := i + 1;
      }
      assert slots[..0] == [] && Copies([]) == {};
    }

    /** `Vector_dealloc_elem` */
    method Dealloc(i: nat)
      requires elements.Valid() && i < slots.Length && (slots[i].Some? ==> slots[i].value in elements.live)
      modifies elements
      ensures elements.Valid()
      ensures elements.live == if slots[i].Some? then old(elements.live) - {slots[i].value} else old(elements.live)
    {
      if slots[i].Some? {
        elements.Destroy(slots[i].value);
      }
    }

    /** A slot for an element: a copy of it, or NULL. */
    method Store(elem: Option<V>) returns (x: Slot)
      requires elements.Valid()
      modifies elements
      ensures elements.Valid() && Stored(x, elem, old(elements.live), elements.live)
    {
      if elem.Some? {
        var c := elements.Copy(elem.value);
        x := Some(c);
      } else {
        x := None;
      }
    }

    /** `realloc`: what fits is kept, and the rest may be anything. */
    method Realloc(n: nat) returns (a: array<Slot>)
      ensures fresh(a) && a.Length == n
      ensures forall i :: 0 <= i < n && i < slots.Length ==> a[i] == slots[i]
    {
      a := new Slot[n];
      var i := 0;
      while i < n && i < slots.Length
        invariant i <= n && forall k :: 0 <= k < i && k < slots.Length ==> a[k] == slots[k]
      {
        a[i] := slots[i];
        i := i + 1;
      }
    }

    /** Growing: lines 90-98. */
    method Grow(n: nat)
      requires Shaped() && n > capacity
      modifies this`slots, this`capacity
      ensures fresh(slots) && slots.Length == capacity && n <= capacity < 2 * n && IsCapacity(capacity)
      ensures Resized(old(slots[..]), slots[..])
    {
      var c := capacity;
      while c < n
        invariant IsCapacity(c) && (c < 2 * n)
        decreases n - c
        modifies {}
      {
        DoubledIsCapacity(c);
        c := c * 2;
      }
      var a := Realloc(c);
      var i := size;
      while i < c
        invariant size <= i <= c
        invariant forall k :: 0 <= k < c && (k < i || k < slots.Length) ==>
                    a[k] == if k < slots.Length then slots[k] else None
        modifies a
      {
        a[i] := None;
        i := i + 1;
      }
      slots, capacity := a, c;
    }

    /** Destroys the elements in slots `from` up to `to`. */
    method DeallocAll(from: nat, to: nat)
      requires Valid() && from <= to <= slots.Length
      modifies elements
      ensures elements.Valid() && elements.live == old(elements.live) - Copies(slots[from..to])
    {
      var i := from;
      assert slots[from..from] == [];
      while i < to
        invariant from <= i <= to && elements.Valid()
        invariant elements.live == old(elements.live) - Copies(slots[from..i])
      {
        MoreCopies(slots[..], from, i);
        NotDestroyedYet(slots[..], size, from, i, old(elements.live));
        Dealloc(i);
        i := i + 1;
      }
    }

    /** Shrinking: lines 99-108. */
    method Shrink(n: nat)
      requires Valid() && INITIAL_CAPACITY < capacity && 2 * n < capacity
      modifies this`slots, this`capacity, elements
      ensures fresh(slots) && slots.Length == capacity <= old(capacity) && Fits(capacity, n) && elements.Valid()
      ensures if 2 * n < INITIAL_CAPACITY then capacity == INITIAL_CAPACITY else n < capacity <= 2 * n
      ensures Resized(old(slots[..]), slots[..])
      ensures elements.live == old(elements.live) - Copies(slots[n..])
    {
      var c := capacity;
      while c > 2 * n
        invariant c <= capacity && n <= c && (IsCapacity(c) || (c < INITIAL_CAPACITY && 2 * n < INITIAL_CAPACITY))
        invariant n < c || c < INITIAL_CAPACITY
        modifies {}
      {
        if c >= INITIAL_CAPACITY { HalvedIsCapacity(c); }
        c := c / 2;
      }
      if c < INITIAL_CAPACITY { c := INITIAL_CAPACITY; }
      DeallocAll(n, c);
      var a := Realloc(c);
      assert a[n..] == slots[n..c];
      slots, capacity := a, c;
    }

    method FillNull(n: nat)
      requires Shaped() && size <= n <= capacity
      modifies slots
      ensures slots[..] == old(slots[..])
    {
      var i := size;
      while i < n
        invariant size <= i <= n && slots[..] == old(slots[..])
      {
        slots[i] := None;
        i := i + 1;
      }
    }

    /**
      `Vector_resize`: what becomes of the slots, and which elements are destroyed.
      A shrink destroys the elements that stay in the array past the new size and
      forgets those past the new capacity; nothing dangles and nothing is forgotten
      exactly when the slots it drops are NULL.
     */
    method Resize(n: nat)
      requires Valid()
      modifies this`slots, this`size, this`capacity, slots, elements
      ensures size == n && slots.Length == capacity && Fits(capacity, size) && elements.Valid()
      ensures Recapped(old(capacity), old(size), n, capacity)
      ensures (slots == old(slots) || fresh(slots)) && Resized(old(slots[..]), slots[..])
      ensures elements.live == old(elements.live) - Copies(slots[n..])
      ensures Whole(slots[..], n, elements.live, old(Rest())) <==>
              forall i :: n <= i < old(size) ==> old(slots[..])[i] == None
    {
      ghost var before, was, live := slots[..], size, elements.live;
      ResizeTo(n);
      ResizeIsSafeIff(before, was, slots[..], n, live, elements.live, old(Rest()));
    }

    method ResizeTo(n: nat)
      requires Valid()
      modifies this`slots, this`size, this`capacity, slots, elements
      ensures size == n && slots.Length == capacity && Fits(capacity, size) && elements.Valid()
      ensures Recapped(old(capacity), old(size), n, capacity)
      ensures (slots == old(slots) || fresh(slots)) && Resized(old(slots[..]), slots[..])
      ensures elements.live == old(elements.live) - Copies(slots[n..])
    {
      if n == size {
        PastSize(slots[..], size);
      } else if n > capacity {
        PastSize(slots[..], size);
        Grow(n);
        NothingGained(old(slots[..]), slots[..], size, n);
      } else if capacity > INITIAL_CAPACITY && capacity > 2 * n {
        Shrink(n);
      } else if n > size {
        FillNull(n);
        PastSize(slots[..], size);
        NothingGained(slots[..], slots[..], size, n);
      } else {
        DeallocAll(n, size);
        UpToSize(slots[..], size, n);
      }
      size := n;
    }

    /** A resize that drops only NULLs. */
    method ResizeSafely(n: nat)
      requires Valid() && forall i :: n <= i < size ==> slots[i] == None
      modifies this`slots, this`size, this`capacity, slots, elements
      ensures Valid() && size == n && (slots == old(slots) || fresh(slots)) && elements.live == old(elements.live)
      ensures slots[..size] == if n <= old(size) then old(slots[..n]) else old(slots[..size]) + Nulls(n - old(size))
      ensures Rest() == old(Rest())
      ensures Items() == if n <= old(size) then old(Items())[..n] else old(Items()) + seq(n - old(size), _ => None)
    {
      ghost var before, was := slots[..], size;
      Resize(n);
      ResizeKeeps(before, was, slots[..], n, old(elements.live), elements.live);
      ghost var s := old(slots[..size]);
      if n <= was {
        assert s[..n] == old(slots[..n]);
        DropKeeps(s, n, elements.live);
      } else {
        NullsKeep(s, n - was, elements.live);
      }
    }

    /** `Vector_append` */
    method Append(elem: Option<V>)
      requires Valid()
      modifies this`slots, this`size, this`capacity, slots, elements
      ensures Valid() && (slots == old(slots) || fresh(slots))
      ensures Items() == old(Items()) + [elem] && Rest() == old(Rest())
    {
      ghost var s, live := slots[..size], elements.live;
      ResizeSafely(size + 1);
      var x := Store(elem);
      slots[size - 1] := x;
      assert slots[..size] == InsertAt(s, |s|, x);
      InsertKeeps(s, |s|, x, elem, live, elements.live);
      assert InsertAt(Contents(s, live), |s|, elem) == Contents(s, live) + [elem];
    }

    /** `Vector_get` */
    method Get(i: nat) returns (x: Slot)
      requires Valid() && i < size
      ensures x == slots[i] && Items()[i] == if x.Some? then Some(elements.live[x.value]) else None
    {
      x := slots[i];
      assert slots[..size][i] == x;
    }

    /** `Vector_set` */
    method Set(i: nat, elem: Option<V>)
      requires Valid() && i < size
      modifies slots, elements
      ensures Valid() && Items() == old(Items())[i := elem] && Rest() == old(Rest())
    {
      ghost var s, live := slots[..size], elements.live;
      assert s[i] == slots[i];
      Dealloc(i);
      ghost var middle := elements.live;
      var x := Store(elem);
      slots[i] := x;
      assert slots[..size] == s[i := x];
      SetKeeps(s, i, x, elem, live, middle, elements.live);
    }

    /** Moves the slots from `index` on one up: lines 153-154. */
    method ShiftUp(index: nat)
      requires Shaped() && index < size
      modifies slots
      ensures forall k :: index < k < size ==> slots[k] == old(slots[..])[k - 1]
      ensures forall k :: 0 <= k <= index || size <= k < slots.Length ==> slots[k] == old(slots[..])[k]
    {
      ghost var s := slots[..];
      var i := size - 1;
      while i > index
        invariant index <= i < size
        invariant forall k :: i < k < size ==> slots[k] == s[k - 1]
        invariant forall k :: 0 <= k <= i || size <= k < slots.Length ==> slots[k] == s[k]
      {
        slots[i] := slots[i - 1];
        i := i - 1;
      }
    }

    /** `Vector_insert` */
    method Insert(index: nat, elem: Option<V>)
      requires Valid()
      modifies this`slots, this`size, this`capacity, slots, elements
      ensures Valid() && (slots == old(slots) || fresh(slots))
      ensures Items() == Inserted(old(Items()), index, elem) && Rest() == old(Rest())
    {
      if index < size {
        InsertWithin(index, elem);
      } else {
        hide Owned, Contents, Others, Padded;
        ghost var before := slots[..size];
        ResizeSafely(index + 1);
        PaddedSlots(before, slots[..size], index, elements.live);
        assert slots[..size][..index] == slots[..index];
        InsertPast(index, elem, slots[..index]);
      }
    }

    method InsertWithin(index: nat, elem: Option<V>)
      requires Valid() && index < size
      modifies this`slots, this`size, this`capacity, slots, elements
      ensures Valid() && (slots == old(slots) || fresh(slots))
      ensures Items() == InsertAt(old(Items()), index, elem) && Rest() == old(Rest())
    {
      hide Owned, Contents, Others, InsertAt;
      ghost var s, live := slots[..size], elements.live;
      ResizeSafely(size + 1);
      ghost var grown := slots[..];
      assert slots[..size] == s + Nulls(1);
      ShiftUp(index);
      var x := Store(elem);
      slots[index] := x;
      ShiftInserts(grown, slots[..], s, index, x);
      InsertKeeps(s, index, x, elem, live, elements.live);
    }

    /** The slot at the end is NULL, and is filled. */
    method InsertPast(index: nat, elem: Option<V>, ghost s: seq<Slot>)
      requires Valid() && size == index + 1 && slots[..size] == s + Nulls(1) && |s| == index
      modifies slots, elements
      ensures Valid() && Rest() == old(Rest())
      ensures Items() == Contents(s, old(elements.live)) + [elem]
    {
      ghost var live := elements.live;
      DropKeeps(s + Nulls(1), index, live);
      assert (s + Nulls(1))[..index] == s;
      var x := Store(elem);
      slots[index] := x;
      assert slots[..size] == InsertAt(s, index, x);
      InsertKeeps(s, index, x, elem, live, elements.live);
      assert InsertAt(Contents(s, live), index, elem) == Contents(s, live) + [elem];
    }

    /** Moves the slots past `index` one down: lines 169-170. */
    method ShiftDown(index: nat)
      requires Shaped() && index < size
      modifies slots
      ensures forall k :: index <= k < size - 1 ==> slots[k] == old(slots[..])[k + 1]
      ensures forall k :: 0 <= k < index || size - 1 <= k < slots.Length ==> slots[k] == old(slots[..])[k]
    {
      ghost var s := slots[..];
      var i := index;
      while i < size - 1
        invariant index <= i <= size - 1
        invariant forall k :: index <= k < i ==> slots[k] == s[k + 1]
        invariant forall k :: 0 <= k < index || i <= k < slots.Length ==> slots[k] == s[k]
      {
        slots[i] := slots[i + 1];
        i := i + 1;
      }
    }

    /** `Vector_delete` */
    method Delete(index: nat)
      requires Valid() && index < size
      modifies this`slots, this`size, this`capacity, slots, elements
      ensures Valid() && (slots == old(slots) || fresh(slots))
      ensures Items() == DeleteAt(old(Items()), index) && Rest() == old(Rest())
    {
      TakeOut(index);
      ghost var s := slots[..size - 1];
      assert slots[..size] == s + Nulls(1);
      DropKeeps(slots[..size], size - 1, elements.live);
      assert slots[..size][..size - 1] == s;
      ResizeSafely(size - 1);
    }

    /** Destroys the element and closes the gap: lines 168-172. */
    method TakeOut(index: nat)
      requires Valid() && index < size
      modifies slots, elements
      ensures Valid() && slots[size - 1] == None && Rest() == old(Rest())
      ensures Items() == DeleteAt(old(Items()), index) + [None]
    {
      hide Contents, Others, DeleteAt;
      ghost var s, live := slots[..size], elements.live;
      assert s[index] == slots[index];
      Dealloc(index);
      ShiftDown(index);
      slots[size - 1] := None;
      ShiftDeletes(old(slots[..]), slots[..], s, index);
      DeleteKeeps(s, index, live, elements.live);
      NullsKeep(DeleteAt(s, index), 1, elements.live);
    }

    /** `Vector_destroy`: every element of the vector goes, and no other. */
    method DestroyAll()
      requires Valid()
      modifies elements
      ensures elements.Valid() && elements.live == old(Rest())
    {
      DeallocAll(0, capacity);
      UpToSize(slots[..], size, 0);
      assert slots[0..capacity] == slots[..][0..] && slots[..][0..size] == slots[..size];
    }
  }

  lemma ShiftDeletes(before: seq<Slot>, after: seq<Slot>, s: seq<Slot>, i: nat)
    requires i < |s| <= |before| == |after| && s == before[..|s|] && after[|s| - 1] == None
    requires forall k :: i <= k < |s| - 1 ==> after[k] == before[k + 1]
    requires forall k :: 0 <= k < i ==> after[k] == before[k]
    ensures after[..|s|] == DeleteAt(s, i) + Nulls(1)
  {
    DeletedAt(s, i);
    hide DeleteAt;
    forall k | 0 <= k < |s| - 1 ensures after[k] == DeleteAt(s, i)[k] {
    }
  }

  lemma ShiftInserts(grown: seq<Slot>, after: seq<Slot>, s: seq<Slot>, i: nat, x: Slot)
    requires i < |s| < |grown| == |after| && grown[..|s| + 1] == s + Nulls(1) && after[i] == x
    requires forall k :: i < k <= |s| ==> after[k] == grown[k - 1]
    requires forall k :: 0 <= k < i ==> after[k] == grown[k]
    ensures after[..|s| + 1] == InsertAt(s, i, x)
  {
    assert forall k :: 0 <= k < |s| ==> grown[k] == grown[..|s| + 1][k] == s[k];
  }

  lemma PastSize(s: seq<Slot>, size: nat)
    requires size <= |s| && forall k :: size <= k < |s| ==> s[k] == None
    ensures Copies(s[size..]) == {}
  {
  }

  /** Slots past the size are NULL, so nothing is lost by ending there. */
  lemma UpToSize(s: seq<Slot>, size: nat, n: nat)
    requires n <= size <= |s| && forall k :: size <= k < |s| ==> s[k] == None
    ensures Copies(s[n..]) == Copies(s[n..size])
  {
    assert s[n..] == s[n..size] + s[size..];
    forall c | c in Copies(s[n..size]) ensures c in Copies(s[n..]) {
      var k := CopyIsAt(s[n..size], c);
      HasCopy(s[n..], k, c);
    }
  }

  lemma NothingGained(before: seq<Slot>, after: seq<Slot>, size: nat, n: nat)
    requires Resized(before, after) && size <= n <= |after| && size <= |before|
    requires forall k :: size <= k < |before| ==> before[k] == None
    ensures Copies(after[n..]) == {}
  {
  }

  lemma MoreCopies(s: seq<Slot>, from: nat, i: nat)
    requires from <= i < |s|
    ensures Copies(s[from..i + 1]) == Copies(s[from..i]) + if s[i].Some? then {s[i].value} else {}
  {
    assert InsertAt(s[from..i], i - from, s[i]) == s[from..i + 1];
    InsertCopies(s[from..i], i - from, s[i]);
  }

  lemma NotDestroyedYet<V>(s: seq<Slot>, size: nat, from: nat, i: nat, live: Live<V>)
    requires from <= i < |s| && size <= |s| && Owned(s[..size], live) && forall k :: size <= k < |s| ==> s[k] == None
    ensures s[i].Some? ==> s[i].value in live - Copies(s[from..i])
  {
    forall k | from <= k < i && s[k].Some? && s[i].Some? ensures s[k].value != s[i].value {
      if i < size { assert s[..size][k] == s[k] && s[..size][i] == s[i]; }
    }
    assert s[i].Some? && i < size ==> s[..size][i] == s[i];
  }

  /** A vector with one element, shrunk to nothing: the slot still points to the element it destroyed. */
  method ShrinkSpoils(elements: Elements<int>) returns (vector: Vector<int>)
    requires elements.Valid()
    modifies elements
    ensures vector.size == 0 && !Whole(vector.slots[..], 0, elements.live, old(elements.live))
  {
    vector := new Vector<int>(elements);
    vector.Append(Some(7));
    assert vector.Items()[0] == Some(7);
    vector.Resize(0);
  }

  method Do<V>(vector: Vector<V>, op: Op<V>)
    requires vector.Valid() && Apply(vector.Items(), op).Some?
    modifies vector`slots, vector`size, vector`capacity, vector.slots, vector.elements
    ensures vector.Valid() && (vector.slots == old(vector.slots) || fresh(vector.slots))
    ensures Some(vector.Items()) == Apply(old(vector.Items()), op) && vector.Rest() == old(vector.Rest())
  {
    match op
    case Insert(i, elem) => vector.Insert(i, elem);
    case Append(elem) => vector.Append(elem);
    case Set(i, elem) => vector.Set(i, elem);
    case Delete(i) => vector.Delete(i);
  }

  /**
    A whole life of a vector: it is the sequence the operations make, and in the
    end every copy it has made has been destroyed, once, and nothing else.
   */
  method Session<V>(elements: Elements<V>, ops: seq<Op<V>>) returns (items: seq<Option<V>>)
    requires elements.Valid() && ApplyAll([], ops).Some?
    modifies elements
    ensures elements.Valid() && elements.live == old(elements.live)
    ensures ApplyAll([], ops) == Some(items)
  {
    hide Vector.Valid, Vector.Items, Vector.Rest, Apply;
    var vector := new Vector<V>(elements);
    var i := 0;
    assert ops[0..] == ops;
    while i < |ops|
      invariant i <= |ops| && vector.Valid() && fresh(vector) && fresh(vector.slots) && vector.elements == elements
      invariant vector.Rest() == old(elements.live)
      invariant ApplyAll(vector.Items(), ops[i..]) == ApplyAll([], ops)
    {
      assert ops[i..][0] == ops[i] && ops[i..][1..] == ops[i + 1..];
      Do(vector, ops[i]);
      i := i + 1;
    }
    assert ops[|ops|..] == [];
    items := ReadAll(vector);
    vector.DestroyAll();
  }

  method ReadAll<V>(vector: Vector<V>) returns (items: seq<Option<V>>)
    requires vector.Valid()
    ensures items == vector.Items()
  {
    items := [];
    var i := 0;
    while i < vector.size
      invariant i == |items| <= vector.size && items == vector.Items()[..i]
    {
      var x := vector.Get(i);
      items := items + [if x.Some? then Some(vector.elements.live[x.value]) else None];
      i := i + 1;
    }
  }
}
