/** The allocator, and the operations on one table in page_table.c and kernel.c. */
module PageMemory {
  import opened Prelude
  import opened AddressBits
  import opened PageTables

  /** There is always room: past the last block in use. */
  lemma {:induction false} Room(keys: set<int>) returns (p: int)
    ensures p > 0 && forall q :: q in keys ==> Apart(p, q)
    ensures forall q :: q in keys ==> q + BLOCK_SIZE <= p
    decreases keys
  {
    if keys == {} {
      p := 1;
    } else {
      var k := Any(keys);
      var rest := keys - {k};
      p := Room(rest);
      if p < k + BLOCK_SIZE { p := k + BLOCK_SIZE; }
      forall q | q in keys ensures q + BLOCK_SIZE <= p {
        assert q == k || q in rest;
      }
    }
  }

  class Memory {
    var blocks: Blocks

    /** A block of `words` words: `calloc` and `malloc`, neither of which fails here. */
    method Allocate(words: seq<int>) returns (a: int)
      modifies this
      ensures Free(old(blocks), a) && blocks == old(blocks)[a := words]
    {
      ghost var p := Room(blocks.Keys);
      assert Free(blocks, p);
      a :| Free(blocks, a);
      blocks := blocks[a := words];
    }

    /** `PageTable_create` */
    method NewTable() returns (a: int)
      modifies this
      ensures Free(old(blocks), a) && blocks == old(blocks)[a := Zeroes()]
    {
      a := Allocate(Zeroes());
    }

    /** `ask_kernel_for_frame`: whatever the block held before. */
    method NewFrame() returns (a: int)
      modifies this
      ensures Free(old(blocks), a) && a in blocks && |blocks[a]| == PAGETABLE_SIZE
      ensures blocks == old(blocks)[a := blocks[a]]
    {
      var words: seq<int> := *;
      if |words| != PAGETABLE_SIZE { words := Zeroes(); }
      a := Allocate(words);
    }

    /** `PageTable_get_entry` */
    method Entry(p: int, i: nat) returns (w: int)
      requires p in blocks && i < |blocks[p]|
      ensures w == blocks[p][i]
    {
      w := blocks[p][i];
    }

    /** `PageTable_set_entry` */
    method SetEntry(p: int, i: nat, w: int)
      requires p in blocks && i < |blocks[p]|
      modifies this
      ensures blocks == old(blocks)[p := old(blocks[p])[i := w]]
    {
      blocks := blocks[p := blocks[p][i := w]];
    }

    /** `free`: the block must be in use, so no block can be freed twice. */
    method Release(p: int)
      requires p in blocks
      modifies this
      ensures blocks == old(blocks) - {p}
    {
      blocks := blocks - {p};
    }
  }
}
