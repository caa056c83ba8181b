/**
  How mmu.c cuts a virtual address into three table indices and an offset, and
  the key of the buffer out of it. Bit 51 and above are ignored.
 */
module AddressBits {
  import opened TlbModel

  const PAGETABLE_SIZE: nat := 4096
  const BLOCK_SIZE: nat := 0x8000

  function Low51(va: bv64): bv64 { va & 0x7FFFFFFFFFFFF }
  function Key(va: bv64): bv64 { (va & 0x7FFFFFFFFFFFF) >> 15 }
  function Vpn1(va: bv64): bv64 { (va & 0x7FFFFFFFFFFFF) >> 39 }
  function Vpn2(va: bv64): bv64 { (va & 0x7FFFFFFFFF) >> 27 }
  function Vpn3(va: bv64): bv64 { (va & 0x7FFFFFF) >> 15 }
  function Offset(va: bv64): bv64 { va & 0x7FFF }

  lemma KeyOf(va: bv64)
    ensures (va & 0x7FFFFFFFFFFFF) >> 15 == Key(va)
  {
  }

  /** The parts are in range. */
  lemma PartsInRange(va: bv64)
    ensures Vpn1(va) < 4096 && Vpn2(va) < 4096 && Vpn3(va) < 4096 && Offset(va) < 0x8000 && Key(va) < 0x1000000000
  {
  }

  /** The key is the three indices side by side. */
  lemma KeyJoinsIndices(va: bv64)
    ensures Key(va) == Vpn1(va) * 0x1000000 + Vpn2(va) * 0x1000 + Vpn3(va)
    ensures Key(va) >> 24 == Vpn1(va) && (Key(va) >> 12) & 0xFFF == Vpn2(va) && Key(va) & 0xFFF == Vpn3(va)
  {
  }

  ghost predicate SameIndices(a: bv64, b: bv64)
  {
    Vpn1(a) == Vpn1(b) && Vpn2(a) == Vpn2(b) && Vpn3(a) == Vpn3(b)
  }

  lemma LowDecides(a: bv64, b: bv64)
    requires Low51(a) == Low51(b)
    ensures SameIndices(a, b) && Offset(a) == Offset(b)
  {
  }

  lemma PartsDecide(a: bv64, b: bv64)
    requires SameIndices(a, b) && Offset(a) == Offset(b)
    ensures Low51(a) == Low51(b)
  {
  }

  lemma KeyDecides(a: bv64, b: bv64)
    requires Key(a) == Key(b)
    ensures SameIndices(a, b)
  {
  }

  lemma IndicesDecide(a: bv64, b: bv64)
    requires SameIndices(a, b)
    ensures Key(a) == Key(b)
  {
  }

  /** The split loses nothing of the low 51 bits, and nothing else counts. */
  lemma SplitIsInjective(a: bv64, b: bv64)
    ensures Low51(a) == Low51(b) <==> SameIndices(a, b) && Offset(a) == Offset(b)
    ensures Key(a) == Key(b) <==> SameIndices(a, b)
  {
    if Low51(a) == Low51(b) { LowDecides(a, b); }
    if SameIndices(a, b) && Offset(a) == Offset(b) { PartsDecide(a, b); }
    if Key(a) == Key(b) { KeyDecides(a, b); }
    if SameIndices(a, b) { IndicesDecide(a, b); }
  }

  function Join(v1: bv64, v2: bv64, v3: bv64, o: bv64): bv64
  {
    (v1 << 39) | (v2 << 27) | (v3 << 15) | o
  }

  /** Every choice of indices and offset is an address. */
  lemma SplitIsOnto(v1: bv64, v2: bv64, v3: bv64, o: bv64)
    requires v1 < 4096 && v2 < 4096 && v3 < 4096 && o < 0x8000
    ensures Vpn1(Join(v1, v2, v3, o)) == v1 && Vpn2(Join(v1, v2, v3, o)) == v2
    ensures Vpn3(Join(v1, v2, v3, o)) == v3 && Offset(Join(v1, v2, v3, o)) == o
  {
  }

  // ---------- as array indices ----------

  function Index(x: bv64): nat { x as nat }

  lemma IndexIsValue(x: bv64)
    ensures Index(x) == x as int
  {
  }

  /** The bits the walk goes by, and those it leaves, counted from the low end. */
  lemma BitsOf(va: bv64)
    ensures Vpn1(va) == (va >> 39) & 0xFFF && Vpn2(va) == (va >> 27) & 0xFFF && Vpn3(va) == (va >> 15) & 0xFFF
    ensures Offset(va) == va & 0x7FFF && Key(va) == (va >> 15) & 0xFFFFFFFFF
  {
  }

  /** The physical address: the offset into the frame. */
  function Physical(frame: int, va: bv64): int
  {
    frame + (va & 0x7FFF) as int
  }

  lemma PhysicalIs(frame: int, va: bv64)
    ensures Physical(frame, va) == frame + Index(Offset(va))
  {
    BitsOf(va);
    IndexIsValue(Offset(va));
  }

  lemma IndexIsInjective(x: bv64, y: bv64)
    ensures Index(x) == Index(y) <==> x == y
  {
    if Index(x) == Index(y) {
      assert (x as int) as bv64 == x;
      assert (y as int) as bv64 == y;
    }
  }

  lemma IndexInRange(x: bv64)
    requires x < 4096
    ensures Index(x) < PAGETABLE_SIZE
  {
  }

  lemma OffsetInRange(x: bv64)
    requires x < 0x8000
    ensures Index(x) < BLOCK_SIZE
  {
  }

  // ---------- paths through the tables ----------

  /** A node of the tables: the base table of a process, or what the indices lead to from it. */
  datatype Path = Path(pid: nat, v: seq<nat>)

  function Child(x: Path, i: nat): Path
  {
    Path(x.pid, x.v + [i])
  }

  function Parent(x: Path): Path
    requires x.v != []
  {
    Path(x.pid, x.v[..|x.v| - 1])
  }

  /** The frame of a page. */
  function FramePath(p: Page): Path
  {
    Path(p.pid, [Index(p.key >> 24), Index((p.key >> 12) & 0xFFF), Index(p.key & 0xFFF)])
  }

  lemma FramePathOf(va: bv64, pid: nat)
    ensures FramePath(Page(Key(va), pid)) == Path(pid, [Index(Vpn1(va)), Index(Vpn2(va)), Index(Vpn3(va))])
    ensures Index(Vpn1(va)) < PAGETABLE_SIZE && Index(Vpn2(va)) < PAGETABLE_SIZE && Index(Vpn3(va)) < PAGETABLE_SIZE
    ensures Index(Offset(va)) < BLOCK_SIZE
  {
    KeyJoinsIndices(va);
    PartsInRange(va);
    IndexInRange(Vpn1(va));
    IndexInRange(Vpn2(va));
    IndexInRange(Vpn3(va));
    OffsetInRange(Offset(va));
  }

  /** Addresses with the same path and the same offset agree in their low 51 bits. */
  lemma PathAndOffset(a: bv64, p: nat, b: bv64, q: nat)
    ensures FramePath(Page(Key(a), p)) == FramePath(Page(Key(b), q)) <==> p == q && Key(a) == Key(b)
    ensures Key(a) == Key(b) && Offset(a) == Offset(b) <==> Low51(a) == Low51(b)
  {
    FramePathOf(a, p);
    FramePathOf(b, q);
    SplitIsInjective(a, b);
    IndexIsInjective(Vpn1(a), Vpn1(b));
    IndexIsInjective(Vpn2(a), Vpn2(b));
    IndexIsInjective(Vpn3(a), Vpn3(b));
    var u, w := FramePath(Page(Key(a), p)).v, FramePath(Page(Key(b), q)).v;
    assert u == w <==> u[0] == w[0] && u[1] == w[1] && u[2] == w[2];
  }
}
