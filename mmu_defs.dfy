/**
 * Definitions shared by the model of the bcm MMU manager (sys/src/9/bcm/mmu.c):
 * the constants of the ARMv7-A short-descriptor translation tables, the entry
 * encodings the C code builds, the L1X/L2X index macros, the per-core
 * dirty-span bookkeeping and the boot-time L1 table.
 *
 * Addresses (uintptr) are naturals below 2^32, with wrap-around written out
 * where the C code adds to an address; table entries (PTE) are 32-bit
 * bit-vectors.  The header values (mem.h, arm.h) are not part of this model:
 * they are fixed here to the Raspberry Pi memory map and to the ARMv7-A
 * short-descriptor format.
 */
module MmuDefs {

  type PTE = bv32

  const Word: nat := 0x1_0000_0000
  const MiB: nat := 0x10_0000
  const BY2PG: nat := 0x1000
  const L1Entries: nat := 4096
  const L2Entries: nat := 256

  /* memory map */
  const KZERO: nat := 0x8000_0000
  const PHYSDRAM: nat := 0
  const UZERO: nat := 0
  const USTKTOP: nat := 0x4000_0000
  const HVECTORS: nat := 0xFFFF_0000

  /* the user part of the L1 table, [L1lo, L1hi) */
  const L1lo: nat := UZERO / MiB
  const L1hi: nat := (USTKTOP + MiB - 1) / MiB

  /* descriptor types: bits 1..0 of an entry */
  const Fault: PTE := 0
  const Coarse: PTE := 1
  const Section: PTE := 2
  const Fine: PTE := 3
  const Small: PTE := 2

  const Dom0: PTE := 0
  const Krw: PTE := 1
  const Uro: PTE := 2
  const Urw: PTE := 3
  const L1noexec: PTE := 0x10
  const L2noexec: PTE := 0x1

  /* access permissions: bits 11..10 of a section, bits 5..4 of a small page */
  function L1AP(ap: PTE): PTE { ap << 10 }
  function L2AP(ap: PTE): PTE { ap << 4 }

  /* intent bits carried in the low bits of the physical address given to putmmu */
  const PTEWRITE: PTE := 0x2
  const PTEUNCACHED: PTE := 0x4
  const PTENOEXEC: PTE := 0x10

  /** The page frame of an address or entry: the offset bits cleared. */
  function PPN(x: PTE): PTE { x & !0xFFF }

  predicate PageAligned(x: PTE) { x & 0xFFF == 0 }

  /** The descriptor-type bits an entry carries. */
  function TypeBits(e: PTE): PTE { e & (Fine | Section | Coarse) }

  /** The board description that mmuinit reads (the C `soc` structure). */
  datatype Soc = Soc(dramsize: nat, physio: nat, virtio: nat, iosize: nat, armlocal: nat,
                     l1ptedramattrs: PTE, l2ptedramattrs: PTE)

  /** Number of iterations of a loop stepping a MiB at a time over size bytes. */
  function MiBSteps(size: nat): nat { (size + MiB - 1) / MiB }

  /**
   * What the board must satisfy for mmuinit's loops to end: neither window
   * may run into the end of the 32-bit address space, where `pa += MiB` would
   * wrap around and the loop would never stop.
   */
  predicate SocOk(soc: Soc)
  {
    && PHYSDRAM + MiBSteps(soc.dramsize) * MiB < Word
    && soc.physio + MiBSteps(soc.iosize) * MiB < Word
    && soc.virtio < Word
    && soc.armlocal < Word
  }

  /** Truncation of an address to 32 bits. */
  function Wrap(x: int): nat { x % Word }

  /** L1X: bits 31..20 of a virtual address. */
  function L1X(va: nat): (x: nat)
    ensures x < L1Entries
  {
    (va / MiB) % L1Entries
  }

  /** L2X: bits 19..12 of a virtual address. */
  function L2X(va: nat): (x: nat)
    ensures x < L2Entries
  {
    (va / BY2PG) % L2Entries
  }

  /** The two indices and the page offset are the whole of a 32-bit address. */
  lemma AddressSplit(va: nat)
    requires va < Word
    ensures va == L1X(va) * MiB + L2X(va) * BY2PG + va % BY2PG
  {
    var q := va / MiB;
    var r := va % MiB;
    assert va == q * MiB + r;
    assert q < L1Entries;
    assert L1X(va) == q;
    var p := va / BY2PG;
    assert p == q * 256 + r / BY2PG by {
      assert va == (q * 256 + r / BY2PG) * BY2PG + r % BY2PG;
    }
    assert r / BY2PG < 256;
    assert L2X(va) == r / BY2PG;
    assert va % BY2PG == r % BY2PG by {
      assert va == (q * 256 + r / BY2PG) * BY2PG + r % BY2PG;
    }
  }

  /** Quotient and remainder are determined by any decomposition x == q * d + r with 0 <= r < d. */
  lemma DivModUnique(x: nat, d: nat, q: nat, r: nat)
    requires 0 <= r < d && x == q * d + r
    ensures x / d == q && x % d == r
  {
    var q0 := x / d;
    var r0 := x % d;
    assert (q - q0) * d == r0 - r;
    if q > q0 {
      AtLeastOnce(q - q0, d);
    } else if q < q0 {
      AtLeastOnce(q0 - q, d);
    }
  }

  /** A positive multiple of d is at least d. */
  lemma {:induction false} AtLeastOnce(a: nat, d: nat)
    requires a >= 1
    ensures a * d >= d
  {
    if a > 1 {
      AtLeastOnce(a - 1, d);
      assert a * d == (a - 1) * d + d;
    }
  }

  /** Adding k MiB to an address and truncating to 32 bits moves its L1 slot by k, modulo 4096. */
  lemma L1XStep(va: nat, k: nat)
    requires va < Word
    ensures L1X(Wrap(va + k * MiB)) == (L1X(va) + k) % L1Entries
  {
    var q := va / MiB;
    var r := va % MiB;
    assert q < L1Entries;
    var a := q + k;
    var t := a / L1Entries;
    var u := a % L1Entries;
    var low := u * MiB + r;
    assert low < Word by {
      assert u * MiB <= (L1Entries - 1) * MiB;
    }
    assert va + k * MiB == t * Word + low by {
      assert va + k * MiB == a * MiB + r;
      assert a * MiB == (t * L1Entries + u) * MiB;
      assert (t * L1Entries) * MiB == t * Word;
    }
    DivModUnique(va + k * MiB, Word, t, low);
    DivModUnique(low, MiB, u, r);
    DivModUnique(u, L1Entries, 0, u);
    DivModUnique(q, L1Entries, 0, q);
    assert Wrap(va + k * MiB) == low;
    assert L1X(va) == q;
  }

  /** Position of slot i in a run of slots starting at slot base, counted modulo the table size. */
  function WinIndex(base: nat, i: nat): (k: nat)
    ensures k < L1Entries
  {
    (i - base) % L1Entries
  }

  /** The k-th slot of a run starting at base is found back at position k of the run. */
  lemma WinIndexOfStep(base: nat, k: nat)
    requires base < L1Entries && k < L1Entries
    ensures WinIndex(base, (base + k) % L1Entries) == k
  {
    var s := (base + k) % L1Entries;
    if base + k < L1Entries {
      assert s == base + k;
    } else {
      assert s == base + k - L1Entries;
    }
  }

  /** Extending a run by one slot adds exactly the slot after its end. */
  lemma WinStep(base: nat, k: nat, i: nat)
    requires base < L1Entries && k < L1Entries && i < L1Entries
    ensures WinIndex(base, i) < k + 1 <==> WinIndex(base, i) < k || i == (base + k) % L1Entries
  {
    WinIndexOfStep(base, k);
    if WinIndex(base, i) == k {
      if i >= base {
        assert i - base == k;
      } else {
        assert i - base + L1Entries == k;
      }
    }
  }

  /* ---- entries built by the C code ---- */

  /** A section mapping kernel RAM: PHYSDRAM-relative frame, kernel read/write, DRAM cache attributes. */
  function DramPte(soc: Soc, pa: nat): PTE
    requires pa < Word
  {
    DramSection(pa as PTE, soc.l1ptedramattrs)
  }

  /** The bits of a kernel RAM section for a frame and the board's DRAM attributes. */
  function DramSection(frame: PTE, attrs: PTE): PTE
  {
    frame | Dom0 | L1AP(Krw) | Section | attrs
  }

  /** PTEDRAM: the identity mapping of the first MiB of RAM. */
  function PteDram(soc: Soc): PTE { DramPte(soc, PHYSDRAM) }

  /** A section mapping device registers: kernel read/write, never executable. */
  function IoPte(pa: nat): PTE
    requires pa < Word
  {
    (pa as PTE) | Dom0 | L1AP(Krw) | Section | L1noexec
  }

  /** A coarse entry pointing at a second-level table. */
  function CoarsePte(pa: PTE): PTE { PPN(pa) | Dom0 | Coarse }

  /** The L2 entry that maps the exception vectors onto the first page of RAM. */
  function VectorsSmall(soc: Soc): PTE
  {
    (PHYSDRAM as PTE) | L2AP(Krw) | Small | soc.l2ptedramattrs
  }

  /** The L2 attribute bits putmmu derives from the intent bits of pa. */
  function SmallAttrs(pa: PTE, dramattrs: PTE): PTE
  {
    Small
    | (if pa & PTEUNCACHED == 0 then dramattrs else 0)
    | (if pa & PTEWRITE != 0 then L2AP(Urw) else L2AP(Uro))
    | (if pa & PTENOEXEC != 0 then L2noexec else 0)
  }

  /** The small-page entry putmmu writes for pa. */
  function SmallPte(pa: PTE, dramattrs: PTE): PTE { PPN(pa) | SmallAttrs(pa, dramattrs) }

  /** DRAM cache attributes for a small page use only bits 2..3 and 6..11. */
  predicate L2AttrsOk(a: PTE) { a & 0xFFFF_F033 == 0 }

  /**
   * Decoding the small-page entry putmmu writes: its frame is pa's frame, it
   * is a small page, its permission field is Urw exactly when PTEWRITE is set
   * (Uro otherwise), it is no-execute exactly when PTENOEXEC is set, and it
   * carries the DRAM attributes exactly when PTEUNCACHED is clear.
   */
  lemma SmallPteDecode(pa: PTE, a: PTE)
    requires L2AttrsOk(a)
    ensures var e := SmallPte(pa, a);
      && PPN(e) == PPN(pa)
      && e & 2 == Small
      && (e >> 4) & 3 == (if pa & PTEWRITE != 0 then Urw else Uro)
      && (e & L2noexec != 0 <==> pa & PTENOEXEC != 0)
      && e & a == (if pa & PTEUNCACHED == 0 then a else 0)
  {
  }

  /** A coarse entry is never Fault, has type Coarse, and gives back the page it points at. */
  lemma CoarsePteDecode(pa: PTE)
    requires PageAligned(pa)
    ensures CoarsePte(pa) != Fault && TypeBits(CoarsePte(pa)) == Coarse && PPN(CoarsePte(pa)) == pa
  {
  }

  /* ---- the dirty span of the user part of L1 ---- */

  /** The two counters of a core: mmul1lo slots from L1lo up, mmul1hi slots from L1hi down. */
  predicate SpanOk(lo: int, hi: int)
  {
    0 <= lo && 0 <= hi && L1lo + lo <= L1hi - hi
  }

  predicate InSpan(x: int, lo: int, hi: int)
  {
    L1lo <= x < L1lo + lo || L1hi - hi <= x < L1hi
  }

  /**
   * The counter update done after slot x is filled (in mmuswitch and putmmu):
   * a slot outside both spans extends the span whose new count is smaller.
   */
  function SpanAfter(lo: int, hi: int, x: int): (r: (int, int))
    requires SpanOk(lo, hi) && L1lo <= x < L1hi
    ensures SpanOk(r.0, r.1)
    ensures InSpan(x, r.0, r.1)
    ensures lo <= r.0 && hi <= r.1
    ensures InSpan(x, lo, hi) ==> r == (lo, hi)
    ensures !InSpan(x, lo, hi) ==>
      if x + 1 - L1lo < L1hi - x then r == (x + 1 - L1lo, hi) && r.0 < L1hi - x
      else r == (lo, L1hi - x) && r.1 <= x + 1 - L1lo
  {
    if x >= L1lo + lo && x < L1hi - hi then
      if x + 1 - L1lo < L1hi - x then (x + 1 - L1lo, hi) else (lo, L1hi - x)
    else
      (lo, hi)
  }

  /** Growing the counters never drops a slot from the tracked spans. */
  lemma SpanGrows(lo: int, hi: int, lo': int, hi': int, y: int)
    requires lo <= lo' && hi <= hi' && InSpan(y, lo, hi)
    ensures InSpan(y, lo', hi')
  {
  }

  /* ---- the boot table built by mmuinit ---- */

  function IoEndVa(soc: Soc): nat { Wrap(soc.virtio + MiBSteps(soc.iosize) * MiB) }

  /* Each write of mmuinit, in order, as a function of the slot's value before it. */

  /** KZERO + k MiB maps PHYSDRAM + k MiB for every MiB of RAM. */
  function RamStage(soc: Soc, i: nat, prev: PTE): PTE
    requires SocOk(soc)
  {
    RamRun(soc, MiBSteps(soc.dramsize), i, prev)
  }

  /** Slot i after the first n steps of the RAM loop. */
  function RamRun(soc: Soc, n: nat, i: nat, prev: PTE): PTE
    requires SocOk(soc) && n <= MiBSteps(soc.dramsize)
  {
    var k := WinIndex(L1X(KZERO), i);
    if k < n then DramPte(soc, PHYSDRAM + k * MiB) else prev
  }

  /** The identity map of the first MiB of RAM. */
  function IdentStage(soc: Soc, i: nat, prev: PTE): PTE
    requires SocOk(soc)
  {
    if i == L1X(PHYSDRAM) then PteDram(soc) else prev
  }

  /** virtio + k MiB maps physio + k MiB for every MiB of the device registers. */
  function IoStage(soc: Soc, i: nat, prev: PTE): PTE
    requires SocOk(soc)
  {
    IoRun(soc, MiBSteps(soc.iosize), i, prev)
  }

  /** Slot i after the first n steps of the device loop. */
  function IoRun(soc: Soc, n: nat, i: nat, prev: PTE): PTE
    requires SocOk(soc) && n <= MiBSteps(soc.iosize)
  {
    var k := WinIndex(L1X(soc.virtio), i);
    if k < n then IoPte(soc.physio + k * MiB) else prev
  }

  /** The ARM-local registers, when present, in the slot right after the device window. */
  function ArmStage(soc: Soc, i: nat, prev: PTE): PTE
    requires SocOk(soc)
  {
    if soc.armlocal != 0 && i == L1X(IoEndVa(soc)) then IoPte(soc.armlocal) else prev
  }

  /** The high exception vectors, through the L2 table at l2pa. */
  function VecStage(l2pa: nat, i: nat, prev: PTE): PTE
    requires l2pa < Word
  {
    if i == L1X(HVECTORS) then (l2pa as PTE) | Dom0 | Coarse else prev
  }

  /**
   * The value of L1 slot i after mmuinit, given its value prev before:
   * each later write in mmuinit takes precedence over the earlier ones.
   */
  function BootSlot(soc: Soc, l2pa: nat, i: nat, prev: PTE): PTE
    requires SocOk(soc) && l2pa < Word
  {
    VecStage(l2pa, i, ArmStage(soc, i, IoStage(soc, i, IdentStage(soc, i, RamStage(soc, i, prev)))))
  }

  /** DRAM cache attributes for a section use only bits 2..19, never the type or frame bits. */
  predicate L1AttrsOk(a: PTE) { a & 0xFFF0_0003 == 0 }

  /** A section built from a MiB-aligned frame (low 20 bits clear) decodes back to that frame and has type Section. */
  lemma DramPteDecode(frame: PTE, attrs: PTE)
    requires frame & 0xF_FFFF == 0 && L1AttrsOk(attrs)
    ensures TypeBits(DramSection(frame, attrs)) == Section
    ensures DramSection(frame, attrs) & 0xFFF0_0000 == frame
  {
  }

  /**
   * For each MiB k of RAM, the slot of KZERO + k MiB maps PHYSDRAM + k MiB as
   * a section with the DRAM attributes, unless a later write of mmuinit
   * (vectors, ARM-local, devices, identity map) claims the same slot.
   */
  lemma BootRamSlot(soc: Soc, l2pa: nat, k: nat, prev: PTE)
    requires SocOk(soc) && l2pa < Word && k < MiBSteps(soc.dramsize)
    requires var i := L1X(Wrap(KZERO + k * MiB));
      && i != L1X(HVECTORS) && i != L1X(PHYSDRAM)
      && !(soc.armlocal != 0 && i == L1X(IoEndVa(soc)))
      && WinIndex(L1X(soc.virtio), i) >= MiBSteps(soc.iosize)
    ensures BootSlot(soc, l2pa, L1X(Wrap(KZERO + k * MiB)), prev) == DramPte(soc, PHYSDRAM + k * MiB)
  {
    var i := L1X(Wrap(KZERO + k * MiB));
    L1XStep(KZERO, k);
    assert MiBSteps(soc.dramsize) <= L1Entries;
    WinIndexOfStep(L1X(KZERO), k);
    assert WinIndex(L1X(KZERO), i) == k;
  }

  /** Every slot of the device window, and the ARM-local slot, is a no-execute entry with the section bit set. */
  lemma BootIoNoexec(soc: Soc, l2pa: nat, i: nat, prev: PTE)
    requires SocOk(soc) && l2pa < Word && i < L1Entries && i != L1X(HVECTORS)
    requires WinIndex(L1X(soc.virtio), i) < MiBSteps(soc.iosize)
      || (soc.armlocal != 0 && i == L1X(IoEndVa(soc)))
    ensures BootSlot(soc, l2pa, i, prev) & L1noexec == L1noexec
    ensures BootSlot(soc, l2pa, i, prev) & Section == Section
  {
  }

  /** The exception-vector slot is a coarse entry pointing at the page-aligned l2 table. */
  lemma BootVectors(soc: Soc, l2pa: nat, prev: PTE)
    requires SocOk(soc) && l2pa < Word && PageAligned(l2pa as PTE)
    ensures TypeBits(BootSlot(soc, l2pa, L1X(HVECTORS), prev)) == Coarse
    ensures PPN(BootSlot(soc, l2pa, L1X(HVECTORS), prev)) == l2pa as PTE
  {
  }
}
