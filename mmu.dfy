/**
 * The bcm MMU manager (sys/src/9/bcm/mmu.c) as classes over mutable state:
 *   Mach       the per-core state: the L1 table (m->mmul1) and the two
 *              dirty-span counters m->mmul1lo and m->mmul1hi;
 *   Proc       a process's L2 bookkeeping: the active list mmul2, the reuse
 *              cache mmul2cache (head first) and the newtlb flag;
 *   PageStore  the page descriptors (pa, daddr), the memory of the L2 tables,
 *              indexed by physical address, a supply of fresh page ids
 *              standing for newpage, and the multiset of pages handed to
 *              freepages.
 * Cache write-backs are not modelled; TLB invalidations are recorded as
 * events in a ghost log of the core.
 */
module Mmu {
  import opened MmuDefs
  import opened Wrappers

  type PageId = nat

  /** A physical page address, as the key of the L2 table memory. */
  datatype Frame = Frame(addr: PTE)

  /** A TLB invalidation: of one virtual address, or of the whole TLB. */
  datatype TlbOp = InvalidateAddr(va: nat) | InvalidateAll

  /** A table of 256 Fault entries, as a zeroed page holds. */
  function Zeros(): (t: seq<PTE>)
    ensures |t| == L2Entries && forall k :: 0 <= k < |t| ==> t[k] == Fault
  {
    seq(L2Entries, _ => Fault)
  }

  class Mach {
    const l1: array<PTE>
    var mmul1lo: int
    var mmul1hi: int
    ghost var tlb: seq<TlbOp>

    ghost predicate Valid()
      reads this`mmul1lo, this`mmul1hi
    {
      l1.Length == L1Entries && SpanOk(mmul1lo, mmul1hi)
    }

    /** Every populated user slot lies in one of the two tracked spans. */
    ghost predicate SpanCovers()
      reads this`mmul1lo, this`mmul1hi, l1
      requires Valid()
    {
      SpanCoversIn(l1[..], mmul1lo, mmul1hi)
    }

    /** No user slot is populated. */
    ghost predicate UserClear()
      reads this`mmul1lo, this`mmul1hi, l1
      requires Valid()
    {
      forall x :: L1lo <= x < L1hi ==> l1[x] == Fault
    }

    constructor (table: array<PTE>)
      requires table.Length == L1Entries
      ensures l1 == table && mmul1lo == 0 && mmul1hi == 0 && tlb == [] && Valid()
    {
      l1 := table;
      mmul1lo, mmul1hi := 0, 0;
      tlb := [];
    }
  }

  class Proc {
    var mmul2: seq<PageId>
    var mmul2cache: seq<PageId>
    var newtlb: bool

    constructor ()
      ensures mmul2 == [] && mmul2cache == [] && !newtlb
    {
      mmul2, mmul2cache, newtlb := [], [], false;
    }
  }

  class PageStore {
    var pa: map<PageId, PTE>
    var daddr: map<PageId, int>
    var tables: map<Frame, seq<PTE>>
    var nextId: PageId
    var freed: multiset<PageId>

    constructor ()
      ensures pa == map[] && daddr == map[] && tables == map[] && nextId == 0 && freed == multiset{}
    {
      pa, daddr, tables, nextId, freed := map[], map[], map[], 0, multiset{};
    }
  }

  ghost predicate Distinct(s: seq<PageId>)
  {
    forall i, j :: 0 <= i < j < |s| ==> s[i] != s[j]
  }

  /** The page ids a process owns: its active list followed by its cache. */
  ghost function Owned(proc: Proc): seq<PageId>
    reads proc`mmul2, proc`mmul2cache
  {
    proc.mmul2 + proc.mmul2cache
  }

  /** A page has a descriptor, a fresh-supply id and a page-aligned table of 256 entries. */
  ghost predicate PageOk(p: PageId, pa: map<PageId, PTE>, daddr: map<PageId, int>,
                         tables: map<Frame, seq<PTE>>, nextId: nat)
  {
    p in pa && p in daddr && p < nextId && PageAligned(pa[p]) && Frame(pa[p]) in tables && |tables[Frame(pa[p])]| == L2Entries
  }

  /**
   * The well-formedness of a process's L2 pages: each page is on one list
   * once and has a table, and each active page backs a distinct user slot of
   * L1.
   */
  ghost predicate PoolOk(active: seq<PageId>, cache: seq<PageId>, pa: map<PageId, PTE>,
                         daddr: map<PageId, int>, tables: map<Frame, seq<PTE>>, nextId: nat)
  {
    && Distinct(active) && Distinct(cache)
    && (forall p :: p in active ==> p !in cache)
    && (forall p :: p in active ==> PageOk(p, pa, daddr, tables, nextId))
    && (forall p :: p in cache ==> PageOk(p, pa, daddr, tables, nextId))
    && (forall p :: p in active ==> p in daddr && L1lo <= daddr[p] < L1hi)
    && (forall p, q :: p in active && q in active && p != q ==>
          p in daddr && q in daddr && daddr[p] != daddr[q])
  }

  ghost predicate ProcOk(proc: Proc, st: PageStore)
    reads proc`mmul2, proc`mmul2cache, st`pa, st`daddr, st`tables, st`nextId
  {
    PoolOk(proc.mmul2, proc.mmul2cache, st.pa, st.daddr, st.tables, st.nextId)
  }

  /**
   * The user part of L1 shows exactly the process's active list: each active
   * page's slot is a coarse entry to its table, and every other user slot is
   * Fault.
   */
  ghost predicate Installed(m: Mach, proc: Proc, st: PageStore)
    reads m.l1, proc`mmul2, st`pa, st`daddr
  {
    InstalledIn(m.l1[..], proc.mmul2, st.pa, st.daddr)
  }

  /** Installed, on the contents of the L1 table. */
  ghost predicate InstalledIn(l1: seq<PTE>, active: seq<PageId>, pa: map<PageId, PTE>, daddr: map<PageId, int>)
  {
    && (forall p :: p in active ==>
          p in daddr && p in pa && 0 <= daddr[p] < |l1| && l1[daddr[p]] == CoarsePte(pa[p]))
    && (forall x :: L1lo <= x < L1hi && x < |l1| && l1[x] != Fault ==>
          exists p :: p in active && p in daddr && daddr[p] == x)
  }

  /** Every populated user slot of l1 lies in one of the spans the counters lo and hi describe. */
  ghost predicate SpanCoversIn(l1: seq<PTE>, lo: int, hi: int)
  {
    forall x :: L1lo <= x < L1hi && x < |l1| && l1[x] != Fault ==> InSpan(x, lo, hi)
  }

  /**
   * Filling the Fault user slot x with the coarse entry of a page pg that is
   * new to the active list, whose daddr becomes x, keeps the active list
   * installed with pg at its head.
   */
  lemma InstallStep(l1: seq<PTE>, active: seq<PageId>, pa: map<PageId, PTE>, daddr: map<PageId, int>,
                    x: int, pg: PageId, pa': map<PageId, PTE>)
    requires InstalledIn(l1, active, pa, daddr)
    requires L1lo <= x < L1hi && x < |l1| && l1[x] == Fault
    requires pg !in active && pg in pa' && PageAligned(pa'[pg])
    requires forall p :: p in active ==> p in pa' && pa'[p] == pa[p]
    ensures InstalledIn(l1[x := CoarsePte(pa'[pg])], [pg] + active, pa', daddr[pg := x])
  {
    var l1' := l1[x := CoarsePte(pa'[pg])];
    var daddr' := daddr[pg := x];
    forall p | p in [pg] + active
      ensures p in daddr' && p in pa' && 0 <= daddr'[p] < |l1'| && l1'[daddr'[p]] == CoarsePte(pa'[p])
    {
      if p != pg {
        assert p in active;
        assert daddr[p] != x;
      }
    }
    forall y | L1lo <= y < L1hi && y < |l1'| && l1'[y] != Fault
      ensures exists p :: p in [pg] + active && p in daddr' && daddr'[p] == y
    {
      if y == x {
        assert pg in [pg] + active && daddr'[pg] == y;
      } else {
        var p :| p in active && p in daddr && daddr[p] == y;
        assert p in [pg] + active && daddr'[p] == y;
      }
    }
  }

  /** Filling user slot x and updating the counters with SpanAfter keeps every populated slot covered. */
  lemma SpanStep(l1: seq<PTE>, lo: int, hi: int, x: int, e: PTE)
    requires SpanOk(lo, hi) && SpanCoversIn(l1, lo, hi) && L1lo <= x < L1hi && x < |l1|
    ensures SpanCoversIn(l1[x := e], SpanAfter(lo, hi, x).0, SpanAfter(lo, hi, x).1)
  {
    var r := SpanAfter(lo, hi, x);
    forall y | L1lo <= y < L1hi && y < |l1| && l1[x := e][y] != Fault
      ensures InSpan(y, r.0, r.1)
    {
      if y != x {
        SpanGrows(lo, hi, r.0, r.1, y);
      }
    }
  }

  /** Every table on the reuse cache is all Fault. */
  ghost predicate CacheClean(proc: Proc, st: PageStore)
    reads proc`mmul2cache, st`pa, st`tables
  {
    AllZero(proc.mmul2cache, st.pa, st.tables)
  }

  /** The tables of the listed pages exist and are all Fault. */
  ghost predicate AllZero(pages: seq<PageId>, pa: map<PageId, PTE>, tables: map<Frame, seq<PTE>>)
  {
    forall p :: p in pages ==> p in pa && Frame(pa[p]) in tables && tables[Frame(pa[p])] == Zeros()
  }

  /** Distinct pages a process owns are distinct physical pages, as newpage hands them out. */
  ghost predicate FramesApart(proc: Proc, st: PageStore)
    reads proc`mmul2, proc`mmul2cache, st`pa
  {
    Apart(Owned(proc), st.pa)
  }

  /** Distinct listed pages have distinct physical addresses. */
  ghost predicate Apart(pages: seq<PageId>, pa: map<PageId, PTE>)
  {
    forall p, q :: p in pages && q in pages && p != q && p in pa && q in pa ==> pa[p] != pa[q]
  }

  /* ---- boot ---- */

  /**
   * mmuinit: builds the boot L1 table in l1 (the table at address a) and the
   * exception-vector entry of the L2 table l2 at physical address l2pa.
   * Every slot ends as BootSlot says; nothing else in either table changes.
   */
  method MmuInit(l1: array<PTE>, l2: array<PTE>, soc: Soc, l2pa: nat)
    requires l1.Length == L1Entries && l2.Length == L2Entries
    requires SocOk(soc) && l2pa < Word
    modifies l1, l2
    ensures forall i :: 0 <= i < L1Entries ==> l1[i] == BootSlot(soc, l2pa, i, old(l1[i]))
    ensures forall k :: 0 <= k < L2Entries ==>
      l2[k] == if k == L2X(HVECTORS) then VectorsSmall(soc) else old(l2[k])
  {
    ghost var o := l1[..];
    MapRam(l1, soc);
    ghost var ram := l1[..];

    /* identity map the first MiB of RAM so the MMU can be enabled */
    l1[L1X(PHYSDRAM)] := PteDram(soc);
    ghost var ident := l1[..];

    var va := MapIo(l1, soc);
    ghost var io := l1[..];
    var pa := soc.armlocal;
    if pa != 0 {
      l1[L1X(va)] := IoPte(pa);
    }
    ghost var arm := l1[..];

    /* double map the exception vectors near the top of virtual memory */
    va := HVECTORS;
    l1[L1X(va)] := (l2pa as PTE) | Dom0 | Coarse;
    l2[L2X(va)] := VectorsSmall(soc);
    BootCompose(soc, l2pa, o, ram, ident, io, arm, l1[..]);
  }

  /** The stages of mmuinit, applied one after the other, give BootSlot. */
  lemma BootCompose(soc: Soc, l2pa: nat, o: seq<PTE>, ram: seq<PTE>, ident: seq<PTE>,
                    io: seq<PTE>, arm: seq<PTE>, fin: seq<PTE>)
    requires SocOk(soc) && l2pa < Word
    requires |o| == |ram| == |ident| == |io| == |arm| == |fin| == L1Entries
    requires forall i :: 0 <= i < L1Entries ==> ram[i] == RamStage(soc, i, o[i])
    requires ident == ram[L1X(PHYSDRAM) := PteDram(soc)]
    requires forall i :: 0 <= i < L1Entries ==> io[i] == IoStage(soc, i, ident[i])
    requires arm == if soc.armlocal != 0 then io[L1X(IoEndVa(soc)) := IoPte(soc.armlocal)] else io
    requires fin == arm[L1X(HVECTORS) := (l2pa as PTE) | Dom0 | Coarse]
    ensures forall i :: 0 <= i < L1Entries ==> fin[i] == BootSlot(soc, l2pa, i, o[i])
  {
  }

  /** The RAM loop of mmuinit: maps every MiB of RAM at KZERO upwards, wrapping at 2^32. */
  method MapRam(l1: array<PTE>, soc: Soc)
    requires l1.Length == L1Entries && SocOk(soc)
    modifies l1
    ensures forall i :: 0 <= i < L1Entries ==> l1[i] == RamStage(soc, i, old(l1[i]))
  {
    var va := KZERO;
    var pa := PHYSDRAM;
    ghost var k: nat := 0;
    ghost var olds := l1[..];
    while pa < PHYSDRAM + soc.dramsize
      invariant k <= MiBSteps(soc.dramsize)
      invariant pa == PHYSDRAM + k * MiB && va == Wrap(KZERO + k * MiB)
      invariant forall i :: 0 <= i < L1Entries ==> l1[i] == RamRun(soc, k, i, olds[i])
      decreases PHYSDRAM + soc.dramsize - pa
    {
      StepsLeft(soc.dramsize, k);
      RamWrite(l1, soc, k, va, pa, olds);
      WrapAdd(KZERO + k * MiB, MiB);
      va := Wrap(va + MiB);
      pa := pa + MiB;
      k := k + 1;
    }
    StepsDone(soc.dramsize, k);
  }

  /**
   * The device loop of mmuinit: maps every MiB of the peripheral registers
   * at virtio upwards; returns the address just past the window.
   */
  method MapIo(l1: array<PTE>, soc: Soc) returns (va: nat)
    requires l1.Length == L1Entries && SocOk(soc)
    modifies l1
    ensures forall i :: 0 <= i < L1Entries ==> l1[i] == IoStage(soc, i, old(l1[i]))
    ensures va == IoEndVa(soc)
  {
    va := soc.virtio;
    var pa := soc.physio;
    ghost var k: nat := 0;
    ghost var olds := l1[..];
    while pa < soc.physio + soc.iosize
      invariant k <= MiBSteps(soc.iosize)
      invariant pa == soc.physio + k * MiB && va == Wrap(soc.virtio + k * MiB)
      invariant forall i :: 0 <= i < L1Entries ==> l1[i] == IoRun(soc, k, i, olds[i])
      decreases soc.physio + soc.iosize - pa
    {
      StepsLeft(soc.iosize, k);
      IoWrite(l1, soc, k, va, pa, olds);
      WrapAdd(soc.virtio + k * MiB, MiB);
      va := Wrap(va + MiB);
      pa := pa + MiB;
      k := k + 1;
    }
    StepsDone(soc.iosize, k);
  }

  /** One step of the RAM loop: slot L1X(va) gets the section for pa. */
  method RamWrite(l1: array<PTE>, soc: Soc, ghost k: nat, va: nat, pa: nat, ghost olds: seq<PTE>)
    requires l1.Length == L1Entries && |olds| == L1Entries && SocOk(soc)
    requires k < MiBSteps(soc.dramsize)
    requires pa == PHYSDRAM + k * MiB && va == Wrap(KZERO + k * MiB)
    requires forall i :: 0 <= i < L1Entries ==> l1[i] == RamRun(soc, k, i, olds[i])
    modifies l1
    ensures forall i :: 0 <= i < L1Entries ==> l1[i] == RamRun(soc, k + 1, i, olds[i])
  {
    WindowWrite(l1, L1X(KZERO), KZERO, k);
    l1[L1X(va)] := DramPte(soc, pa);
  }

  /** One step of the device loop: slot L1X(va) gets the section for pa. */
  method IoWrite(l1: array<PTE>, soc: Soc, ghost k: nat, va: nat, pa: nat, ghost olds: seq<PTE>)
    requires l1.Length == L1Entries && |olds| == L1Entries && SocOk(soc)
    requires k < MiBSteps(soc.iosize)
    requires pa == soc.physio + k * MiB && va == Wrap(soc.virtio + k * MiB)
    requires forall i :: 0 <= i < L1Entries ==> l1[i] == IoRun(soc, k, i, olds[i])
    modifies l1
    ensures forall i :: 0 <= i < L1Entries ==> l1[i] == IoRun(soc, k + 1, i, olds[i])
  {
    WindowWrite(l1, L1X(soc.virtio), soc.virtio, k);
    l1[L1X(va)] := IoPte(pa);
  }

  /** Writing slot L1X(va) at step k of a run extends the run by exactly that slot. */
  lemma WindowWrite(l1: array<PTE>, base: nat, start: nat, k: nat)
    requires start < Word && base == L1X(start) && k < L1Entries
    ensures L1X(Wrap(start + k * MiB)) == (base + k) % L1Entries
    ensures WinIndex(base, (base + k) % L1Entries) == k
    ensures forall i :: 0 <= i < L1Entries ==>
      (WinIndex(base, i) < k + 1 <==> WinIndex(base, i) < k || i == (base + k) % L1Entries)
    ensures Wrap(Wrap(start + k * MiB) + MiB) == Wrap(start + (k + 1) * MiB)
  {
    L1XStep(start, k);
    WinIndexOfStep(base, k);
    forall i | 0 <= i < L1Entries
      ensures WinIndex(base, i) < k + 1 <==> WinIndex(base, i) < k || i == (base + k) % L1Entries
    {
      WinStep(base, k, i);
    }
    WrapAdd(start + k * MiB, MiB);
  }

  lemma WrapAdd(a: nat, b: nat)
    ensures Wrap(Wrap(a) + b) == Wrap(a + b)
  {
    var q := a / Word;
    assert a == q * Word + Wrap(a);
    assert Wrap(a) + b == (a + b) - q * Word;
  }

  /** A MiB-stepping loop over size bytes that has not finished after k steps runs a step more. */
  lemma StepsLeft(size: nat, k: nat)
    requires k * MiB < size
    ensures k < MiBSteps(size)
  {
  }

  /** A MiB-stepping loop over size bytes runs MiBSteps(size) times. */
  lemma StepsDone(size: nat, k: nat)
    requires k <= MiBSteps(size) && k * MiB >= size
    ensures k == MiBSteps(size)
  {
  }

  /**
   * mmuinit1: turns the identity map of the first MiB of RAM on or off,
   * then invalidates that address and the whole TLB.
   */
  method MmuInit1(m: Mach, on: bool, soc: Soc)
    requires m.Valid()
    modifies m.l1, m`tlb
    ensures forall i :: 0 <= i < L1Entries ==>
      m.l1[i] == if i == L1X(PHYSDRAM) then (if on then PteDram(soc) else Fault) else old(m.l1[i])
    ensures m.tlb == old(m.tlb) + [InvalidateAddr(PHYSDRAM), InvalidateAll]
  {
    m.l1[L1X(PHYSDRAM)] := if on then PteDram(soc) else Fault;
    m.tlb := m.tlb + [InvalidateAddr(PHYSDRAM), InvalidateAll];
  }

  /* ---- per-process L2 pool ---- */

  /** The values a map gives the listed pages: their slots (daddr) or their frames (pa). */
  ghost function Image<V>(pages: seq<PageId>, f: map<PageId, V>): set<V>
  {
    set p | p in pages && p in f :: f[p]
  }

  lemma ImageStep<V>(pages: seq<PageId>, f: map<PageId, V>, i: nat)
    requires i < |pages| && pages[i] in f
    ensures Image(pages[..i + 1], f) == Image(pages[..i], f) + {f[pages[i]]}
  {
    assert pages[..i + 1] == pages[..i] + [pages[i]];
  }

  /**
   * mmul2empty: faults the L1 slot of every active page (zeroing its table
   * first when clear is set) and moves the whole active list, in order, in
   * front of the cache.
   */
  method Mmul2Empty(m: Mach, proc: Proc, st: PageStore, clear: bool)
    requires m.Valid() && ProcOk(proc, st)
    modifies m.l1, proc`mmul2, proc`mmul2cache, st`tables
    ensures proc.mmul2 == [] && proc.mmul2cache == old(proc.mmul2) + old(proc.mmul2cache)
    ensures ProcOk(proc, st)
    ensures forall x :: 0 <= x < L1Entries ==>
      m.l1[x] == if x in Image(old(proc.mmul2), st.daddr) then Fault else old(m.l1[x])
    ensures forall a :: a in st.tables <==> a in old(st.tables)
    ensures forall a :: a in old(st.tables) ==>
      st.tables[a] == if clear && a.addr in Image(old(proc.mmul2), st.pa) then Zeros() else old(st.tables[a])
    ensures !clear ==> st.tables == old(st.tables)
    ensures clear && old(CacheClean(proc, st)) ==> CacheClean(proc, st)
    ensures old(FramesApart(proc, st)) ==> FramesApart(proc, st)
  {
    var list := proc.mmul2;
    ghost var cache := proc.mmul2cache;
    ghost var tables0 := st.tables;
    assert PoolOk(list, cache, st.pa, st.daddr, tables0, st.nextId);
    forall p | p in list
      ensures p in st.daddr && p in st.pa && 0 <= st.daddr[p] < m.l1.Length && Frame(st.pa[p]) in st.tables
    {
    }
    FaultActive(m.l1, list, st, clear);
    ZeroFramesShape(tables0, list, st.pa);
    DistinctAppend(list, cache);
    proc.mmul2cache := proc.mmul2 + proc.mmul2cache;
    proc.mmul2 := [];
    PoolEmptied(list, cache, st.pa, st.daddr, tables0, st.nextId, clear);
    assert Owned(proc) == list + cache;
  }

  /**
   * The loop of mmul2empty: for each listed page, zeroes its table when
   * clear is set and faults its L1 slot.
   */
  method FaultActive(l1: array<PTE>, list: seq<PageId>, st: PageStore, clear: bool)
    requires forall p :: p in list ==>
      p in st.daddr && p in st.pa && 0 <= st.daddr[p] < l1.Length && Frame(st.pa[p]) in st.tables
    modifies l1, st`tables
    ensures forall x :: 0 <= x < l1.Length ==>
      l1[x] == if x in Image(list, st.daddr) then Fault else old(l1[x])
    ensures st.tables == if clear then ZeroFrames(old(st.tables), list, st.pa) else old(st.tables)
  {
    ghost var olds := l1[..];
    var i := 0;
    while i < |list|
      invariant 0 <= i <= |list|
      invariant forall x :: 0 <= x < l1.Length ==>
        l1[x] == if x in Image(list[..i], st.daddr) then Fault else olds[x]
      invariant st.tables == if clear then ZeroFrames(old(st.tables), list[..i], st.pa) else old(st.tables)
    {
      assert list[i] in list;
      FaultStep(l1, list, st, clear, i, olds, old(st.tables));
      i := i + 1;
    }
    assert list[..i] == list;
  }

  /** One step of mmul2empty's loop: page list[i] has its table zeroed (when clear) and its slot faulted. */
  method FaultStep(l1: array<PTE>, list: seq<PageId>, st: PageStore, clear: bool, i: nat,
                   ghost olds: seq<PTE>, ghost tables0: map<Frame, seq<PTE>>)
    requires i < |list| && |olds| == l1.Length
    requires list[i] in st.daddr && list[i] in st.pa && 0 <= st.daddr[list[i]] < l1.Length
    requires forall x :: 0 <= x < l1.Length ==>
      l1[x] == if x in Image(list[..i], st.daddr) then Fault else olds[x]
    requires st.tables == if clear then ZeroFrames(tables0, list[..i], st.pa) else tables0
    modifies l1, st`tables
    ensures forall x :: 0 <= x < l1.Length ==>
      l1[x] == if x in Image(list[..i + 1], st.daddr) then Fault else olds[x]
    ensures st.tables == if clear then ZeroFrames(tables0, list[..i + 1], st.pa) else tables0
  {
    var page := list[i];
    ImageStep(list, st.daddr, i);
    ZeroFramesStep(tables0, list, st.pa, i);
    if clear {
      st.tables := st.tables[Frame(st.pa[page]) := Zeros()];
    }
    l1[st.daddr[page]] := Fault;
  }

  /** The table memory after zeroing the table of each listed page, in order. */
  ghost function ZeroFrames(tables: map<Frame, seq<PTE>>, pages: seq<PageId>, pa: map<PageId, PTE>): map<Frame, seq<PTE>>
  {
    if pages == [] then tables
    else
      var rest := ZeroFrames(tables, pages[..|pages| - 1], pa);
      var p := pages[|pages| - 1];
      if p in pa then rest[Frame(pa[p]) := Zeros()] else rest
  }

  /** Zeroing one more page of the list zeroes that page's table after the others. */
  lemma ZeroFramesStep(tables: map<Frame, seq<PTE>>, pages: seq<PageId>, pa: map<PageId, PTE>, i: nat)
    requires i < |pages| && pages[i] in pa
    ensures ZeroFrames(tables, pages[..i + 1], pa) == ZeroFrames(tables, pages[..i], pa)[Frame(pa[pages[i]]) := Zeros()]
  {
    assert pages[..i + 1][..i] == pages[..i];
  }

  /**
   * Zeroing the listed pages' tables, which all exist, keeps the set of
   * tables and makes exactly the listed pages' tables all Fault.
   */
  lemma {:induction false} ZeroFramesShape(tables: map<Frame, seq<PTE>>, pages: seq<PageId>, pa: map<PageId, PTE>)
    requires forall p :: p in pages ==> p in pa && Frame(pa[p]) in tables
    ensures forall a :: a in ZeroFrames(tables, pages, pa) <==> a in tables
    ensures forall a :: a in tables ==>
      ZeroFrames(tables, pages, pa)[a] == if a.addr in Image(pages, pa) then Zeros() else tables[a]
    decreases |pages|
  {
    ZeroFramesKeys(tables, pages, pa);
    if pages != [] {
      var init := pages[..|pages| - 1];
      var p := pages[|pages| - 1];
      forall q | q in init ensures q in pa && Frame(pa[q]) in tables {
        assert q in pages;
      }
      ZeroFramesShape(tables, init, pa);
      ImageLast(pages, pa);
      forall a | a in tables
        ensures ZeroFrames(tables, pages, pa)[a] == if a.addr in Image(pages, pa) then Zeros() else tables[a]
      {
        if a.addr != pa[p] {
          assert a != Frame(pa[p]);
        }
      }
    }
  }

  /** The image of a list is that of all but its last page, plus the last page's value. */
  lemma ImageLast<V>(pages: seq<PageId>, f: map<PageId, V>)
    requires pages != [] && pages[|pages| - 1] in f
    ensures Image(pages, f) == Image(pages[..|pages| - 1], f) + {f[pages[|pages| - 1]]}
  {
    assert pages == pages[..|pages| - 1] + [pages[|pages| - 1]];
  }

  /** Zeroing tables that all exist adds no table. */
  lemma {:induction false} ZeroFramesKeys(tables: map<Frame, seq<PTE>>, pages: seq<PageId>, pa: map<PageId, PTE>)
    requires forall p :: p in pages ==> p in pa && Frame(pa[p]) in tables
    ensures forall a :: a in ZeroFrames(tables, pages, pa) <==> a in tables
    decreases |pages|
  {
    if pages != [] {
      var init := pages[..|pages| - 1];
      assert pages[|pages| - 1] in pages;
      forall q | q in init ensures q in pa && Frame(pa[q]) in tables {
        assert q in pages;
      }
      ZeroFramesKeys(tables, init, pa);
    }
  }

  /**
   * Moving the active list onto the cache, zeroing its tables or not, keeps
   * the pool well formed, and with zeroing keeps a clean cache clean.
   */
  lemma PoolEmptied(active: seq<PageId>, cache: seq<PageId>, pa: map<PageId, PTE>, daddr: map<PageId, int>,
                    tables: map<Frame, seq<PTE>>, nextId: nat, clear: bool)
    requires PoolOk(active, cache, pa, daddr, tables, nextId) && Distinct(active + cache)
    ensures var tables' := if clear then ZeroFrames(tables, active, pa) else tables;
      && PoolOk([], active + cache, pa, daddr, tables', nextId)
      && (clear && AllZero(cache, pa, tables) ==> AllZero(active + cache, pa, tables'))
  {
    var tables' := if clear then ZeroFrames(tables, active, pa) else tables;
    forall p | p in active ensures p in pa && Frame(pa[p]) in tables {
      assert PageOk(p, pa, daddr, tables, nextId);
    }
    ZeroFramesShape(tables, active, pa);
    forall p | p in active + cache ensures PageOk(p, pa, daddr, tables', nextId) {
      assert PageOk(p, pa, daddr, tables, nextId);
    }
    if clear && AllZero(cache, pa, tables) {
      forall p | p in active + cache
        ensures p in pa && Frame(pa[p]) in tables' && tables'[Frame(pa[p])] == Zeros()
      {
        if p in active {
          assert pa[p] in Image(active, pa);
        }
      }
    }
  }

  /** memset(&l1[from], 0, n*sizeof(PTE)). */
  method ClearSlots(l1: array<PTE>, from: nat, n: nat)
    requires from + n <= l1.Length
    modifies l1
    ensures forall i :: 0 <= i < l1.Length ==> l1[i] == if from <= i < from + n then Fault else old(l1[i])
  {
    var j := 0;
    while j < n
      invariant 0 <= j <= n
      invariant forall i :: 0 <= i < l1.Length ==> l1[i] == if from <= i < from + j then Fault else old(l1[i])
    {
      l1[from + j] := Fault;
      j := j + 1;
    }
  }

  /**
   * mmul1empty: faults the two tracked spans (one slot directly, a longer
   * span with memset: the effect is the same) and resets both counters.
   */
  method Mmul1Empty(m: Mach)
    requires m.Valid()
    modifies m.l1, m`mmul1lo, m`mmul1hi
    ensures m.Valid() && m.mmul1lo == 0 && m.mmul1hi == 0
    ensures forall x :: 0 <= x < L1Entries ==>
      m.l1[x] == if InSpan(x, old(m.mmul1lo), old(m.mmul1hi)) then Fault else old(m.l1[x])
    ensures old(m.SpanCovers()) ==> m.UserClear()
  {
    if m.mmul1lo > 0 {
      if m.mmul1lo == 1 {
        m.l1[L1lo] := Fault;
      } else {
        ClearSlots(m.l1, L1lo, m.mmul1lo);
      }
      m.mmul1lo := 0;
    }
    if m.mmul1hi > 0 {
      if m.mmul1hi == 1 {
        m.l1[L1hi - m.mmul1hi] := Fault;
      } else {
        ClearSlots(m.l1, L1hi - m.mmul1hi, m.mmul1hi);
      }
      m.mmul1hi := 0;
    }
  }

  /* ---- context switch ---- */

  /**
   * mmuswitch: rebuilds the user part of this core's L1 for proc (nil: for
   * nobody).  A pending newtlb first moves proc's active list to its cache,
   * zeroing the tables, and clears the flag.
   */
  method MmuSwitch(m: Mach, proc: Proc?, st: PageStore)
    requires m.Valid() && m.SpanCovers()
    requires proc != null ==> ProcOk(proc, st)
    modifies m, m.l1, proc, st`tables
    ensures m.Valid() && m.SpanCovers()
    ensures proc == null ==> m.UserClear() && st.tables == old(st.tables)
    ensures proc != null ==> ProcOk(proc, st) && Installed(m, proc, st) && !proc.newtlb
    ensures proc != null && old(proc.newtlb) ==>
      && proc.mmul2 == [] && proc.mmul2cache == old(proc.mmul2) + old(proc.mmul2cache)
      && (forall a :: a in st.tables <==> a in old(st.tables))
      && (forall a :: a in st.tables ==>
            st.tables[a] == if a.addr in Image(old(proc.mmul2), st.pa) then Zeros() else old(st.tables[a]))
    ensures proc != null && !old(proc.newtlb) ==>
      proc.mmul2 == old(proc.mmul2) && proc.mmul2cache == old(proc.mmul2cache) && st.tables == old(st.tables)
    ensures proc != null && old(proc.newtlb) && old(CacheClean(proc, st)) ==> CacheClean(proc, st)
    ensures proc != null && !old(proc.newtlb) && old(CacheClean(proc, st)) ==> CacheClean(proc, st)
    ensures proc != null && old(FramesApart(proc, st)) ==> FramesApart(proc, st)
    ensures forall x :: 0 <= x < L1Entries && !(L1lo <= x < L1hi) ==> m.l1[x] == old(m.l1[x])
    ensures m.tlb == old(m.tlb) + [InvalidateAll]
  {
    if proc != null && proc.newtlb {
      Mmul2Empty(m, proc, st, true);
      proc.newtlb := false;
    }
    Mmul1Empty(m);
    if proc != null {
      InstallActive(m, proc, st);
    }
    /* lose any stale TLB entries */
    m.tlb := m.tlb + [InvalidateAll];
  }

  /**
   * The install loop of mmuswitch: from a user part that is all Fault, writes
   * each active page's coarse entry to its slot, widening the span counters
   * to cover it.
   */
  method InstallActive(m: Mach, proc: Proc, st: PageStore)
    requires m.Valid() && m.UserClear() && ProcOk(proc, st)
    modifies m`mmul1lo, m`mmul1hi, m.l1
    ensures m.Valid() && m.SpanCovers() && Installed(m, proc, st)
    ensures forall x :: 0 <= x < L1Entries && !(L1lo <= x < L1hi) ==> m.l1[x] == old(m.l1[x])
  {
    var l1 := m.l1;
    var list := proc.mmul2;
    forall j | 0 <= j < |list|
      ensures list[j] in st.daddr && list[j] in st.pa && L1lo <= st.daddr[list[j]] < L1hi
      ensures PageAligned(st.pa[list[j]])
      ensures forall k :: 0 <= k < |list| && k != j ==> st.daddr[list[k]] != st.daddr[list[j]]
    {
      assert list[j] in proc.mmul2;
      forall k | 0 <= k < |list| && k != j ensures st.daddr[list[k]] != st.daddr[list[j]] {
        assert list[k] in proc.mmul2;
      }
    }
    ghost var olds := l1[..];
    var i := 0;
    while i < |list|
      invariant 0 <= i <= |list|
      invariant m.Valid() && m.SpanCovers()
      invariant forall j :: 0 <= j < i ==> l1[st.daddr[list[j]]] == CoarsePte(st.pa[list[j]])
      invariant forall x :: L1lo <= x < L1hi && l1[x] != Fault ==>
        exists j :: 0 <= j < i && st.daddr[list[j]] == x
      invariant forall x :: 0 <= x < L1Entries && !(L1lo <= x < L1hi) ==> l1[x] == olds[x]
    {
      InstallOne(m, list, st, i, olds);
      i := i + 1;
    }
    forall x | L1lo <= x < L1hi && x < l1.Length && l1[x] != Fault
      ensures exists p :: p in proc.mmul2 && p in st.daddr && st.daddr[p] == x
    {
      var j :| 0 <= j < |list| && st.daddr[list[j]] == x;
      assert list[j] in proc.mmul2;
    }
  }

  /** One step of mmuswitch's install loop: the slot of page list[i] gets its coarse entry and the counters cover it. */
  method InstallOne(m: Mach, list: seq<PageId>, st: PageStore, i: nat, ghost olds: seq<PTE>)
    requires i < |list| && |olds| == L1Entries && m.Valid() && m.SpanCovers()
    requires forall j :: 0 <= j < |list| ==>
      list[j] in st.daddr && list[j] in st.pa && L1lo <= st.daddr[list[j]] < L1hi && PageAligned(st.pa[list[j]])
    requires forall j :: 0 <= j < |list| && j != i ==> st.daddr[list[j]] != st.daddr[list[i]]
    requires forall j :: 0 <= j < i ==> m.l1[st.daddr[list[j]]] == CoarsePte(st.pa[list[j]])
    requires forall x :: L1lo <= x < L1hi && m.l1[x] != Fault ==>
      exists j :: 0 <= j < i && st.daddr[list[j]] == x
    requires forall x :: 0 <= x < L1Entries && !(L1lo <= x < L1hi) ==> m.l1[x] == olds[x]
    modifies m`mmul1lo, m`mmul1hi, m.l1
    ensures m.Valid() && m.SpanCovers()
    ensures forall j :: 0 <= j < i + 1 ==> m.l1[st.daddr[list[j]]] == CoarsePte(st.pa[list[j]])
    ensures forall x :: L1lo <= x < L1hi && m.l1[x] != Fault ==>
      exists j :: 0 <= j < i + 1 && st.daddr[list[j]] == x
    ensures forall x :: 0 <= x < L1Entries && !(L1lo <= x < L1hi) ==> m.l1[x] == olds[x]
  {
    var page := list[i];
    var x := st.daddr[page];
    SpanStep(m.l1[..], m.mmul1lo, m.mmul1hi, x, CoarsePte(st.pa[page]));
    ghost var before := m.l1[..];
    m.l1[x] := CoarsePte(st.pa[page]);
    assert m.l1[..] == before[x := CoarsePte(st.pa[page])];
    CoarsePteDecode(st.pa[page]);
    var span := SpanAfter(m.mmul1lo, m.mmul1hi, x);
    m.mmul1lo, m.mmul1hi := span.0, span.1;
  }

  /**
   * flushmmu: marks the running process's mappings stale and switches to it
   * again, which leaves no user slot populated.
   */
  method FlushMmu(m: Mach, up: Proc, st: PageStore)
    requires m.Valid() && m.SpanCovers() && ProcOk(up, st)
    modifies m, m.l1, up, st`tables
    ensures m.Valid() && m.SpanCovers() && m.UserClear()
    ensures ProcOk(up, st) && !up.newtlb && up.mmul2 == []
    ensures up.mmul2cache == old(up.mmul2) + old(up.mmul2cache)
    ensures forall a :: a in st.tables <==> a in old(st.tables)
    ensures forall a :: a in st.tables ==>
      st.tables[a] == if a.addr in Image(old(up.mmul2), st.pa) then Zeros() else old(st.tables[a])
    ensures old(CacheClean(up, st)) ==> CacheClean(up, st)
    ensures old(FramesApart(up, st)) ==> FramesApart(up, st)
    ensures forall x :: 0 <= x < L1Entries && !(L1lo <= x < L1hi) ==> m.l1[x] == old(m.l1[x])
    ensures m.tlb == old(m.tlb) + [InvalidateAll]
  {
    up.newtlb := true;
    MmuSwitch(m, up, st);
  }

  /**
   * mmurelease: empties the active list without zeroing, hands every page of
   * the active list and the cache to freepages, once each, and clears the
   * user part of L1.
   */
  method MmuRelease(m: Mach, proc: Proc, st: PageStore)
    requires m.Valid() && m.SpanCovers() && ProcOk(proc, st)
    modifies m, m.l1, proc, st
    ensures proc.mmul2 == [] && proc.mmul2cache == []
    ensures st.freed == old(st.freed) + multiset(old(proc.mmul2) + old(proc.mmul2cache))
    ensures forall p :: p in old(proc.mmul2) + old(proc.mmul2cache) ==> st.freed[p] == old(st.freed[p]) + 1
    ensures m.Valid() && m.SpanCovers() && m.UserClear() && m.mmul1lo == 0 && m.mmul1hi == 0
    ensures forall x :: 0 <= x < L1Entries && !(L1lo <= x < L1hi) ==> m.l1[x] == old(m.l1[x])
    ensures st.pa == old(st.pa) && st.daddr == old(st.daddr) && st.tables == old(st.tables)
    ensures st.nextId == old(st.nextId) && proc.newtlb == old(proc.newtlb)
    ensures m.tlb == old(m.tlb) + [InvalidateAll]
  {
    ReleaseL2(m, proc, st);
    Mmul1Empty(m);
    m.tlb := m.tlb + [InvalidateAll];
  }

  /**
   * The L2 half of mmurelease: mmul2empty without zeroing, then every page
   * of the active list and the cache handed to freepages once.  Only user
   * slots of L1 change, and only to Fault.
   */
  method ReleaseL2(m: Mach, proc: Proc, st: PageStore)
    requires m.Valid() && m.SpanCovers() && ProcOk(proc, st)
    modifies m.l1, proc`mmul2, proc`mmul2cache, st`tables, st`freed
    ensures m.SpanCovers() && proc.mmul2 == [] && proc.mmul2cache == [] && st.tables == old(st.tables)
    ensures st.freed == old(st.freed) + multiset(old(proc.mmul2) + old(proc.mmul2cache))
    ensures forall p :: p in old(proc.mmul2) + old(proc.mmul2cache) ==> st.freed[p] == old(st.freed[p]) + 1
    ensures forall x :: 0 <= x < L1Entries && !(L1lo <= x < L1hi) ==> m.l1[x] == old(m.l1[x])
  {
    forall x | 0 <= x < L1Entries && !(L1lo <= x < L1hi) ensures x !in Image(proc.mmul2, st.daddr) {
    }
    DistinctAppend(proc.mmul2, proc.mmul2cache);
    Mmul2Empty(m, proc, st, false);
    FreeCache(proc, st);
  }

  /** freepages(proc->mmul2cache) and proc->mmul2cache = nil: each cached page is freed once. */
  method FreeCache(proc: Proc, st: PageStore)
    requires Distinct(proc.mmul2cache)
    modifies proc`mmul2cache, st`freed
    ensures proc.mmul2cache == []
    ensures st.freed == old(st.freed) + multiset(old(proc.mmul2cache))
    ensures forall p :: p in old(proc.mmul2cache) ==> st.freed[p] == old(st.freed[p]) + 1
  {
    forall p | p in proc.mmul2cache
      ensures multiset(proc.mmul2cache)[p] == 1
    {
      DistinctOnce(proc.mmul2cache, p);
    }
    st.freed := st.freed + multiset(proc.mmul2cache);
    proc.mmul2cache := [];
  }

  /** Two disjoint lists without repeats concatenate to a list without repeats. */
  lemma DistinctAppend(a: seq<PageId>, b: seq<PageId>)
    requires Distinct(a) && Distinct(b) && forall p :: p in a ==> p !in b
    ensures Distinct(a + b)
  {
    forall i, j | 0 <= i < j < |a + b|
      ensures (a + b)[i] != (a + b)[j]
    {
      if j >= |a| && i < |a| {
        assert (a + b)[i] in a && (a + b)[j] in b;
      }
    }
  }

  /** In a list without repeats every member occurs once. */
  lemma {:induction false} DistinctOnce(s: seq<PageId>, p: PageId)
    requires Distinct(s) && p in s
    ensures multiset(s)[p] == 1
    decreases |s|
  {
    assert s == [s[0]] + s[1..];
    if s[0] == p {
      assert p !in s[1..];
    } else {
      DistinctOnce(s[1..], p);
    }
  }

  /* ---- demand mapping ---- */

  /**
   * The L2-page choice of putmmu for the Fault slot x: the head of the cache
   * if there is one, else a fresh page (id nextId, zeroed table at newpa).
   * The page goes on the head of the active list with daddr x.
   */
  method TakeL2(up: Proc, st: PageStore, x: int, newpa: PTE) returns (pg: PageId)
    requires ProcOk(up, st) && L1lo <= x < L1hi
    requires forall p :: p in up.mmul2 ==> st.daddr[p] != x
    requires PageAligned(newpa) && FramesApart(up, st)
    requires forall p :: p in Owned(up) && p in st.pa ==> st.pa[p] != newpa
    modifies up`mmul2, up`mmul2cache, st`pa, st`daddr, st`tables, st`nextId
    ensures ProcOk(up, st) && FramesApart(up, st)
    ensures pg == Taken(old(up.mmul2cache), old(st.nextId))
    ensures pg !in old(up.mmul2) && pg in st.pa && pg in st.daddr && PageAligned(st.pa[pg])
    ensures up.mmul2 == [pg] + old(up.mmul2) && st.daddr == old(st.daddr)[pg := x]
    ensures old(up.mmul2cache) != [] ==>
      && up.mmul2cache == old(up.mmul2cache[1..])
      && st.pa == old(st.pa) && st.tables == old(st.tables) && st.nextId == old(st.nextId)
    ensures old(up.mmul2cache) == [] ==>
      && up.mmul2cache == []
      && st.pa == old(st.pa)[pg := newpa] && st.tables == old(st.tables)[Frame(newpa) := Zeros()]
      && st.nextId == old(st.nextId) + 1
    ensures old(CacheClean(up, st)) ==> CacheClean(up, st)
  {
    PoolPush(up.mmul2, up.mmul2cache, st.pa, st.daddr, st.tables, st.nextId, x, newpa);
    ApartTaken(up.mmul2, up.mmul2cache, st.pa, st.daddr, st.tables, st.nextId, newpa);
    if up.mmul2cache == [] {
      /* newpage(1, ...): a fresh, zeroed page */
      pg := st.nextId;
      st.nextId := st.nextId + 1;
      st.pa := st.pa[pg := newpa];
      st.tables := st.tables[Frame(newpa) := Zeros()];
    } else {
      pg := up.mmul2cache[0];
      assert pg in up.mmul2cache;
      up.mmul2cache := up.mmul2cache[1..];
    }
    st.daddr := st.daddr[pg := x];
    up.mmul2 := [pg] + up.mmul2;
    assert Owned(up) == [pg] + old(up.mmul2) + up.mmul2cache;
  }

  /**
   * The owned pages stay apart when putmmu takes the head of the cache (the
   * same pages, reordered) or a fresh page at newpa, an address no owned
   * page has.
   */
  lemma ApartTaken(active: seq<PageId>, cache: seq<PageId>, pa: map<PageId, PTE>,
                   daddr: map<PageId, int>, tables: map<Frame, seq<PTE>>, nextId: nat, newpa: PTE)
    requires PoolOk(active, cache, pa, daddr, tables, nextId) && Apart(active + cache, pa)
    requires forall p :: p in active + cache && p in pa ==> pa[p] != newpa
    ensures cache != [] ==> Apart([cache[0]] + active + cache[1..], pa)
    ensures cache == [] ==> Apart([nextId] + active + [], pa[nextId := newpa])
  {
    if cache != [] {
      forall p | p in [cache[0]] + active + cache[1..] ensures p in active + cache {
        if p in cache[1..] {
          assert p in cache;
        }
      }
    } else {
      forall p | p in active ensures p < nextId && p in active + cache {
        assert PageOk(p, pa, daddr, tables, nextId);
      }
    }
  }

  /** Pushing the chosen page on the active list keeps the pool well formed. */
  lemma PoolPush(active: seq<PageId>, cache: seq<PageId>, pa: map<PageId, PTE>,
                 daddr: map<PageId, int>, tables: map<Frame, seq<PTE>>, nextId: nat, x: int, newpa: PTE)
    requires PoolOk(active, cache, pa, daddr, tables, nextId) && L1lo <= x < L1hi
    requires forall p :: p in active ==> daddr[p] != x
    requires PageAligned(newpa)
    ensures cache != [] ==>
      cache[0] !in active && PoolOk([cache[0]] + active, cache[1..], pa, daddr[cache[0] := x], tables, nextId)
    ensures cache == [] ==>
      nextId !in active && PoolOk([nextId] + active, [], pa[nextId := newpa], daddr[nextId := x], tables[Frame(newpa) := Zeros()], nextId + 1)
  {
    if cache != [] {
      PoolPushCached(active, cache, pa, daddr, tables, nextId, x);
    } else {
      PoolPushFresh(active, pa, daddr, tables, nextId, x, newpa);
    }
  }

  /** Moving the head of the cache to the active list, with daddr x, keeps the pool well formed. */
  lemma PoolPushCached(active: seq<PageId>, cache: seq<PageId>, pa: map<PageId, PTE>,
                       daddr: map<PageId, int>, tables: map<Frame, seq<PTE>>, nextId: nat, x: int)
    requires PoolOk(active, cache, pa, daddr, tables, nextId) && L1lo <= x < L1hi && cache != []
    requires forall p :: p in active ==> daddr[p] != x
    ensures cache[0] !in active && PoolOk([cache[0]] + active, cache[1..], pa, daddr[cache[0] := x], tables, nextId)
  {
    var c := cache[0];
    assert c in cache;
    DistinctCons(c, active);
    DistinctTail(cache);
    forall p | p in cache[1..] ensures p in cache && p != c {
      DistinctTailNot(cache, p);
    }
  }

  /** Putting a fresh page, with a zeroed table at newpa and daddr x, on the active list keeps the pool well formed. */
  lemma PoolPushFresh(active: seq<PageId>, pa: map<PageId, PTE>,
                      daddr: map<PageId, int>, tables: map<Frame, seq<PTE>>, nextId: nat, x: int, newpa: PTE)
    requires PoolOk(active, [], pa, daddr, tables, nextId) && L1lo <= x < L1hi
    requires forall p :: p in active ==> daddr[p] != x
    requires PageAligned(newpa)
    ensures nextId !in active && PoolOk([nextId] + active, [], pa[nextId := newpa], daddr[nextId := x], tables[Frame(newpa) := Zeros()], nextId + 1)
  {
    var pa', daddr', tables' := pa[nextId := newpa], daddr[nextId := x], tables[Frame(newpa) := Zeros()];
    forall p | p in active ensures p < nextId {
    }
    DistinctCons(nextId, active);
    forall p | p in [nextId] + active ensures PageOk(p, pa', daddr', tables', nextId + 1) {
      if p != nextId {
        assert p in active;
        assert pa'[p] == pa[p];
        if pa[p] == newpa {
          assert tables'[Frame(pa[p])] == Zeros();
        } else {
          assert tables'[Frame(pa[p])] == tables[Frame(pa[p])];
        }
      }
    }
    forall p | p in [nextId] + active ensures p in daddr' && L1lo <= daddr'[p] < L1hi {
    }
    forall p, q | p in [nextId] + active && q in [nextId] + active && p != q
      ensures daddr'[p] != daddr'[q]
    {
    }
  }

  lemma DistinctCons(c: PageId, s: seq<PageId>)
    requires Distinct(s) && c !in s
    ensures Distinct([c] + s)
  {
    forall i, j | 0 <= i < j < |[c] + s|
      ensures ([c] + s)[i] != ([c] + s)[j]
    {
      if i == 0 {
        assert ([c] + s)[j] == s[j - 1];
      }
    }
  }

  lemma DistinctTail(s: seq<PageId>)
    requires Distinct(s) && s != []
    ensures Distinct(s[1..])
  {
  }

  lemma DistinctTailNot(s: seq<PageId>, p: PageId)
    requires Distinct(s) && s != [] && p in s[1..]
    ensures p in s && p != s[0]
  {
    var k :| 0 <= k < |s[1..]| && s[1..][k] == p;
    assert s[k + 1] == p;
  }

  /** The page putmmu takes for a new L2 table: the head of the cache, else the next fresh page. */
  function Taken(cache: seq<PageId>, nextId: nat): PageId
  {
    if cache != [] then cache[0] else nextId
  }

  /** The address of the page holding va (va with the offset bits cleared). */
  function PageBase(va: nat): (b: nat)
    ensures b <= va && b % BY2PG == 0 && va - b < BY2PG
  {
    va - va % BY2PG
  }

  /**
   * The Fault-slot branch of putmmu: takes an L2 page with TakeL2, writes
   * its coarse entry to slot x and widens the span counters to cover x.
   */
  method NewSlot(m: Mach, up: Proc, st: PageStore, x: int, newpa: PTE) returns (pg: PageId)
    requires m.Valid() && m.SpanCovers() && ProcOk(up, st) && Installed(m, up, st)
    requires L1lo <= x < L1hi && m.l1[x] == Fault && PageAligned(newpa) && FramesApart(up, st)
    requires forall p :: p in Owned(up) && p in st.pa ==> st.pa[p] != newpa
    modifies m`mmul1lo, m`mmul1hi, m.l1, up`mmul2, up`mmul2cache, st`pa, st`daddr, st`tables, st`nextId
    ensures m.Valid() && m.SpanCovers() && ProcOk(up, st) && Installed(m, up, st) && FramesApart(up, st)
    ensures m.mmul1lo >= old(m.mmul1lo) && m.mmul1hi >= old(m.mmul1hi)
    ensures forall i :: 0 <= i < L1Entries && i != x ==> m.l1[i] == old(m.l1[i])
    ensures pg == Taken(old(up.mmul2cache), old(st.nextId))
    ensures up.mmul2 == [pg] + old(up.mmul2) && st.daddr == old(st.daddr)[pg := x]
    ensures pg in st.pa && m.l1[x] == CoarsePte(st.pa[pg]) && PPN(m.l1[x]) == st.pa[pg]
    ensures old(up.mmul2cache) != [] ==>
      && up.mmul2cache == old(up.mmul2cache[1..])
      && st.pa == old(st.pa) && st.tables == old(st.tables) && st.nextId == old(st.nextId)
    ensures old(up.mmul2cache) == [] ==>
      && up.mmul2cache == []
      && st.pa == old(st.pa)[pg := newpa] && st.tables == old(st.tables)[Frame(newpa) := Zeros()]
      && st.nextId == old(st.nextId) + 1
    ensures old(CacheClean(up, st)) ==> CacheClean(up, st)
  {
    forall p | p in up.mmul2 ensures st.daddr[p] != x {
    }
    ghost var active := up.mmul2;
    ghost var l1s := m.l1[..];
    ghost var pa0, daddr0 := st.pa, st.daddr;
    pg := TakeL2(up, st, x, newpa);
    InstallStep(l1s, active, pa0, daddr0, x, pg, st.pa);
    SpanStep(l1s, m.mmul1lo, m.mmul1hi, x, CoarsePte(st.pa[pg]));
    m.l1[x] := CoarsePte(st.pa[pg]);
    CoarsePteDecode(st.pa[pg]);
    var span := SpanAfter(m.mmul1lo, m.mmul1hi, x);
    m.mmul1lo, m.mmul1hi := span.0, span.1;
    assert m.l1[..] == l1s[x := CoarsePte(st.pa[pg])];
  }

  /**
   * putmmu: installs the translation of the user address va to the frame of
   * pa, with the intent bits of pa.  When the L1 slot is Fault, NewSlot takes
   * an L2 page for it; either way the slot's table gets the small-page entry
   * at L2X(va) and nothing else in it changes.  Only the one TLB entry of va
   * is invalidated.
   */
  method PutMmu(m: Mach, up: Proc, st: PageStore, va: nat, pa: PTE, newpa: PTE, soc: Soc)
    requires m.Valid() && m.SpanCovers() && ProcOk(up, st) && Installed(m, up, st)
    requires va < Word && L1lo <= L1X(va) < L1hi && PageAligned(newpa) && FramesApart(up, st)
    requires forall p :: p in Owned(up) && p in st.pa ==> st.pa[p] != newpa
    modifies m, m.l1, up`mmul2, up`mmul2cache, st`pa, st`daddr, st`tables, st`nextId
    ensures m.Valid() && m.SpanCovers() && ProcOk(up, st) && Installed(m, up, st) && FramesApart(up, st)
    ensures m.mmul1lo >= old(m.mmul1lo) && m.mmul1hi >= old(m.mmul1hi)
    ensures m.l1[L1X(va)] != Fault
    ensures forall i :: 0 <= i < L1Entries && i != L1X(va) ==> m.l1[i] == old(m.l1[i])
    ensures old(m.l1[L1X(va)]) != Fault ==>
      && m.l1[L1X(va)] == old(m.l1[L1X(va)])
      && up.mmul2 == old(up.mmul2) && up.mmul2cache == old(up.mmul2cache)
      && st.pa == old(st.pa) && st.daddr == old(st.daddr) && st.nextId == old(st.nextId)
    ensures old(m.l1[L1X(va)]) == Fault ==>
      var pg := Taken(old(up.mmul2cache), old(st.nextId));
      && up.mmul2 == [pg] + old(up.mmul2) && st.daddr == old(st.daddr)[pg := L1X(va)]
      && pg in st.pa && m.l1[L1X(va)] == CoarsePte(st.pa[pg])
    ensures old(m.l1[L1X(va)]) == Fault && old(up.mmul2cache) != [] ==>
      up.mmul2cache == old(up.mmul2cache[1..]) && st.pa == old(st.pa) && st.nextId == old(st.nextId)
    ensures old(m.l1[L1X(va)]) == Fault && old(up.mmul2cache) == [] ==>
      up.mmul2cache == [] && st.pa == old(st.pa)[old(st.nextId) := newpa] && st.nextId == old(st.nextId) + 1
    ensures old(CacheClean(up, st)) ==> CacheClean(up, st)
    ensures var newTable := old(m.l1[L1X(va)]) == Fault && old(up.mmul2cache) == [];
      var t := Frame(PPN(m.l1[L1X(va)]));
      var before := if newTable then old(st.tables)[t := Zeros()] else old(st.tables);
      && (newTable ==> t == Frame(newpa))
      && t in before && |before[t]| == L2Entries
      && st.tables == before[t := before[t][L2X(va) := SmallPte(pa, soc.l2ptedramattrs)]]
    ensures m.tlb == old(m.tlb) + [InvalidateAddr(PageBase(va))]
  {
    var x := L1X(va);
    var l1 := m.l1;
    if l1[x] == Fault {
      var pg := NewSlot(m, up, st, x, newpa);
    }
    PutL2(m, up, st, x, L2X(va), SmallPte(pa, soc.l2ptedramattrs));
    /* clear out the current entry */
    m.tlb := m.tlb + [InvalidateAddr(PageBase(va))];
  }

  /** The L2 write of putmmu: entry k of the table that user slot x points at becomes e. */
  method PutL2(m: Mach, up: Proc, st: PageStore, x: int, k: nat, e: PTE)
    requires m.Valid() && ProcOk(up, st) && Installed(m, up, st) && FramesApart(up, st)
    requires L1lo <= x < L1hi && m.l1[x] != Fault && k < L2Entries
    modifies st`tables
    ensures ProcOk(up, st)
    ensures var t := Frame(PPN(m.l1[x]));
      && t in old(st.tables) && |old(st.tables[t])| == L2Entries
      && st.tables == old(st.tables)[t := old(st.tables[t])[k := e]]
    ensures old(CacheClean(up, st)) ==> CacheClean(up, st)
  {
    CoarsePteDecodeInstalled(m, up, st, x);
    var t := Frame(PPN(m.l1[x]));
    var pte := st.tables[t];
    var p :| p in up.mmul2 && st.daddr[p] == x && PPN(m.l1[x]) == st.pa[p];
    forall c | c in up.mmul2cache ensures c in st.pa && Frame(st.pa[c]) != t {
      assert c in Owned(up) && p in Owned(up);
    }
    PoolRetable(up.mmul2, up.mmul2cache, st.pa, st.daddr, st.tables, st.nextId, t, pte[k := e]);
    st.tables := st.tables[t := pte[k := e]];
  }

  /** Rewriting a table in place, keeping its 256 entries, keeps the pool well formed. */
  lemma PoolRetable(active: seq<PageId>, cache: seq<PageId>, pa: map<PageId, PTE>,
                    daddr: map<PageId, int>, tables: map<Frame, seq<PTE>>, nextId: nat, t: Frame, tab: seq<PTE>)
    requires PoolOk(active, cache, pa, daddr, tables, nextId) && t in tables && |tab| == L2Entries
    ensures PoolOk(active, cache, pa, daddr, tables[t := tab], nextId)
  {
  }

  /** A populated user slot of an installed process points at the table of the page backing it. */
  lemma CoarsePteDecodeInstalled(m: Mach, up: Proc, st: PageStore, x: int)
    requires m.Valid() && ProcOk(up, st) && Installed(m, up, st)
    requires L1lo <= x < L1hi && m.l1[x] != Fault
    ensures Frame(PPN(m.l1[x])) in st.tables && |st.tables[Frame(PPN(m.l1[x]))]| == L2Entries
    ensures exists p :: p in up.mmul2 && st.daddr[p] == x && PPN(m.l1[x]) == st.pa[p]
  {
    var p :| p in up.mmul2 && st.daddr[p] == x;
    CoarsePteDecode(st.pa[p]);
  }

  /* ---- kernel mapping utilities ---- */

  /**
   * mmuuncache: for the 1 MiB section at va, clears the DRAM cache
   * attributes and returns va; any other kind of entry is left alone and
   * nil (None) is returned.
   */
  method MmuUncache(m: Mach, va: nat, size: nat, soc: Soc) returns (r: Option<nat>)
    requires m.Valid() && va < Word && va % MiB == 0 && size == MiB
    modifies m.l1, m`tlb
    ensures var e := old(m.l1[L1X(va)]);
      && r == (if Uncache(e, soc.l1ptedramattrs).Some? then Some(va) else None)
      && m.l1[L1X(va)] == (if r.Some? then Uncache(e, soc.l1ptedramattrs).value else e)
      && m.tlb == old(m.tlb) + (if r.Some? then [InvalidateAddr(va)] else [])
    ensures forall i :: 0 <= i < L1Entries && i != L1X(va) ==> m.l1[i] == old(m.l1[i])
  {
    var x := L1X(va);
    var pte := m.l1[x];
    if TypeBits(pte) != Section {
      return None;
    }
    m.l1[x] := WithoutAttrs(pte, soc.l1ptedramattrs);
    m.tlb := m.tlb + [InvalidateAddr(va)];
    r := Some(va);
  }

  /** An entry with the attribute bits attrs cleared and every other bit kept. */
  function WithoutAttrs(e: PTE, attrs: PTE): (r: PTE)
    ensures r & attrs == 0 && r | (e & attrs) == e
  {
    e & !attrs
  }

  /**
   * The entry mmuuncache leaves: None unless the type bits are exactly
   * Section; otherwise the entry without the DRAM cache attributes.
   */
  function Uncache(e: PTE, attrs: PTE): (r: Option<PTE>)
    ensures r.Some? <==> TypeBits(e) == Section
    ensures r.Some? ==> r.value == WithoutAttrs(e, attrs)
  {
    if TypeBits(e) != Section then None else Some(WithoutAttrs(e, attrs))
  }

  /** A second mmuuncache of the same section changes nothing: it still is a section, already uncached. */
  lemma UncacheIdempotent(e: PTE, attrs: PTE)
    requires L1AttrsOk(attrs) && Uncache(e, attrs).Some?
    ensures Uncache(Uncache(e, attrs).value, attrs) == Uncache(e, attrs)
  {
  }

  /**
   * cankaddr: how many bytes from pa on lie in the kernel's direct map of
   * RAM; 0 when pa is outside it.
   */
  function CanKaddr(pa: nat, soc: Soc): (n: nat)
    ensures n > 0 <==> PHYSDRAM <= pa < PHYSDRAM + soc.dramsize
    ensures n <= PHYSDRAM + soc.dramsize
    ensures n > 0 ==> pa + n == PHYSDRAM + soc.dramsize
  {
    if pa < PHYSDRAM + soc.dramsize then PHYSDRAM + soc.dramsize - pa else 0
  }

  /** The single-address invalidations of n consecutive MiB from va, in order. */
  function Invalidations(va: nat, n: nat): (r: seq<TlbOp>)
    ensures |r| == n && forall i :: 0 <= i < n ==> r[i] == InvalidateAddr(va + i * MiB)
  {
    if n == 0 then [] else Invalidations(va, n - 1) + [InvalidateAddr(va + (n - 1) * MiB)]
  }

  /** The number of 1 MiB slots mmukmap needs for size bytes from pa, counting pa's offset in its MiB. */
  function KmapSlots(pa: nat, size: nat): nat
  {
    MiBSteps(size + pa % MiB)
  }

  /**
   * mmukmap: maps [pa, pa+size) at the MiB-aligned va with no-execute kernel
   * sections, unless one of the slots is already in use, in which case it
   * returns 0 and changes nothing.  The range must fit in the table below
   * 4096 slots (the C code would run off the end of l1).
   */
  method MmuKmap(m: Mach, va: nat, pa: nat, size: nat) returns (r: nat)
    requires m.Valid() && va < Word && pa < Word && va % MiB == 0
    requires KmapSlots(pa, size) < L1Entries && L1X(va) + KmapSlots(pa, size) <= L1Entries
    modifies m.l1, m`tlb
    ensures var n := KmapSlots(pa, size);
      (exists x :: L1X(va) <= x < L1X(va) + n && old(m.l1[x]) != Fault) ==>
        r == 0 && m.tlb == old(m.tlb) && forall i :: 0 <= i < L1Entries ==> m.l1[i] == old(m.l1[i])
    ensures var n := KmapSlots(pa, size); var o := pa % MiB;
      (forall x :: L1X(va) <= x < L1X(va) + n ==> old(m.l1[x]) == Fault) ==>
        && r == va + o
        && (forall i :: 0 <= i < L1Entries ==> m.l1[i] == KmapRun(pa - o, L1X(va), n, i, old(m.l1[i])))
        && m.tlb == old(m.tlb) + Invalidations(va, n)
  {
    var o := pa % MiB;
    var base := pa - o;
    var sz := size + o;
    assert MiBSteps(sz) == KmapSlots(pa, size);
    var free := SlotsFree(m, L1X(va), sz);
    if !free {
      return 0;
    }
    MapSlots(m, va, base, sz);
    r := va + o;
  }

  /** The first loop of mmukmap: whether the slots from x0 on that cover sz bytes are all unused. */
  method SlotsFree(m: Mach, x0: nat, sz: nat) returns (free: bool)
    requires m.Valid() && x0 + MiBSteps(sz) <= L1Entries
    ensures free <==> forall x :: x0 <= x < x0 + MiBSteps(sz) ==> m.l1[x] == Fault
  {
    ghost var n := MiBSteps(sz);
    var off := 0;
    var i := 0;
    while off < sz
      invariant i <= n && off == i * MiB
      invariant forall x :: x0 <= x < x0 + i ==> m.l1[x] == Fault
      decreases sz - off
    {
      StepsLeft(sz, i);
      if m.l1[x0 + i] != Fault {
        return false;
      }
      off := off + MiB;
      i := i + 1;
    }
    StepsDone(sz, i);
    return true;
  }

  /** The second loop of mmukmap: maps sz bytes from the MiB-aligned base at va, invalidating each address. */
  method MapSlots(m: Mach, va: nat, base: nat, sz: nat)
    requires m.Valid() && va < Word && va % MiB == 0 && L1X(va) + MiBSteps(sz) <= L1Entries
    modifies m.l1, m`tlb
    ensures forall j :: 0 <= j < L1Entries ==> m.l1[j] == KmapRun(base, L1X(va), MiBSteps(sz), j, old(m.l1[j]))
    ensures m.tlb == old(m.tlb) + Invalidations(va, MiBSteps(sz))
  {
    var x0 := L1X(va);
    ghost var n := MiBSteps(sz);
    ghost var olds := m.l1[..];
    var off := 0;
    var i := 0;
    while off < sz
      invariant i <= n && off == i * MiB
      invariant forall j :: 0 <= j < L1Entries ==> m.l1[j] == KmapRun(base, x0, i, j, olds[j])
      invariant m.tlb == old(m.tlb) + Invalidations(va, i)
      decreases sz - off
    {
      StepsLeft(sz, i);
      assert Invalidations(va, i + 1) == Invalidations(va, i) + [InvalidateAddr(va + off)];
      SlotWrite(m, x0, i, base, off, olds);
      m.tlb := m.tlb + [InvalidateAddr(va + off)];
      off := off + MiB;
      i := i + 1;
    }
    StepsDone(sz, i);
  }

  /** Slot j after mmukmap has mapped the first n MiB from base into the slots from x0 on. */
  function KmapRun(base: nat, x0: nat, n: nat, j: nat, prev: PTE): PTE
  {
    if x0 <= j < x0 + n then IoPte(Wrap(base + (j - x0) * MiB)) else prev
  }

  /** One step of mmukmap's loop: slot x0 + i gets the section for base + off. */
  method SlotWrite(m: Mach, x0: nat, i: nat, base: nat, off: nat, ghost olds: seq<PTE>)
    requires m.Valid() && |olds| == L1Entries && x0 + i < L1Entries && off == i * MiB
    requires forall j :: 0 <= j < L1Entries ==> m.l1[j] == KmapRun(base, x0, i, j, olds[j])
    modifies m.l1
    ensures forall j :: 0 <= j < L1Entries ==> m.l1[j] == KmapRun(base, x0, i + 1, j, olds[j])
  {
    m.l1[x0 + i] := IoPte(Wrap(base + off));
  }

}
