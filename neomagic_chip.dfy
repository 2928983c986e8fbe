/**
 * neomagicenable (sys/src/9/pc/vganeomagic.c): recognises a NeoMagic chip by
 * its PCI ids, picks the BAR that holds the cursor registers, and places the
 * two 1 KiB cursor images in the last 2 KiB of the chip's display memory.
 * Mapping the registers (vmap, addvgaseg, vgalinearpci) is not modelled:
 * the result is the values neomagicenable would map and store.
 */
module NeoChip {
  import opened Wrappers
  import NeoCursor

  /** A PCI base address register: its raw value (bit 0 set for I/O space) and the size of its region. */
  datatype Bar = Bar(bar: nat, size: nat)

  /** The PCI device: vendor and device id and the first two BARs (the others are never read). */
  datatype Pcidev = Pcidev(vid: nat, did: nat, bar0: Bar, bar1: Bar)

  /** What neomagicenable records: the register region, the cursor register offset and the cursor storage. */
  datatype Mapping = Mapping(ioaddr: nat, iosize: nat, io: nat, storage: nat)

  const NeoMagic: nat := 0x10C8

  /**
   * The chips the driver knows, by device id: the offset of the cursor
   * registers in the MMIO region and the size of display memory.
   */
  const Chips: map<nat, (nat, nat)> := map[
    0x0003 := (0x100, 1152 * 1024),    // MagicGraph 128ZV
    0x0083 := (0x100, 1152 * 1024),    // MagicGraph 128ZV+
    0x0004 := (0x100, 2048 * 1024),    // MagicGraph 128XD
    0x0005 := (0x1000, 2560 * 1024),   // MagicMedia 256AV
    0x0006 := (0x1000, 4096 * 1024),   // MagicMedia 256ZX
    0x0016 := (0x1000, 4096 * 1024)    // MagicMedia 256XL+
  ]

  /** The 128ZV keeps its registers 2 MiB into the frame buffer BAR 0; the others have them in BAR 1. */
  const ZV: nat := 0x0003

  /** A memory BAR's address with the four flag bits cleared (bar & ~0x0F). */
  function BarAddr(b: Bar): (a: nat)
    ensures a % 16 == 0 && a <= b.bar && b.bar - a < 16
  {
    b.bar - b.bar % 16
  }

  /** Whether the BAR the chip uses may be mapped: a memory BAR, and for BAR 1 a non-empty one. */
  predicate BarUsable(p: Pcidev)
  {
    if p.did == ZV then p.bar0.bar % 2 == 0
    else p.bar1.bar % 2 == 0 && p.bar1.size != 0
  }

  /** The mapping of a chip that keeps its registers in BAR 1. */
  function MapBar1(b: Bar, curoff: nat, vmsize: nat): (r: Option<Mapping>)
    requires vmsize >= 2048
    ensures r.Some? <==> b.bar % 2 == 0 && b.size != 0
    ensures r.Some? ==> r.value == Mapping(BarAddr(b), b.size, curoff, vmsize - 2048)
  {
    if b.bar % 2 == 1 || b.size == 0 then None
    else Some(Mapping(BarAddr(b), b.size, curoff, vmsize - 2048))
  }

  /**
   * neomagicenable: nothing when the registers are already mapped, there is
   * no PCI device, or it is not a known NeoMagic chip with a usable BAR;
   * otherwise the mapping from the chip table.
   */
  function Enable(mapped: bool, p: Option<Pcidev>): (r: Option<Mapping>)
    ensures r.Some? <==> !mapped && p.Some? && p.value.vid == NeoMagic && p.value.did in Chips && BarUsable(p.value)
    ensures r.Some? ==> r.value.io == Chips[p.value.did].0 && r.value.storage + 2048 == Chips[p.value.did].1
    ensures r.Some? && p.value.did == ZV ==> r.value.ioaddr == BarAddr(p.value.bar0) + 0x200000 && r.value.iosize == 0x200000
    ensures r.Some? && p.value.did != ZV ==> r.value.ioaddr == BarAddr(p.value.bar1) && r.value.iosize == p.value.bar1.size
  {
    if mapped || p.None? || p.value.vid != NeoMagic then None
    else
      var d := p.value;
      match d.did
      case 0x0003 =>
        if d.bar0.bar % 2 == 1 then None
        else Some(Mapping(BarAddr(d.bar0) + 0x200000, 0x200000, 0x100, 1152 * 1024 - 2048))
      case 0x0083 => MapBar1(d.bar1, 0x100, 1152 * 1024)
      case 0x0004 => MapBar1(d.bar1, 0x100, 2048 * 1024)
      case 0x0005 => MapBar1(d.bar1, 0x1000, 2560 * 1024)
      case 0x0006 => MapBar1(d.bar1, 0x1000, 4096 * 1024)
      case 0x0016 => MapBar1(d.bar1, 0x1000, 4096 * 1024)
      case _ => None
  }

  /**
   * With display memory of vmsize bytes, a whole number of KiB up to 4 MiB,
   * the two cursor images fill its last 2 KiB without overlapping and the
   * cursor address register tells them apart.
   */
  lemma ImagesFitIn(vmsize: nat)
    requires vmsize % 1024 == 0 && 2048 <= vmsize <= 4096 * 1024
    ensures NeoCursor.ImageStart(vmsize - 2048, 0) + NeoCursor.ImageSize == NeoCursor.ImageStart(vmsize - 2048, 1)
    ensures NeoCursor.ImageStart(vmsize - 2048, 1) + NeoCursor.ImageSize == vmsize
    ensures NeoCursor.CurAddr(vmsize - 2048, 0) != NeoCursor.CurAddr(vmsize - 2048, 1)
  {
    var blk := vmsize / 1024 - 2;
    assert vmsize - 2048 == 1024 * blk && blk + 1 < 0x1000;
    assert NeoCursor.ImageBlock(vmsize - 2048, 0) == blk;
    assert NeoCursor.ImageBlock(vmsize - 2048, 1) == blk + 1;
  }

  /** Every chip's display memory is such a size, so on every chip the cursor images fit. */
  lemma ImagesFit(mapped: bool, p: Option<Pcidev>)
    requires Enable(mapped, p).Some?
    ensures var m := Enable(mapped, p).value;
      NeoCursor.ImageStart(m.storage, 0) + NeoCursor.ImageSize == NeoCursor.ImageStart(m.storage, 1) &&
      NeoCursor.ImageStart(m.storage, 1) + NeoCursor.ImageSize == Chips[p.value.did].1
    ensures var m := Enable(mapped, p).value;
      NeoCursor.CurAddr(m.storage, 0) != NeoCursor.CurAddr(m.storage, 1)
  {
    var vmsize := Chips[p.value.did].1;
    assert vmsize in {1152 * 1024, 2048 * 1024, 2560 * 1024, 4096 * 1024};
    ImagesFitIn(vmsize);
  }
}
