/**
 * The blitter set-up of the NeoMagic driver (sys/src/9/pc/vganeomagic.c):
 * neomagicdrawinit picks the blit mode for the screen's depth and width,
 * and neomagichwfill and neomagichwscroll compute the register values of a
 * solid fill and of a screen-to-screen copy.  The register stores and the
 * polling of the busy and FIFO bits are not modelled: each operation returns
 * the values it would store.
 */
module NeoBlit {
  import opened Wrappers
  import opened NeoCursor

  /* BltCntl bits. */
  const DstYDec: bv32 := 0x0000_0001      // NEO_BC0_DST_Y_DEC
  const XDec: bv32 := 0x0000_0002         // NEO_BC0_X_DEC
  const SrcIsFg: bv32 := 0x0000_0008      // NEO_BC0_SRC_IS_FG
  const SrcYDec: bv32 := 0x0000_0010      // NEO_BC0_SRC_Y_DEC
  const Bc1Depth8: bv32 := 0x0000_0100
  const Bc1Depth16: bv32 := 0x0000_0200
  const Bc1X320: bv32 := 0x0000_0400
  const Bc1X640: bv32 := 0x0000_0800
  const Bc1X800: bv32 := 0x0000_0c00
  const Bc1X1024: bv32 := 0x0000_1000
  const Bc1X1152: bv32 := 0x0000_1400
  const Bc1X1280: bv32 := 0x0000_1800
  const Bc1X1600: bv32 := 0x0000_1c00
  const FifoEn: bv32 := 0x0800_0000       // NEO_BC3_FIFO_EN
  const SkipMapping: bv32 := 0x8000_0000  // NEO_BC3_SKIP_MAPPING
  /** The raster operation "copy source" in bits 16-19. */
  const GXcopy: bv32 := 0x000c_0000

  /* Blit mode (BltStat high half) bits. */
  const Mode1Depth8: bv32 := 0x0100
  const Mode1Depth16: bv32 := 0x0200
  const Mode1X320: bv32 := 0x0400
  const Mode1X640: bv32 := 0x0800
  const Mode1X800: bv32 := 0x0c00
  const Mode1X1024: bv32 := 0x1000
  const Mode1X1152: bv32 := 0x1400
  const Mode1X1280: bv32 := 0x1800
  const Mode1X1600: bv32 := 0x1c00

  /** The depth field and the width field of the blit flags. */
  const DepthField: bv32 := 0x0300
  const WidthField: bv32 := 0x1c00

  /** The three direction bits that make a copy run from the lower-right. */
  const DecBits: bv32 := 0x0000_0013

  /** The screen widths the blitter knows, with their width field. */
  const WidthCodes: map<int, bv32> := map[
    320 := 0x0400, 640 := 0x0800, 800 := 0x0c00, 1024 := 0x1000,
    1152 := 0x1400, 1280 := 0x1800, 1600 := 0x1c00
  ]

  /* ---------------- neomagicdrawinit ---------------- */

  /** The depth switch of neomagicdrawinit: the (mode, flags) bits, or None when the blitter is given up. */
  function DepthBits(depth: int): (r: Option<(bv32, bv32)>)
    ensures r.Some? <==> depth == 8 || depth == 16
    ensures r.Some? ==> r.value.0 == r.value.1 && r.value.1 == (if depth == 8 then 0x100 else 0x200)
  {
    match depth
    case 8 => Some((Mode1Depth8, Bc1Depth8))
    case 16 => Some((Mode1Depth16, Bc1Depth16))
    case _ => None
  }

  /** The width switch of neomagicdrawinit: the (mode, flags) bits, none for an unlisted width. */
  function WidthBits(width: int): (r: (bv32, bv32))
    ensures r.0 == r.1
    ensures r.1 & !WidthField == 0
  {
    match width
    case 320 => (Mode1X320, Bc1X320)
    case 640 => (Mode1X640, Bc1X640)
    case 800 => (Mode1X800, Bc1X800)
    case 1024 => (Mode1X1024, Bc1X1024)
    case 1152 => (Mode1X1152, Bc1X1152)
    case 1280 => (Mode1X1280, Bc1X1280)
    case 1600 => (Mode1X1600, Bc1X1600)
    case _ => (0, 0)
  }

  /** The blit mode register (BltStat) and the pitch register, written when the blitter is set up. */
  datatype DrawRegs = DrawRegs(stat: bv32, pitch: nat)

  /** neomagicbltflags and bltmode after neomagicdrawinit, and the registers it wrote, if it set up the blitter. */
  datatype Draw = Draw(bltflags: bv32, bltmode: bv32, regs: Option<DrawRegs>)

  /** The depth field ORed with the width field: each can be read back out. */
  function Fields(depthBits: bv32, widthBits: bv32): (f: bv32)
    requires depthBits == 0x100 || depthBits == 0x200
    requires widthBits & !WidthField == 0
    ensures f & DepthField == depthBits && f & WidthField == widthBits
    ensures f & !(DepthField | WidthField) == 0 && f < 0x1_0000
  {
    depthBits | widthBits
  }

  /** BltStat: the blit mode in the high half. */
  function StatReg(mode: bv32): (v: bv32)
    requires mode < 0x1_0000
    ensures v >> 16 == mode && v & 0xffff == 0
  {
    mode << 16
  }

  /** The pitch register: (pitch << 16) | (pitch & 0xffff) on 32 bits, the pitch's low 16 bits in both halves. */
  function PitchReg(pitch: nat): (v: nat)
    ensures v < Word
    ensures v / 0x1_0000 == pitch % 0x1_0000 && v % 0x1_0000 == pitch % 0x1_0000
  {
    Pack16(pitch % 0x1_0000, pitch % 0x1_0000);
    (pitch % 0x1_0000) * 0x1_0000 + pitch % 0x1_0000
  }

  /**
   * neomagicdrawinit: the blitter is set up (and fill and scroll installed)
   * only at depths 8 and 16, and the mode and the flags carry the same bits:
   * the depth field, and the width field (see DrawInitWidth), nothing else.
   */
  function DrawInit(depth: int, width: int, pitch: nat): (d: Draw)
    ensures d.regs.Some? <==> depth == 8 || depth == 16
    ensures d.bltmode == d.bltflags
    ensures d.bltflags & DepthField == (if depth == 8 then 0x100 else if depth == 16 then 0x200 else 0)
    ensures d.bltflags & !(DepthField | WidthField) == 0
  {
    var db := DepthBits(depth);
    if db.None? then Draw(0, 0, None)
    else
      var wb := WidthBits(width);
      var mode := Fields(db.value.0, wb.0);
      var flags := Fields(db.value.1, wb.1);
      Draw(flags, mode, Some(DrawRegs(StatReg(mode), PitchReg(pitch))))
  }

  /** The width field is the width's entry in the width table, 0 for a width not in it. */
  lemma DrawInitWidth(depth: int, width: int, pitch: nat)
    requires depth == 8 || depth == 16
    ensures DrawInit(depth, width, pitch).bltflags & WidthField == (if width in WidthCodes then WidthCodes[width] else 0)
  {
    var f := DrawInit(depth, width, pitch).bltflags;
    assert f & WidthField == WidthBits(width).1;
    if width == 320 {
    } else if width == 640 {
    } else if width == 800 {
    } else if width == 1024 {
    } else if width == 1152 {
    } else if width == 1280 {
    } else if width == 1600 {
    } else {
      assert width !in WidthCodes;
    }
  }

  /**
   * The registers written are BltStat with the blit mode in its high half
   * and the pitch register with the pitch in both halves.
   */
  lemma DrawInitRegs(depth: int, width: int, pitch: nat)
    requires depth == 8 || depth == 16
    ensures var d := DrawInit(depth, width, pitch);
      d.bltmode < 0x1_0000 && d.regs.value == DrawRegs(StatReg(d.bltmode), PitchReg(pitch))
  {
    var d := DrawInit(depth, width, pitch);
    var db, wb := DepthBits(depth), WidthBits(width);
    assert d.bltmode == Fields(db.value.0, wb.0);
  }

  /* ---------------- neomagichwfill and neomagichwscroll ---------------- */

  /** A screen rectangle: min is inside it, max just outside. */
  datatype Rect = Rect(min: Point, max: Point)

  function Dx(r: Rect): int { r.max.x - r.min.x }

  function Dy(r: Rect): int { r.max.y - r.min.y }

  /** What the blit registers address the screen by: the frame buffer address, bytes per row and per pixel. */
  datatype Screen = Screen(paddr: nat, pitch: nat, bpp: nat)

  const Word: nat := 0x1_0000_0000

  /** The 32-bit register value addressing pixel p: paddr + y*pitch + x*bpp, wrapped. */
  function PixelAddr(scr: Screen, p: Point): (a: nat)
    ensures a < Word
  {
    (scr.paddr + p.y * scr.pitch + p.x * scr.bpp) % Word
  }

  /** Pixels are laid out row by row: the next pixel is bpp bytes on, the next row pitch bytes on. */
  lemma PixelAddrStep(scr: Screen, p: Point)
    ensures PixelAddr(scr, Point(p.x + 1, p.y)) == (PixelAddr(scr, p) + scr.bpp) % Word
    ensures PixelAddr(scr, Point(p.x, p.y + 1)) == (PixelAddr(scr, p) + scr.pitch) % Word
  {
    var s := scr.paddr + p.y * scr.pitch + p.x * scr.bpp;
    assert scr.paddr + p.y * scr.pitch + (p.x + 1) * scr.bpp == s + scr.bpp;
    assert scr.paddr + (p.y + 1) * scr.pitch + p.x * scr.bpp == s + scr.pitch;
    ModAdd(s, scr.bpp);
    ModAdd(s, scr.pitch);
  }

  /** Adding after wrapping wraps the same way. */
  lemma ModAdd(s: int, n: nat)
    ensures (s + n) % Word == (s % Word + n) % Word
  {
    var q := s / Word;
    assert s == q * Word + s % Word;
    assert s + n == q * Word + (s % Word + n);
  }

  /** The extent register: the height in the high 16 bits and the width in the low 16, each wrapped. */
  function XYExt(r: Rect): (v: nat)
    ensures v < Word
    ensures v / 0x1_0000 == Dy(r) % 0x1_0000 && v % 0x1_0000 == Dx(r) % 0x1_0000
  {
    Pack16(Dy(r) % 0x1_0000, Dx(r) % 0x1_0000);
    (Dy(r) % 0x1_0000) * 0x1_0000 + Dx(r) % 0x1_0000
  }

  /** Two 16-bit halves packed into one word come apart again. */
  lemma Pack16(hi: nat, lo: nat)
    requires hi < 0x1_0000 && lo < 0x1_0000
    ensures hi * 0x1_0000 + lo < Word
    ensures (hi * 0x1_0000 + lo) / 0x1_0000 == hi && (hi * 0x1_0000 + lo) % 0x1_0000 == lo
  {
  }

  /** The register values of a solid fill: colour, control, start address and extent. */
  datatype FillRegs = FillRegs(fg: bv32, cntl: bv32, dst: nat, xyext: nat)

  /** The control bits a fill adds to neomagicbltflags. */
  const FillBits: bv32 := 0x880c_0008

  /**
   * neomagichwfill: the fill colour is the source (SRC_IS_FG), the raster
   * operation is copy, the copy starts at the rectangle's upper-left pixel.
   */
  function HwFill(scr: Screen, bltflags: bv32, r: Rect, sval: bv32): (f: FillRegs)
    ensures f.fg == sval
    ensures f.cntl & FillBits == FillBits && f.cntl & !FillBits == bltflags & !FillBits
    ensures f.cntl & DecBits == bltflags & DecBits
    ensures f.dst == PixelAddr(scr, r.min)
    ensures f.xyext / 0x1_0000 == Dy(r) % 0x1_0000 && f.xyext % 0x1_0000 == Dx(r) % 0x1_0000
  {
    FillRegs(sval, bltflags | FifoEn | SrcIsFg | SkipMapping | GXcopy, PixelAddr(scr, r.min), XYExt(r))
  }

  /** The register values of a screen-to-screen copy. */
  datatype ScrollRegs = ScrollRegs(cntl: bv32, src: nat, dst: nat, xyext: nat)

  /** neomagichwscroll copies from the upper-left when the destination is above, or level with and left of, the source. */
  predicate Forward(r: Rect, sr: Rect)
  {
    r.min.y < sr.min.y || (r.min.y == sr.min.y && r.min.x < sr.min.x)
  }

  /** The last pixel of a rectangle, where a copy from the lower-right starts. */
  function Last(r: Rect): Point
  {
    Point(r.max.x - 1, r.max.y - 1)
  }

  /** The control bits every copy adds to neomagicbltflags. */
  const CopyBits: bv32 := 0x880c_0000

  /**
   * neomagichwscroll: copies r's worth of pixels from sr to r; from the
   * upper-left the direction bits stay off and both start addresses are the
   * rectangles' first pixels, from the lower-right the three decrement bits
   * are on and both start at the rectangles' last pixels.
   */
  function HwScroll(scr: Screen, bltflags: bv32, r: Rect, sr: Rect): (s: ScrollRegs)
    ensures s.cntl & CopyBits == CopyBits && s.cntl & !(CopyBits | DecBits) == bltflags & !(CopyBits | DecBits)
    ensures bltflags & DecBits == 0 ==> (s.cntl & DecBits == 0 <==> Forward(r, sr))
    ensures !Forward(r, sr) ==> s.cntl & DecBits == DecBits
    ensures Forward(r, sr) ==> s.src == PixelAddr(scr, sr.min) && s.dst == PixelAddr(scr, r.min)
    ensures !Forward(r, sr) ==> s.src == PixelAddr(scr, Last(sr)) && s.dst == PixelAddr(scr, Last(r))
    ensures s.xyext / 0x1_0000 == Dy(r) % 0x1_0000 && s.xyext % 0x1_0000 == Dx(r) % 0x1_0000
  {
    if Forward(r, sr) then
      ScrollRegs(bltflags | FifoEn | SkipMapping | GXcopy,
        PixelAddr(scr, sr.min), PixelAddr(scr, r.min), XYExt(r))
    else
      ScrollRegs(bltflags | XDec | DstYDec | SrcYDec | FifoEn | SkipMapping | GXcopy,
        PixelAddr(scr, Last(sr)), PixelAddr(scr, Last(r)), XYExt(r))
  }

  /**
   * Whether step a of a copy comes strictly before step b, steps being pixel
   * offsets into the rectangle: row by row and left to right from the
   * upper-left, the reverse from the lower-right.
   */
  predicate Before(forward: bool, a: Point, b: Point)
  {
    if forward then a.y < b.y || (a.y == b.y && a.x < b.x)
    else a.y > b.y || (a.y == b.y && a.x > b.x)
  }

  /**
   * The direction neomagichwscroll picks never overwrites a source pixel
   * before reading it: when step u writes the pixel that step t reads
   * (r.min + u == sr.min + t), u does not come before t.
   */
  lemma ScrollReadsBeforeWrite(r: Rect, sr: Rect, t: Point, u: Point)
    requires r.min.x + u.x == sr.min.x + t.x && r.min.y + u.y == sr.min.y + t.y
    ensures !Before(Forward(r, sr), u, t)
  {
  }

  /**
   * And the other direction would be wrong whenever source and destination
   * differ: then every step u that writes a pixel step t reads comes before t.
   */
  lemma OppositeDirectionClobbers(r: Rect, sr: Rect, t: Point, u: Point)
    requires r.min.x + u.x == sr.min.x + t.x && r.min.y + u.y == sr.min.y + t.y
    requires r.min != sr.min
    ensures Before(!Forward(r, sr), u, t)
  {
  }
}
