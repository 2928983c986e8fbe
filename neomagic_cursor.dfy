/**
 * The hardware cursor of the NeoMagic driver (sys/src/9/pc/vganeomagic.c):
 * neomagicinitcursor packs the 16x16 Plan 9 cursor (two bit planes, `set` and
 * `clr`, two bytes per row) into a 64x64 two-plane image of 1 KiB in display
 * memory, and neomagiccurmove clamps a position that is off the top or left
 * edge, shifting the image instead.  Images 0 and 1 live in the last 2 KiB of
 * display memory; the cursor register names an image by its KiB block with
 * the nibbles rotated.
 */
module NeoCursor {
  import opened Wrappers

  /** Bytes in one 64x64 cursor image: 64 rows of 16 bytes. */
  const ImageSize: nat := 1024
  const RowBytes: nat := 16
  const Rows: nat := 64
  /** Rows and bytes of the 16x16 source cursor. */
  const CursorRows: nat := 16
  const CursorBytes: nat := 32

  datatype Point = Point(x: int, y: int)

  /** The two bytes of a cursor row as one 16-pixel row, the first byte on the left. */
  function Row16(p0: bv8, p1: bv8): bv16
  {
    (p0 as bv16 << 8) | p1 as bv16
  }

  /** A 16-pixel row shifted n pixels left, one pixel at a time: pixels past the left edge are dropped. */
  function ShiftLeft(row: bv16, n: nat): bv16
  {
    if n == 0 then row else ShiftLeft(row, n - 1) << 1
  }

  /** A cursor row of two bytes shifted xo pixels left, split back into its two bytes. */
  function RowShift(p0: bv8, p1: bv8, xo: nat): (r: (bv8, bv8))
    ensures xo == 0 ==> r == (p0, p1)
  {
    var s := ShiftLeft(Row16(p0, p1), xo);
    ((s >> 8) as bv8, (s & 0xFF) as bv8)
  }

  /** Up to a full byte, shifting pixel by pixel is the one shift of C. */
  lemma {:induction false} ShiftLeftIs(row: bv16, n: nat)
    requires n <= 8
    ensures ShiftLeft(row, n) == row << n
  {
    if n > 0 {
      ShiftLeftIs(row, n - 1);
    }
  }

  /** A blank row stays blank. */
  lemma {:induction false} ShiftLeftBlank(n: nat)
    ensures ShiftLeft(0, n) == 0
  {
    if n > 0 {
      ShiftLeftBlank(n - 1);
    }
  }

  /** A row whose right byte is blank keeps it blank however far it is shifted. */
  lemma {:induction false} ShiftLeftKeepsRightBlank(b: bv8, n: nat)
    ensures ShiftLeft(Row16(b, 0), n) & 0xFF == 0
  {
    if n > 0 {
      ShiftLeftKeepsRightBlank(b, n - 1);
    }
  }

  /** Shifting a byte or more first moves the right byte into the left one. */
  lemma {:induction false} ShiftLeftByte(row: bv16, n: nat)
    requires n >= 8
    ensures ShiftLeft(row, n) == ShiftLeft(row << 8, n - 8)
  {
    if n == 8 {
      ShiftLeftIs(row, 8);
    } else {
      ShiftLeftByte(row, n - 1);
    }
  }

  /** The right byte shifted a whole byte is the left byte. */
  lemma Row16Byte(p0: bv8, p1: bv8)
    ensures Row16(p0, p1) << 8 == Row16(p1, 0)
  {
  }

  /** A row shifted 8 pixels or more is its right byte shifted the rest of the way. */
  lemma RowShiftByte(p0: bv8, p1: bv8, xo: nat)
    requires xo >= 8
    ensures RowShift(p0, p1, xo) == RowShift(p1, 0, xo - 8)
  {
    ShiftLeftByte(Row16(p0, p1), xo);
    Row16Byte(p0, p1);
  }

  /**
   * A row shifted 8 pixels or more has a blank right byte; shifted 16 or
   * more, nothing is left.
   */
  lemma RowShiftWide(p0: bv8, p1: bv8, xo: nat)
    ensures xo >= 8 ==> RowShift(p0, p1, xo).1 == 0
    ensures xo >= 16 ==> RowShift(p0, p1, xo) == (0, 0)
  {
    if xo >= 8 {
      RowShiftByte(p0, p1, xo);
      ShiftLeftKeepsRightBlank(p1, xo - 8);
      if xo >= 16 {
        RowShiftByte(p1, 0, xo - 8);
        ShiftLeftBlank(xo - 16);
      }
    }
  }

  /** Shifting keeps every pixel of a row that covers another. */
  lemma {:induction false} ShiftLeftMonotone(a: bv16, b: bv16, n: nat)
    requires a & b == a
    ensures ShiftLeft(a, n) & ShiftLeft(b, n) == ShiftLeft(a, n)
  {
    if n > 0 {
      ShiftLeftMonotone(a, b, n - 1);
    }
  }

  /** The shift of neomagicinitcursor is defined in C: a right shift by 8-xo needs xo <= 8. */
  predicate ShiftDefined(xo: nat)
  {
    xo <= 8
  }

  /**
   * The shift as written: on 32-bit unsigned values p0 = (p0<<xo)|(p1>>(8-xo))
   * and p1 <<= xo, each then stored as a byte; skipped when xo is 0.
   */
  function RowShiftAsWritten(p0: bv8, p1: bv8, xo: nat): (r: (bv8, bv8))
    requires ShiftDefined(xo)
    ensures xo == 0 ==> r == (p0, p1)
  {
    if xo == 0 then (p0, p1)
    else
      var q0: bv32 := (p0 as bv32 << xo) | (p1 as bv32 >> (8 - xo));
      var q1: bv32 := p1 as bv32 << xo;
      ((q0 & 0xFF) as bv8, (q1 & 0xFF) as bv8)
  }

  /** Where the C shift is defined it is the 16-bit row shift. */
  lemma RowShiftAgrees(p0: bv8, p1: bv8, xo: nat)
    requires ShiftDefined(xo)
    ensures RowShiftAsWritten(p0, p1, xo) == RowShift(p0, p1, xo)
  {
    if xo == 1 {
      RowShiftAgrees1(p0, p1);
    } else if xo == 2 {
      RowShiftAgrees2(p0, p1);
    } else if xo == 3 {
      RowShiftAgrees3(p0, p1);
    } else if xo == 4 {
      RowShiftAgrees4(p0, p1);
    } else if xo == 5 {
      RowShiftAgrees5(p0, p1);
    } else if xo == 6 {
      RowShiftAgrees6(p0, p1);
    } else if xo == 7 {
      RowShiftAgrees7(p0, p1);
    } else if xo == 8 {
      RowShiftAgrees8(p0, p1);
    }
  }

  /* RowShiftAgrees one shift count at a time: each count is its own small bit-vector problem. */

  lemma RowShiftAgrees1(p0: bv8, p1: bv8)
    ensures RowShiftAsWritten(p0, p1, 1) == RowShift(p0, p1, 1)
  {
    ShiftLeftIs(Row16(p0, p1), 1);
  }

  lemma RowShiftAgrees2(p0: bv8, p1: bv8)
    ensures RowShiftAsWritten(p0, p1, 2) == RowShift(p0, p1, 2)
  {
    ShiftLeftIs(Row16(p0, p1), 2);
  }

  lemma RowShiftAgrees3(p0: bv8, p1: bv8)
    ensures RowShiftAsWritten(p0, p1, 3) == RowShift(p0, p1, 3)
  {
    ShiftLeftIs(Row16(p0, p1), 3);
  }

  lemma RowShiftAgrees4(p0: bv8, p1: bv8)
    ensures RowShiftAsWritten(p0, p1, 4) == RowShift(p0, p1, 4)
  {
    ShiftLeftIs(Row16(p0, p1), 4);
  }

  lemma RowShiftAgrees5(p0: bv8, p1: bv8)
    ensures RowShiftAsWritten(p0, p1, 5) == RowShift(p0, p1, 5)
  {
    ShiftLeftIs(Row16(p0, p1), 5);
  }

  lemma RowShiftAgrees6(p0: bv8, p1: bv8)
    ensures RowShiftAsWritten(p0, p1, 6) == RowShift(p0, p1, 6)
  {
    ShiftLeftIs(Row16(p0, p1), 6);
  }

  lemma RowShiftAgrees7(p0: bv8, p1: bv8)
    ensures RowShiftAsWritten(p0, p1, 7) == RowShift(p0, p1, 7)
  {
    ShiftLeftIs(Row16(p0, p1), 7);
  }

  lemma RowShiftAgrees8(p0: bv8, p1: bv8)
    ensures RowShiftAsWritten(p0, p1, 8) == RowShift(p0, p1, 8)
  {
    ShiftLeftIs(Row16(p0, p1), 8);
  }


  /** The 16 bytes of image row y: the set plane, 6 zero bytes, the mask plane (clr|set), 6 zero bytes. */
  function RowImage(setPlane: seq<bv8>, clrPlane: seq<bv8>, xo: nat, y: nat): (r: seq<bv8>)
    requires |setPlane| == CursorBytes && |clrPlane| == CursorBytes
    ensures |r| == RowBytes
    ensures y >= CursorRows ==> forall k :: 0 <= k < RowBytes ==> r[k] == 0
    ensures forall k :: 2 <= k < 8 || 10 <= k < 16 ==> r[k] == 0
  {
    if y >= CursorRows then seq(RowBytes, _ => 0)
    else
      var a0, a1 := setPlane[2 * y], setPlane[2 * y + 1];
      var b0, b1 := clrPlane[2 * y] | a0, clrPlane[2 * y + 1] | a1;
      var s := RowShift(a0, a1, xo);
      var m := RowShift(b0, b1, xo);
      [s.0, s.1, 0, 0, 0, 0, 0, 0, m.0, m.1, 0, 0, 0, 0, 0, 0]
  }

  /** The row shift keeps every pixel of the mask plane, clr | set, that the set plane has. */
  lemma RowShiftMasked(a0: bv8, a1: bv8, c0: bv8, c1: bv8, xo: nat)
    ensures RowShift(a0, a1, xo).0 & RowShift(c0 | a0, c1 | a1, xo).0 == RowShift(a0, a1, xo).0
    ensures RowShift(a0, a1, xo).1 & RowShift(c0 | a0, c1 | a1, xo).1 == RowShift(a0, a1, xo).1
  {
    ShiftLeftMonotone(Row16(a0, a1), Row16(c0 | a0, c1 | a1), xo);
  }

  /** In every image row the mask plane covers the set plane: a pixel drawn is never transparent. */
  lemma RowImageMasked(setPlane: seq<bv8>, clrPlane: seq<bv8>, xo: nat, y: nat)
    requires |setPlane| == CursorBytes && |clrPlane| == CursorBytes
    ensures RowImage(setPlane, clrPlane, xo, y)[0] & RowImage(setPlane, clrPlane, xo, y)[8] == RowImage(setPlane, clrPlane, xo, y)[0]
    ensures RowImage(setPlane, clrPlane, xo, y)[1] & RowImage(setPlane, clrPlane, xo, y)[9] == RowImage(setPlane, clrPlane, xo, y)[1]
  {
    if y < CursorRows {
      RowShiftMasked(setPlane[2 * y], setPlane[2 * y + 1], clrPlane[2 * y], clrPlane[2 * y + 1], xo);
    }
  }

  /** Unshifted, an image row carries the cursor's row unchanged. */
  lemma ImageUnshifted(setPlane: seq<bv8>, clrPlane: seq<bv8>, y: nat)
    requires |setPlane| == CursorBytes && |clrPlane| == CursorBytes && y < CursorRows
    ensures RowImage(setPlane, clrPlane, 0, y)[..2] == setPlane[2 * y..2 * y + 2]
    ensures RowImage(setPlane, clrPlane, 0, y)[8] == clrPlane[2 * y] | setPlane[2 * y]
    ensures RowImage(setPlane, clrPlane, 0, y)[9] == clrPlane[2 * y + 1] | setPlane[2 * y + 1]
  {
  }

  /**
   * The 64 rows of the image of the cursor shifted xo pixels left and yo rows
   * up: image row n shows cursor row yo + n, and the rows past the cursor's
   * 16 are transparent.
   */
  function Image(setPlane: seq<bv8>, clrPlane: seq<bv8>, xo: nat, yo: nat): (img: seq<seq<bv8>>)
    requires |setPlane| == CursorBytes && |clrPlane| == CursorBytes
    ensures |img| == Rows
    ensures forall n :: 0 <= n < Rows ==> |img[n]| == RowBytes
    ensures forall n :: 0 <= n < Rows && yo + n >= CursorRows ==> img[n] == seq(RowBytes, _ => 0)
  {
    var img := seq(Rows, n requires 0 <= n < Rows => RowImage(setPlane, clrPlane, xo, yo + n));
    assert forall n :: 0 <= n < Rows ==> img[n] == RowImage(setPlane, clrPlane, xo, yo + n);
    img
  }

  /** The rows are in place in fb from base on, 16 bytes each. */
  ghost predicate Placed(fb: array<bv8>, base: nat, rows: seq<seq<bv8>>)
    reads fb
  {
    base + RowBytes * |rows| <= fb.Length &&
    forall n :: 0 <= n < |rows| ==> fb[base + 16 * n..base + 16 * n + 16] == rows[n]
  }

  /** Where image index starts in display memory. */
  function ImageStart(storage: nat, index: nat): nat
  {
    storage + index * 1024
  }

  /** Writes one 16-byte image row at fb[at..at+16]. */
  method PutRow(fb: array<bv8>, at: nat, row: seq<bv8>)
    requires |row| == RowBytes && at + RowBytes <= fb.Length
    modifies fb
    ensures forall k :: 0 <= k < RowBytes ==> fb[at + k] == row[k]
    ensures forall k :: 0 <= k < fb.Length && !(at <= k < at + RowBytes) ==> fb[k] == old(fb[k])
  {
    var i := 0;
    while i < RowBytes
      invariant i <= RowBytes
      invariant forall k :: 0 <= k < i ==> fb[at + k] == row[k]
      invariant forall k :: 0 <= k < fb.Length && !(at <= k < at + i) ==> fb[k] == old(fb[k])
    {
      fb[at + i] := row[i];
      i := i + 1;
    }
  }

  /** The row of the cursor neomagicinitcursor builds for source row y (y < 16). */
  method CursorRow(setPlane: seq<bv8>, clrPlane: seq<bv8>, xo: nat, y: nat) returns (row: seq<bv8>)
    requires |setPlane| == CursorBytes && |clrPlane| == CursorBytes && y < CursorRows
    ensures row == RowImage(setPlane, clrPlane, xo, y)
  {
    var p0, p1 := setPlane[2 * y], setPlane[2 * y + 1];
    if xo != 0 {
      var s := RowShift(p0, p1, xo);
      p0, p1 := s.0, s.1;
    }
    var m0, m1 := clrPlane[2 * y] | setPlane[2 * y], clrPlane[2 * y + 1] | setPlane[2 * y + 1];
    if xo != 0 {
      var s := RowShift(m0, m1, xo);
      m0, m1 := s.0, s.1;
    }
    row := [p0, p1, 0, 0, 0, 0, 0, 0, m0, m1, 0, 0, 0, 0, 0, 0];
  }

  /** fb holds orig everywhere outside [base, p). */
  ghost predicate KeptOutside(fb: array<bv8>, orig: seq<bv8>, base: nat, p: nat)
    reads fb
  {
    |orig| == fb.Length && forall k :: 0 <= k < fb.Length && !(base <= k < p) ==> fb[k] == orig[k]
  }

  /**
   * Writes the next image row after the rows already in place; fb still
   * holds orig outside the rows written so far.
   */
  method PutNextRow(fb: array<bv8>, ghost base: nat, p: nat, ghost rows: seq<seq<bv8>>, row: seq<bv8>, ghost orig: seq<bv8>)
    requires Placed(fb, base, rows) && p == base + 16 * |rows| && p + RowBytes <= fb.Length && |row| == RowBytes
    requires KeptOutside(fb, orig, base, p)
    modifies fb
    ensures Placed(fb, base, rows + [row])
    ensures KeptOutside(fb, orig, base, p + RowBytes)
  {
    PutRow(fb, p, row);
    assert fb[p..p + 16] == row;
  }

  /** The first loop of neomagicinitcursor: the cursor rows yo..15 of the image. */
  method PutCursorRows(fb: array<bv8>, base: nat, setPlane: seq<bv8>, clrPlane: seq<bv8>, xo: nat, yo: nat, ghost orig: seq<bv8>)
    returns (y: nat, p: nat)
    requires |setPlane| == CursorBytes && |clrPlane| == CursorBytes
    requires base + ImageSize <= fb.Length && KeptOutside(fb, orig, base, base)
    modifies fb
    ensures y == (if yo < CursorRows then CursorRows else yo) && p == base + 16 * (y - yo)
    ensures Placed(fb, base, Image(setPlane, clrPlane, xo, yo)[..y - yo])
    ensures KeptOutside(fb, orig, base, p)
  {
    ghost var img := Image(setPlane, clrPlane, xo, yo);
    p := base;
    y := yo;
    ghost var done: seq<seq<bv8>> := [];
    while y < CursorRows
      invariant yo <= y && (y <= CursorRows || y == yo)
      invariant p == base + 16 * (y - yo)
      invariant done == img[..y - yo]
      invariant Placed(fb, base, done)
      invariant KeptOutside(fb, orig, base, p)
    {
      var row := CursorRow(setPlane, clrPlane, xo, y);
      PutNextRow(fb, base, p, done, row, orig);
      done := done + [row];
      p := p + 16;
      y := y + 1;
    }
  }

  /** The second loop of neomagicinitcursor: transparent rows up to row 63 of the image. */
  method PutClearRows(fb: array<bv8>, base: nat, setPlane: seq<bv8>, clrPlane: seq<bv8>, xo: nat, yo: nat, y0: nat, p0: nat, ghost orig: seq<bv8>)
    requires |setPlane| == CursorBytes && |clrPlane| == CursorBytes
    requires base + ImageSize <= fb.Length
    requires y0 == (if yo < CursorRows then CursorRows else yo) && p0 == base + 16 * (y0 - yo)
    requires Placed(fb, base, Image(setPlane, clrPlane, xo, yo)[..y0 - yo]) && KeptOutside(fb, orig, base, p0)
    modifies fb
    ensures Placed(fb, base, Image(setPlane, clrPlane, xo, yo))
    ensures KeptOutside(fb, orig, base, base + ImageSize)
  {
    ghost var img := Image(setPlane, clrPlane, xo, yo);
    var p, y := p0, y0;
    ghost var done := img[..y - yo];
    while y < Rows + yo
      invariant yo <= y <= Rows + yo
      invariant p == base + 16 * (y - yo)
      invariant done == img[..y - yo]
      invariant Placed(fb, base, done)
      invariant KeptOutside(fb, orig, base, p)
    {
      PutNextRow(fb, base, p, done, seq(RowBytes, _ => 0), orig);
      done := done + [seq(RowBytes, _ => 0)];
      p := p + 16;
      y := y + 1;
    }
    assert img[..Rows] == img;
  }

  /**
   * neomagicinitcursor: writes cursor image index, the cursor shifted xo
   * pixels left and yo rows up, and nothing else.
   */
  method InitCursor(fb: array<bv8>, storage: nat, setPlane: seq<bv8>, clrPlane: seq<bv8>, xo: nat, yo: nat, index: nat)
    requires |setPlane| == CursorBytes && |clrPlane| == CursorBytes
    requires ImageStart(storage, index) + ImageSize <= fb.Length
    modifies fb
    ensures Placed(fb, ImageStart(storage, index), Image(setPlane, clrPlane, xo, yo))
    ensures forall k :: 0 <= k < fb.Length && !(ImageStart(storage, index) <= k < ImageStart(storage, index) + ImageSize) ==>
      fb[k] == old(fb[k])
  {
    ghost var orig := fb[..];
    var base := storage + index * 1024;
    var y, p := PutCursorRows(fb, base, setPlane, clrPlane, xo, yo, orig);
    PutClearRows(fb, base, setPlane, clrPlane, xo, yo, y, p, orig);
  }

  /**
   * neomagiccurload: draws the new cursor unshifted into image 0; nothing
   * happens when the registers are not mapped.
   */
  method CurLoad(fb: array<bv8>, mapped: bool, storage: nat, setPlane: seq<bv8>, clrPlane: seq<bv8>)
    requires |setPlane| == CursorBytes && |clrPlane| == CursorBytes
    requires storage + ImageSize <= fb.Length
    modifies fb
    ensures mapped ==> Placed(fb, storage, Image(setPlane, clrPlane, 0, 0))
    ensures forall k :: 0 <= k < fb.Length && !(mapped && storage <= k < storage + ImageSize) ==> fb[k] == old(fb[k])
  {
    if mapped {
      InitCursor(fb, storage, setPlane, clrPlane, 0, 0, 0);
    }
  }

  /* ---------------- neomagiccurmove ---------------- */

  /** The 12-bit KiB block number of image index. */
  function ImageBlock(storage: nat, index: nat): (a: nat)
    ensures a < 0x1000
  {
    (ImageStart(storage, index) / 1024) % 0x1000
  }

  /** The 12-bit block number with its low nibble moved to bits 8-11 and its high byte to bits 0-7. */
  function Rotate(a: nat): nat
  {
    (a % 16) * 256 + (a / 16) % 256
  }

  /** Reads the block number back out of a cursor address: ((r & 0xFF) << 4) | (r >> 8). */
  function AddrDecode(r: nat): nat
  {
    (r % 256) * 16 + r / 256
  }

  /** The rotation of a 12-bit block number stays within 12 bits and is undone by AddrDecode. */
  lemma RotateDecode(a: nat)
    requires a < 0x1000
    ensures Rotate(a) < 0x1000 && AddrDecode(Rotate(a)) == a
  {
    var l, h := a % 16, a / 16;
    assert a == 16 * h + l && h < 256;
    var r := l * 256 + h;
    assert Rotate(a) == r;
    assert r % 256 == h && r / 256 == l;
  }

  /**
   * The cursor address register value for image index (the two fields do not
   * overlap, so their OR is their sum).
   */
  function CurAddr(storage: nat, index: nat): (r: nat)
    ensures r < 0x1000
    ensures AddrDecode(r) == ImageBlock(storage, index)
  {
    RotateDecode(ImageBlock(storage, index));
    Rotate(ImageBlock(storage, index))
  }

  /** What neomagiccurmove puts in the cursor registers, and the image it draws. */
  datatype Placement = Placement(x: int, y: int, xo: nat, yo: nat, index: nat, addr: nat)

  /**
   * neomagiccurmove's arithmetic: a position off the left or top edge is
   * clamped to 0 and the overshoot is drawn into image 1 instead.
   */
  function CurPlace(p: Point, offset: Point, storage: nat): (r: Placement)
    ensures r.x >= 0 && r.y >= 0
    ensures r.x - r.xo == p.x + offset.x && r.y - r.yo == p.y + offset.y
    ensures r.xo == 0 || r.x == 0
    ensures r.yo == 0 || r.y == 0
    ensures r.index == (if r.xo != 0 || r.yo != 0 then 1 else 0)
    ensures AddrDecode(r.addr) == ImageBlock(storage, r.index) && r.addr < 0x1000
  {
    var x := p.x + offset.x;
    var y := p.y + offset.y;
    var xo: nat := if x < 0 then -x else 0;
    var yo: nat := if y < 0 then -y else 0;
    var index := if xo != 0 || yo != 0 then 1 else 0;
    Placement(if x < 0 then 0 else x, if y < 0 then 0 else y, xo, yo, index, CurAddr(storage, index))
  }

  /**
   * A cursor nine pixels off the left edge makes curmove hand initcursor
   * xo = 9, where the C shift p1>>(8-xo) has a negative count; the row
   * shift the code evidently means still shows the pixel in the last column
   * of p1 (bit 0), as bit 1 of the first byte.
   */
  lemma NineOffLeftEdge(storage: nat)
    ensures CurPlace(Point(-9, 0), Point(0, 0), storage).xo == 9
    ensures !ShiftDefined(9)
    ensures RowShift(0, 1, 9) == (2, 0)
  {
  }

  /**
   * neomagiccurmove: when the cursor hangs off an edge, draws the shifted
   * image 1; returns the register values, or None when the registers are not
   * mapped.
   */
  method CurMove(fb: array<bv8>, mapped: bool, storage: nat, setPlane: seq<bv8>, clrPlane: seq<bv8>, p: Point, offset: Point)
    returns (r: Option<Placement>)
    requires |setPlane| == CursorBytes && |clrPlane| == CursorBytes
    requires ImageStart(storage, 1) + ImageSize <= fb.Length
    modifies fb
    ensures r == (if mapped then Some(CurPlace(p, offset, storage)) else None)
    ensures (r.Some? && r.value.index == 1) ==> Placed(fb, ImageStart(storage, 1), Image(setPlane, clrPlane, r.value.xo, r.value.yo))
    ensures forall k :: 0 <= k < fb.Length && !(ImageStart(storage, 1) <= k < ImageStart(storage, 1) + ImageSize) ==>
      fb[k] == old(fb[k])
    ensures (r.None? || r.value.index == 0) ==> fb[..] == old(fb[..])
  {
    if !mapped {
      return None;
    }
    var index := 0;
    var x := p.x + offset.x;
    var xo: nat := 0;
    if x < 0 {
      xo := -x;
      x := 0;
    }
    var y := p.y + offset.y;
    var yo: nat := 0;
    if y < 0 {
      yo := -y;
      y := 0;
    }
    if xo != 0 || yo != 0 {
      index := 1;
      InitCursor(fb, storage, setPlane, clrPlane, xo, yo, index);
    }
    return Some(Placement(x, y, xo, yo, index, CurAddr(storage, index)));
  }
}
