# A Dafny model of four Plan 9 components

This project models, and proves properties of, four parts of the Plan 9
(9front) source tree:

- **The bcm MMU manager** (`sys/src/9/bcm/mmu.c`; modules `MmuDefs`, `Mmu`).
  It manages the ARMv7-A short-descriptor translation tables of the Raspberry Pi:
  - a 4096-slot L1 table of Fault, Section and Coarse entries;
  - 256-entry L2 tables of Small pages.

  `mmuinit` builds the boot L1 table. `mmuswitch` rebuilds the user part of
  a core's L1 for the incoming process, bounded by the two span counters
  `mmul1lo`/`mmul1hi`. `putmmu` installs one page translation on demand,
  taking an L2 page from the process's reuse cache or from the allocator.
  `mmul2empty`, `mmul1empty`, `flushmmu` and `mmurelease` tear the user
  mappings down. `mmuuncache`, `cankaddr` and `mmukmap` are kernel mapping
  helpers.

  The per-core state (`Mach`), the process bookkeeping (`Proc`) and the page
  store (`PageStore`) are classes whose fields the methods update. L1 is an
  `array`. The active list and the cache are `seq`s of page ids. TLB
  invalidations are recorded in a ghost log.
- **The snapshot reader of snap(1)** (`sys/src/cmd/snap/read.c`; modules
  `SnapBio`, `SnapRead`).
  - `Breadnumber` is a blank-delimited decimal tokenizer.
  - `findpid` and `findpage` are the lookups.
  - `readseg` splits a segment into pages and dispatches on each page's tag.
  - `readsnap` keeps one process node per pid and dispatches on section names.

  The Biobuf is a byte sequence plus a cursor. `sysfatal` is an `Err`.
- **rc's integer-to-decimal encoder** (`sys/src/cmd/rc/subr.c`; module
  `RcSubr`). The recursive `iacvt` writes into an array through a cursor
  that it returns advanced. `inttoascii` calls it and appends the NUL.
- **The NeoMagic cursor and blitter set-up** (`sys/src/9/pc/vganeomagic.c`;
  modules `NeoCursor`, `NeoChip`, `NeoBlit`).
  - `neomagicinitcursor` packs the 16x16 two-plane cursor into a 64x64 image of 1 KiB in display memory.
  - `neomagiccurmove` clamps the position and builds the nibble-rotated address register.
  - `neomagicenable` holds the chip table.
  - `neomagicdrawinit` holds the blit mode tables.
  - `neomagichwfill` and `neomagichwscroll` compute register values.

`Wrappers` holds the `Option` and `Result` types that stand for nil pointers
and fatal errors.

Headers that are not part of this model fix several values in mmu.c.
`MmuDefs` uses the Raspberry Pi memory map and the ARMv7-A short-descriptor
encoding for them:

- `KZERO` = 0x80000000, `PHYSDRAM` = 0, `UZERO` = 0, `USTKTOP` = 0x40000000, `HVECTORS` = 0xFFFF0000;
- Fault 0, Coarse 1, Section 2, Small 2;
- `L1AP(ap)` = ap<<10, `L2AP(ap)` = ap<<4;
- `L1noexec` = 0x10, `L2noexec` = 1;
- `PTEWRITE` = 2, `PTEUNCACHED` = 4, `PTENOEXEC` = 0x10.

snap.h is not part of this model either. `Pagesize` is taken to be 1024.

## Model

| member | source | states |
|---|---|---|
| `RcSubr.DigitChar` | sys/src/cmd/rc/subr.c:71 | `n%10+'0'` is a digit character whose value is the digit |
| `RcSubr.Decimal` | sys/src/cmd/rc/subr.c:69-71 | the digits of n are non-empty and all digits, and begin with '0' exactly when n is 0 (no leading zeros) |
| `RcSubr.DecimalRoundTrip` | sys/src/cmd/rc/subr.c:69-71 | reading back the digits written for n gives n |
| `RcSubr.DecimalCanonical` | sys/src/cmd/rc/subr.c:69-71 | every digit string without a leading zero is the output for exactly its own value |
| `RcSubr.ItoaRoundTrip` | sys/src/cmd/rc/subr.c:62-80 | the text starts with '-' exactly for negative n, is followed by digits with no leading zero, and parses back to n |
| `RcSubr.ItoaFits` | sys/src/cmd/rc/subr.c:74-80 | for every 32-bit n except INT_MIN the text and its NUL fit in 12 bytes |
| `RcSubr.ItoaSplit` | sys/src/cmd/rc/subr.c:65-71 | the text of n is the sign, the text of \|n\|/10 when that is non-zero, then the last digit |
| `RcSubr.Iacvt` | sys/src/cmd/rc/subr.c:62-72 | writes exactly the text of n at buf[bp..], returns bp plus its length, leaves the rest of buf unchanged; INT_MIN excluded |
| `RcSubr.InttoAscii` | sys/src/cmd/rc/subr.c:74-80 | s starts with the text of n followed by NUL; the bytes after the NUL are unchanged |
| `SnapBio.SpaceEnd` | sys/src/cmd/snap/read.c:67-70 | the end of the run of blanks: everything before it is blank, the character at it is not |
| `SnapBio.DigitEnd` | sys/src/cmd/snap/read.c:64-66 | the end of the run of decimal digits, likewise |
| `SnapBio.OctalEnd` | sys/src/cmd/snap/read.c:91 | the end of the run of octal digits, likewise |
| `SnapBio.Number` | sys/src/cmd/snap/read.c:53-82 | a success holds only digits, at most 22 of them, and moves the cursor forward |
| `SnapBio.NumberIs` | sys/src/cmd/snap/read.c:53-82 | blanks, then fewer than 22 digits, then blanks up to a non-blank or the end, read as those digits with the cursor on that non-blank |
| `SnapBio.NumberShape` | sys/src/cmd/snap/read.c:61-81 | the stored characters are the digits after the leading blanks; unless the 22-character limit stopped it, a number ends at a blank and the cursor is left on the next non-blank |
| `SnapBio.DigitsThenEndFail` | sys/src/cmd/snap/read.c:62-63 | any blanks then fewer than 22 digits, then end of input, fail with Eof |
| `SnapBio.BlanksOnlyEmpty` | sys/src/cmd/snap/read.c:61-81 | 22 blanks at the cursor succeed with an empty number, whatever follows |
| `SnapBio.Breadnumber` | sys/src/cmd/snap/read.c:53-82 | the reading loop computes exactly Number: the digits, or Eof or the bad character |
| `SnapBio.Strtoul` | sys/src/cmd/snap/read.c:84-104 | the value never exceeds the type's maximum, and is 0 when no digit follows the blanks |
| `SnapBio.Long` | sys/src/cmd/snap/read.c:200 | a value kept in a 32-bit long: in range, and congruent to the value modulo 2^32 |
| `SnapBio.Atol` | sys/src/cmd/snap/read.c:212 | the pid read is a 32-bit long |
| `SnapBio.AtolDecimal` | sys/src/cmd/snap/read.c:212 | blanks, an optional sign and decimal digits without a leading zero that fit a long read back as their value, negated after '-' |
| `SnapBio.AtolOctal` | sys/src/cmd/snap/read.c:212 | a leading 0 selects octal: "010" is 8 |
| `SnapBio.AtolHex` | sys/src/cmd/snap/read.c:212 | "0x" selects hexadecimal: "0x1F" is 31 |
| `SnapBio.StrtoulDecimal` | sys/src/cmd/snap/read.c:84-93 | digits without a leading zero read back as their decimal value |
| `SnapBio.StrtoulOctal` | sys/src/cmd/snap/read.c:91 | any octal digit string with a leading zero reads back as its octal value |
| `SnapRead.NewProc` | sys/src/cmd/snap/read.c:215-219 | a new node has the pid, an empty data slot per file, no segments and no text |
| `SnapRead.PageCountBounds` | sys/src/cmd/snap/read.c:147-151 | npg pages cover len, the last page is not empty, and npg is 0 exactly when len is 0 |
| `SnapRead.PageIndexInRange` | sys/src/cmd/snap/read.c:31-33 | an offset inside a segment has a page index below npg |
| `SnapRead.PageLen` | sys/src/cmd/snap/read.c:157-160 | each page length is between 1 and Pagesize |
| `SnapRead.PageSplitSum` | sys/src/cmd/snap/read.c:157-160 | the page lengths (Pagesize, except the remainder for the last page) add up to len |
| `SnapRead.PidIndex` | sys/src/cmd/snap/read.c:6-15 | the first node with the pid, or None exactly when no node has it |
| `SnapRead.FindPid` | sys/src/cmd/snap/read.c:6-15 | the list walk returns PidIndex |
| `SnapRead.SegIndex` | sys/src/cmd/snap/read.c:36-44 | the first segment with offset <= off < offset+len, or None exactly when there is none |
| `SnapRead.PageRef` | sys/src/cmd/snap/read.c:17-51 | an unknown pid is an error; a page the segment has not read yet is no page |
| `SnapRead.PageRefCovers` | sys/src/cmd/snap/read.c:17-51 | a page found is the one that starts exactly at off in the searched segment, at an index below npg |
| `SnapRead.FindPage` | sys/src/cmd/snap/read.c:17-51 | the lookup, with its loop and fatal checks, returns PageRef (the corrected text case, see Findings) |
| `SnapRead.TextPageAsWritten` | sys/src/cmd/snap/read.c:27-34 | the text lookup as written: it needs a text segment, and gives a page exactly when off < len |
| `SnapRead.TextRefWithoutText` | sys/src/cmd/snap/read.c:27-34 | a new node has no text, and the corrected lookup answers "no page" for a 't' reference to it |
| `SnapRead.Zeros` | sys/src/cmd/snap/read.c:163-164 | n zero bytes |
| `SnapRead.PageAt` | sys/src/cmd/snap/read.c:162-190 | only the tags z, r, m and t succeed; 'z' gives plen zeros; 'r' gives exactly the next plen bytes, and a short read fails |
| `SnapRead.RefAt` | sys/src/cmd/snap/read.c:168-179 | a resolved reference moves the cursor forward |
| `SnapRead.PageAtReference` | sys/src/cmd/snap/read.c:168-179 | an 'm' or 't' page reads two numbers, and the page is what findpage returns for the pid read as a ulong and passed on as a 32-bit long, and the offset read as a uvlong |
| `SnapRead.ReadPage` | sys/src/cmd/snap/read.c:162-190 | the tag dispatch computes PageAt |
| `SnapRead.ReferencePidWraps` | sys/src/cmd/snap/read.c:170-174 | a ulong pid passed as a long becomes the long congruent to it modulo 2^32 |
| `SnapRead.WrappedPidReference` | sys/src/cmd/snap/read.c:170-174 | a reference to pid 0x80000000 finds the node of pid -2^31 |
| `SnapRead.Store` | sys/src/cmd/snap/read.c:155 | `*ps = s`: the slot holds s, and no other node, field or slot changes |
| `SnapRead.StoreOk` | sys/src/cmd/snap/read.c:155 | storing a complete segment, or what the slot held, keeps every segment well formed |
| `SnapRead.Pages` | sys/src/cmd/snap/read.c:155-191 | each page is read against the list whose slot holds the pages read before it; a success holds one page per index and keeps those pages first |
| `SnapRead.SelfReference` | sys/src/cmd/snap/read.c:155-179 | a page referring to an earlier page of the segment being read resolves to it, though the slot was empty before the section |
| `SnapRead.SegAt` | sys/src/cmd/snap/read.c:126-193 | the slot is either kept (empty segment) or holds a well-formed segment |
| `SnapRead.SegAtShape` | sys/src/cmd/snap/read.c:147-155 | length 0 leaves *ps unassigned; otherwise the segment has the offset and len read and ceil(len/Pagesize) pages |
| `SnapRead.ReadSeg` | sys/src/cmd/snap/read.c:126-193 | readseg computes SegAt |
| `SnapRead.ReadPages` | sys/src/cmd/snap/read.c:157-191 | the page loop computes Pages |
| `SnapRead.LineEnd` | sys/src/cmd/snap/read.c:204-210 | the first newline from pos, or None exactly when there is none |
| `SnapRead.NameIndex` | sys/src/cmd/snap/read.c:222-227 | the first data-file name equal to the section name, or None exactly when there is none |
| `SnapRead.DataAt` | sys/src/cmd/snap/read.c:106-124 | the body is exactly the header's length of bytes after the 12-byte header; a short header or body fails |
| `SnapRead.LocatedList` | sys/src/cmd/snap/read.c:214-220 | the pid's node is at Slot; a new node for an unknown pid goes at the head of the unchanged list |
| `SnapRead.Locate` | sys/src/cmd/snap/read.c:212-220 | finds the pid's node, or prepends a new one, keeping one node per pid and the rest of the list; the list is LocatedList |
| `SnapRead.MemSegs` | sys/src/cmd/snap/read.c:239-242 | the segments, each read into its slot after the previous one; a success moves the cursor forward and keeps the list's length |
| `SnapRead.ReadMem` | sys/src/cmd/snap/read.c:239-242 | the loop computes MemSegs, keeps every segment well formed, and changes no other node and no other field |
| `SnapRead.StoreData` | sys/src/cmd/snap/read.c:222-229 | computes DataBody: a data section succeeds exactly when readdata does; the new list is the located list with only that node's data slot for the file replaced by the bytes read |
| `SnapRead.DataBodyKept` | sys/src/cmd/snap/read.c:222-229 | a data section changes only the node for the pid and keeps one node per pid and every node's slots |
| `SnapRead.MemSegsFrame` | sys/src/cmd/snap/read.c:239-242 | the segment loop changes only the segments of its own node, each to what it held or to a well-formed segment |
| `SnapRead.MemBodyKept` | sys/src/cmd/snap/read.c:230-242 | a "mem" section changes only the node for the pid, and leaves every segment well formed and one node per pid |
| `SnapRead.TextBodyKept` | sys/src/cmd/snap/read.c:243-244 | a "text" section changes only the text of the node for the pid, and leaves it well formed |
| `SnapRead.LocatedListOk` | sys/src/cmd/snap/read.c:212-220 | after the lookup the pid has exactly one node, at Slot, and the other nodes are kept |
| `SnapRead.SectionAt` | sys/src/cmd/snap/read.c:210-247 | one section line and its body: only the node for the line's pid changes, the cursor moves past the line, and one node per pid is kept |
| `SnapRead.MemSection` | sys/src/cmd/snap/read.c:230-242 | computes MemBody: a count outside 1..16 (or a short count field) is fatal; otherwise the node gets that many empty slots, filled by MemSegs |
| `SnapRead.TextSection` | sys/src/cmd/snap/read.c:243-244 | computes TextBody: the text slot gets what SegAt reads into it; only the pid's node changes, one node per pid is kept |
| `SnapRead.ReadSection` | sys/src/cmd/snap/read.c:210-247 | computes SectionAt: data names (DataBody on LocatedList), then "mem" (MemBody), then "text" (TextBody) are dispatched in that order; any other name is "unknown section" |
| `SnapRead.Sections` | sys/src/cmd/snap/read.c:209-248 | the sections read one after the other until no line is left, the first failure ending the read; a result keeps one node per pid |
| `SnapRead.SectionsAfter` | sys/src/cmd/snap/read.c:209-248 | after one section: its error, or the sections that follow on the list it left; a result keeps one node per pid |
| `SnapRead.NextSection` | sys/src/cmd/snap/read.c:210-247 | one turn of the loop reads SectionAt and leaves the remaining sections to SectionsAfter |
| `SnapRead.ReadSections` | sys/src/cmd/snap/read.c:209-248 | the section loop computes Sections |
| `SnapRead.Snapshot` | sys/src/cmd/snap/read.c:195-249 | a result has a "process snapshot" first line and exactly one node per pid |
| `SnapRead.SnapshotCases` | sys/src/cmd/snap/read.c:203-209 | a missing first line and a wrong first line are fatal with their own messages; otherwise the sections after the first line from an empty list |
| `SnapRead.ReadSnap` | sys/src/cmd/snap/read.c:195-249 | computes Snapshot: the header checks, then the sections read from the line after it |
| `SnapRead.ReadBody` | sys/src/cmd/snap/read.c:209-248 | after a good first line, the result is Sections from an empty list |
| `NeoChip.BarAddr` | sys/src/9/pc/vganeomagic.c:83 | bar & ~0x0F: 16-aligned, and below bar by less than 16 |
| `NeoChip.MapBar1` | sys/src/9/pc/vganeomagic.c:81-84 | maps BAR 1 exactly when it is a non-empty memory BAR, with the curoff and vmsize-2048 storage |
| `NeoChip.Enable` | sys/src/9/pc/vganeomagic.c:26-101 | accepts exactly vendor 0x10C8 with one of the six device ids and a usable BAR; curoff and storage come from the table; the 128ZV maps BAR 0 + 0x200000 with size 0x200000 |
| `NeoChip.ImagesFitIn` | sys/src/9/pc/vganeomagic.c:91-97 | for a display memory size, the two 1 KiB images fill its last 2 KiB, do not overlap, and have different address registers |
| `NeoChip.ImagesFit` | sys/src/9/pc/vganeomagic.c:44-97 | on every accepted chip the two images fit, in that way |
| `NeoBlit.DepthBits` | sys/src/9/pc/vganeomagic.c:433-445 | only depths 8 and 16 are set up, with equal mode and flag bits |
| `NeoBlit.WidthBits` | sys/src/9/pc/vganeomagic.c:447-479 | the mode and flag width bits are equal and lie within the width field |
| `NeoBlit.Fields` | sys/src/9/pc/vganeomagic.c:431-479 | the depth field and the width field can each be read back out of the flags, and no other bit is set |
| `NeoBlit.StatReg` | sys/src/9/pc/vganeomagic.c:482 | BltStat holds the mode in its high half and zeros in its low half |
| `NeoBlit.PitchReg` | sys/src/9/pc/vganeomagic.c:483 | the pitch register has the pitch's low 16 bits in both halves |
| `NeoBlit.DrawInit` | sys/src/9/pc/vganeomagic.c:423-487 | the blitter is set up exactly at depths 8 and 16; bltmode equals the flags; the flags hold the depth field and nothing outside the depth and width fields |
| `NeoBlit.DrawInitWidth` | sys/src/9/pc/vganeomagic.c:447-479 | the width field is the width's table entry, 0 for an unlisted width |
| `NeoBlit.DrawInitRegs` | sys/src/9/pc/vganeomagic.c:481-483 | the registers written are BltStat = mode<<16 and the pitch register |
| `NeoBlit.PixelAddr` | sys/src/9/pc/vganeomagic.c:378-380 | a start offset is a 32-bit value |
| `NeoBlit.PixelAddrStep` | sys/src/9/pc/vganeomagic.c:400-416 | the next pixel is bpp bytes further on, the next row pitch bytes further on |
| `NeoBlit.XYExt` | sys/src/9/pc/vganeomagic.c:381 | the extent has Dy in its high 16 bits and Dx in its low 16 bits |
| `NeoBlit.HwFill` | sys/src/9/pc/vganeomagic.c:363-384 | colour sval; control = flags plus FIFO_EN, SRC_IS_FG, SKIP_MAPPING and GXcopy, with no direction bit added; starts at r.min |
| `NeoBlit.HwScroll` | sys/src/9/pc/vganeomagic.c:386-421 | upper-left start (no decrement bits) exactly when r.min.y < sr.min.y, or equal y and r.min.x < sr.min.x; otherwise all three decrement bits are set and both offsets address the last pixels |
| `NeoBlit.ScrollReadsBeforeWrite` | sys/src/9/pc/vganeomagic.c:394-417 | in the chosen direction, no source pixel is overwritten before the step that reads it |
| `NeoBlit.OppositeDirectionClobbers` | sys/src/9/pc/vganeomagic.c:394-417 | when the rectangles differ, the other direction would overwrite a source pixel before reading it |
| `NeoCursor.RowShift` | sys/src/9/pc/vganeomagic.c:127-130 | a shift of 0 keeps the two bytes |
| `NeoCursor.ShiftLeftIs` | sys/src/9/pc/vganeomagic.c:128-129 | up to 8 pixels, the pixel-by-pixel shift is C's single shift |
| `NeoCursor.RowShiftWide` | sys/src/9/pc/vganeomagic.c:128-129 | shifted 8 or more the right byte is blank; shifted 16 or more nothing is left |
| `NeoCursor.RowShiftAsWritten` | sys/src/9/pc/vganeomagic.c:127-130 | the C shift on 32-bit values, defined only for xo <= 8; xo = 0 copies the bytes |
| `NeoCursor.RowShiftAgrees` | sys/src/9/pc/vganeomagic.c:127-130 | for 0 <= xo <= 8 the C shift is the 16-bit row shifted left by xo and truncated |
| `NeoCursor.RowShiftMasked` | sys/src/9/pc/vganeomagic.c:137-142 | after the shift the mask bytes (clr\|set) still cover the set bytes |
| `NeoCursor.RowImage` | sys/src/9/pc/vganeomagic.c:124-148 | each row has 16 bytes: set pair, 6 zeros, mask pair, 6 zeros; rows past the cursor are all zero |
| `NeoCursor.RowImageMasked` | sys/src/9/pc/vganeomagic.c:124-148 | in every image row the mask plane covers the set plane |
| `NeoCursor.ImageUnshifted` | sys/src/9/pc/vganeomagic.c:125-138 | unshifted, a row carries the cursor's set bytes and clr\|set bytes unchanged |
| `NeoCursor.Image` | sys/src/9/pc/vganeomagic.c:114-156 | 64 rows of 16 bytes; rows at or past cursor row 16 are transparent |
| `NeoCursor.CursorRow` | sys/src/9/pc/vganeomagic.c:125-147 | the bytes built for cursor row y are RowImage |
| `NeoCursor.PutCursorRows` | sys/src/9/pc/vganeomagic.c:124-148 | the first loop places image rows 0..15-yo, stops with y = max(16, yo), and writes nothing else |
| `NeoCursor.PutClearRows` | sys/src/9/pc/vganeomagic.c:149-155 | the second loop completes the 64 rows, and writes nothing outside the image |
| `NeoCursor.InitCursor` | sys/src/9/pc/vganeomagic.c:114-156 | image index holds the cursor shifted xo left and yo up, as 1024 bytes from storage+index*1024, for any yo; nothing else changes |
| `NeoCursor.CurLoad` | sys/src/9/pc/vganeomagic.c:158-171 | when mapped, draws the unshifted cursor into image 0; otherwise changes nothing |
| `NeoCursor.ImageBlock` | sys/src/9/pc/vganeomagic.c:201 | the block number is 12 bits |
| `NeoCursor.RotateDecode` | sys/src/9/pc/vganeomagic.c:202 | the nibble rotation stays below 0x1000 and ((r&0xFF)<<4)\|(r>>8) undoes it |
| `NeoCursor.CurAddr` | sys/src/9/pc/vganeomagic.c:201-202 | the address register is below 0x1000 and decodes to the image's block |
| `NeoCursor.CurPlace` | sys/src/9/pc/vganeomagic.c:183-202 | clamps x and y to >= 0, with the overshoot in xo and yo; index is 1 exactly when xo or yo is non-zero; the address decodes to that image's block |
| `NeoCursor.NineOffLeftEdge` | sys/src/9/pc/vganeomagic.c:184-185 | x = -9 gives xo = 9, outside the shift C defines, and the intended row shift is still determined |
| `NeoCursor.CurMove` | sys/src/9/pc/vganeomagic.c:173-210 | returns CurPlace when mapped; redraws image 1 only when shifted; nothing outside image 1 changes |
| `MmuDefs.L1X` | sys/src/9/bcm/mmu.c:10 | the L1 index is below 4096 |
| `MmuDefs.L2X` | sys/src/9/bcm/mmu.c:11 | the L2 index is below 256 |
| `MmuDefs.AddressSplit` | sys/src/9/bcm/mmu.c:9-11 | L1X, L2X and the page offset recompose the address |
| `MmuDefs.L1XStep` | sys/src/9/bcm/mmu.c:37-41 | adding k MiB, wrapped at 2^32, moves the L1 slot by k modulo 4096 |
| `MmuDefs.SmallPteDecode` | sys/src/9/bcm/mmu.c:242-251 | the Small entry has pa's frame; Urw iff PTEWRITE, else Uro; L2noexec iff PTENOEXEC; the DRAM attributes iff PTEUNCACHED is clear |
| `MmuDefs.CoarsePteDecode` | sys/src/9/bcm/mmu.c:145 | a Coarse entry is not Fault, has type Coarse, and gives back its page |
| `MmuDefs.SpanAfter` | sys/src/9/bcm/mmu.c:146-151 | after the update x is in a tracked span, the counters do not shrink, lo+hi still fit, and a slot already covered changes nothing |
| `MmuDefs.SpanGrows` | sys/src/9/bcm/mmu.c:228-233 | growing the counters keeps every covered slot covered |
| `MmuDefs.DramPteDecode` | sys/src/9/bcm/mmu.c:39 | a RAM section decodes to its frame and has type Section |
| `MmuDefs.BootRamSlot` | sys/src/9/bcm/mmu.c:37-41 | for each MiB k of RAM, slot L1X(KZERO+k MiB) maps PHYSDRAM+k MiB unless a later write claims it |
| `MmuDefs.BootIoNoexec` | sys/src/9/bcm/mmu.c:51-58 | every device-window slot and the ARM-local slot carry L1noexec and the Section bit |
| `MmuDefs.BootVectors` | sys/src/9/bcm/mmu.c:63-64 | the HVECTORS slot is Coarse and points at l2 |
| `Mmu.Zeros` | sys/src/9/bcm/mmu.c:92-93 | a zeroed table is 256 Fault entries |
| `Mmu.InstallStep` | sys/src/9/bcm/mmu.c:218-225 | a new page's Coarse entry at its daddr keeps L1 showing exactly the active list |
| `Mmu.SpanStep` | sys/src/9/bcm/mmu.c:146-151 | filling a slot and updating the counters keeps every populated user slot in the spans |
| `Mmu.MmuInit` | sys/src/9/bcm/mmu.c:25-66 | every L1 slot ends as BootSlot of its old value (RAM, identity, devices, ARM-local, vectors, later writes winning); only l2[L2X(HVECTORS)] of l2 changes, to the Small entry for PHYSDRAM |
| `Mmu.BootCompose` | sys/src/9/bcm/mmu.c:37-64 | the writes of mmuinit, one stage after another, give BootSlot |
| `Mmu.MapRam` | sys/src/9/bcm/mmu.c:37-41 | the RAM loop maps every MiB of RAM at KZERO upwards and leaves the other slots |
| `Mmu.MapIo` | sys/src/9/bcm/mmu.c:51-55 | the device loop maps every MiB of the window at virtio upwards and returns the address past it |
| `Mmu.RamWrite` | sys/src/9/bcm/mmu.c:39-40 | one step extends the mapped RAM run by one slot |
| `Mmu.IoWrite` | sys/src/9/bcm/mmu.c:53-54 | one step extends the mapped device run by one slot |
| `Mmu.MmuInit1` | sys/src/9/bcm/mmu.c:71-81 | only the identity slot changes, to PTEDRAM or Fault; then one single-address and one global invalidation |
| `Mmu.Mmul2Empty` | sys/src/9/bcm/mmu.c:83-101 | active list empty; cache = old active ++ old cache; exactly the old active pages' slots become Fault; exactly their tables are zeroed, and only when clear is set |
| `Mmu.FaultActive` | sys/src/9/bcm/mmu.c:91-96 | the loop faults the slots of the listed pages and zeroes their tables when clear is set |
| `Mmu.FaultStep` | sys/src/9/bcm/mmu.c:92-95 | one page: its table is zeroed when clear is set, and its slot faulted |
| `Mmu.ZeroFramesShape` | sys/src/9/bcm/mmu.c:91-93 | zeroing keeps the set of tables and makes exactly the listed pages' tables all Fault |
| `Mmu.PoolEmptied` | sys/src/9/bcm/mmu.c:97-100 | moving the active list onto the cache keeps the pool well formed, and with zeroing keeps a clean cache clean |
| `Mmu.ClearSlots` | sys/src/9/bcm/mmu.c:113 | the memset makes exactly the n slots from `from` Fault |
| `Mmu.Mmul1Empty` | sys/src/9/bcm/mmu.c:103-124 | exactly the two tracked spans become Fault (the single-slot and memset branches agree); both counters become 0; no user slot was populated outside the spans |
| `Mmu.MmuSwitch` | sys/src/9/bcm/mmu.c:126-160 | the non-Fault user slots are exactly the Coarse entries of proc's active list (none for nil); a pending newtlb first moves the list to the cache, zeroing its tables, and clears the flag; kernel slots are kept; one global invalidation |
| `Mmu.InstallActive` | sys/src/9/bcm/mmu.c:141-152 | from an empty user part, installs every active page and widens the counters to cover it |
| `Mmu.InstallOne` | sys/src/9/bcm/mmu.c:143-151 | one page's Coarse entry is written and its slot covered |
| `Mmu.FlushMmu` | sys/src/9/bcm/mmu.c:162-171 | the running process's active list is moved to its cache; exactly its tables are zeroed and no table is added; no user slot is populated afterwards; kernel slots are kept |
| `Mmu.MmuRelease` | sys/src/9/bcm/mmu.c:173-189 | both lists become empty; every page of old active ++ old cache is freed exactly once; no user slot is populated and both counters are 0; kernel slots, tables, descriptors and newtlb are kept |
| `Mmu.ReleaseL2` | sys/src/9/bcm/mmu.c:176-179 | mmul2empty without zeroing and freepages: only user slots change, the tables are kept, and each owned page is freed once |
| `Mmu.FreeCache` | sys/src/9/bcm/mmu.c:178-179 | every cached page is freed once and the cache becomes nil |
| `Mmu.TakeL2` | sys/src/9/bcm/mmu.c:205-220 | takes the cache head (the cache shrinks by one), else a fresh zeroed page; pushes it on the active list with daddr x; owned pages stay on distinct frames |
| `Mmu.ApartTaken` | sys/src/9/bcm/mmu.c:207-220 | the owned pages stay on distinct frames after the cache head or a fresh page at a new address is taken |
| `Mmu.PoolPush` | sys/src/9/bcm/mmu.c:207-220 | pushing the chosen page keeps the pool well formed |
| `Mmu.PoolPushCached` | sys/src/9/bcm/mmu.c:214-217 | moving the cache head to the active list keeps the pool well formed |
| `Mmu.PoolPushFresh` | sys/src/9/bcm/mmu.c:207-213 | a fresh page on the active list keeps the pool well formed |
| `Mmu.PageBase` | sys/src/9/bcm/mmu.c:255 | PPN(va): page-aligned, at most va, less than a page below it |
| `Mmu.NewSlot` | sys/src/9/bcm/mmu.c:205-234 | the Fault branch of putmmu: the taken page's Coarse entry fills slot x; L1 shows the active list; the counters cover x and do not shrink; no other slot changes |
| `Mmu.PutMmu` | sys/src/9/bcm/mmu.c:191-264 | slot L1X(va) is non-Fault; a page is taken only if it was Fault, the cache head (the cache shrinks by one) or else a fresh page at newpa; entry L2X(va) becomes the Small entry for pa; no other L2 entry or L1 slot changes; a clean cache stays clean; one single-address invalidation |
| `Mmu.PutL2` | sys/src/9/bcm/mmu.c:235-252 | only entry k of the table the slot points at changes, and a clean cache stays clean |
| `Mmu.CoarsePteDecodeInstalled` | sys/src/9/bcm/mmu.c:235 | a populated user slot points at its backing page's 256-entry table |
| `Mmu.MmuUncache` | sys/src/9/bcm/mmu.c:266-290 | not a Section: nil, nothing changes; a Section: its DRAM attributes are cleared, va is returned and invalidated; no other slot changes |
| `Mmu.WithoutAttrs` | sys/src/9/bcm/mmu.c:285 | clears exactly the attribute bits and keeps all the others |
| `Mmu.Uncache` | sys/src/9/bcm/mmu.c:283-285 | defined exactly for entries whose type bits are Section |
| `Mmu.UncacheIdempotent` | sys/src/9/bcm/mmu.c:283-285 | a second mmuuncache leaves the entry as the first one left it |
| `Mmu.CanKaddr` | sys/src/9/bcm/mmu.c:296-302 | non-zero exactly inside the RAM alias, and then reaches exactly its end |
| `Mmu.Invalidations` | sys/src/9/bcm/mmu.c:320-323 | one single-address invalidation per MiB, in order |
| `Mmu.MmuKmap` | sys/src/9/bcm/mmu.c:304-326 | if a needed slot is in use: returns 0 and changes nothing; otherwise slot i maps pa-o+i MiB as a no-execute kernel section, returns va+o, and invalidates each address |
| `Mmu.SlotsFree` | sys/src/9/bcm/mmu.c:316-318 | true exactly when all the needed slots are Fault |
| `Mmu.MapSlots` | sys/src/9/bcm/mmu.c:320-323 | the second loop writes the sections and logs the invalidations |

## Left out

- Cache maintenance is not modelled: `cachedwbtlb`, `cachedwbse`, `cacheiinvse`, `cachedwbinvse` and `coherence`. TLB invalidations appear only as events in the ghost log `Mach.tlb`. They are hardware effects, not memory contents.
- Interrupt masking (`splhi`/`spllo`/`splx`) is not modelled. Neither is the core migration while `newpage` sleeps, or the re-fetch of `l1` at mmu.c:211-212. Every operation runs sequentially on one core.
- `newpage`, `freepages`, `kmap`, `KADDR`, `PADDR` and `VA` are foreign.
  - A fresh page is the next id of a supply, and its table is a zeroed table at the physical address `newpa`. `newpa` is a parameter.
  - Freed pages go into a multiset.
  - L2 tables are addressed by physical frame. The kernel alias of a page is not modelled.
- Page-table and register entries use the header constants fixed above. Another board's values would need those constants changed.
- Mmu.PutMmu: the `page` argument and the text-flush step (`needtxtflush`/`donetxtflush`, mmu.c:257-261) are not modelled. PutMmu also requires the running process's active list to be installed in L1 and the spans to cover it. The C code relies on a previous `mmuswitch` for that.
- Mmu.MmuInit: requires that neither the RAM window nor the device window reaches the top of the 32-bit address space. Otherwise `pa += MiB` wraps and the C loop never ends.
- Mmu.MmuKmap: requires that the slots needed fit below the end of L1. The C code would walk past the table.
- Mmu.MmuKmap: the `assert` that va is MiB-aligned (mmu.c:311) is modelled as the precondition `va % MiB == 0`. The panic on a misaligned va is not modelled.
- Mmu.MmuUncache: the `assert` that va is MiB-aligned and size is one MiB (mmu.c:279) is modelled as a precondition. The panic on other arguments is not modelled.
- Mmu.PutMmu: modelled only for user addresses (`L1lo <= L1X(va) < L1hi`), the only ones its callers pass. The C code would also fill a kernel slot without a check; the model does not cover that.
- `checkmmu` and `kunmap` are not modelled: one is a diagnostic print, the other a no-op.
- `readdata` is modelled, but its overflow check `len + sizeof(*d) < sizeof(*d)` is not. Lengths are unbounded naturals.
- SnapBio.Strtoul: skips only blanks, accepts no sign and no `0x` prefix, and clamps at the type's maximum.
  - `Breadnumber` only ever hands it digits.
  - The `readdata` length header is read the same way.
- SnapBio.Atol: models the Plan 9 C library's `atol` (libc's atol.c is not part of this model). It skips blanks and tabs, reads a sign, then skips blanks and tabs again, and a leading `0` or `0x` selects octal or hexadecimal. The string ends at the end of the sequence, not at a NUL. It does not model the other white-space characters C's `isspace` would add. Signed overflow is taken to wrap at 32 bits, which C leaves undefined.
- SnapRead.MemSection: the count is read with Atol, taking `atoi` to be `atol` (int and long are both 32 bits here), from all 12 bytes of the field. The NUL written at `buf[12]` (read.c:233) lands one byte past the 12-byte buffer of read.c:199, and that stray write is not modelled.
- SnapRead.SegAt: segment lengths and offsets are unbounded naturals. C computes `npg` in `uvlong` and stores it in a `ulong`. A length within 1023 of 2^64 wraps to `npg` 0 there, and a page count of 2^32 or more is truncated. The model has neither.
- SnapRead.PageRef: `s->offset+s->len` (read.c:39) wraps at 2^64 in C, and a segment near the top of the address space then covers no offset. The model adds without wrapping.
- Mmu.PutMmu: requires that the owned pages sit on distinct physical pages and that `newpa` is none of them. That is what `newpage` guarantees by handing out free pages.
- `datapage` and `emalloc` are not modelled. A page is a value. A page found by reference is copied rather than shared, so aliasing between processes is not captured. The process list is a sequence of values, head first, not a linked list of heap nodes.
- The `debug` prints are not modelled.
- SnapRead.ReadSection: a section line shorter than 12 bytes has an empty section name. The C code reads past the line there.
- SnapRead.ReadSnap: the data-file names (`pfile`) are a parameter. The table is in a file that is not part of this model.
- `Brdline` failures other than end of input are not modelled.
- No MMIO register store of the NeoMagic driver is modelled. Each operation returns the values it would store. The polling in `waitforidle`/`waitforfifo` is not modelled, nor are `vmap`, `addvgaseg`, `vgalinearpci` and PCI probing.
- NeoChip.Enable: a failing `vmap` is not modelled. The result is the mapping recorded on success.
- `neomagiccurdisable`, `neomagiccurenable` (cursor colours and enable bits) and the compare-before-write of the address register are not modelled. They are register stores only.
- `rc`'s `emalloc`, `erealloc`, `estrdup`, `yyerror` and `panic` are not modelled.
- RcSubr.Iacvt: n = INT_MIN is excluded, because negating it overflows (the comment at subr.c:67 says so). RcSubr.InttoAscii inherits the exclusion.

## Findings

| source | as written | input that shows it | evidently intended | confidence | as-written member | corrected member |
|---|---|---|---|---|---|---|
| sys/src/cmd/snap/read.c:27-34 | For a 't' page reference, findpage dereferences `plist->text` without checking it. A node is created without a text segment (read.c:215-219), and a "text" section of length 0 leaves it so (read.c:150-151). | A snapshot with a section for pid 1 other than "text", then a segment page `t1 0 `. findpage reads `s->len` through a nil `s`. | Treat a missing text segment like an offset past its end: no page, so readseg reports "bad page reference in snapshot". | not executed | `SnapRead.TextPageAsWritten`, `SnapRead.TextRefWithoutText` | `SnapRead.PageRef`, `SnapRead.FindPage` |
| sys/src/9/pc/vganeomagic.c:128-131 | `p1>>(8-xo)` (also at lines 140-143). neomagiccurmove sets xo = -x with no bound (lines 184-185), so for xo > 8 the shift count is negative, which C leaves undefined. | A cursor at x = -9: xo = 9. | Shift the 16-pixel row xo pixels left, dropping what passes the edge. For xo = 9, the set pixel in the last column of p1 (bit 0) becomes bit 1 of the first byte. | not executed | `NeoCursor.RowShiftAsWritten`, `NeoCursor.NineOffLeftEdge` | `NeoCursor.RowShift`, `NeoCursor.RowShiftAgrees`, `NeoCursor.InitCursor` |
