/**
 * The snapshot reader of snap(1) (sys/src/cmd/snap/read.c): a snapshot file
 * is a header line followed by sections, each introduced by a line holding a
 * pid in a 12-byte field and a section name.  Data sections are stored in
 * the process's slot for that name; "mem" and "text" sections are segments,
 * cut into pages that are either zero, raw bytes, or a reference to a page
 * read earlier for some process.
 *
 * The process list is a sequence of values, head first, instead of a linked
 * list of heap nodes; a page found by reference is copied rather than
 * shared.  sysfatal is an Err carrying the message.
 */
module SnapRead {
  import opened Wrappers
  import opened SnapBio

  const Pagesize: nat := 1024
  const ULongMax: nat := 0xFFFF_FFFF
  const UVLongMax: nat := 0xFFFF_FFFF_FFFF_FFFF
  /** The most segments a "mem" section may declare. */
  const MaxSegs: nat := 16
  /** Where the section name starts in a section line, after the pid field. */
  const NameOffset: nat := 12
  /** Bytes in the length header of a data section and in the segment count of a "mem" section. */
  const HdrLen: nat := 12

  const Magic: seq<byte> := [112, 114, 111, 99, 101, 115, 115, 32, 115, 110, 97, 112, 115, 104, 111, 116]  // "process snapshot"
  const MemName: seq<byte> := [109, 101, 109]        // "mem"
  const TextName: seq<byte> := [116, 101, 120, 116]  // "text"

  const TagZero: byte := 122  // 'z'
  const TagMem: byte := 109   // 'm'
  const TagText: byte := 116  // 't'
  const TagRaw: byte := 114   // 'r'

  datatype Page = Page(data: seq<byte>)

  /**
   * A segment: where it starts, how long it is, its page count npg, and its
   * pages.  While readseg is reading it, pg holds the pages read so far; the
   * later entries of the C array are still nil.
   */
  datatype Seg = Seg(offset: nat, len: nat, npg: nat, pg: seq<Page>)

  /**
   * A process: its pid, the data sections by file index, its memory
   * segments (None where a segment was empty) and its text segment.
   */
  datatype Proc = Proc(pid: int, d: seq<Option<seq<byte>>>, seg: seq<Option<Seg>>, text: Option<Seg>)

  function NewProc(pid: int, npfile: nat): (p: Proc)
    ensures p.pid == pid && |p.d| == npfile && p.seg == [] && p.text == None
  {
    Proc(pid, seq(npfile, _ => None), [], None)
  }

  /* ---------------- page split ---------------- */

  /** readseg's npg: the number of pages a segment of len bytes is cut into. */
  function PageCount(len: nat): nat
  {
    (len + Pagesize - 1) / Pagesize
  }

  lemma PageCountBounds(len: nat)
    ensures len <= PageCount(len) * Pagesize
    ensures PageCount(len) > 0 ==> (PageCount(len) - 1) * Pagesize < len
    ensures PageCount(len) == 0 <==> len == 0
  {
    var n := PageCount(len);
    assert n * Pagesize <= len + Pagesize - 1 < n * Pagesize + Pagesize;
  }

  /** An offset inside a segment falls in one of its pages. */
  lemma PageIndexInRange(len: nat, off: nat)
    requires off < len
    ensures off / Pagesize < PageCount(len)
  {
    PageCountBounds(len);
    var q := off / Pagesize;
    assert q * Pagesize <= off;
  }

  /** The length of page i: Pagesize, except the last page, which holds what is left. */
  function PageLen(len: nat, i: nat): (n: nat)
    requires i < PageCount(len)
    ensures 0 < n <= Pagesize
  {
    PageCountBounds(len);
    if i + 1 == PageCount(len) then len - i * Pagesize else Pagesize
  }

  /** The total length of pages 0..n-1. */
  function SplitTotal(len: nat, n: nat): nat
    requires n <= PageCount(len)
  {
    if n == 0 then 0 else SplitTotal(len, n - 1) + PageLen(len, n - 1)
  }

  lemma {:induction false} SplitFull(len: nat, n: nat)
    requires n < PageCount(len)
    ensures SplitTotal(len, n) == n * Pagesize
  {
    if n > 0 {
      SplitFull(len, n - 1);
    }
  }

  /** readseg: the page lengths add up to the segment's length. */
  lemma PageSplitSum(len: nat)
    ensures SplitTotal(len, PageCount(len)) == len
  {
    var n := PageCount(len);
    if n > 0 {
      SplitFull(len, n - 1);
    }
  }

  /* ---------------- findpid and findpage ---------------- */

  predicate SegOk(s: Seg)
  {
    s.npg == PageCount(s.len) && |s.pg| == s.npg
  }

  /** At most MaxSegs memory segments, and every segment of the process has its pages. */
  predicate ProcSegsOk(p: Proc)
  {
    |p.seg| <= MaxSegs &&
    (forall i :: 0 <= i < |p.seg| && p.seg[i].Some? ==> SegOk(p.seg[i].value)) &&
    (p.text.Some? ==> SegOk(p.text.value))
  }

  /** Every segment of every process has its pages. */
  predicate SegsOk(plist: seq<Proc>)
  {
    forall k :: 0 <= k < |plist| ==> ProcSegsOk(plist[k])
  }

  predicate ProcsOk(plist: seq<Proc>, npfile: nat)
  {
    SegsOk(plist) && forall k :: 0 <= k < |plist| ==> |plist[k].d| == npfile
  }

  /** Each pid has one node. */
  predicate PidsDistinct(plist: seq<Proc>)
  {
    forall j, k :: 0 <= j < k < |plist| ==> plist[j].pid != plist[k].pid
  }

  /** The first node at or after index from that has the pid. */
  function PidIndex(plist: seq<Proc>, pid: int, from: nat): (r: Option<nat>)
    requires from <= |plist|
    ensures r.Some? ==> (from <= r.value < |plist| && plist[r.value].pid == pid &&
      forall j :: from <= j < r.value ==> plist[j].pid != pid)
    ensures r.None? <==> forall j :: from <= j < |plist| ==> plist[j].pid != pid
    decreases |plist| - from
  {
    if from == |plist| then None
    else if plist[from].pid == pid then Some(from)
    else PidIndex(plist, pid, from + 1)
  }

  /** findpid: walks the list to the first node with the pid. */
  method FindPid(plist: seq<Proc>, pid: int) returns (r: Option<nat>)
    ensures r == PidIndex(plist, pid, 0)
  {
    var i := 0;
    while i < |plist|
      invariant i <= |plist|
      invariant forall j :: 0 <= j < i ==> plist[j].pid != pid
    {
      if plist[i].pid == pid {
        return Some(i);
      }
      i := i + 1;
    }
    return None;
  }

  predicate Covers(s: Option<Seg>, off: nat)
  {
    s.Some? && s.value.offset <= off < s.value.offset + s.value.len
  }

  /** The first segment at or after index from that covers off. */
  function SegIndex(segs: seq<Option<Seg>>, off: nat, from: nat): (r: Option<nat>)
    requires from <= |segs|
    ensures r.Some? ==> (from <= r.value < |segs| && Covers(segs[r.value], off) &&
      forall j :: from <= j < r.value ==> !Covers(segs[j], off))
    ensures r.None? <==> forall j :: from <= j < |segs| ==> !Covers(segs[j], off)
    decreases |segs| - from
  {
    if from == |segs| then None
    else if Covers(segs[from], off) then Some(from)
    else SegIndex(segs, off, from + 1)
  }

  /** Entry i of a segment's page array: nil (None) for a page not read yet. */
  function PageOf(s: Seg, i: nat): Option<Page>
  {
    if i < |s.pg| then Some(s.pg[i]) else None
  }

  /**
   * What findpage answers for a page reference: an error for an unknown pid
   * or a misaligned offset; otherwise the page at the offset in the text
   * segment (tag 't') or in the first memory segment that covers it, or no
   * page when there is none there or it has not been read yet.
   */
  function PageRef(plist: seq<Proc>, pid: int, t: byte, off: nat): (r: Result<Option<Page>, string>)
    ensures PidIndex(plist, pid, 0).None? ==> r.Err?
  {
    match PidIndex(plist, pid, 0)
    case None => Err("can't find referenced pid")
    case Some(k) =>
      var p := plist[k];
      if t == TagText then
        if off % Pagesize != 0 then Err("bad text offset alignment")
        else if p.text.None? || off >= p.text.value.len then Ok(None)
        else Ok(PageOf(p.text.value, off / Pagesize))
      else
        match SegIndex(p.seg, off, 0)
        case None => Ok(None)
        case Some(i) =>
          var s := p.seg[i].value;
          if (off - s.offset) % Pagesize != 0 then Err("bad mem offset alignment")
          else Ok(PageOf(s, (off - s.offset) / Pagesize))
  }

  /**
   * findpage: a page it returns is a page of the segment it searched whose
   * start is exactly off (counted from 0 for text, from the segment's start
   * otherwise), and the page index is below the segment's page count.
   */
  lemma PageRefCovers(plist: seq<Proc>, pid: int, t: byte, off: nat)
    requires SegsOk(plist)
    requires PageRef(plist, pid, t, off).Ok? && PageRef(plist, pid, t, off).value.Some?
    ensures PidIndex(plist, pid, 0).Some?
    ensures var p := plist[PidIndex(plist, pid, 0).value];
      var pg := PageRef(plist, pid, t, off).value.value;
      var s := if t == TagText then p.text else
        (if SegIndex(p.seg, off, 0).Some? then p.seg[SegIndex(p.seg, off, 0).value] else None);
      var base := if t == TagText then 0 else s.value.offset;
      s.Some? && base <= off < base + s.value.len &&
      (off - base) / Pagesize < s.value.npg &&
      base + (off - base) / Pagesize * Pagesize == off &&
      s.value.pg[(off - base) / Pagesize] == pg
  {
    var k := PidIndex(plist, pid, 0).value;
    if t == TagText {
      PageIndexInRange(plist[k].text.value.len, off);
    } else {
      var s := plist[k].seg[SegIndex(plist[k].seg, off, 0).value].value;
      PageIndexInRange(s.len, off - s.offset);
    }
  }

  /**
   * findpage, with a missing text segment read as "no page here" (see
   * TextPageAsWritten for the code as written).
   */
  method FindPage(plist: seq<Proc>, pid: int, t: byte, off: nat) returns (r: Result<Option<Page>, string>)
    ensures r == PageRef(plist, pid, t, off)
  {
    var k := FindPid(plist, pid);
    if k.None? {
      return Err("can't find referenced pid");
    }
    var p := plist[k.value];
    if t == TagText {
      if off % Pagesize != 0 {
        return Err("bad text offset alignment");
      }
      if p.text.None? || off >= p.text.value.len {
        return Ok(None);
      }
      return Ok(PageOf(p.text.value, off / Pagesize));
    }
    var i := 0;
    while i < |p.seg|
      invariant i <= |p.seg|
      invariant forall j :: 0 <= j < i ==> !Covers(p.seg[j], off)
    {
      if Covers(p.seg[i], off) {
        var s := p.seg[i].value;
        if (off - s.offset) % Pagesize != 0 {
          return Err("bad mem offset alignment");
        }
        return Ok(PageOf(s, (off - s.offset) / Pagesize));
      }
      i := i + 1;
    }
    return Ok(None);
  }

  /**
   * The text lookup of findpage as written: it dereferences the process's
   * text segment without checking it, so it needs one to be there.
   */
  function TextPageAsWritten(p: Proc, off: nat): (r: Option<Page>)
    requires p.text.Some? && SegOk(p.text.value) && off % Pagesize == 0
    ensures r.Some? <==> off < p.text.value.len
  {
    if off >= p.text.value.len then None
    else
      PageIndexInRange(p.text.value.len, off);
      Some(p.text.value.pg[off / Pagesize])
  }

  /**
   * A process node is created with no text segment, and a text section of
   * length 0 leaves it so; a 't' page reference to such a process reaches
   * the unchecked dereference.  The corrected lookup answers "no page".
   */
  lemma TextRefWithoutText(pid: int, npfile: nat)
    ensures NewProc(pid, npfile).text.None?
    ensures PageRef([NewProc(pid, npfile)], pid, TagText, 0) == Ok(None)
  {
    assert PidIndex([NewProc(pid, npfile)], pid, 0) == Some(0);
  }

  /* ---------------- readseg ---------------- */

  function Zeros(n: nat): (z: seq<byte>)
    ensures |z| == n && forall k :: 0 <= k < n ==> z[k] == 0
  {
    seq(n, _ => 0)
  }

  /**
   * One page of a segment, by its tag: 'z' is plen zero bytes, 'r' is the
   * next plen bytes, 'm' and 't' are a pid and an offset naming a page
   * findpage must find; anything else, and the end of the input, is fatal.
   */
  function PageAt(plist: seq<Proc>, data: seq<byte>, pos: nat, plen: nat): (r: Result<(Page, nat), string>)
    requires pos <= |data|
    ensures r.Ok? ==> pos < |data| && pos < r.value.1 <= |data|
    ensures r.Ok? ==> data[pos] in {TagZero, TagRaw, TagMem, TagText}
    ensures pos < |data| && data[pos] == TagZero ==> r == Ok((Page(Zeros(plen)), pos + 1))
    ensures pos < |data| && data[pos] == TagRaw ==>
      (r.Ok? <==> pos + 1 + plen <= |data|) &&
      (r.Ok? ==> r.value.0.data == data[pos + 1..pos + 1 + plen] && r.value.1 == pos + 1 + plen)
  {
    if pos == |data| then Err("error reading segment")
    else
      var t := data[pos];
      if t == TagZero then Ok((Page(Zeros(plen)), pos + 1))
      else if t == TagMem || t == TagText then RefAt(plist, data, pos + 1, t)
      else if t == TagRaw then
        if pos + 1 + plen <= |data| then Ok((Page(data[pos + 1..pos + 1 + plen]), pos + 1 + plen))
        else Err("short read of segment")
      else Err("error reading segment")
  }

  /** A page given by reference: a pid and an offset, read at pos, that findpage must resolve. */
  function RefAt(plist: seq<Proc>, data: seq<byte>, pos: nat, t: byte): (r: Result<(Page, nat), string>)
    requires pos <= |data|
    ensures r.Ok? ==> pos < r.value.1 <= |data|
  {
    match Number(data, pos)
    case Err(_) => Err("error reading segment x")
    case Ok((pid, p1)) =>
      match Number(data, p1)
      case Err(_) => Err("error reading segment x")
      case Ok((off, p2)) =>
        match PageRef(plist, Long(Strtoul(pid, ULongMax)), t, Strtoul(off, UVLongMax))
        case Err(e) => Err(e)
        case Ok(None) => Err("bad page reference in snapshot")
        case Ok(Some(pg)) => Ok((pg, p2))
  }

  /** A page reference resolves exactly as findpage says. */
  lemma PageAtReference(plist: seq<Proc>, data: seq<byte>, pos: nat, plen: nat)
    requires pos <= |data|
    requires PageAt(plist, data, pos, plen).Ok? && data[pos] in {TagMem, TagText}
    ensures Number(data, pos + 1).Ok? && Number(data, Number(data, pos + 1).value.1).Ok?
    ensures var (pid, p1) := Number(data, pos + 1).value;
      var (off, p2) := Number(data, p1).value;
      PageRef(plist, Long(Strtoul(pid, ULongMax)), data[pos], Strtoul(off, UVLongMax)) ==
        Ok(Some(PageAt(plist, data, pos, plen).value.0)) &&
      PageAt(plist, data, pos, plen).value.1 == p2
  {
  }

  /**
   * readseg reads a reference pid as a ulong and findpage takes it as a
   * 32-bit long: a reference pid names every node pid it agrees with
   * modulo 2^32, whatever sign atol gave that node.
   */
  lemma {:induction false} ReferencePidWraps(q: int, u: nat)
    requires LongMin <= q < -LongMin && (u - q) % 0x1_0000_0000 == 0
    ensures Long(u) == q
  {
    var v := u % 0x1_0000_0000;
    assert (v - q) % 0x1_0000_0000 == 0;
    if q >= 0 {
      assert v == q;
    } else {
      assert v == q + 0x1_0000_0000;
    }
  }

  /** The pid 2^31 in a text reference finds the node whose pid atol wrapped to -2^31. */
  lemma WrappedPidReference()
    ensures PageRef([Proc(LongMin, [], [], Some(Seg(0, Pagesize, 1, [Page([])])))], Long(0x8000_0000), TagText, 0) ==
      Ok(Some(Page([])))
  {
    ReferencePidWraps(LongMin, 0x8000_0000);
  }

  /** One page of a segment, read from data at pos. */
  method ReadPage(plist: seq<Proc>, data: seq<byte>, pos: nat, plen: nat) returns (r: Result<(Page, nat), string>)
    requires pos <= |data|
    ensures r == PageAt(plist, data, pos, plen)
  {
    if pos == |data| {
      return Err("error reading segment");
    }
    var t := data[pos];
    if t == TagZero {
      return Ok((Page(Zeros(plen)), pos + 1));
    } else if t == TagMem || t == TagText {
      var n1 := Breadnumber(data, pos + 1);
      if n1.Err? {
        return Err("error reading segment x");
      }
      var n2 := Breadnumber(data, n1.value.1);
      if n2.Err? {
        return Err("error reading segment x");
      }
      var pg := FindPage(plist, Long(Strtoul(n1.value.0, ULongMax)), t, Strtoul(n2.value.0, UVLongMax));
      if pg.Err? {
        return Err(pg.error);
      }
      if pg.value.None? {
        return Err("bad page reference in snapshot");
      }
      return Ok((pg.value.value, n2.value.1));
    } else if t == TagRaw {
      if pos + 1 + plen > |data| {
        return Err("short read of segment");
      }
      return Ok((Page(data[pos + 1..pos + 1 + plen]), pos + 1 + plen));
    }
    return Err("error reading segment");
  }

  /**
   * Where readseg stores the segment it reads (its Seg **ps): memory segment
   * idx of node `node`, or that node's text segment.
   */
  datatype SegSlot = MemSlot(node: nat, idx: nat) | TextSlot(node: nat)

  predicate SlotIn(plist: seq<Proc>, w: SegSlot)
  {
    w.node < |plist| && (w.MemSlot? ==> w.idx < |plist[w.node].seg|)
  }

  /** *ps: what the slot holds. */
  function SlotSeg(plist: seq<Proc>, w: SegSlot): Option<Seg>
    requires SlotIn(plist, w)
  {
    match w
    case MemSlot(k, i) => plist[k].seg[i]
    case TextSlot(k) => plist[k].text
  }

  /** *ps = s: the slot holds s afterwards, and nothing else in the list changes. */
  function Store(plist: seq<Proc>, w: SegSlot, s: Option<Seg>): (r: seq<Proc>)
    requires SlotIn(plist, w)
    ensures |r| == |plist| && SlotIn(r, w) && SlotSeg(r, w) == s
    ensures forall j :: 0 <= j < |plist| && j != w.node ==> r[j] == plist[j]
    ensures var p, q := plist[w.node], r[w.node];
      q.pid == p.pid && q.d == p.d && |q.seg| == |p.seg| &&
      (w.MemSlot? ==> q.text == p.text && forall i :: 0 <= i < |p.seg| && i != w.idx ==> q.seg[i] == p.seg[i]) &&
      (w.TextSlot? ==> q.seg == p.seg)
  {
    var p := plist[w.node];
    match w
    case MemSlot(k, i) => plist[k := p.(seg := p.seg[i := s])]
    case TextSlot(k) => plist[k := p.(text := s)]
  }

  /** Storing a complete segment, or what the slot held, keeps every segment complete. */
  lemma StoreOk(plist: seq<Proc>, w: SegSlot, s: Option<Seg>)
    requires SlotIn(plist, w) && SegsOk(plist)
    requires s == SlotSeg(plist, w) || (s.Some? && SegOk(s.value))
    ensures SegsOk(Store(plist, w, s))
  {
    var r := Store(plist, w, s);
    forall k | 0 <= k < |r|
      ensures ProcSegsOk(r[k])
    {
      if k == w.node {
        forall i | 0 <= i < |r[k].seg| && r[k].seg[i].Some? ensures SegOk(r[k].seg[i].value) {
          if w.MemSlot? && i == w.idx {
            assert r[k].seg[i] == s;
          }
        }
      }
    }
  }

  /** The segment in its slot while readseg reads its pages: the pages read so far are set, the rest are nil. */
  function Partial(offset: nat, len: nat, done: seq<Page>): Seg
  {
    Seg(offset, len, PageCount(len), done)
  }

  /**
   * Pages |done|..npg-1 of a segment of len bytes at offset, read in order
   * from data at pos.  readseg has already put the segment in its slot w
   * (*ps = s), so each page is read against the list in which that slot
   * holds the pages read before it.
   */
  function Pages(plist: seq<Proc>, w: SegSlot, offset: nat, len: nat, data: seq<byte>, pos: nat, done: seq<Page>)
    : (r: Result<(seq<Page>, nat), string>)
    requires SlotIn(plist, w) && pos <= |data| && |done| <= PageCount(len)
    ensures r.Ok? ==> |r.value.0| == PageCount(len) && pos <= r.value.1 <= |data|
    ensures r.Ok? ==> r.value.0[..|done|] == done
    decreases PageCount(len) - |done|
  {
    if |done| == PageCount(len) then Ok((done, pos))
    else
      match PageAt(Store(plist, w, Some(Partial(offset, len, done))), data, pos, PageLen(len, |done|))
      case Err(e) => Err(e)
      case Ok((pg, p1)) =>
        var r := Pages(plist, w, offset, len, data, p1, done + [pg]);
        PrefixKept(r, done, pg);
        r
  }

  /** Pages that start with done + [pg] start with done. */
  lemma PrefixKept(r: Result<(seq<Page>, nat), string>, done: seq<Page>, pg: Page)
    requires r.Ok? ==> |done| < |r.value.0| && r.value.0[..|done| + 1] == done + [pg]
    ensures r.Ok? ==> r.value.0[..|done|] == done
  {
    if r.Ok? {
      assert r.value.0[..|done|] == r.value.0[..|done| + 1][..|done|];
    }
  }

  /**
   * What readseg reads at pos into the slot w: the segment's offset and
   * length, then its pages.  A segment of length 0 leaves the slot as it was.
   */
  function SegAt(plist: seq<Proc>, w: SegSlot, data: seq<byte>, pos: nat): (r: Result<(Option<Seg>, nat), string>)
    requires SlotIn(plist, w) && pos <= |data|
    ensures r.Ok? ==> pos < r.value.1 <= |data|
    ensures r.Ok? ==> r.value.0 == SlotSeg(plist, w) || (r.value.0.Some? && SegOk(r.value.0.value))
  {
    match Number(data, pos)
    case Err(_) => Err("error reading segment")
    case Ok((offset, p1)) =>
      match Number(data, p1)
      case Err(_) => Err("error reading segment")
      case Ok((len, p2)) =>
        var n := Strtoul(len, UVLongMax);
        if PageCount(n) == 0 then Ok((SlotSeg(plist, w), p2))
        else
          match Pages(plist, w, Strtoul(offset, UVLongMax), n, data, p2, [])
          case Err(e) => Err(e)
          case Ok((pgs, p3)) => Ok((Some(Seg(Strtoul(offset, UVLongMax), n, PageCount(n), pgs)), p3))
  }

  /** readseg: a segment it reads has ceil(len/Pagesize) pages; an empty one is not stored. */
  lemma SegAtShape(plist: seq<Proc>, w: SegSlot, data: seq<byte>, pos: nat)
    requires SlotIn(plist, w) && pos <= |data| && SegAt(plist, w, data, pos).Ok?
    ensures var (offset, p1) := Number(data, pos).value;
      var (len, p2) := Number(data, p1).value;
      var n := Strtoul(len, UVLongMax);
      var s := SegAt(plist, w, data, pos).value.0;
      (n == 0 ==> s == SlotSeg(plist, w)) &&
      (n > 0 ==> s.Some? && s.value.offset == Strtoul(offset, UVLongMax) && s.value.len == n &&
                 s.value.npg == PageCount(n) && |s.value.pg| == s.value.npg)
  {
    var (len, p2) := Number(data, Number(data, pos).value.1).value;
    PageCountBounds(Strtoul(len, UVLongMax));
  }

  /** "0 2048 zm1 0 ": a segment at offset 0 of 2048 bytes whose pages are "zero" and "pid 1's memory page at 0". */
  const SelfRefData: seq<byte> := [48, 32, 50, 48, 52, 56, 32, 122, 109, 49, 32, 48, 32]

  /** The offset and length of SelfRefData: 0 and 2048. */
  lemma SelfRefHeader()
    ensures Number(SelfRefData, 0) == Ok(([48], 2)) && Strtoul([48], UVLongMax) == 0
    ensures Number(SelfRefData, 2) == Ok(([50, 48, 52, 56], 7)) && Strtoul([50, 48, 52, 56], UVLongMax) == 2048
  {
    var data := SelfRefData;
    NumberIs(data, 0, 0, 1, 2);
    assert data[0..1] == [48];
    NumberIs(data, 2, 2, 6, 7);
    assert data[2..6] == [50, 48, 52, 56];
    StrtoulOctal([48], UVLongMax);
    DigitsValue2048();
    StrtoulDecimal([50, 48, 52, 56], UVLongMax);
  }

  /** "2048" read as decimal digits. */
  lemma DigitsValue2048()
    ensures DigitsValue([50, 48, 52, 56], 10) == 2048
  {
    var ds: seq<byte> := [50, 48, 52, 56];
    assert ds[..3][..2][..1][..0] == [];
    assert DigitsValue(ds[..3][..2][..1], 10) == 2;
    assert DigitsValue(ds[..3][..2], 10) == 20;
    assert DigitsValue(ds[..3], 10) == 204;
  }

  /** The page reference of SelfRefData: pid 1, offset 0. */
  lemma SelfRefReference()
    ensures Number(SelfRefData, 9) == Ok(([49], 11)) && Strtoul([49], ULongMax) == 1
    ensures Number(SelfRefData, 11) == Ok(([48], 13)) && Strtoul([48], UVLongMax) == 0
  {
    var data := SelfRefData;
    NumberIs(data, 9, 9, 10, 11);
    assert data[9..10] == [49];
    NumberIs(data, 11, 11, 12, 13);
    assert data[11..12] == [48];
    var one: seq<byte> := [49];
    assert one[..0] == [];
    StrtoulDecimal(one, ULongMax);
    StrtoulOctal([48], UVLongMax);
  }

  /** The second page of SelfRefData, read against a list whose slot holds the zero page just read. */
  lemma SelfRefSecond(mid: seq<Proc>)
    requires mid == Store([Proc(1, [], [None], None)], MemSlot(0, 0), Some(Partial(0, 2048, [Page(Zeros(1024))])))
    ensures PageAt(mid, SelfRefData, 8, 1024) == Ok((Page(Zeros(1024)), 13))
  {
    SelfRefReference();
    assert PidIndex(mid, 1, 0) == Some(0);
    assert SegIndex(mid[0].seg, 0, 0) == Some(0);
    assert PageRef(mid, 1, TagMem, 0) == Ok(Some(Page(Zeros(1024))));
    assert RefAt(mid, SelfRefData, 9, TagMem) == Ok((Page(Zeros(1024)), 13));
  }

  /** One step of Pages: the next page is read against the slot holding the pages before it. */
  lemma PagesStep(plist: seq<Proc>, w: SegSlot, offset: nat, len: nat, data: seq<byte>, pos: nat, done: seq<Page>, pg: Page, p1: nat)
    requires SlotIn(plist, w) && pos <= |data| && |done| < PageCount(len)
    requires PageAt(Store(plist, w, Some(Partial(offset, len, done))), data, pos, PageLen(len, |done|)) == Ok((pg, p1))
    ensures p1 <= |data|
    ensures Pages(plist, w, offset, len, data, pos, done) == Pages(plist, w, offset, len, data, p1, done + [pg])
  {
  }

  /** The second page of SelfRefData resolves to the first, read into the slot just before it. */
  lemma SelfRefPages(plist: seq<Proc>, w: SegSlot)
    requires plist == [Proc(1, [], [None], None)] && w == MemSlot(0, 0)
    ensures Pages(plist, w, 0, 2048, SelfRefData, 7, []) == Ok(([Page(Zeros(1024)), Page(Zeros(1024))], 13))
  {
    var z := Page(Zeros(1024));
    var data := SelfRefData;
    assert PageCount(2048) == 2 && PageLen(2048, 0) == 1024 && PageLen(2048, 1) == 1024;
    assert data[7] == TagZero;
    PagesStep(plist, w, 0, 2048, data, 7, [], z, 8);
    SelfRefSecond(Store(plist, w, Some(Partial(0, 2048, [z]))));
    PagesStep(plist, w, 0, 2048, data, 8, [z], z, 13);
    assert [] + [z] == [z] && [z] + [z] == [z, z];
  }

  /**
   * A page may refer to an earlier page of the segment being read: the
   * second page of the two-page "mem" segment SelfRefData of pid 1, given
   * as "pid 1's memory page at offset 0", is the zero page read just
   * before it, although the slot held no segment when the section began.
   */
  lemma SelfReference()
    ensures SegAt([Proc(1, [], [None], None)], MemSlot(0, 0), SelfRefData, 0) ==
      Ok((Some(Seg(0, 2048, 2, [Page(Zeros(1024)), Page(Zeros(1024))])), 13))
  {
    SelfRefHeader();
    SelfRefPages([Proc(1, [], [None], None)], MemSlot(0, 0));
    assert PageCount(2048) == 2;
  }

  /** readseg: reads a segment from data at pos for the slot w. */
  method ReadSeg(plist: seq<Proc>, w: SegSlot, data: seq<byte>, pos: nat) returns (r: Result<(Option<Seg>, nat), string>)
    requires SlotIn(plist, w) && pos <= |data|
    ensures r == SegAt(plist, w, data, pos)
  {
    var n1 := Breadnumber(data, pos);
    if n1.Err? {
      return Err("error reading segment");
    }
    var n2 := Breadnumber(data, n1.value.1);
    if n2.Err? {
      return Err("error reading segment");
    }
    var offset := Strtoul(n1.value.0, UVLongMax);
    var len := Strtoul(n2.value.0, UVLongMax);
    var npg := PageCount(len);
    if npg == 0 {
      return Ok((SlotSeg(plist, w), n2.value.1));
    }
    var pages := ReadPages(plist, w, offset, len, data, n2.value.1);
    if pages.Err? {
      return Err(pages.error);
    }
    return Ok((Some(Seg(offset, len, npg, pages.value.0)), pages.value.1));
  }

  /**
   * The page loop of readseg: the pages of a segment of len bytes at offset,
   * read from data at pos, each against the list whose slot w holds the
   * pages read so far.
   */
  method ReadPages(plist: seq<Proc>, w: SegSlot, offset: nat, len: nat, data: seq<byte>, pos: nat)
    returns (r: Result<(seq<Page>, nat), string>)
    requires SlotIn(plist, w) && pos <= |data|
    ensures r == Pages(plist, w, offset, len, data, pos, [])
  {
    var npg := PageCount(len);
    var pages: seq<Page> := [];
    var p: nat := pos;
    var i := 0;
    while i < npg
      invariant i <= npg && |pages| == i && p <= |data|
      invariant Pages(plist, w, offset, len, data, pos, []) == Pages(plist, w, offset, len, data, p, pages)
    {
      var pr := ReadPage(Store(plist, w, Some(Partial(offset, len, pages))), data, p, PageLen(len, i));
      if pr.Err? {
        return Err(pr.error);
      }
      pages := pages + [pr.value.0];
      p := pr.value.1;
      i := i + 1;
    }
    return Ok((pages, p));
  }

  /* ---------------- readsnap ---------------- */

  /** Brdline: the newline that ends the line starting at pos, if there is one. */
  function LineEnd(data: seq<byte>, pos: nat): (r: Option<nat>)
    requires pos <= |data|
    ensures r.Some? ==> (pos <= r.value < |data| && data[r.value] == Newline &&
      forall q :: pos <= q < r.value ==> data[q] != Newline)
    ensures r.None? <==> forall q :: pos <= q < |data| ==> data[q] != Newline
    decreases |data| - pos
  {
    if pos == |data| then None
    else if data[pos] == Newline then Some(pos)
    else LineEnd(data, pos + 1)
  }

  /** The first line of a snapshot starts with "process snapshot". */
  predicate IsSnapshot(data: seq<byte>)
  {
    LineEnd(data, 0).Some? && |Magic| <= LineEnd(data, 0).value + 1 && data[..|Magic|] == Magic
  }

  /** The section name of a section line: what follows the pid field. */
  function SectionName(line: seq<byte>): seq<byte>
  {
    if |line| >= NameOffset then line[NameOffset..] else []
  }

  /** The first data-file name at or after index from that equals name. */
  function NameIndex(pfile: seq<seq<byte>>, name: seq<byte>, from: nat): (r: Option<nat>)
    requires from <= |pfile|
    ensures r.Some? ==> (from <= r.value < |pfile| && pfile[r.value] == name &&
      forall j :: from <= j < r.value ==> pfile[j] != name)
    ensures r.None? <==> forall j :: from <= j < |pfile| ==> pfile[j] != name
    decreases |pfile| - from
  {
    if from == |pfile| then None
    else if pfile[from] == name then Some(from)
    else NameIndex(pfile, name, from + 1)
  }

  /**
   * readdata: a 12-byte length header, then that many bytes; a short header
   * or a short body is fatal.
   */
  function DataAt(data: seq<byte>, pos: nat): (r: Result<(seq<byte>, nat), string>)
    requires pos <= |data|
    ensures r.Ok? ==> (pos + HdrLen <= r.value.1 <= |data| &&
      r.value.0 == data[pos + HdrLen..r.value.1] &&
      |r.value.0| == Strtoul(data[pos..pos + HdrLen], ULongMax))
    ensures r.Err? <==> (pos + HdrLen > |data| ||
      pos + HdrLen + Strtoul(data[pos..pos + HdrLen], ULongMax) > |data|)
  {
    if pos + HdrLen > |data| then Err("can't read data hdr")
    else
      var len := Strtoul(data[pos..pos + HdrLen], ULongMax);
      if pos + HdrLen + len > |data| then Err("can't read data body")
      else Ok((data[pos + HdrLen..pos + HdrLen + len], pos + HdrLen + len))
  }

  /** A "mem" section's segment count: 12 bytes that atoi reads as 1..MaxSegs. */
  predicate MemCountOk(data: seq<byte>, pos: nat)
    requires pos <= |data|
  {
    pos + HdrLen <= |data| && 0 < Atol(data[pos..pos + HdrLen]) <= MaxSegs
  }

  /** Where the node for pid is once readsnap has looked it up or created it. */
  function Slot(plist: seq<Proc>, pid: int): nat
  {
    match PidIndex(plist, pid, 0)
    case None => 0
    case Some(k) => k
  }

  /**
   * The list after a section line for pid: the node that had the pid is
   * the only one that changed; if none had it, a node for it is new at the
   * head and the rest of the list is as it was.
   */
  predicate OneNodeFor(before: seq<Proc>, after: seq<Proc>, pid: int)
  {
    match PidIndex(before, pid, 0)
    case None => |after| == |before| + 1 && after[0].pid == pid && after[1..] == before
    case Some(k) =>
      |after| == |before| && after[k].pid == pid &&
      forall j :: 0 <= j < |before| && j != k ==> after[j] == before[j]
  }

  /**
   * The list once readsnap has looked pid up: as it was when a node has the
   * pid, else with a new node for pid at its head; either way the node for
   * pid is at Slot.
   */
  function LocatedList(plist: seq<Proc>, pid: int, npfile: nat): (list: seq<Proc>)
    ensures Slot(plist, pid) < |list| && list[Slot(plist, pid)].pid == pid
    ensures PidIndex(plist, pid, 0).None? ==> list[Slot(plist, pid)] == NewProc(pid, npfile) && list[1..] == plist
  {
    if PidIndex(plist, pid, 0).None? then [NewProc(pid, npfile)] + plist else plist
  }

  /** findpid, and a new node at the head of the list when the pid has none. */
  method Locate(plist: seq<Proc>, pid: int, npfile: nat) returns (list: seq<Proc>, slot: nat)
    requires PidsDistinct(plist) && ProcsOk(plist, npfile)
    ensures slot == Slot(plist, pid) && slot < |list| && list[slot].pid == pid
    ensures OneNodeFor(plist, list, pid) && PidsDistinct(list) && ProcsOk(list, npfile)
    ensures PidIndex(plist, pid, 0).None? ==> list[slot] == NewProc(pid, npfile)
    ensures PidIndex(plist, pid, 0).Some? ==> list == plist
    ensures list == LocatedList(plist, pid, npfile)
  {
    var k := FindPid(plist, pid);
    if k.None? {
      list := [NewProc(pid, npfile)] + plist;
      slot := 0;
      assert list[1..] == plist;
    } else {
      list := plist;
      slot := k.value;
    }
  }

  /** Changing the node at slot, keeping its pid, keeps one node per pid. */
  lemma ReplaceNode(plist: seq<Proc>, list: seq<Proc>, pid: int, q: Proc)
    requires Slot(plist, pid) < |list| && list[Slot(plist, pid)].pid == pid && q.pid == pid
    requires OneNodeFor(plist, list, pid) && PidsDistinct(list)
    ensures OneNodeFor(plist, list[Slot(plist, pid) := q], pid)
    ensures PidsDistinct(list[Slot(plist, pid) := q])
  {
    var after := list[Slot(plist, pid) := q];
    if PidIndex(plist, pid, 0).None? {
      assert after[1..] == list[1..];
    }
  }

  /**
   * The segments of a "mem" section, from segment i of the node at slot on:
   * each is read by readseg into its slot from where the previous one ended,
   * against the list the previous ones left.
   */
  function MemSegs(list: seq<Proc>, slot: nat, data: seq<byte>, pos: nat, i: nat): (r: Result<(seq<Proc>, nat), string>)
    requires slot < |list| && i <= |list[slot].seg| && pos <= |data|
    ensures r.Ok? ==> pos <= r.value.1 <= |data| && |r.value.0| == |list|
    decreases |list[slot].seg| - i
  {
    if i == |list[slot].seg| then Ok((list, pos))
    else
      match SegAt(list, MemSlot(slot, i), data, pos)
      case Err(e) => Err(e)
      case Ok((s, p)) => MemSegs(Store(list, MemSlot(slot, i), s), slot, data, p, i + 1)
  }

  /**
   * after differs from list at most in the segments of the node at slot;
   * that node keeps their number, and each of them is what it was or a
   * complete segment.
   */
  predicate SegsChangedAt(list: seq<Proc>, after: seq<Proc>, slot: nat)
    requires slot < |list|
  {
    |after| == |list| &&
    after[slot].pid == list[slot].pid && after[slot].d == list[slot].d && after[slot].text == list[slot].text &&
    |after[slot].seg| == |list[slot].seg| &&
    (forall i :: 0 <= i < |after[slot].seg| ==>
      after[slot].seg[i] == list[slot].seg[i] || (after[slot].seg[i].Some? && SegOk(after[slot].seg[i].value))) &&
    forall j :: 0 <= j < |list| && j != slot ==> after[j] == list[j]
  }

  /** One step of MemSegs: segment i goes into its slot, then the segments after it are read. */
  lemma MemSegsStep(list: seq<Proc>, slot: nat, data: seq<byte>, pos: nat, i: nat)
    requires slot < |list| && i < |list[slot].seg| && pos <= |data|
    ensures var r := SegAt(list, MemSlot(slot, i), data, pos);
      r.Err? ==> MemSegs(list, slot, data, pos, i) == Err(r.error)
    ensures var r := SegAt(list, MemSlot(slot, i), data, pos);
      r.Ok? ==> MemSegs(list, slot, data, pos, i) == MemSegs(Store(list, MemSlot(slot, i), r.value.0), slot, data, r.value.1, i + 1)
  {
  }

  /** The segments of a "mem" section change only the segments of the node at slot. */
  lemma {:induction false} MemSegsFrame(list: seq<Proc>, slot: nat, data: seq<byte>, pos: nat, i: nat)
    requires slot < |list| && i <= |list[slot].seg| && pos <= |data|
    ensures var r := MemSegs(list, slot, data, pos, i);
      r.Ok? ==> SegsChangedAt(list, r.value.0, slot)
    decreases |list[slot].seg| - i
  {
    if i < |list[slot].seg| {
      var s := SegAt(list, MemSlot(slot, i), data, pos);
      MemSegsStep(list, slot, data, pos, i);
      if s.Ok? {
        var next := Store(list, MemSlot(slot, i), s.value.0);
        assert SegsChangedAt(list, next, slot);
        MemSegsFrame(next, slot, data, s.value.1, i + 1);
      }
    }
  }

  /**
   * The segment loop of a "mem" section: reads each segment of the node at
   * slot in turn; only that node's segments change.
   */
  method ReadMem(list: seq<Proc>, slot: nat, data: seq<byte>, pos: nat) returns (r: Result<(seq<Proc>, nat), string>)
    requires slot < |list| && pos <= |data| && SegsOk(list)
    ensures r == MemSegs(list, slot, data, pos, 0)
    ensures r.Ok? ==> SegsOk(r.value.0)
    ensures r.Ok? ==> forall j :: 0 <= j < |list| && j != slot ==> r.value.0[j] == list[j]
    ensures r.Ok? ==> var p := r.value.0[slot];
      p.pid == list[slot].pid && p.d == list[slot].d && p.text == list[slot].text &&
      |p.seg| == |list[slot].seg|
  {
    var cur := list;
    var p := pos;
    var i := 0;
    while i < |list[slot].seg|
      invariant i <= |list[slot].seg| && pos <= p <= |data| && |cur| == |list| && SegsOk(cur)
      invariant forall j :: 0 <= j < |list| && j != slot ==> cur[j] == list[j]
      invariant cur[slot].pid == list[slot].pid && cur[slot].d == list[slot].d
      invariant cur[slot].text == list[slot].text && |cur[slot].seg| == |list[slot].seg|
      invariant MemSegs(list, slot, data, pos, 0) == MemSegs(cur, slot, data, p, i)
    {
      var s := ReadSeg(cur, MemSlot(slot, i), data, p);
      MemSegsStep(cur, slot, data, p, i);
      if s.Err? {
        return Err(s.error);
      }
      StoreOk(cur, MemSlot(slot, i), s.value.0);
      cur := Store(cur, MemSlot(slot, i), s.value.0);
      p := s.value.1;
      i := i + 1;
    }
    return Ok((cur, p));
  }

  /** The node at slot with n empty segment slots, as a "mem" section declaring n segments leaves it. */
  function Cleared(list: seq<Proc>, slot: nat, n: nat): seq<Proc>
    requires slot < |list|
  {
    list[slot := list[slot].(seg := seq(n, _ => None))]
  }

  /**
   * A "mem" section for the node at slot: a 12-byte segment count that atoi
   * must read as 1..MaxSegs, then that many segments.
   */
  function MemBody(list: seq<Proc>, slot: nat, data: seq<byte>, pos: nat): Result<(seq<Proc>, nat), string>
    requires slot < |list| && pos <= |data|
  {
    if pos + HdrLen > |data| then Err("can't read memory section")
    else
      var n := Atol(data[pos..pos + HdrLen]);
      if n <= 0 || n > MaxSegs then Err("bad segment count")
      else MemSegs(Cleared(list, slot, n), slot, data, pos + HdrLen, 0)
  }

  /** A "text" section for the node at slot: one segment, read by readseg into its text slot. */
  function TextBody(list: seq<Proc>, slot: nat, data: seq<byte>, pos: nat): Result<(seq<Proc>, nat), string>
    requires slot < |list| && pos <= |data|
  {
    match SegAt(list, TextSlot(slot), data, pos)
    case Err(e) => Err(e)
    case Ok((s, p)) => Ok((Store(list, TextSlot(slot), s), p))
  }

  /** A data section for the node at slot: readdata's bytes go to data slot i, and nothing else changes. */
  function DataBody(list: seq<Proc>, slot: nat, i: nat, data: seq<byte>, pos: nat): Result<(seq<Proc>, nat), string>
    requires slot < |list| && i < |list[slot].d| && pos <= |data|
  {
    match DataAt(data, pos)
    case Err(e) => Err(e)
    case Ok((bytes, p)) => Ok((list[slot := list[slot].(d := list[slot].d[i := Some(bytes)])], p))
  }

  /** Looking pid up, or adding a node for it, keeps one node per pid and every node well formed. */
  lemma LocatedListOk(plist: seq<Proc>, pid: int, npfile: nat)
    requires PidsDistinct(plist) && ProcsOk(plist, npfile)
    ensures Located(plist, LocatedList(plist, pid, npfile), pid, npfile)
  {
    var list := LocatedList(plist, pid, npfile);
    if PidIndex(plist, pid, 0).None? {
      assert list[1..] == plist;
      forall j, k | 0 <= j < k < |list| ensures list[j].pid != list[k].pid {
        assert list[k] == plist[k - 1];
        if j > 0 {
          assert list[j] == plist[j - 1];
        }
      }
    }
  }

  /** A data section changes only the data slot it names. */
  lemma DataBodyKept(plist: seq<Proc>, list: seq<Proc>, pid: int, npfile: nat, i: nat, data: seq<byte>, pos: nat)
    requires Located(plist, list, pid, npfile) && i < npfile && pos <= |data|
    ensures SectionKept(plist, DataBody(list, Slot(plist, pid), i, data, pos), pid, npfile, data, pos)
  {
    var slot := Slot(plist, pid);
    if DataAt(data, pos).Ok? {
      var node := list[slot].(d := list[slot].d[i := Some(DataAt(data, pos).value.0)]);
      ReplaceNode(plist, list, pid, node);
      assert SegsOk(list[slot := node]);
    }
  }

  /** A "mem" section changes only the segments of the node for pid, and leaves them complete. */
  lemma MemBodyKept(plist: seq<Proc>, list: seq<Proc>, pid: int, npfile: nat, data: seq<byte>, pos: nat)
    requires Located(plist, list, pid, npfile) && pos <= |data|
    ensures SectionKept(plist, MemBody(list, Slot(plist, pid), data, pos), pid, npfile, data, pos)
  {
    var slot := Slot(plist, pid);
    if pos + HdrLen <= |data| && 0 < Atol(data[pos..pos + HdrLen]) <= MaxSegs {
      var cl := Cleared(list, slot, Atol(data[pos..pos + HdrLen]));
      MemSegsFrame(cl, slot, data, pos + HdrLen, 0);
      var r := MemSegs(cl, slot, data, pos + HdrLen, 0);
      if r.Ok? {
        var after := r.value.0;
        ReplaceNode(plist, list, pid, after[slot]);
        assert after == list[slot := after[slot]];
        assert SegsOk(after) by {
          forall k | 0 <= k < |after| ensures ProcSegsOk(after[k]) {
            if k != slot {
              assert after[k] == list[k];
            } else {
              forall i | 0 <= i < |after[k].seg| && after[k].seg[i].Some? ensures SegOk(after[k].seg[i].value) {
                assert cl[slot].seg[i] == None;
              }
            }
          }
        }
      }
    }
  }

  /** A "text" section changes only the text segment of the node for pid, and leaves it complete. */
  lemma TextBodyKept(plist: seq<Proc>, list: seq<Proc>, pid: int, npfile: nat, data: seq<byte>, pos: nat)
    requires Located(plist, list, pid, npfile) && pos <= |data|
    ensures SectionKept(plist, TextBody(list, Slot(plist, pid), data, pos), pid, npfile, data, pos)
  {
    var slot := Slot(plist, pid);
    var s := SegAt(list, TextSlot(slot), data, pos);
    if s.Ok? {
      StoreOk(list, TextSlot(slot), s.value.0);
      var after := Store(list, TextSlot(slot), s.value.0);
      ReplaceNode(plist, list, pid, after[slot]);
      assert after == list[slot := after[slot]];
    }
  }

  /**
   * The section whose line is `line` and whose body starts at pos: the node
   * for the line's pid is looked up or created, then the section name picks
   * a data file, "mem" or "text"; any other name is fatal.  Only the node
   * for the pid changes, and each pid keeps one node.
   */
  function SectionAt(plist: seq<Proc>, pfile: seq<seq<byte>>, data: seq<byte>, pos: nat, line: seq<byte>)
    : (r: Result<(seq<Proc>, nat), string>)
    requires pos <= |data| && PidsDistinct(plist) && ProcsOk(plist, |pfile|)
    ensures SectionKept(plist, r, Atol(line), |pfile|, data, pos)
  {
    var pid := Atol(line);
    var list := LocatedList(plist, pid, |pfile|);
    var slot := Slot(plist, pid);
    LocatedListOk(plist, pid, |pfile|);
    match NameIndex(pfile, SectionName(line), 0)
    case Some(i) =>
      DataBodyKept(plist, list, pid, |pfile|, i, data, pos);
      DataBody(list, slot, i, data, pos)
    case None =>
      if SectionName(line) == MemName then
        MemBodyKept(plist, list, pid, |pfile|, data, pos);
        MemBody(list, slot, data, pos)
      else if SectionName(line) == TextName then
        TextBodyKept(plist, list, pid, |pfile|, data, pos);
        TextBody(list, slot, data, pos)
      else Err("unknown section")
  }

  /**
   * The sections of a snapshot from pos on, read one after the other, each
   * against the list the ones before it left, until no line is left; the
   * first section that fails ends the read with its error.  Every pid keeps
   * exactly one node.
   */
  function Sections(plist: seq<Proc>, pfile: seq<seq<byte>>, data: seq<byte>, pos: nat): (r: Result<seq<Proc>, string>)
    requires pos <= |data| && PidsDistinct(plist) && ProcsOk(plist, |pfile|)
    ensures r.Ok? ==> PidsDistinct(r.value) && ProcsOk(r.value, |pfile|)
    decreases |data| - pos, 1
  {
    if LineEnd(data, pos).None? then Ok(plist)
    else
      var e := LineEnd(data, pos).value;
      SectionsAfter(SectionAt(plist, pfile, data, e + 1, data[pos..e]), pfile, data, pos)
  }

  /**
   * What follows the section on the line at pos, once it has been read as
   * s: its error, or the sections after it on the list it left.
   */
  function SectionsAfter(s: Result<(seq<Proc>, nat), string>, pfile: seq<seq<byte>>, data: seq<byte>, pos: nat): (r: Result<seq<Proc>, string>)
    requires s.Ok? ==> pos < s.value.1 <= |data| && PidsDistinct(s.value.0) && ProcsOk(s.value.0, |pfile|)
    ensures r.Ok? ==> PidsDistinct(r.value) && ProcsOk(r.value, |pfile|)
    decreases |data| - pos, 0
  {
    if s.Err? then Err(s.error) else Sections(s.value.0, pfile, data, s.value.1)
  }

  /** Sections at a line: the section on it, then what follows it. */
  lemma SectionsStep(plist: seq<Proc>, pfile: seq<seq<byte>>, data: seq<byte>, pos: nat, e: nat)
    requires pos <= |data| && PidsDistinct(plist) && ProcsOk(plist, |pfile|) && LineEnd(data, pos) == Some(e)
    ensures Sections(plist, pfile, data, pos) == SectionsAfter(SectionAt(plist, pfile, data, e + 1, data[pos..e]), pfile, data, pos)
  {
  }

  /** The list once the node for pid has been looked up or created. */
  predicate Located(plist: seq<Proc>, list: seq<Proc>, pid: int, npfile: nat)
  {
    Slot(plist, pid) < |list| && list[Slot(plist, pid)].pid == pid &&
    OneNodeFor(plist, list, pid) && PidsDistinct(list) && ProcsOk(list, npfile)
  }

  /** What every section that is read keeps: one node per pid, and the node for pid is the only one changed. */
  predicate SectionKept(plist: seq<Proc>, r: Result<(seq<Proc>, nat), string>, pid: int, npfile: nat, data: seq<byte>, pos: nat)
  {
    r.Ok? ==>
      pos <= r.value.1 <= |data| && PidsDistinct(r.value.0) && ProcsOk(r.value.0, npfile) &&
      OneNodeFor(plist, r.value.0, pid)
  }

  /** A data section: readdata into the node's slot i. */
  method StoreData(plist: seq<Proc>, list: seq<Proc>, pid: int, npfile: nat, i: nat, data: seq<byte>, pos: nat)
    returns (r: Result<(seq<Proc>, nat), string>)
    requires Located(plist, list, pid, npfile) && i < npfile && pos <= |data|
    ensures SectionKept(plist, r, pid, npfile, data, pos)
    ensures r == DataBody(list, Slot(plist, pid), i, data, pos)
    ensures r.Ok? <==> DataAt(data, pos).Ok?
    ensures r.Ok? ==> (r.value.1 == DataAt(data, pos).value.1 &&
      r.value.0 == list[Slot(plist, pid) := list[Slot(plist, pid)].(d := list[Slot(plist, pid)].d[i := Some(DataAt(data, pos).value.0)])])
  {
    var dd := DataAt(data, pos);
    if dd.Err? {
      return Err(dd.error);
    }
    var slot := Slot(plist, pid);
    var node := list[slot].(d := list[slot].d[i := Some(dd.value.0)]);
    ReplaceNode(plist, list, pid, node);
    return Ok((list[slot := node], dd.value.1));
  }

  /** A "mem" section: the segment count, then that many segments. */
  method MemSection(plist: seq<Proc>, list: seq<Proc>, pid: int, npfile: nat, data: seq<byte>, pos: nat)
    returns (r: Result<(seq<Proc>, nat), string>)
    requires Located(plist, list, pid, npfile) && pos <= |data|
    ensures r == MemBody(list, Slot(plist, pid), data, pos)
    ensures SectionKept(plist, r, pid, npfile, data, pos)
    ensures !MemCountOk(data, pos) ==> r.Err?
    ensures r.Ok? ==> |r.value.0[Slot(plist, pid)].seg| == Atol(data[pos..pos + HdrLen])
  {
    if pos + HdrLen > |data| {
      return Err("can't read memory section");
    }
    var n := Atol(data[pos..pos + HdrLen]);
    if n <= 0 || n > MaxSegs {
      return Err("bad segment count");
    }
    var slot := Slot(plist, pid);
    var node := list[slot].(seg := seq(n, _ => None));
    ReplaceNode(plist, list, pid, node);
    assert list[slot := node] == Cleared(list, slot, n);
    r := ReadMem(list[slot := node], slot, data, pos + HdrLen);
    if r.Ok? {
      ReplaceNode(plist, list, pid, r.value.0[slot]);
      assert r.value.0 == list[slot := r.value.0[slot]];
    }
  }

  /** A "text" section: one segment into the node's text slot. */
  method TextSection(plist: seq<Proc>, list: seq<Proc>, pid: int, npfile: nat, data: seq<byte>, pos: nat)
    returns (r: Result<(seq<Proc>, nat), string>)
    requires Located(plist, list, pid, npfile) && pos <= |data|
    ensures r == TextBody(list, Slot(plist, pid), data, pos)
    ensures SectionKept(plist, r, pid, npfile, data, pos)
  {
    var slot := Slot(plist, pid);
    var s := ReadSeg(list, TextSlot(slot), data, pos);
    if s.Err? {
      return Err(s.error);
    }
    var node := list[slot].(text := s.value.0);
    ReplaceNode(plist, list, pid, node);
    assert list[slot := node] == Store(list, TextSlot(slot), s.value.0);
    return Ok((list[slot := node], s.value.1));
  }

  /**
   * One section of readsnap: the section line gives the pid and the section
   * name; the body is a data file (stored in the slot of its name), a "mem"
   * section or a "text" segment; any other name is fatal.
   */
  method ReadSection(plist: seq<Proc>, pfile: seq<seq<byte>>, data: seq<byte>, pos: nat, line: seq<byte>)
    returns (r: Result<(seq<Proc>, nat), string>)
    requires pos <= |data| && PidsDistinct(plist) && ProcsOk(plist, |pfile|)
    ensures SectionKept(plist, r, Atol(line), |pfile|, data, pos)
    ensures r == SectionAt(plist, pfile, data, pos, line)
    ensures NameIndex(pfile, SectionName(line), 0).Some? ==>
      r == DataBody(LocatedList(plist, Atol(line), |pfile|), Slot(plist, Atol(line)),
        NameIndex(pfile, SectionName(line), 0).value, data, pos) &&
      (r.Ok? <==> DataAt(data, pos).Ok?) &&
      (r.Ok? ==>
        r.value.1 == DataAt(data, pos).value.1 &&
        r.value.0[Slot(plist, Atol(line))].d[NameIndex(pfile, SectionName(line), 0).value] ==
          Some(DataAt(data, pos).value.0))
    ensures NameIndex(pfile, SectionName(line), 0).None? && SectionName(line) == MemName ==>
      r == MemBody(LocatedList(plist, Atol(line), |pfile|), Slot(plist, Atol(line)), data, pos) &&
      (!MemCountOk(data, pos) ==> r.Err?) &&
      (r.Ok? ==> |r.value.0[Slot(plist, Atol(line))].seg| == Atol(data[pos..pos + HdrLen]))
    ensures NameIndex(pfile, SectionName(line), 0).None? && SectionName(line) == TextName ==>
      r == TextBody(LocatedList(plist, Atol(line), |pfile|), Slot(plist, Atol(line)), data, pos)
    ensures (NameIndex(pfile, SectionName(line), 0).None? &&
      SectionName(line) != MemName && SectionName(line) != TextName) ==> r == Err("unknown section")
  {
    var pid := Atol(line);
    var name := SectionName(line);
    var list, slot := Locate(plist, pid, |pfile|);
    var i := 0;
    while i < |pfile|
      invariant i <= |pfile| && forall j :: 0 <= j < i ==> pfile[j] != name
    {
      if pfile[i] == name {
        r := StoreData(plist, list, pid, |pfile|, i, data, pos);
        return;
      }
      i := i + 1;
    }
    if name == MemName {
      r := MemSection(plist, list, pid, |pfile|, data, pos);
    } else if name == TextName {
      r := TextSection(plist, list, pid, |pfile|, data, pos);
    } else {
      r := Err("unknown section");
    }
  }

  /** One turn of the section loop: the section on the line at pos, read and stepped past. */
  method NextSection(plist: seq<Proc>, pfile: seq<seq<byte>>, data: seq<byte>, pos: nat, e: nat)
    returns (r: Result<(seq<Proc>, nat), string>)
    requires pos <= |data| && PidsDistinct(plist) && ProcsOk(plist, |pfile|) && LineEnd(data, pos) == Some(e)
    ensures SectionKept(plist, r, Atol(data[pos..e]), |pfile|, data, e + 1)
    ensures Sections(plist, pfile, data, pos) == SectionsAfter(r, pfile, data, pos)
  {
    SectionsStep(plist, pfile, data, pos, e);
    r := ReadSection(plist, pfile, data, e + 1, data[pos..e]);
  }

  /**
   * The section loop of readsnap: reads section after section from pos
   * until no line is left; every pid keeps exactly one node.
   */
  method ReadSections(plist0: seq<Proc>, pfile: seq<seq<byte>>, data: seq<byte>, pos0: nat)
    returns (r: Result<seq<Proc>, string>)
    requires pos0 <= |data| && PidsDistinct(plist0) && ProcsOk(plist0, |pfile|)
    ensures r == Sections(plist0, pfile, data, pos0)
  {
    var plist := plist0;
    var pos := pos0;
    while true
      invariant pos <= |data| && PidsDistinct(plist) && ProcsOk(plist, |pfile|)
      invariant Sections(plist, pfile, data, pos) == Sections(plist0, pfile, data, pos0)
      decreases |data| - pos
    {
      var end := LineEnd(data, pos);
      if end.None? {
        return Ok(plist);
      }
      var res := NextSection(plist, pfile, data, pos, end.value);
      if res.Err? {
        return Err(res.error);
      }
      plist, pos := res.value.0, res.value.1;
    }
  }

  /**
   * What readsnap makes of a snapshot: a missing first line and a first
   * line that does not start with "process snapshot" are fatal; otherwise
   * the sections after it, starting from an empty list.
   */
  function Snapshot(data: seq<byte>, pfile: seq<seq<byte>>): (r: Result<seq<Proc>, string>)
    ensures r.Ok? ==> IsSnapshot(data) && PidsDistinct(r.value) && ProcsOk(r.value, |pfile|)
  {
    match LineEnd(data, 0)
    case None => Err("error reading snapshot file")
    case Some(e) =>
      if !IsSnapshot(data) then Err("bad snapshot file format")
      else Sections([], pfile, data, e + 1)
  }

  /**
   * The three outcomes of a snapshot: no first line, a first line without
   * the magic, or the sections that follow a good first line.
   */
  lemma SnapshotCases(data: seq<byte>, pfile: seq<seq<byte>>)
    ensures LineEnd(data, 0).None? ==> Snapshot(data, pfile) == Err("error reading snapshot file")
    ensures LineEnd(data, 0).Some? && !IsSnapshot(data) ==> Snapshot(data, pfile) == Err("bad snapshot file format")
    ensures IsSnapshot(data) ==> Snapshot(data, pfile) == Sections([], pfile, data, LineEnd(data, 0).value + 1)
  {
  }

  /**
   * readsnap: checks the header line, then reads section after section
   * until no line is left; every pid ends up with exactly one node.
   */
  method ReadSnap(data: seq<byte>, pfile: seq<seq<byte>>) returns (r: Result<seq<Proc>, string>)
    ensures r == Snapshot(data, pfile)
  {
    SnapshotCases(data, pfile);
    if LineEnd(data, 0).None? {
      r := Err("error reading snapshot file");
    } else if !IsSnapshot(data) {
      r := Err("bad snapshot file format");
    } else {
      r := ReadBody(data, pfile);
    }
  }

  /** The sections after a good first line, starting from an empty list. */
  method ReadBody(data: seq<byte>, pfile: seq<seq<byte>>) returns (r: Result<seq<Proc>, string>)
    requires IsSnapshot(data)
    ensures r == Sections([], pfile, data, LineEnd(data, 0).value + 1)
  {
    r := ReadSections([], pfile, data, LineEnd(data, 0).value + 1);
  }
}
