/** The kernel's streaming reads of an EYNFS file: the cursor-aware reader
    (src/drivers/eynfs.c), seek, read, dup and fd-backed mmap (src/cpu/isr.c). */
module EynfsCursor {
  import opened Bytes
  import opened EynfsSector
  import opened EynfsLayout
  import opened EynfsReaders

  const WORD: nat := 0x1_0000_0000

  /** Where a cursor may stand: unset, or on chain block `off / 508`. */
  predicate CursorOk(f: FileRec, cur: nat, off: nat) {
    cur == 0 || (off % 508 == 0 && off / 508 < |f.blocks| && cur == f.blocks[off / 508])
  }

  /** The 32-bit field that holds the file offset of block `i`. */
  function Off32(i: nat): nat {
    508 * i % WORD
  }

  lemma Off32Step(i: nat)
    ensures (Off32(i) + 508) % WORD == Off32(i + 1)
    ensures 508 * i < WORD ==> Off32(i) == 508 * i
  {
  }

  lemma SliceJoin<T>(s: seq<T>, a: nat, b: nat, c: nat)
    requires a <= b <= c <= |s|
    ensures s[a..b] + s[b..c] == s[a..c]
  {
  }

  function BlockAt(f: FileRec, i: nat): nat {
    if i < |f.blocks| then f.blocks[i] else 0
  }

  /** Bytes `[offset, offset + len)` of the file, cut at its end: the simple walk's answer. */
  function Slice(data: seq<byte>, offset: nat, len: nat): (r: seq<byte>)
    ensures |r| <= len && offset + |r| <= |data| + offset
  {
    if offset >= |data| then [] else data[offset..Min(offset + len, |data|)]
  }

  /** Index of the block the cursor is left on after reading `n` bytes at `offset`. */
  function IndexAfter(offset: nat, n: nat): nat {
    if n == 0 then offset / 508 else (offset + n - 1) / 508 + 1
  }

  /** `eynfs_read_file_fast`. The 32-bit block offset may wrap only when the cursor is unset. */
  method ReadFileFast(
    disk: Disk, first: nat, size: nat, bufsize: nat, offset: nat, cur0: nat, off0: nat, ghost f: FileRec)
      returns (buf: seq<byte>, cur: nat, off: nat)
    requires FileOnDisk(disk, f) && first == FirstOf(f.blocks) && size == |f.data| < WORD
    requires CursorOk(f, cur0, off0)
    ensures buf == Slice(f.data, offset, bufsize)
    ensures offset >= size ==> cur == cur0 && off == off0
    ensures offset < size ==> cur == BlockAt(f, IndexAfter(offset, |buf|)) && off == Off32(IndexAfter(offset, |buf|))
    ensures CursorOk(f, cur, off)
  {
    if offset >= size {
      return [], cur0, off0;
    }
    var bytesLeft := size - offset;
    if bufsize < bytesLeft { bytesLeft := bufsize; }
    var blockNum, skip := first, offset;
    ghost var i := 0;
    if cur0 != 0 && offset >= off0 {
      blockNum, skip := cur0, offset - off0;
      i := off0 / 508;
    }
    blockNum, skip := SkipBlocks(disk, blockNum, skip, f, i, offset);
    i := offset / 508;
    cur, off := blockNum, offset - skip;
    if bytesLeft == 0 {
      buf := [];
      return;
    }
    buf, cur, off := ReadFrom(disk, blockNum, skip, off, bytesLeft, f, offset);
    CursorAfter(f, offset, bytesLeft);
  }

  /** The partial first block and what follows it. */
  method ReadFrom(disk: Disk, blockNum: nat, skip: nat, off0: nat, want: nat, ghost f: FileRec, ghost offset: nat)
      returns (buf: seq<byte>, cur: nat, off: nat)
    requires FileOnDisk(disk, f) && 0 < want && offset + want <= |f.data| < WORD
    requires offset / 508 < |f.blocks| && blockNum == f.blocks[offset / 508]
    requires skip == offset % 508 && off0 == offset - skip
    ensures buf == f.data[offset..offset + want]
    ensures cur == BlockAt(f, CeilDiv(offset + want, 508)) && off == Off32(CeilDiv(offset + want, 508))
  {
    ghost var i := offset / 508;
    var block := disk[blockNum];
    var chunk := Min(508 - skip, want);
    FirstPart(disk, f, i, offset, chunk);
    buf := block[4 + skip..4 + skip + chunk];
    cur, off := NextOf(block), (off0 + 508) % WORD;
    Off32Step(i);
    var more;
    more, cur, off := ReadWhole(disk, want - chunk, cur, off, f, i + 1, offset + chunk);
    SliceJoin(f.data, offset, offset + chunk, offset + want);
    buf := buf + more;
  }

  /** The file's bytes in the block the read starts in, and the block behind it. */
  lemma {:induction false} FirstPart(disk: Disk, f: FileRec, i: nat, offset: nat, chunk: nat)
    requires FileOnDisk(disk, f) && i == offset / 508 < |f.blocks|
    requires offset % 508 + chunk <= 508 && offset + chunk <= |f.data|
    ensures var block, skip := disk[f.blocks[i]], offset % 508;
      block[4 + skip..4 + skip + chunk] == f.data[offset..offset + chunk] && NextOf(block) == BlockAt(f, i + 1)
  {
    assert LinkOk(disk, f.blocks, i) && ChunkAt(disk, f, i);
    ChunkSlice(disk[f.blocks[i]], f.data, i, offset % 508, chunk);
  }

  /** Reading stops on the block that starts at or after the last byte read. */
  lemma CursorAfter(f: FileRec, offset: nat, n: nat)
    requires 0 < n && offset + n <= |f.data| < WORD && |f.blocks| == CeilDiv(|f.data|, 508)
    ensures CeilDiv(offset + n, 508) == IndexAfter(offset, n)
    ensures CursorOk(f, BlockAt(f, IndexAfter(offset, n)), Off32(IndexAfter(offset, n)))
  {
    var k := IndexAfter(offset, n);
    if k < |f.blocks| {
      assert 508 * k < |f.data|;
      assert 508 * k / 508 == k && 508 * k % 508 == 0;
    }
  }

  /** The skip phase: advance while a whole payload lies before the target. */
  method SkipBlocks(disk: Disk, block0: nat, skip0: nat, ghost f: FileRec, ghost i0: nat, ghost offset: nat)
    returns (blockNum: nat, skip: nat)
    requires FileOnDisk(disk, f) && block0 == BlockAt(f, i0) && skip0 + 508 * i0 == offset < |f.data|
    ensures offset / 508 < |f.blocks| && blockNum == f.blocks[offset / 508] && skip == offset % 508
  {
    blockNum, skip := block0, skip0;
    ghost var i := i0;
    while blockNum != 0 && skip >= 508
      invariant blockNum == BlockAt(f, i) && skip + 508 * i == offset
      decreases |f.blocks| - i
    {
      assert LinkOk(disk, f.blocks, i);
      blockNum := NextOf(disk[blockNum]);
      skip := skip - 508;
      i := i + 1;
    }
    assert i < |f.blocks|;
    assert i == offset / 508 && skip == offset % 508;
  }

  /** The last loop of the reader: whole blocks from their start. */
  method ReadWhole(disk: Disk, want: nat, cur0: nat, off0: nat, ghost f: FileRec, ghost i0: nat, ghost pos: nat)
      returns (buf: seq<byte>, cur: nat, off: nat)
    requires FileOnDisk(disk, f) && cur0 == BlockAt(f, i0) && off0 == Off32(i0)
    requires pos + want <= |f.data| && (want > 0 ==> pos == 508 * i0) && pos <= 508 * i0 < pos + 508
    ensures buf == f.data[pos..pos + want]
    ensures cur == BlockAt(f, CeilDiv(pos + want, 508)) && off == Off32(CeilDiv(pos + want, 508))
  {
    buf, cur, off := [], cur0, off0;
    var bytesLeft := want;
    ghost var i := i0;
    while cur != 0 && bytesLeft > 0
      invariant 0 <= bytesLeft && |buf| == want - bytesLeft
      invariant buf == f.data[pos..pos + |buf|]
      invariant i0 <= i && cur == BlockAt(f, i) && off == Off32(i)
      invariant bytesLeft > 0 ==> pos + |buf| == 508 * i
      invariant pos + |buf| <= 508 * i < pos + |buf| + 508
      decreases |f.blocks| - i
    {
      var block := disk[cur];
      var chunk := Min(508, bytesLeft);
      WholeBlock(disk, f, i, pos, pos + |buf|, chunk);
      buf := buf + block[4..4 + chunk];
      bytesLeft := bytesLeft - chunk;
      off := (off + 508) % WORD;
      cur := NextOf(block);
      i := i + 1;
    }
    CeilUnique(i, pos + want);
  }

  /** One whole block of the file behind the bytes read so far. */
  lemma {:induction false} WholeBlock(disk: Disk, f: FileRec, i: nat, pos: nat, at: nat, chunk: nat)
    requires FileOnDisk(disk, f) && i < |f.blocks| && pos <= at == 508 * i
    requires chunk <= 508 && at + chunk <= |f.data|
    ensures var block := disk[f.blocks[i]];
      && f.data[pos..at] + block[4..4 + chunk] == f.data[pos..at + chunk]
      && NextOf(block) == BlockAt(f, i + 1) && (Off32(i) + 508) % WORD == Off32(i + 1)
  {
    assert LinkOk(disk, f.blocks, i) && ChunkAt(disk, f, i);
    ChunkSlice(disk[f.blocks[i]], f.data, i, 0, chunk);
    SliceJoin(f.data, pos, at, at + chunk);
    Off32Step(i);
  }

  lemma CeilUnique(i: nat, e: nat)
    requires e <= 508 * i < e + 508
    ensures CeilDiv(e, 508) == i
  {
  }

  // ----- descriptors -----

  /** The file part of `user_fd_t`. */
  datatype Desc = Desc(offset: nat, size: nat, first: nat, cur: nat, off: nat)

  ghost predicate DescOk(disk: Disk, d: Desc, f: FileRec) {
    && FileOnDisk(disk, f) && d.first == FirstOf(f.blocks) && d.size == |f.data| < WORD
    && d.offset <= d.size && CursorOk(f, d.cur, d.off)
  }

  /** `(int)offset` for a 32-bit unsigned value. */
  function ToInt32(n: nat): int {
    if n < 0x8000_0000 then n else n - 0x1_0000_0000
  }

  // ----- the reference: a plain position and a plain byte string -----

  datatype Plain = Plain(offset: nat, data: seq<byte>)

  datatype Op =
    | Seek(fd: nat, delta: int, whence: int)
    | Read(fd: nat, maxlen: int, cap: nat)
    | Dup(fd: nat)
    | DupOnto(fd: nat, to: nat)
    | Mmap(fd: nat, target: u32, index: u32, length: u32)

  datatype Out = Result(r: int) | Bytes(b: seq<byte>) | NoBuffer | Pages(p: seq<seq<byte>>) | BadFd

  /** Where a seek lands: None is the error return. */
  function SeekTarget(offset: nat, size: nat, delta: int, whence: int): Option<nat> {
    if whence !in {0, 1, 2} then None
    else
      var next := (if whence == 0 then 0 else if whence == 1 then offset else size) + delta;
      if next < 0 then None else Some(Min(next, size))
  }

  const PAGE: nat := 4096

  /** A fresh page is zeroed before file bytes go into it. */
  function Padded(b: seq<byte>): (r: seq<byte>)
    ensures |b| <= PAGE ==> |r| == PAGE
  {
    b + Zeros(if |b| < PAGE then PAGE - |b| else 0)
  }

  /** Whole pages of the file, zero-filled behind its end. */
  function PagesOf(data: seq<byte>, start: nat, pages: nat): (r: seq<seq<byte>>)
    ensures |r| == pages && forall k :: 0 <= k < pages ==> |r[k]| == PAGE
  {
    seq(pages, k requires 0 <= k => Padded(Slice(data, start + PAGE * k, PAGE)))
  }

  /** What the caller of mmap2 asks for: `length` bytes of the file from page `index` on. */
  function AskedPages(data: seq<byte>, index: u32, length: u32): seq<seq<byte>> {
    PagesOf(data, PAGE * index, CeilDiv(length, PAGE))
  }

  // The kernel computes sizes, addresses and file offsets in 32 bits.

  /** `(length + 4095) & ~4095`. */
  function AlignedLength(length: u32): u32 {
    (length + PAGE - 1) % WORD / PAGE * PAGE
  }

  /** `ebp << 12`, then `offset + (va - target)` in round `k`. */
  function FileOffset(index: u32, k: nat): u32 {
    (PAGE * index % WORD + PAGE * k) % WORD
  }

  /** Rounds of `for (va = target; va < target + aligned_len; va += PAGE_SIZE)`. */
  function Rounds(target: u32, length: u32): nat {
    if target + AlignedLength(length) < WORD then AlignedLength(length) / PAGE else 0
  }

  function MappedUpTo(data: seq<byte>, index: u32, rounds: nat): (r: seq<seq<byte>>)
    ensures |r| == rounds && forall k :: 0 <= k < rounds ==> |r[k]| == PAGE
  {
    seq(rounds, k requires 0 <= k => Padded(Slice(data, FileOffset(index, k), PAGE)))
  }

  function MappedPages(data: seq<byte>, target: u32, index: u32, length: u32): seq<seq<byte>> {
    MappedUpTo(data, index, Rounds(target, length))
  }

  /** Neither the end of the mapping nor the file offset of its last page reaches 2^32. */
  predicate NoWrap(target: u32, index: u32, length: u32) {
    var pages := CeilDiv(length, PAGE);
    target + PAGE * pages < WORD && (pages > 0 ==> PAGE * (index + pages - 1) < WORD)
  }

  function ByteAt(data: seq<byte>, at: nat): byte {
    if at < |data| then data[at] else 0
  }

  /** Byte `j` of page `k`, asked for and mapped: that byte of the file, or zero behind its end. */
  lemma {:induction false} PageByte(data: seq<byte>, index: u32, pages: nat, k: nat, j: nat)
    requires k < pages && j < PAGE
    ensures PagesOf(data, PAGE * index, pages)[k][j] == ByteAt(data, PAGE * index + PAGE * k + j)
    ensures MappedUpTo(data, index, pages)[k][j] == ByteAt(data, FileOffset(index, k) + j)
  {
    PaddedByte(data, PAGE * index + PAGE * k, j);
    PaddedByte(data, FileOffset(index, k), j);
  }

  lemma {:induction false} PaddedByte(data: seq<byte>, at: nat, j: nat)
    requires j < PAGE
    ensures Padded(Slice(data, at, PAGE))[j] == ByteAt(data, at + j)
  {
  }

  lemma {:induction false} RoundsAre(target: u32, length: u32)
    ensures var pages := CeilDiv(length, PAGE);
      Rounds(target, length) == if target + PAGE * pages < WORD then pages else 0
  {
  }

  lemma {:induction false} OffsetIs(index: u32, k: nat)
    ensures FileOffset(index, k) == (PAGE * (index + k)) % WORD
    ensures PAGE * (index + k) < WORD ==> FileOffset(index, k) == PAGE * index + PAGE * k
  {
    assert PAGE * (index + k) == PAGE * index + PAGE * k;
  }

  lemma {:induction false} MappedAsAsked(data: seq<byte>, target: u32, index: u32, length: u32)
    requires NoWrap(target, index, length)
    ensures MappedPages(data, target, index, length) == AskedPages(data, index, length)
  {
    var pages := CeilDiv(length, PAGE);
    RoundsAre(target, length);
    var l, r := MappedUpTo(data, index, pages), PagesOf(data, PAGE * index, pages);
    forall k | 0 <= k < pages ensures l[k] == r[k] { OffsetIs(index, k); }
  }

  /** The mapping shows what was asked for, whatever the file, exactly when nothing wraps. */
  lemma {:induction false} MmapIff(target: u32, index: u32, length: u32)
    ensures NoWrap(target, index, length) <==>
      forall data: seq<byte> | |data| < WORD ::
        MappedPages(data, target, index, length) == AskedPages(data, index, length)
  {
    if NoWrap(target, index, length) {
      forall data: seq<byte> | |data| < WORD
        ensures MappedPages(data, target, index, length) == AskedPages(data, index, length)
      {
        MappedAsAsked(data, target, index, length);
      }
    } else {
      var data := WrapWitness(target, index, length);
    }
  }

  /** A file long enough to reach the wrapped offset of the last page. */
  lemma {:induction false} WrapWitness(target: u32, index: u32, length: u32) returns (data: seq<byte>)
    requires !NoWrap(target, index, length)
    ensures |data| < WORD && MappedPages(data, target, index, length) != AskedPages(data, index, length)
  {
    var pages := CeilDiv(length, PAGE);
    RoundsAre(target, length);
    if target + PAGE * pages >= WORD {
      data := [];
      assert |MappedPages(data, target, index, length)| == 0 < |AskedPages(data, index, length)|;
    } else {
      data := LastPageWitness(index, pages);
    }
  }

  lemma {:induction false} LastPageWitness(index: u32, pages: nat) returns (data: seq<byte>)
    requires pages > 0 && PAGE * (index + pages - 1) >= WORD
    ensures |data| < WORD && MappedUpTo(data, index, pages) != PagesOf(data, PAGE * index, pages)
  {
    var k := pages - 1;
    var at := FileOffset(index, k);
    OffsetIs(index, k);
    PageAligned(PAGE * (index + k));
    data := seq(at + 1, _ => 7);
    PageByte(data, index, pages, k, 0);
    BeyondFile(data, index, k);
    assert MappedUpTo(data, index, pages)[k][0] == 7 && PagesOf(data, PAGE * index, pages)[k][0] == 0;
  }

  lemma {:induction false} BeyondFile(data: seq<byte>, index: u32, k: nat)
    requires PAGE * (index + k) >= WORD > |data|
    ensures ByteAt(data, PAGE * index + PAGE * k + 0) == 0
  {
  }

  lemma {:induction false} PageAligned(n: nat)
    requires n % PAGE == 0
    ensures n % WORD <= WORD - PAGE
  {
  }

  /** Two pages at page index 0xFFFFF of a one-byte file: the second shows the file's first byte,
      where the file has nothing. */
  lemma {:induction false} MmapWraps(data: seq<byte>, target: u32)
    requires data == [7] && target + 8192 < WORD
    ensures var m, a := MappedPages(data, target, 0xF_FFFF, 8192), AskedPages(data, 0xF_FFFF, 8192);
      |m| == 2 == |a| && |m[1]| == PAGE == |a[1]| && m[1][0] == 7 && a[1][0] == 0
  {
    RoundsAre(target, 8192);
    OffsetIs(0xF_FFFF, 1);
    PageByte(data, 0xF_FFFF, 2, 1, 0);
  }

  /** One operation on plain descriptors. */
  function PlainStep(st: seq<Plain>, op: Op): (seq<Plain>, Out) {
    if op.fd >= |st| then (st, BadFd)
    else
      var d := st[op.fd];
      match op
      case Seek(i, delta, whence) =>
        var t := SeekTarget(d.offset, |d.data|, delta, whence);
        if t.None? then (st, Result(-1)) else (st[i := d.(offset := t.value)], Result(ToInt32(t.value)))
      case Read(i, maxlen, cap) =>
        if maxlen <= 0 then (st, Bytes([]))
        else if cap == 0 then (st, NoBuffer)
        else
          var b := Slice(d.data, d.offset, Min(maxlen, cap));
          (st[i := d.(offset := d.offset + |b|)], Bytes(b))
      case Dup(i) => (st + [d], Result(|st|))
      case DupOnto(i, to) => if to < |st| then (st[to := d], Result(to)) else (st, BadFd)
      case Mmap(i, target, index, length) => (st, Pages(AskedPages(d.data, index, length)))
  }

  /** The same with the kernel's 32-bit page arithmetic. */
  function CodeStep(st: seq<Plain>, op: Op): (seq<Plain>, Out) {
    if op.Mmap? && op.fd < |st| then (st, Pages(MappedPages(st[op.fd].data, op.target, op.index, op.length)))
    else PlainStep(st, op)
  }

  function CodeRun(st: seq<Plain>, ops: seq<Op>): (seq<Plain>, seq<Out>)
    decreases |ops|
  {
    if ops == [] then (st, [])
    else
      var (st1, out) := CodeStep(st, ops[0]);
      var (st2, outs) := CodeRun(st1, ops[1..]);
      (st2, [out] + outs)
  }

  /** No mapping of the run wraps: something to check before each call. */
  predicate NoneWraps(ops: seq<Op>)
    decreases |ops|
  {
    ops == [] || ((ops[0].Mmap? ==> NoWrap(ops[0].target, ops[0].index, ops[0].length)) && NoneWraps(ops[1..]))
  }

  /** Without a wrap the kernel's runs are plain runs. */
  lemma {:induction false} RunsAgree(st: seq<Plain>, ops: seq<Op>)
    requires NoneWraps(ops)
    ensures CodeRun(st, ops) == PlainRun(st, ops)
    decreases |ops|
  {
    if ops != [] {
      var op := ops[0];
      if op.Mmap? && op.fd < |st| { MappedAsAsked(st[op.fd].data, op.target, op.index, op.length); }
      RunsAgree(CodeStep(st, op).0, ops[1..]);
    }
  }

  function PlainRun(st: seq<Plain>, ops: seq<Op>): (seq<Plain>, seq<Out>)
    decreases |ops|
  {
    if ops == [] then (st, [])
    else
      var (st1, out) := PlainStep(st, ops[0]);
      var (st2, outs) := PlainRun(st1, ops[1..]);
      (st2, [out] + outs)
  }

  /** Seeking from the start, from where the descriptor is, or from the end, by `delta`: an error before
      the start or for another origin, the end beyond it. Nothing else changes. */
  lemma {:induction false} SeekLands(st: seq<Plain>, i: nat, delta: int, whence: int)
    requires i < |st|
    ensures var (st', out) := PlainStep(st, Seek(i, delta, whence));
      var d := st[i];
      var goal := delta + if whence == 1 then d.offset else if whence == 2 then |d.data| else 0;
      if !(0 <= whence <= 2) || goal < 0 then st' == st && out == Result(-1)
      else
        var at := if goal <= |d.data| then goal else |d.data|;
        st' == st[i := Plain(at, d.data)] && (at < 0x8000_0000 ==> out == Result(at))
  {
  }

  /** A read gives the bytes at the position, as many as asked for, buffered and there, and moves on
      behind them; nothing asked for gives nothing, no buffer is an error. */
  lemma {:induction false} ReadGives(st: seq<Plain>, i: nat, maxlen: int, cap: nat)
    requires i < |st| && st[i].offset <= |st[i].data|
    ensures var (st', out) := PlainStep(st, Read(i, maxlen, cap));
      var d := st[i];
      if maxlen <= 0 then st' == st && out == Bytes([])
      else if cap == 0 then st' == st && out == NoBuffer
      else
        var want := if maxlen < cap then maxlen else cap;
        var end := if d.offset + want < |d.data| then d.offset + want else |d.data|;
        out == Bytes(d.data[d.offset..end]) && st' == st[i := Plain(end, d.data)]
  {
    var d := st[i];
    if d.offset == |d.data| { assert d.data[d.offset..|d.data|] == []; }
  }

  /** Two reads in a row give what one read of both lengths gives. */
  lemma {:induction false} ReadsJoin(st: seq<Plain>, i: nat, m: nat, n: nat)
    requires i < |st| && st[i].offset <= |st[i].data| && m > 0 && n > 0
    ensures var (st1, out1) := PlainStep(st, Read(i, m, m));
      i < |st1| && var (st2, out2) := PlainStep(st1, Read(i, n, n));
      var (st3, out3) := PlainStep(st, Read(i, m + n, m + n));
      out1.Bytes? && out2.Bytes? && out3.Bytes? && out1.b + out2.b == out3.b && st2 == st3
  {
    ReadGives(st, i, m, m);
    var st1 := PlainStep(st, Read(i, m, m)).0;
    ReadGives(st1, i, n, n);
    ReadGives(st, i, m + n, m + n);
    var d := st[i];
    var a := Min(d.offset + m, |d.data|);
    SliceJoin(d.data, d.offset, a, Min(d.offset + m + n, |d.data|));
  }

  /** A duplicate starts where the original is, and they move apart. */
  lemma {:induction false} DupsApart(st: seq<Plain>, i: nat, to: nat)
    requires i < |st|
    ensures PlainStep(st, Dup(i)) == (st + [st[i]], Result(|st|))
    ensures to < |st| ==> PlainStep(st, DupOnto(i, to)) == (st[to := st[i]], Result(to))
  {
  }

  /** No seek leaves `[0, size]`. */
  lemma {:induction false} SeekStays(offset: nat, size: nat, delta: int, whence: int)
    requires offset <= size
    ensures SeekTarget(offset, size, delta, whence).Some? ==> SeekTarget(offset, size, delta, whence).value <= size
  {
  }

  /** The successful seek returns the position it landed on. */
  predicate Reports(offset: nat, size: nat, delta: int, whence: int) {
    var t := SeekTarget(offset, size, delta, whence);
    t.Some? ==> ToInt32(t.value) == t.value
  }

  /** On files below 2^31 bytes every successful seek returns its position, on no larger file do all. */
  lemma {:induction false} SeekReportIff(size: nat)
    requires size < WORD
    ensures size < 0x8000_0000 <==>
      forall offset: nat, delta: int, whence: int :: offset <= size ==> Reports(offset, size, delta, whence)
  {
    if size >= 0x8000_0000 {
      assert SeekTarget(0, size, 0, 2) == Some(size);
      assert !Reports(0, size, 0, 2);
    } else {
      forall offset: nat, delta: int, whence: int | offset <= size ensures Reports(offset, size, delta, whence) {
        SeekStays(offset, size, delta, whence);
      }
    }
  }

  /** Whether a successful seek on the file can return -1, the error value: only to the end of a
      file of 2^32 - 1 bytes. */
  lemma {:induction false} SeekCollidesIff(size: nat)
    requires size < WORD
    ensures size == 0xFFFF_FFFF <==>
      exists offset: nat, delta: int, whence: int :: offset <= size && LooksFailed(offset, size, delta, whence)
  {
    if size == 0xFFFF_FFFF {
      assert LooksFailed(0, size, 0, 2);
    } else if offset: nat, delta: int, whence: int :| offset <= size && LooksFailed(offset, size, delta, whence) {
      SeekStays(offset, size, delta, whence);
    }
  }

  predicate LooksFailed(offset: nat, size: nat, delta: int, whence: int) {
    var t := SeekTarget(offset, size, delta, whence);
    t.Some? && ToInt32(t.value) == -1
  }

  function ViewOf(fds: seq<Desc>, files: seq<FileRec>): (v: seq<Plain>)
    requires |fds| == |files|
    ensures |v| == |fds| && forall i :: 0 <= i < |v| ==> v[i] == Plain(fds[i].offset, files[i].data)
  {
    if fds == [] then [] else [Plain(fds[0].offset, files[0].data)] + ViewOf(fds[1..], files[1..])
  }

  lemma {:induction false} CopyView(fds: seq<Desc>, files: seq<FileRec>, i: nat, to: nat)
    requires |fds| == |files| && i < |fds| && to < |fds|
    ensures ViewOf(fds[to := fds[i]], files[to := files[i]]) == ViewOf(fds, files)[to := ViewOf(fds, files)[i]]
  {
    var l, r := ViewOf(fds[to := fds[i]], files[to := files[i]]), ViewOf(fds, files)[to := ViewOf(fds, files)[i]];
    forall k | 0 <= k < |fds| ensures l[k] == r[k] {
    }
  }

  lemma {:induction false} MorePages(data: seq<byte>, index: u32, k: nat)
    ensures MappedUpTo(data, index, k + 1) ==
      MappedUpTo(data, index, k) + [Padded(Slice(data, FileOffset(index, k), PAGE))]
  {
  }

  ghost predicate AllOk(disk: Disk, fds: seq<Desc>, files: seq<FileRec>) {
    && |fds| == |files|
    && forall i {:trigger DescOk(disk, fds[i], files[i])} :: 0 <= i < |fds| ==> DescOk(disk, fds[i], files[i])
  }

  lemma {:induction false} CopiedOk(disk: Disk, fds: seq<Desc>, files: seq<FileRec>, i: nat, to: nat)
    requires AllOk(disk, fds, files) && i < |fds| && to < |fds|
    ensures AllOk(disk, fds[to := fds[i]], files[to := files[i]])
  {
    assert DescOk(disk, fds[i], files[i]);
    var fds', files' := fds[to := fds[i]], files[to := files[i]];
    forall k | 0 <= k < |fds| ensures DescOk(disk, fds'[k], files'[k]) {
      if k != to { assert DescOk(disk, fds[k], files[k]); }
    }
  }

  class FileTable {
    const disk: Disk
    var fds: seq<Desc>
    ghost var files: seq<FileRec>

    ghost predicate Valid()
      reads this
    {
      AllOk(disk, fds, files)
    }

    ghost function View(): (v: seq<Plain>)
      requires |fds| == |files|
      reads this
      ensures |v| == |fds| && forall i :: 0 <= i < |v| ==> v[i] == Plain(fds[i].offset, files[i].data)
    {
      ViewOf(fds, files)
    }

    /** A table with one freshly opened file: position 0, cursor unset. */
    constructor (disk: Disk, first: nat, size: nat, ghost f: FileRec)
      requires FileOnDisk(disk, f) && first == FirstOf(f.blocks) && size == |f.data| < WORD
      ensures Valid() && View() == [Plain(0, f.data)]
    {
      this.disk := disk;
      fds := [Desc(0, size, first, 0, 0)];
      files := [f];
      new;
      assert DescOk(disk, fds[0], files[0]);
    }

    /** `syscall_seek_fd`: a backward seek drops the cursor. */
    method SeekFd(i: nat, delta: int, whence: int) returns (r: int)
      requires Valid() && i < |fds|
      modifies this
      ensures Valid()
      ensures (View(), Result(r)) == PlainStep(old(View()), Seek(i, delta, whence))
    {
      var d := fds[i];
      assert DescOk(disk, d, files[i]);
      var base := 0;
      if whence == 0 {
      } else if whence == 1 {
        base := d.offset;
      } else if whence == 2 {
        base := d.size;
      } else {
        return -1;
      }
      var next := base + delta;
      if next < 0 {
        return -1;
      }
      if next > d.size { next := d.size; }
      d := d.(offset := next);
      if !(d.cur != 0 && next >= d.off) {
        d := d.(cur := 0, off := 0);
      }
      r := ToInt32(next);
      Put(i, d);
    }

    /** Write back one descriptor. */
    method Put(i: nat, d: Desc)
      requires Valid() && i < |fds| && DescOk(disk, d, files[i])
      modifies `fds
      ensures Valid() && View() == old(View())[i := Plain(d.offset, files[i].data)]
    {
      ghost var was := fds;
      fds := fds[i := d];
      forall k | 0 <= k < |fds| ensures DescOk(disk, fds[k], files[k]) {
        assert DescOk(disk, was[k], files[k]);
      }
    }

    /** `syscall_read_file` with a kernel buffer of `cap` bytes (0: none could be had). */
    method ReadFile(i: nat, maxlen: int, cap: nat) returns (out: Out)
      requires Valid() && i < |fds|
      modifies this
      ensures Valid()
      ensures (View(), out) == PlainStep(old(View()), Read(i, maxlen, cap))
    {
      if maxlen <= 0 {
        return Bytes([]);
      }
      if cap == 0 {
        return NoBuffer;
      }
      var d := fds[i];
      assert DescOk(disk, d, files[i]);
      var buf, cur, off := ReadFileFast(disk, d.first, d.size, Min(maxlen, cap), d.offset, d.cur, d.off, files[i]);
      Put(i, d.(offset := d.offset + |buf|, cur := cur, off := off));
      out := Bytes(buf);
    }

    /** `user_fd_duplicate_into` a new slot: the cursor is copied with the rest. */
    method DupFd(i: nat) returns (r: nat)
      requires Valid() && i < |fds|
      modifies this
      ensures Valid()
      ensures (View(), Result(r)) == PlainStep(old(View()), Dup(i))
    {
      ghost var was, wasFiles := fds, files;
      r := |fds|;
      fds := fds + [fds[i]];
      files := files + [files[i]];
      forall k | 0 <= k < |fds| ensures DescOk(disk, fds[k], files[k]) {
        assert DescOk(disk, was[if k < |was| then k else i], wasFiles[if k < |was| then k else i]);
      }
      assert View() == ViewOf(was, wasFiles) + [ViewOf(was, wasFiles)[i]];
    }

    /** `user_fd_duplicate_into` an open descriptor: what it named is dropped. */
    method DupOntoFd(i: nat, to: nat) returns (r: nat)
      requires Valid() && i < |fds| && to < |fds|
      modifies this
      ensures Valid()
      ensures (View(), Result(r)) == PlainStep(old(View()), DupOnto(i, to))
    {
      CopyView(fds, files, i, to);
      assert AllOk(disk, fds, files);
      CopiedOk(disk, fds, files, i, to);
      r := to;
      fds := fds[to := fds[i]];
      files := files[to := files[i]];
    }

    /** The page loop of the fd-backed mmap: reads through the same cursor, leaves the position alone. */
    method MapPages(i: nat, target: u32, index: u32, length: u32) returns (out: seq<seq<byte>>)
      requires Valid() && i < |fds|
      modifies this
      ensures Valid()
      ensures (View(), Pages(out)) == CodeStep(old(View()), Mmap(i, target, index, length))
    {
      out := [];
      ghost var before := View();
      var offset, end := PAGE * index % WORD, (target + AlignedLength(length)) % WORD;
      var va := target;
      LoopEnds(target, length, 0);
      while va < end
        invariant Valid() && View() == before
        invariant |out| <= Rounds(target, length) && va == target + PAGE * |out|
        invariant va < end <==> |out| < Rounds(target, length)
        invariant out == MappedUpTo(before[i].data, index, |out|)
        decreases Rounds(target, length) - |out|
      {
        MorePages(before[i].data, index, |out|);
        LoopEnds(target, length, |out| + 1);
        var page := MapPage(i, (offset + (va - target)) % WORD);
        out := out + [page];
        va := (va + PAGE) % WORD;
      }
    }

    lemma LoopEnds(target: u32, length: u32, k: nat)
      requires k <= Rounds(target, length)
      ensures k > 0 ==> target + PAGE * k < WORD
      ensures target + PAGE * k < (target + AlignedLength(length)) % WORD <==> k < Rounds(target, length)
    {
    }

    /** One page at a file offset. */
    method MapPage(i: nat, fileOff: nat) returns (page: seq<byte>)
      requires Valid() && i < |fds|
      modifies this
      ensures Valid() && View() == old(View())
      ensures page == Padded(Slice(View()[i].data, fileOff, PAGE))
    {
      var d := fds[i];
      assert DescOk(disk, d, files[i]);
      var bytes := [];
      if fileOff < d.size {
        var toCopy := Min(d.size - fileOff, PAGE);
        var cur, off;
        bytes, cur, off := ReadFileFast(disk, d.first, d.size, toCopy, fileOff, d.cur, d.off, files[i]);
        Put(i, d.(cur := cur, off := off));
      }
      page := Padded(bytes);
    }

    /** One operation. */
    method Do(op: Op) returns (out: Out)
      requires Valid()
      modifies this
      ensures Valid() && (View(), out) == CodeStep(old(View()), op)
    {
      out := BadFd;
      if op.fd < |fds| {
        match op
        case Seek(i, delta, whence) => var r := SeekFd(i, delta, whence); out := Result(r);
        case Read(i, maxlen, cap) => out := ReadFile(i, maxlen, cap);
        case Dup(i) => var r := DupFd(i); out := Result(r);
        case DupOnto(i, to) =>
          if to < |fds| { var r := DupOntoFd(i, to); out := Result(r); }
        case Mmap(i, target, index, length) => var p := MapPages(i, target, index, length); out := Pages(p);
      }
    }

    /** Any run of seeks, reads, dups and mmaps answers as plain positions over plain bytes do, if no
        mapping wraps; with the 32-bit page arithmetic it does in any case. */
    method Run(ops: seq<Op>) returns (outs: seq<Out>)
      requires Valid()
      modifies this
      ensures Valid() && (View(), outs) == CodeRun(old(View()), ops)
      ensures NoneWraps(ops) ==> (View(), outs) == PlainRun(old(View()), ops)
    {
      outs := [];
      ghost var start := View();
      assert ops[0..] == ops && forall r: seq<Out> :: [] + r == r;
      for k := 0 to |ops|
        invariant Valid()
        invariant var (end, rest) := CodeRun(View(), ops[k..]);
          CodeRun(start, ops) == (end, outs + rest)
      {
        assert ops[k..][1..] == ops[k + 1..];
        var out := Do(ops[k]);
        ghost var (end, rest) := CodeRun(View(), ops[k + 1..]);
        assert outs + ([out] + rest) == (outs + [out]) + rest;
        outs := outs + [out];
      }
      assert ops[|ops|..] == [] && outs + [] == outs;
      if NoneWraps(ops) { RunsAgree(start, ops); }
    }
  }
}
