/** What a converted video holds, frame by frame and byte by byte. */
module ReivChoice {
  import opened Bytes
  import opened PackBits
  import opened PackBitsEncoders
  import opened Reiv
  import opened ReivPlayer

  // ----- exclusive or, bit by bit -----

  /** A bit of the result is set exactly when the two bits differ. */
  lemma {:induction false} XorBitsDiffer(a: nat, b: nat, w: nat, j: nat)
    requires j < w
    ensures BitOf(XorBits(a, b, w), j) <==> BitOf(a, j) != BitOf(b, j)
    decreases w
  {
    var rest := XorBits(a / 2, b / 2, w - 1);
    LowBit(a, b, rest);
    if j > 0 { XorBitsDiffer(a / 2, b / 2, w - 1, j - 1); }
  }

  lemma {:induction false} XorByteDiffers(a: byte, b: byte, j: nat)
    requires j < 8
    ensures BitOf(XorByte(a, b), j) <==> BitOf(a, j) != BitOf(b, j)
  {
    XorBitsDiffer(a, b, 8, j);
  }

  // ----- which form each frame gets -----

  /** The stored form of a frame, with `pixels` its bytes packed by pixels and `delta` the bytes of its
      difference from the frame before, packed, if there is to be one: the delta (flags 6) if that saves
      at least a tenth, else the pixels (flags 1) if they are shorter than the frame, else the frame
      (flags 0). */
  predicate FormIs(frame: Frame, pixels: seq<byte>, delta: Option<seq<byte>>, flags: u32, stored: seq<byte>) {
    var n := |frame|;
    if delta.Some? && |delta.value| < n && |delta.value| <= n * 9 / 10 then flags == 6 && stored == delta.value
    else if |pixels| < n then flags == 1 && stored == pixels
    else flags == 0 && stored == frame
  }

  lemma {:induction false} KeyFormIs(frame: Frame, pixels: seq<byte>)
    requires pixels == EncodedAs(frame, 2, 2)
    ensures FormIs(frame, pixels, None, KeyForm(frame).flags, KeyForm(frame).bytes)
  {
  }

  lemma {:induction false} InterFormIs(prev: Frame, frame: Frame, pixels: seq<byte>, delta: seq<byte>)
    requires |prev| == |frame| && pixels == EncodedAs(frame, 2, 2) && delta == EncodedAs(Xor(prev, frame), 1, 2)
    ensures FormIs(frame, pixels, Some(delta), InterForm(prev, frame).flags, InterForm(prev, frame).bytes)
  {
    KeyFormIs(frame, pixels);
  }

  /** Whether a delta is to be had: the bytes of the difference, packed bytewise, except in every frame
      that is due as a key frame. */
  ghost predicate DeltaIs(fs: seq<Frame>, size: nat, interval: nat, k: nat, delta: Option<seq<byte>>)
    requires Frames(fs, size) && k < |fs| && interval > 0
  {
    if k % interval == 0 then delta == None
    else delta == Some(EncodedAs(Xor(fs[k - 1], fs[k]), 1, 2))
  }

  /** Entry `k` of a conversion and its payload. Key frames are due every fps frames, or every 30 if fps is
      not positive. */
  lemma {:induction false} EntryChoice(
    fs: seq<Frame>, size: nat, fps: int, interval: nat, index: seq<Entry>, payload: seq<byte>, k: nat,
    pixels: seq<byte>, delta: Option<seq<byte>>)
    returns (stored: seq<byte>)
    requires Converted(fs, size, KeyInterval(fps), index, payload) && k < |fs|
    requires interval == if fps > 0 then fps else 30
    requires pixels == EncodedAs(fs[k], 2, 2) && DeltaIs(fs, size, interval, k, delta)
    ensures |index| == |fs| && index[k].offset + index[k].size <= |payload|
    ensures stored == payload[index[k].offset..index[k].offset + index[k].size]
    ensures FormIs(fs[k], pixels, delta, index[k].flags, stored)
  {
    assert KeyInterval(fps) == interval;
    stored := EntryOf(fs, size, interval, index, payload, k, pixels, delta);
  }

  lemma {:induction false} EntryOf(
    fs: seq<Frame>, size: nat, interval: nat, index: seq<Entry>, payload: seq<byte>, k: nat,
    pixels: seq<byte>, delta: Option<seq<byte>>)
    returns (stored: seq<byte>)
    requires interval > 0 && Converted(fs, size, interval, index, payload) && k < |fs|
    requires pixels == EncodedAs(fs[k], 2, 2) && DeltaIs(fs, size, interval, k, delta)
    ensures |index| == |fs| && index[k].offset + index[k].size <= |payload|
    ensures stored == payload[index[k].offset..index[k].offset + index[k].size]
    ensures FormIs(fs[k], pixels, delta, index[k].flags, stored)
  {
    var ks := AllChosen(fs, size, interval);
    var c := ks[k];
    assert c == Chosen(fs, size, k, interval);
    ChosenForm(fs, size, interval, k, pixels, delta, c);
    stored := CutEntry(ks, k, c, index, payload);
  }

  lemma {:induction false} CutEntry(ks: seq<Coded>, k: nat, c: Coded, index: seq<Entry>, payload: seq<byte>)
    returns (stored: seq<byte>)
    requires k < |ks| && c == ks[k] && index == Index(ks) && payload == Region(ks)
    ensures |index| == |ks| && index[k].offset + index[k].size <= |payload|
    ensures stored == payload[index[k].offset..index[k].offset + index[k].size]
    ensures stored == c.bytes && index[k].flags == c.flags
  {
    EntryHolds(ks, k);
    stored := c.bytes;
  }

  /** An entry cuts its frame's payload out of the payload region. */
  lemma {:induction false} EntryHolds(ks: seq<Coded>, k: nat)
    requires k < |ks|
    ensures var e, region := Index(ks)[k], Region(ks);
      && e.offset + e.size <= |region| && e.flags == ks[k].flags
      && region[e.offset..e.offset + e.size] == ks[k].bytes
  {
    IndexFinds(ks, k, |ks|);
  }

  lemma {:induction false} ChosenForm(
    fs: seq<Frame>, size: nat, interval: nat, k: nat, pixels: seq<byte>, delta: Option<seq<byte>>, c: Coded)
    requires Frames(fs, size) && k < |fs| && interval > 0 && c == Chosen(fs, size, k, interval)
    requires pixels == EncodedAs(fs[k], 2, 2) && DeltaIs(fs, size, interval, k, delta)
    ensures FormIs(fs[k], pixels, delta, c.flags, c.bytes)
  {
    if k % interval == 0 {
      KeyFormIs(fs[k], pixels);
    } else {
      InterFormIs(fs[k - 1], fs[k], pixels, delta.value);
    }
  }

  /** Payloads follow one another from 0 on, without gaps, to the end of the payload region. */
  lemma {:induction false} OffsetsAddUp(
    fs: seq<Frame>, size: nat, interval: nat, index: seq<Entry>, payload: seq<byte>, k: nat)
    requires Converted(fs, size, interval, index, payload) && k < |index|
    ensures index[k].offset == if k == 0 then 0 else index[k - 1].offset + index[k - 1].size
    ensures k + 1 == |index| ==> index[k].offset + index[k].size == |payload|
  {
    OffsetsOf(AllChosen(fs, size, interval), k);
  }

  lemma {:induction false} OffsetsOf(ks: seq<Coded>, k: nat)
    requires k < |ks|
    ensures Index(ks)[k].offset == if k == 0 then 0 else Index(ks)[k - 1].offset + Index(ks)[k - 1].size
    ensures k + 1 == |ks| ==> Index(ks)[k].offset + Index(ks)[k].size == |Region(ks)|
  {
    OffsetStep(ks, k);
    OffsetStep(ks, k + 1);
  }

  lemma {:induction false} OffsetStep(ks: seq<Coded>, n: nat)
    requires n <= |ks|
    ensures Offset(ks, n) == if n == 0 then 0 else Offset(ks, n - 1) + |ks[n - 1].bytes|
  {
  }

  /** Frame `k` is the stream's `size` bytes from `k * size` on. */
  lemma {:induction false} FrameBytes(stream: seq<byte>, size: nat, k: nat)
    requires size > 0 && |stream| % size == 0 && k < |Cut(stream, size)|
    ensures 0 <= k * size <= (k + 1) * size <= |stream|
    ensures Cut(stream, size)[k] == stream[k * size..(k + 1) * size]
  {
    UnitStarts(|stream|, size, k);
    TimesIsProduct(k, size);
    TimesIsProduct(k + 1, size);
    CutFlat(stream, size);
    assert |Cut(stream, size)[k]| == size;
  }

  // ----- the file, byte by byte -----

  lemma {:induction false} WordOf(b: seq<byte>, at: nat, n: u32)
    requires at + 4 <= |b| && b[at..at + 4] == Le32(n)
    ensures b[at] as int + 256 * b[at + 1] as int + 65536 * b[at + 2] as int + 16777216 * b[at + 3] as int == n
  {
    var w := b[at..at + 4];
    Le32RoundTrip(n);
    assert w[0] == b[at] && w[1] == b[at + 1] && w[2] == b[at + 2] && w[3] == b[at + 3];
  }

  /** The header: a zero byte and `VER`, width and height in two bytes each, pixel format 1, flags,
      version 3, then frame count, frames per second over 1, and 28 where the index starts. */
  lemma {:induction false} HeaderLayout(w: nat, h: nat, flags: byte, count: u32, fps: u32, b: seq<byte>)
    requires w < 65536 && h < 65536 && b == HeaderBytes(w, h, flags, count, fps)
    ensures |b| == 28 && b[0] == 0 && b[1] == 0x56 && b[2] == 0x45 && b[3] == 0x52
    ensures b[4] as int + 256 * b[5] as int == w && b[6] as int + 256 * b[7] as int == h
    ensures b[8] == 1 && b[9] == flags && b[10] == 3 && b[11] == 0
    ensures b[12] as int + 256 * b[13] as int + 65536 * b[14] as int + 16777216 * b[15] as int == count
    ensures b[16] as int + 256 * b[17] as int + 65536 * b[18] as int + 16777216 * b[19] as int == fps
    ensures b[20] == 1 && b[21] == 0 && b[22] == 0 && b[23] == 0
    ensures b[24] == 28 && b[25] == 0 && b[26] == 0 && b[27] == 0
  {
    HeaderFields(w, h, flags, count, fps, b);
    WordOf(b, 12, count);
    WordOf(b, 16, fps);
    Four(b, 0, Le32(MAGIC));
    Four(b, 20, Le32(1));
    Four(b, 24, Le32(28));
    assert b[4] == b[4..6][0] && b[5] == b[4..6][1] && b[6] == b[6..8][0] && b[7] == b[6..8][1];
    assert b[10] == b[10..12][0] && b[11] == b[10..12][1];
  }

  lemma {:induction false} HeaderFields(w: nat, h: nat, flags: byte, count: u32, fps: u32, b: seq<byte>)
    requires w < 65536 && h < 65536 && b == HeaderBytes(w, h, flags, count, fps)
    ensures b[0..4] == Le32(MAGIC) && b[4..6] == Le16(w) && b[6..8] == Le16(h) && b[8] == 1 && b[9] == flags
    ensures b[10..12] == Le16(3) && b[12..16] == Le32(count) && b[16..20] == Le32(fps)
    ensures b[20..24] == Le32(1) && b[24..28] == Le32(28)
  {
  }

  lemma Four(b: seq<byte>, at: nat, w: seq<byte>)
    requires at + 4 <= |b| && |w| == 4 && b[at..at + 4] == w
    ensures b[at] == w[0] && b[at + 1] == w[1] && b[at + 2] == w[2] && b[at + 3] == w[3]
  {
    assert b[at..at + 4][0] == w[0] && b[at..at + 4][1] == w[1];
    assert b[at..at + 4][2] == w[2] && b[at..at + 4][3] == w[3];
  }

  /** A written file: 28 bytes of header, 12 bytes for each entry (offset, size, flags), the payloads. */
  lemma {:induction false} FileLayout(
    w: nat, h: nat, flags: byte, fps: int, index: seq<Entry>, payload: seq<byte>, file: seq<byte>, k: nat)
    requires FileBytes(w, h, flags, fps, index, payload) == Some(file) && k < |index|
    ensures |file| == 28 + 12 * |index| + |payload|
    ensures file[..28] == HeaderBytes(w, h, flags, |index|, fps) && file[28 + 12 * |index|..] == payload
    ensures var at, e := 28 + 12 * k, index[k];
      && file[at] as int + 256 * file[at + 1] as int + 65536 * file[at + 2] as int
         + 16777216 * file[at + 3] as int == e.offset
      && file[at + 4] as int + 256 * file[at + 5] as int + 65536 * file[at + 6] as int
         + 16777216 * file[at + 7] as int == e.size
      && file[at + 8] as int + 256 * file[at + 9] as int + 65536 * file[at + 10] as int
         + 16777216 * file[at + 11] as int == e.flags
  {
    var head, body := HeaderBytes(w, h, flags, |index|, fps), IndexBytes(index, |index|);
    Parts(head, body, payload, file);
    IndexAt(index, k, |index|);
    var at, e := 28 + 12 * k, index[k];
    SubSlice(file, 28, 12 * |index|, 12 * k, 12);
    EntryWords(file, at, e);
  }

  lemma {:induction false} EntryWords(file: seq<byte>, at: nat, e: Entry)
    requires Packs(e) && at + 12 <= |file| && file[at..at + 12] == EntryBytes(e)
    ensures file[at] as int + 256 * file[at + 1] as int + 65536 * file[at + 2] as int
      + 16777216 * file[at + 3] as int == e.offset
    ensures file[at + 4] as int + 256 * file[at + 5] as int + 65536 * file[at + 6] as int
      + 16777216 * file[at + 7] as int == e.size
    ensures file[at + 8] as int + 256 * file[at + 9] as int + 65536 * file[at + 10] as int
      + 16777216 * file[at + 11] as int == e.flags
  {
    var b := EntryBytes(e);
    assert b[0..0 + 4] == Le32(e.offset) && b[4..4 + 4] == Le32(e.size) && b[8..8 + 4] == Le32(e.flags);
    SubSlice(file, at, 12, 0, 4);
    SubSlice(file, at, 12, 4, 4);
    SubSlice(file, at, 12, 8, 4);
    WordOf(file, at, e.offset);
    WordOf(file, at + 4, e.size);
    WordOf(file, at + 8, e.flags);
  }

  // ----- reading back -----

  /** The forms a payload's flags stand for: 4 a difference, packed bytewise if 2 is set too; else, with
      1, packed pixels; else the frame itself. A wrong length is an error. */
  lemma {:induction false} FormsOfFlags(prev: Frame, bytes: seq<byte>, flags: u32)
    ensures var f, d := DecodeFrame(prev, Coded(bytes, flags)), Decode(bytes, |prev|, 1);
      && (flags in {4, 5} ==> f == (if |bytes| == |prev| then Some(Xor(prev, bytes)) else None))
      && (flags in {6, 7} ==> f == (if d.Some? && |d.value| == |prev| then Some(Xor(prev, d.value)) else None))
      && (flags in {1, 3} ==> f == Decode(bytes, |prev|, 2))
      && (flags in {0, 2} ==> f == (if |bytes| == |prev| then Some(bytes) else None))
  {
  }

  /** Exactly which files open, by the bytes of their headers. */
  lemma {:induction false} OpensIff(b: seq<byte>)
    ensures |b| < 28 ==> OpenClip(b) == None
    ensures |b| >= 28 ==>
      var version, w, h := b[10] as int + 256 * b[11] as int, b[4] as int + 256 * b[5] as int,
        b[6] as int + 256 * b[7] as int;
      var count := b[12] as int + 256 * b[13] as int + 65536 * b[14] as int + 16777216 * b[15] as int;
      var start := b[24] as int + 256 * b[25] as int + 65536 * b[26] as int + 16777216 * b[27] as int;
      OpenClip(b).Some? <==>
        && b[0] == 0 && b[1] == 0x56 && b[2] == 0x45 && b[3] == 0x52
        && 1 <= version <= 3 && 1 <= w <= 640 && 1 <= h <= 480 && b[8] == 1 && count > 0
        && 28 <= start <= |b| && (version >= 2 ==> 12 * count <= 8388608 && start + 12 * count <= |b|)
  {
    if |b| >= 28 {
      HalfOf(b, 4);
      HalfOf(b, 6);
      HalfOf(b, 10);
      MagicIs(b);
      WordIs(b, 12);
      WordIs(b, 24);
      OpensByFields(b, FromLe16(b[10..12]), FromLe16(b[4..6]), FromLe16(b[6..8]), Word(b, 12), Word(b, 24));
    }
  }

  lemma {:induction false} OpensByFields(b: seq<byte>, version: nat, w: nat, h: nat, count: nat, start: nat)
    requires |b| >= 28 && version == FromLe16(b[10..12]) && w == FromLe16(b[4..6]) && h == FromLe16(b[6..8])
    requires count == Word(b, 12) && start == Word(b, 24)
    ensures OpenClip(b).Some? <==>
      && Word(b, 0) == MAGIC
      && 1 <= version <= 3 && 1 <= w <= 640 && 1 <= h <= 480 && b[8] == 1 && count > 0
      && 28 <= start <= |b| && (version >= 2 ==> 12 * count <= 8388608 && start + 12 * count <= |b|)
  {
  }

  lemma {:induction false} MagicIs(b: seq<byte>)
    requires |b| >= 4
    ensures Word(b, 0) == MAGIC <==> b[0] == 0 && b[1] == 0x56 && b[2] == 0x45 && b[3] == 0x52
  {
    WordIs(b, 0);
  }

  lemma {:induction false} HalfOf(b: seq<byte>, at: nat)
    requires at + 2 <= |b|
    ensures FromLe16(b[at..at + 2]) == b[at] as int + 256 * b[at + 1] as int
  {
    assert b[at..at + 2][0] == b[at] && b[at..at + 2][1] == b[at + 1];
  }

  lemma {:induction false} WordIs(b: seq<byte>, at: nat)
    requires at + 4 <= |b|
    ensures Word(b, at) ==
      b[at] as int + 256 * b[at + 1] as int + 65536 * b[at + 2] as int + 16777216 * b[at + 3] as int
  {
    var w := b[at..at + 4];
    assert w[0] == b[at] && w[1] == b[at + 1] && w[2] == b[at + 2] && w[3] == b[at + 3];
  }

  /** A clip without an index is frame after frame, as they are: frame `k` from here is the bytes from
      `lo`, `k` frames on. */
  lemma {:induction false} RawPlays(v: Clip, c: Cursor, k: nat, lo: nat)
    requires ClipOk(v) && v.raw && c.next + k < v.count
    requires lo == c.pos + k * v.size && lo + v.size <= |v.data|
    ensures Watch(v, c, k + 1).Some? && |Watch(v, c, k + 1).value| == k + 1
    ensures Watch(v, c, k + 1).value[k] == v.data[lo..lo + v.size]
    decreases k
  {
    if k > 0 {
      OneMore(k, v.size);
      var cur := Advance(v, c).cur;
      RawPlays(v, cur, k - 1, lo);
    } else {
      assert Watch(v, Advance(v, c).cur, 0) == Some([]);
    }
  }

  lemma OneMore(k: nat, p: nat)
    requires k > 0
    ensures k * p == p + (k - 1) * p && (k - 1) * p >= 0
  {
  }
}
