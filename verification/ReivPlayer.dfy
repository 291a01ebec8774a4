/** The REIV file on disk and the player that reads it back, testdir/.view/reiv.backend.inc. */
module ReivPlayer {
  import opened Bytes
  import opened PackBits
  import opened PackBitsEncoders
  import opened Reiv

  const MAGIC: u32 := 0x52455600
  const MAX_INDEX: nat := 8 * 1024 * 1024

  // ----- writing -----

  function Le16(n: nat): (r: seq<byte>)
    requires n < 65536
    ensures |r| == 2
  {
    [n % 256, n / 256]
  }

  function FromLe16(s: seq<byte>): nat
    requires |s| == 2
  {
    s[0] as nat + 256 * s[1] as nat
  }

  /** `create_reiv_header`: 28 bytes, with the index straight after it. */
  function HeaderBytes(w: nat, h: nat, flags: byte, count: u32, fps: u32): (r: seq<byte>)
    requires w < 65536 && h < 65536
    ensures |r| == 28
  {
    Le32(MAGIC) + Le16(w) + Le16(h) + [1, flags] + Le16(3) + Le32(count) + Le32(fps) + Le32(1) + Le32(28)
  }

  function EntryBytes(e: Entry): (r: seq<byte>)
    requires Packs(e)
    ensures |r| == 12
  {
    Le32(e.offset) + Le32(e.size) + Le32(e.flags)
  }

  /** The fields fit the 32 bits `struct.pack` has for them. */
  predicate Packs(e: Entry) {
    e.offset < 0x1_0000_0000 && e.size < 0x1_0000_0000
  }

  /** The first `n` entries of the index table. */
  function IndexBytes(es: seq<Entry>, n: nat): (r: seq<byte>)
    requires n <= |es| && AllPack(es)
    ensures |r| == 12 * n
  {
    if n == 0 then [] else IndexBytes(es, n - 1) + EntryBytes(es[n - 1])
  }

  predicate AllPack(es: seq<Entry>) {
    forall k :: 0 <= k < |es| ==> Packs(es[k])
  }

  /** Header, index and payloads; nothing when a field does not fit. */
  function FileBytes(w: nat, h: nat, flags: byte, fps: int, index: seq<Entry>, payload: seq<byte>): Option<seq<byte>> {
    if w < 65536 && h < 65536 && 0 <= fps < 0x1_0000_0000 && |index| < 0x1_0000_0000 && AllPack(index)
    then Some(HeaderBytes(w, h, flags, |index|, fps) + IndexBytes(index, |index|) + payload)
    else None
  }

  // ----- opening -----

  datatype Clip = Clip(data: seq<byte>, raw: bool, count: nat, index: seq<Entry>, base: nat, size: nat, loop: bool)

  function Word(data: seq<byte>, at: nat): u32
    requires at + 4 <= |data|
  {
    FromLe32(data[at..at + 4])
  }

  function ReadEntry(data: seq<byte>, at: nat): Entry
    requires at + 12 <= |data|
  {
    Entry(Word(data, at), Word(data, at + 4), Word(data, at + 8))
  }

  /** `reiv_open_and_prepare_stream`: the header checks, then the index. Version 1 has none. */
  function OpenClip(data: seq<byte>): (r: Option<Clip>)
    ensures r.Some? ==> ClipOk(r.value)
  {
    if |data| < 28 then None
    else
      var w, h := FromLe16(data[4..6]), FromLe16(data[6..8]);
      var version, count, start := FromLe16(data[10..12]), Word(data, 12), Word(data, 24);
      if Word(data, 0) != MAGIC || !(1 <= version <= 3) || w == 0 || h == 0 || w > 640 || h > 480
        || data[8] != 1 || count == 0 || start < 28 || start > |data| then None
      else if version == 1 then Some(Clip(data, true, count, [], start, w * h * 2, data[9] % 2 == 1))
      else if 12 * count > MAX_INDEX || start + 12 * count > |data| then None
      else
        var index := seq(count, k requires 0 <= k < count => ReadEntry(data, start + 12 * k));
        Some(Clip(data, false, count, index, start + 12 * count, w * h * 2, data[9] % 2 == 1))
  }

  predicate ClipOk(v: Clip) {
    v.count > 0 && (v.raw || |v.index| == v.count)
  }

  // ----- playing -----

  /** Where the player is: file offset, next frame, payload offset (32 bits), last frame shown. */
  datatype Cursor = Cursor(pos: nat, next: nat, off: nat, prev: Frame)

  datatype Shown = Shown(cur: Cursor, frame: Frame) | Ended | Broken

  function Start(v: Clip): Cursor {
    Cursor(v.base, 0, 0, seq(v.size, i => 0))
  }

  /** One frame. Entries may leave gaps but never go back. */
  function Advance(v: Clip, c: Cursor): Shown
    requires ClipOk(v)
  {
    if c.next >= v.count then (if v.loop then ShowNext(v, Start(v)) else Ended)
    else ShowNext(v, c)
  }

  function ShowNext(v: Clip, c: Cursor): Shown
    requires ClipOk(v) && c.next < v.count
  {
    if v.raw then
      if c.pos + v.size > |v.data| then Broken
      else
        var f := v.data[c.pos..c.pos + v.size];
        Shown(Cursor(c.pos + v.size, c.next + 1, (c.off + v.size) % 0x1_0000_0000, f), f)
    else
      var e := v.index[c.next];
      if e.offset < c.off then Broken
      else
        var at := c.pos + (e.offset - c.off);
        if at + e.size > |v.data| then Broken
        else
          var f := DecodeFrame(c.prev, Coded(v.data[at..at + e.size], e.flags));
          if f.None? || |f.value| != |c.prev| then Broken
          else Shown(Cursor(at + e.size, c.next + 1, (e.offset + e.size) % 0x1_0000_0000, f.value), f.value)
  }

  class Player {
    const v: Clip
    var pos: nat
    var next: nat
    var off: nat
    const frame: array<byte>
    const prev: array<byte>
    const delta: array<byte>

    ghost predicate Valid()
      reads this
    {
      && ClipOk(v) && frame.Length == prev.Length == delta.Length == v.size
      && frame != prev && frame != delta && prev != delta
    }

    ghost function State(): Cursor
      reads this, prev
    {
      Cursor(pos, next, off, prev[..])
    }

    constructor (v: Clip)
      requires ClipOk(v)
      ensures Valid() && this.v == v && State() == Start(v)
      ensures fresh(frame) && fresh(prev) && fresh(delta)
    {
      this.v := v;
      pos, next, off := v.base, 0, 0;
      frame := new byte[v.size](_ => 0);
      prev := new byte[v.size](_ => 0);
      delta := new byte[v.size](_ => 0);
    }

    /** `reiv_rewind`, on a file that can be seeked. */
    method Rewind()
      requires Valid()
      modifies this, prev
      ensures Valid() && State() == Start(v)
    {
      pos, next, off := v.base, 0, 0;
      forall i | 0 <= i < prev.Length { prev[i] := 0; }
    }

    /** `reiv_decode_next`: 0 with a new frame, 1 at the end of a clip that does not loop, -1
        for a broken file. */
    method DecodeNext() returns (code: int)
      requires Valid()
      modifies this, frame, prev, delta
      ensures Valid()
      ensures match Advance(v, old(State()))
        case Shown(c, f) => code == 0 && State() == c && frame[..] == f
        case Ended => code == 1 && State() == old(State())
        case Broken => code == -1
    {
      if next >= v.count {
        if !v.loop { return 1; }
        Rewind();
      }
      code := ShowOne();
    }

    method ShowOne() returns (code: int)
      requires Valid() && next < v.count
      modifies this, frame, prev, delta
      ensures Valid()
      ensures match ShowNext(v, old(State()))
        case Shown(c, f) => code == 0 && State() == c && frame[..] == f
        case Ended => false
        case Broken => code == -1
    {
      if v.raw { code := ShowRaw(); } else { code := ShowStored(); }
    }

    /** A raw clip: the next frame's bytes as they are. */
    method ShowRaw() returns (code: int)
      requires Valid() && next < v.count && v.raw
      modifies this, frame, prev
      ensures Valid()
      ensures match ShowNext(v, old(State()))
        case Shown(c, f) => code == 0 && State() == c && frame[..] == f
        case Ended => false
        case Broken => code == -1
    {
      if pos + v.size > |v.data| { return -1; }
      Fill(frame, v.data[pos..pos + v.size]);
      Fill(prev, frame[..]);
      pos, next, off := pos + v.size, next + 1, (off + v.size) % 0x1_0000_0000;
      return 0;
    }

    /** An indexed clip: seek to the payload and decode it. */
    method ShowStored() returns (code: int)
      requires Valid() && next < v.count && !v.raw
      modifies this, frame, prev, delta
      ensures Valid()
      ensures match ShowNext(v, old(State()))
        case Shown(c, f) => code == 0 && State() == c && frame[..] == f
        case Ended => false
        case Broken => code == -1
    {
      var e := v.index[next];
      if e.offset < off { return -1; }
      pos := pos + (e.offset - off);
      if pos + e.size > |v.data| { return -1; }
      var payload := v.data[pos..pos + e.size];
      var ok := DecodePayload(payload, e.flags);
      if !ok { return -1; }
      Fill(prev, frame[..]);
      pos, next, off := pos + e.size, next + 1, (e.offset + e.size) % 0x1_0000_0000;
      return 0;
    }

    /** One payload into `frame`: delta, packed pixels or raw. */
    method DecodePayload(payload: seq<byte>, flags: u32) returns (ok: bool)
      requires Valid()
      modifies frame, delta
      ensures var f := DecodeFrame(prev[..], Coded(payload, flags));
        ok == (f.Some? && |f.value| == prev.Length) && (ok ==> frame[..] == f.value)
    {
      if Has(flags, DELTA) {
        if Has(flags, RLE8) {
          ok := RleDecode(payload, delta, 1);
          if !ok { return false; }
        } else {
          if |payload| != delta.Length { return false; }
          Fill(delta, payload);
        }
        XorInto();
        return true;
      }
      if Has(flags, RLE565) {
        ok := RleDecode(payload, frame, 2);
        return ok;
      }
      if |payload| != frame.Length { return false; }
      Fill(frame, payload);
      return true;
    }

    method XorInto()
      requires Valid()
      modifies frame
      ensures frame[..] == Xor(prev[..], delta[..])
    {
      for i := 0 to frame.Length
        invariant forall j :: 0 <= j < i ==> frame[j] == XorByte(prev[j], delta[j])
      {
        frame[i] := XorByte(prev[i], delta[i]);
      }
    }
  }

  method Fill(a: array<byte>, bytes: seq<byte>)
    requires a.Length == |bytes|
    modifies a
    ensures a[..] == bytes
  {
    forall i | 0 <= i < a.Length { a[i] := bytes[i]; }
  }

  // ----- a converted file opens as it was written -----

  lemma Le16RoundTrip(n: nat)
    requires n < 65536
    ensures FromLe16(Le16(n)) == n
  {
  }

  lemma {:induction false} HeaderReads(data: seq<byte>, w: nat, h: nat, flags: byte, count: u32, fps: u32)
    requires w < 65536 && h < 65536 && |data| >= 28 && data[..28] == HeaderBytes(w, h, flags, count, fps)
    ensures Word(data, 0) == MAGIC && FromLe16(data[4..6]) == w && FromLe16(data[6..8]) == h
    ensures data[8] == 1 && data[9] == flags && FromLe16(data[10..12]) == 3
    ensures Word(data, 12) == count && Word(data, 24) == 28
  {
    var b := data[..28];
    assert data[0..4] == b[0..4] == Le32(MAGIC);
    assert data[4..6] == b[4..6] == Le16(w);
    assert data[6..8] == b[6..8] == Le16(h);
    assert data[8] == b[8] && data[9] == b[9];
    assert data[10..12] == b[10..12] == Le16(3);
    assert data[12..16] == b[12..16] == Le32(count);
    assert data[24..28] == b[24..28] == Le32(28);
    Le32RoundTrip(MAGIC);
    Le32RoundTrip(count);
    Le32RoundTrip(28);
    Le16RoundTrip(w);
    Le16RoundTrip(h);
  }

  lemma {:induction false} SliceOfFront(a: seq<byte>, b: seq<byte>, i: nat, j: nat)
    requires i <= j <= |a|
    ensures (a + b)[i..j] == a[i..j]
  {
  }

  lemma {:induction false} IndexAt(es: seq<Entry>, k: nat, n: nat)
    requires k < n <= |es| && AllPack(es)
    ensures IndexBytes(es, n)[12 * k..12 * k + 12] == EntryBytes(es[k])
  {
    if k + 1 < n {
      IndexAt(es, k, n - 1);
      SliceOfFront(IndexBytes(es, n - 1), EntryBytes(es[n - 1]), 12 * k, 12 * k + 12);
    }
  }

  lemma {:induction false} EntryReads(data: seq<byte>, at: nat, e: Entry)
    requires Packs(e) && at + 12 <= |data| && data[at..at + 12] == EntryBytes(e)
    ensures ReadEntry(data, at) == e
  {
    var b := EntryBytes(e);
    assert b[0..0 + 4] == Le32(e.offset) && b[4..4 + 4] == Le32(e.size) && b[8..8 + 4] == Le32(e.flags);
    SubSlice(data, at, 12, 0, 4);
    SubSlice(data, at, 12, 4, 4);
    SubSlice(data, at, 12, 8, 4);
    Le32RoundTrip(e.offset);
    Le32RoundTrip(e.size);
    Le32RoundTrip(e.flags);
  }

  lemma {:induction false} SubSlice(s: seq<byte>, a: nat, len: nat, i: nat, m: nat)
    requires a + len <= |s| && i + m <= len
    ensures s[a..a + len][i..i + m] == s[a + i..a + i + m]
  {
    var x, y := s[a..a + len][i..i + m], s[a + i..a + i + m];
    forall j | 0 <= j < m ensures x[j] == y[j] {
      assert s[a..a + len][i + j] == s[a + i + j];
    }
  }

  lemma {:induction false} IndexReads(data: seq<byte>, at: nat, es: seq<Entry>, k: nat)
    requires k < |es| && AllPack(es) && at + 12 * |es| <= |data|
    requires data[at..at + 12 * |es|] == IndexBytes(es, |es|)
    ensures ReadEntry(data, at + 12 * k) == es[k]
  {
    IndexAt(es, k, |es|);
    var i, len := 12 * k, 12 * |es|;
    SubSlice(data, at, len, i, 12);
    EntryReads(data, at + i, es[k]);
  }

  /** What the player takes: pictures up to 640 by 480, at least one frame, 8 MiB of index. */
  predicate Playable(w: nat, h: nat, index: seq<Entry>) {
    0 < w <= 640 && 0 < h <= 480 && index != [] && 12 * |index| <= MAX_INDEX
  }

  function WrittenClip(file: seq<byte>, w: nat, h: nat, flags: byte, index: seq<Entry>): Clip {
    Clip(file, false, |index|, index, 28 + 12 * |index|, w * h * 2, flags % 2 == 1)
  }

  /** Of the files the converter can write and a volume can hold, the player opens exactly the
      playable ones, with the same index and payloads. */
  lemma {:induction false} OpensAsWritten(
    w: nat, h: nat, flags: byte, fps: int, index: seq<Entry>, payload: seq<byte>, file: seq<byte>)
    requires FileBytes(w, h, flags, fps, index, payload) == Some(file)
    ensures |file| < 0x1_0000_0000 ==> (OpenClip(file).Some? <==> Playable(w, h, index))
    ensures Playable(w, h, index) ==> OpenClip(file) == Some(WrittenClip(file, w, h, flags, index))
    ensures 28 + 12 * |index| <= |file| && file[28 + 12 * |index|..] == payload && AllPack(index)
  {
    var head, body := HeaderBytes(w, h, flags, |index|, fps), IndexBytes(index, |index|);
    Parts(head, body, payload, file);
    HeaderReads(file, w, h, flags, |index|, fps);
    if Playable(w, h, index) {
      TableReads(file, index);
      OpensWith(file, w, h, flags, index);
    }
  }

  lemma {:induction false} OpensWith(file: seq<byte>, w: nat, h: nat, flags: byte, index: seq<Entry>)
    requires |file| >= 28 + 12 * |index| && Playable(w, h, index)
    requires Word(file, 0) == MAGIC && FromLe16(file[4..6]) == w && FromLe16(file[6..8]) == h
    requires file[8] == 1 && file[9] == flags && FromLe16(file[10..12]) == 3
    requires Word(file, 12) == |index| && Word(file, 24) == 28
    requires seq(|index|, k requires 0 <= k < |index| => ReadEntry(file, 28 + 12 * k)) == index
    ensures OpenClip(file) == Some(WrittenClip(file, w, h, flags, index))
  {
  }

  lemma Parts(head: seq<byte>, body: seq<byte>, payload: seq<byte>, file: seq<byte>)
    requires file == head + body + payload
    ensures var b := |head| + |body|;
      b <= |file| && file[..|head|] == head && file[|head|..b] == body && file[b..] == payload
  {
  }

  lemma {:induction false} TableReads(file: seq<byte>, index: seq<Entry>)
    requires AllPack(index) && 28 + 12 * |index| <= |file| && file[28..28 + 12 * |index|] == IndexBytes(index, |index|)
    ensures seq(|index|, k requires 0 <= k < |index| => ReadEntry(file, 28 + 12 * k)) == index
  {
    forall k | 0 <= k < |index| ensures ReadEntry(file, 28 + 12 * k) == index[k] {
      IndexReads(file, 28, index, k);
    }
  }

  // ----- playback -----

  ghost predicate DecodesAt(ks: seq<Coded>, fs: seq<Frame>, size: nat, k: int, prev: Frame)
    requires |ks| == |fs|
  {
    0 <= k < |fs| && |prev| == size && (k > 0 ==> prev == fs[k - 1]) ==>
      |fs[k]| == size && DecodeFrame(prev, ks[k]) == Some(fs[k])
  }

  /** Payload `k` decodes to frame `k` over frame `k - 1`, the first one over anything. */
  ghost predicate Faithful(ks: seq<Coded>, fs: seq<Frame>, size: nat) {
    |ks| == |fs| && forall k, prev {:trigger DecodesAt(ks, fs, size, k, prev)} :: DecodesAt(ks, fs, size, k, prev)
  }

  lemma {:induction false} ChosenFaithful(fs: seq<Frame>, size: nat, keyint: nat, ks: seq<Coded>)
    requires Frames(fs, size) && keyint > 0 && size % 2 == 0 && ks == AllChosen(fs, size, keyint)
    ensures Faithful(ks, fs, size)
  {
    forall k, prev ensures DecodesAt(ks, fs, size, k, prev) {
      if 0 <= k < |fs| && |prev| == size && (k > 0 ==> prev == fs[k - 1]) {
        if k == 0 { ModIs(0, 0, 0, keyint); }
        ChosenDecodes(fs, size, k, keyint, prev);
      }
    }
  }

  /** The clip holds these payloads. */
  ghost predicate Holds(v: Clip, ks: seq<Coded>) {
    && !v.raw && v.count == |ks| > 0 && v.index == Index(ks) && |v.index| == |ks|
    && v.base <= |v.data| && v.data[v.base..] == Region(ks)
    && AllPack(v.index)
  }

  /** The player has shown frames up to `next`. */
  ghost predicate Played(v: Clip, ks: seq<Coded>, fs: seq<Frame>, c: Cursor) {
    && |ks| == |fs| && c.next <= |fs| && |c.prev| == v.size && (c.next > 0 ==> c.prev == fs[c.next - 1])
    && c.pos == v.base + Offset(ks, c.next) && c.off == Offset(ks, c.next) % 0x1_0000_0000
  }

  /** The player stands where the payload of the next frame starts. */
  lemma {:induction false} Locates(v: Clip, ks: seq<Coded>, fs: seq<Frame>, c: Cursor)
    requires Holds(v, ks) && Played(v, ks, fs, c) && c.next < |ks|
    ensures var e := v.index[c.next];
      && c.off == e.offset && c.pos + e.size <= |v.data|
      && v.data[c.pos..c.pos + e.size] == ks[c.next].bytes && e.flags == ks[c.next].flags
      && e.offset + e.size == Offset(ks, c.next + 1) && c.pos == v.base + e.offset
  {
    assert AllPack(v.index) && Packs(v.index[c.next]);
    var e, region := v.index[c.next], v.data[v.base..];
    IndexFinds(ks, c.next, |ks|);
    SubSlice(v.data, v.base, |region|, e.offset, e.size);
    assert v.data[v.base..v.base + |region|] == region;
  }

  lemma {:induction false} Shows(v: Clip, c: Cursor, e: Entry, k: Coded, f: Frame)
    requires ClipOk(v) && !v.raw && c.next < v.count && e == v.index[c.next]
    requires c.off == e.offset && c.pos + e.size <= |v.data| && |f| == |c.prev|
    requires v.data[c.pos..c.pos + e.size] == k.bytes && e.flags == k.flags && DecodeFrame(c.prev, k) == Some(f)
    ensures ShowNext(v, c) == Shown(Cursor(c.pos + e.size, c.next + 1, (e.offset + e.size) % 0x1_0000_0000, f), f)
  {
    var bytes := v.data[c.pos..c.pos + e.size];
    assert bytes == k.bytes;
    assert Coded(bytes, e.flags) == Coded(k.bytes, k.flags) == k;
  }

  /** The next frame shown is the next frame stored. */
  lemma {:induction false} ShowsNext(v: Clip, ks: seq<Coded>, fs: seq<Frame>, c: Cursor) returns (c1: Cursor)
    requires Holds(v, ks) && Faithful(ks, fs, v.size) && Played(v, ks, fs, c) && c.next < |fs|
    ensures ShowNext(v, c) == Shown(c1, fs[c.next])
    ensures c1.next == c.next + 1 && Played(v, ks, fs, c1)
  {
    var e, f := v.index[c.next], fs[c.next];
    assert DecodesAt(ks, fs, v.size, c.next, c.prev);
    Locates(v, ks, fs, c);
    Shows(v, c, e, ks[c.next], f);
    c1 := Cursor(c.pos + e.size, c.next + 1, (e.offset + e.size) % 0x1_0000_0000, f);
  }

  /** What `n` calls in a row show. */
  function Watch(v: Clip, c: Cursor, n: nat): Option<seq<Frame>>
    requires ClipOk(v)
    decreases n
  {
    if n == 0 then Some([])
    else
      var a := Advance(v, c);
      if !a.Shown? then None
      else
        var rest := Watch(v, a.cur, n - 1);
        if rest.Some? then Some([a.frame] + rest.value) else None
  }

  /** Open the file and show every frame once. */
  function PlayAll(file: seq<byte>): Option<seq<Frame>> {
    var v := OpenClip(file);
    if v.Some? then Watch(v.value, Start(v.value), v.value.count) else None
  }

  lemma PlayOpened(file: seq<byte>, v: Clip)
    requires OpenClip(file) == Some(v)
    ensures PlayAll(file) == Watch(v, Start(v), v.count)
  {
  }

  lemma {:induction false} WatchStep(v: Clip, c: Cursor, n: nat, c0: Cursor, c1: Cursor, f: Frame)
    requires ClipOk(v) && n > 0 && c0.next < v.count && ShowNext(v, c0) == Shown(c1, f)
    requires c0 == (if c.next >= v.count then Start(v) else c) && (c.next >= v.count ==> v.loop)
    ensures Watch(v, c, n) == var rest := Watch(v, c1, n - 1); if rest.Some? then Some([f] + rest.value) else None
  {
  }

  /** A looping clip plays the frames round and round, as long as one cares to watch. */
  lemma {:induction false} PlaysRound(v: Clip, ks: seq<Coded>, fs: seq<Frame>, c: Cursor, n: nat)
    requires Holds(v, ks) && Faithful(ks, fs, v.size) && Played(v, ks, fs, c) && v.loop
    ensures Watch(v, c, n).Some? && Cycles(Watch(v, c, n).value, n, fs, c.next)
    decreases n
  {
    if n > 0 {
      var c0 := if c.next == |fs| then Start(v) else c;
      Starts(v, ks, fs);
      var c1 := ShowsNext(v, ks, fs, c0);
      PlaysRound(v, ks, fs, c1, n - 1);
      RoundStep(v, fs, c, n, c0, c1);
    }
  }

  lemma {:induction false} RoundStep(v: Clip, fs: seq<Frame>, c: Cursor, n: nat, c0: Cursor, c1: Cursor)
    requires ClipOk(v) && n > 0 && c0.next < v.count == |fs| && c.next <= |fs| && v.loop
    requires ShowNext(v, c0) == Shown(c1, fs[c0.next]) && c0 == (if c.next >= v.count then Start(v) else c)
    requires Watch(v, c1, n - 1).Some? && Cycles(Watch(v, c1, n - 1).value, n - 1, fs, c0.next + 1)
    ensures Watch(v, c, n).Some? && Cycles(Watch(v, c, n).value, n, fs, c.next)
  {
    WatchStep(v, c, n, c0, c1, fs[c0.next]);
    Around(fs, c.next, c0.next, n, Watch(v, c1, n - 1).value);
  }

  /** `n` frames from number `next` on, round and round. */
  predicate Cycles(shown: seq<Frame>, n: nat, fs: seq<Frame>, next: nat) {
    |shown| == n && |fs| > 0 && forall i :: 0 <= i < n ==> shown[i] == fs[(next + i) % |fs|]
  }

  lemma {:induction false} Around(fs: seq<Frame>, next: nat, from: nat, n: nat, rest: seq<Frame>)
    requires 0 < |fs| && next <= |fs| && from == (if next == |fs| then 0 else next) && n > 0
    requires Cycles(rest, n - 1, fs, from + 1)
    ensures Cycles([fs[from]] + rest, n, fs, next)
  {
    forall i | 0 <= i < n ensures ([fs[from]] + rest)[i] == fs[(next + i) % |fs|] {
      SameIndex(next, from, i, |fs|);
      if i == 0 {
        ModIs(from, 0, from, |fs|);
      } else {
        assert ([fs[from]] + rest)[i] == rest[i - 1];
        assert from + 1 + (i - 1) == from + i;
      }
    }
  }

  lemma {:induction false} Starts(v: Clip, ks: seq<Coded>, fs: seq<Frame>)
    requires |ks| == |fs|
    ensures Played(v, ks, fs, Start(v))
  {
  }

  lemma SameIndex(a: nat, b: nat, i: nat, n: nat)
    requires n > 0 && a <= n && b == if a == n then 0 else a
    ensures (a + i) % n == (b + i) % n
  {
    if a == n {
      ModIs(n + i, i / n + 1, i % n, n);
    }
  }

  /** From anywhere, the frames still to come are shown once, in order. */
  lemma {:induction false} PlaysOnce(v: Clip, ks: seq<Coded>, fs: seq<Frame>, c: Cursor)
    requires Holds(v, ks) && Faithful(ks, fs, v.size) && Played(v, ks, fs, c)
    ensures Watch(v, c, |fs| - c.next) == Some(fs[c.next..])
    decreases |fs| - c.next
  {
    if c.next < |fs| {
      var c1 := ShowsNext(v, ks, fs, c);
      PlaysOnce(v, ks, fs, c1);
      OnceStep(v, fs, c, c1);
    } else {
      assert fs[c.next..] == [];
    }
  }

  lemma {:induction false} OnceStep(v: Clip, fs: seq<Frame>, c: Cursor, c1: Cursor)
    requires ClipOk(v) && c.next < v.count == |fs| && c1.next == c.next + 1 && ShowNext(v, c) == Shown(c1, fs[c.next])
    requires Watch(v, c1, |fs| - c1.next) == Some(fs[c1.next..])
    ensures Watch(v, c, |fs| - c.next) == Some(fs[c.next..])
  {
    HeadFirst(fs, c.next);
    WatchStep(v, c, |fs| - c.next, c, c1, fs[c.next]);
  }

  lemma {:induction false} HeadFirst(fs: seq<Frame>, i: nat)
    requires i < |fs|
    ensures fs[i..] == [fs[i]] + fs[i + 1..]
  {
  }

  /** The answer of the call after `n` frames have been shown, or of the first call that shows none. */
  function AnswerAfter(v: Clip, c: Cursor, n: nat): Shown
    requires ClipOk(v)
    decreases n
  {
    var a := Advance(v, c);
    if n == 0 || !a.Shown? then a else AnswerAfter(v, a.cur, n - 1)
  }

  /** A clip that does not loop shows its remaining frames and then reports its end. */
  lemma {:induction false} ThenEnds(v: Clip, ks: seq<Coded>, fs: seq<Frame>, c: Cursor)
    requires Holds(v, ks) && Faithful(ks, fs, v.size) && Played(v, ks, fs, c) && !v.loop
    ensures AnswerAfter(v, c, |fs| - c.next) == Ended
    ensures Watch(v, c, |fs| - c.next) == Some(fs[c.next..])
  {
    PlaysOnce(v, ks, fs, c);
    EndComes(v, ks, fs, c);
  }

  lemma {:induction false} EndComes(v: Clip, ks: seq<Coded>, fs: seq<Frame>, c: Cursor)
    requires Holds(v, ks) && Faithful(ks, fs, v.size) && Played(v, ks, fs, c) && !v.loop
    ensures AnswerAfter(v, c, |fs| - c.next) == Ended
    decreases |fs| - c.next
  {
    if c.next < |fs| {
      var c1 := ShowsNext(v, ks, fs, c);
      EndComes(v, ks, fs, c1);
      AnswerLater(v, c, |fs| - c.next, c1, fs[c.next]);
    }
  }

  lemma {:induction false} AnswerLater(v: Clip, c: Cursor, n: nat, c1: Cursor, f: Frame)
    requires ClipOk(v) && n > 0 && c.next < v.count && ShowNext(v, c) == Shown(c1, f)
    ensures AnswerAfter(v, c, n) == AnswerAfter(v, c1, n - 1)
  {
  }

  /** From the pixel stream to the screen: a stream of whole frames, converted, written, opened
      and played, shows exactly its frames. */
  lemma {:induction false} ConvertThenPlay(
    stream: seq<byte>, w: nat, h: nat, flags: byte, fps: int, index: seq<Entry>, payload: seq<byte>,
    file: seq<byte>)
    requires 0 < w <= 640 && 0 < h <= 480 && stream != [] && |stream| % (w * h * 2) == 0
    requires Converted(Cut(stream, w * h * 2), w * h * 2, KeyInterval(fps), index, payload)
    requires FileBytes(w, h, flags, fps, index, payload) == Some(file) && 12 * |index| <= MAX_INDEX
    ensures PlayAll(file) == Some(Cut(stream, w * h * 2))
    ensures Flat(Cut(stream, w * h * 2)) == stream
  {
    var size := w * h * 2;
    var fs := Cut(stream, size);
    CutFlat(stream, size);
    ConvertedPlays(fs, w, h, flags, fps, index, payload, file);
  }

  lemma {:induction false} ConvertedPlays(
    fs: seq<Frame>, w: nat, h: nat, flags: byte, fps: int, index: seq<Entry>, payload: seq<byte>,
    file: seq<byte>)
    requires 0 < w <= 640 && 0 < h <= 480 && fs != [] && Converted(fs, w * h * 2, KeyInterval(fps), index, payload)
    requires FileBytes(w, h, flags, fps, index, payload) == Some(file) && 12 * |index| <= MAX_INDEX
    ensures PlayAll(file) == Some(fs)
  {
    Even(w, h);
    var ks := StoredForms(fs, w * h * 2, KeyInterval(fps), index, payload);
    FilePlays(ks, fs, w, h, flags, fps, index, payload, file);
  }

  lemma Even(w: nat, h: nat)
    ensures w * h * 2 % 2 == 0
  {
  }

  lemma {:induction false} StoredForms(fs: seq<Frame>, size: nat, keyint: nat, index: seq<Entry>, payload: seq<byte>)
    returns (ks: seq<Coded>)
    requires Converted(fs, size, keyint, index, payload) && size % 2 == 0
    ensures Faithful(ks, fs, size) && index == Index(ks) && payload == Region(ks)
  {
    ks := AllChosen(fs, size, keyint);
    ChosenFaithful(fs, size, keyint, ks);
  }

  lemma {:induction false} FilePlays(
    ks: seq<Coded>, fs: seq<Frame>, w: nat, h: nat, flags: byte, fps: int, index: seq<Entry>,
    payload: seq<byte>, file: seq<byte>)
    requires 0 < w <= 640 && 0 < h <= 480 && fs != [] && Faithful(ks, fs, w * h * 2) && index == Index(ks) &&
      payload == Region(ks)
    requires FileBytes(w, h, flags, fps, index, payload) == Some(file) && 12 * |index| <= MAX_INDEX
    ensures PlayAll(file) == Some(fs)
  {
    OpensAsWritten(w, h, flags, fps, index, payload, file);
    OpenedPlays(WrittenClip(file, w, h, flags, index), ks, fs, file);
  }

  lemma {:induction false} OpenedPlays(v: Clip, ks: seq<Coded>, fs: seq<Frame>, file: seq<byte>)
    requires OpenClip(file) == Some(v) && Holds(v, ks) && Faithful(ks, fs, v.size)
    ensures PlayAll(file) == Some(fs)
  {
    var c := Start(v);
    PlayOpened(file, v);
    Starts(v, ks, fs);
    PlaysOnce(v, ks, fs, c);
    FromStart(v, fs, c);
  }

  lemma {:induction false} FromStart(v: Clip, fs: seq<Frame>, c: Cursor)
    requires ClipOk(v) && c.next == 0 && |fs| == v.count && Watch(v, c, |fs| - c.next) == Some(fs[c.next..])
    ensures Watch(v, c, v.count) == Some(fs)
  {
  }
}
