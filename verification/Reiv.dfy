/** The REIV video container: how devtools/png_to_rei.py chooses a form for every frame, and how
    a reader gets the frames back. */
module Reiv {
  import opened Bytes
  import opened PackBits
  import opened PackBitsEncoders

  type Frame = seq<byte>

  // ----- exclusive or -----

  function XorBits(a: nat, b: nat, w: nat): nat {
    if w == 0 then 0 else (a % 2 + b % 2) % 2 + 2 * XorBits(a / 2, b / 2, w - 1)
  }

  lemma {:induction false} XorFits(a: nat, b: nat, w: nat)
    ensures XorBits(a, b, w) < Pow2(w)
  {
    if w > 0 { XorFits(a / 2, b / 2, w - 1); }
  }

  lemma {:induction false} XorTwice(a: nat, b: nat, w: nat)
    requires b < Pow2(w)
    ensures XorBits(a, XorBits(a, b, w), w) == b
  {
    if w > 0 {
      var rest := XorBits(a / 2, b / 2, w - 1);
      XorTwice(a / 2, b / 2, w - 1);
      LowBit(a, b, rest);
    }
  }

  lemma {:induction false} LowBit(a: nat, b: nat, rest: nat)
    ensures var x := (a % 2 + b % 2) % 2 + 2 * rest;
      x / 2 == rest && (a % 2 + x % 2) % 2 + 2 * (b / 2) == b
  {
    var bit := (a % 2 + b % 2) % 2;
    assert (bit + 2 * rest) % 2 == bit;
  }

  function XorByte(a: byte, b: byte): byte {
    XorFits(a, b, 8);
    assert Pow2(8) == 256;
    XorBits(a, b, 8)
  }

  lemma XorByteTwice(a: byte, b: byte)
    ensures XorByte(a, XorByte(a, b)) == b
  {
    assert Pow2(8) == 256;
    XorTwice(a, b, 8);
  }

  /** Byte by byte; frames are equally long. */
  function Xor(a: Frame, b: Frame): (r: Frame)
    requires |a| == |b|
    ensures |r| == |a|
  {
    seq(|a|, i requires 0 <= i < |a| => XorByte(a[i], b[i]))
  }

  lemma {:induction false} DeltaUndone(prev: Frame, cur: Frame)
    requires |prev| == |cur|
    ensures Xor(prev, Xor(prev, cur)) == cur
  {
    forall i | 0 <= i < |cur| ensures Xor(prev, Xor(prev, cur))[i] == cur[i] {
      XorByteTwice(prev[i], cur[i]);
    }
  }

  // ----- one frame -----

  /** A payload with its index flags. */
  datatype Coded = Coded(bytes: seq<byte>, flags: u32)

  const RLE565: u32 := 1
  const RLE8: u32 := 2
  const DELTA: u32 := 4

  predicate Has(flags: u32, bit: u32)
    requires bit > 0
  {
    flags / bit % 2 == 1
  }

  /** A key frame: compressed if that is shorter, else raw. */
  function KeyForm(frame: Frame): Coded {
    var c := EncodedAs(frame, 2, 2);
    if |c| < |frame| then Coded(c, RLE565) else Coded(frame, 0)
  }

  /** A delta against the previous frame is taken if it saves a tenth, else a key frame. */
  function InterForm(prev: Frame, frame: Frame): Coded
    requires |prev| == |frame|
  {
    var delta := Xor(prev, frame);
    var c := EncodedAs(delta, 1, 2);
    if |c| < |delta| && |c| <= |delta| * 9 / 10 then Coded(c, DELTA + RLE8) else KeyForm(frame)
  }

  /** A reader's frame from a payload, given the frame before. */
  function DecodeFrame(prev: Frame, k: Coded): Option<Frame> {
    if Has(k.flags, DELTA) then
      var delta :=
        if Has(k.flags, RLE8) then Decode(k.bytes, |prev|, 1)
        else if |k.bytes| == |prev| then Some(k.bytes)
        else None;
      if delta.Some? && |delta.value| == |prev| then Some(Xor(prev, delta.value)) else None
    else if Has(k.flags, RLE565) then Decode(k.bytes, |prev|, 2)
    else if |k.bytes| == |prev| then Some(k.bytes)
    else None
  }

  predicate IsKey(k: Coded) {
    !Has(k.flags, DELTA)
  }

  /** A key frame decodes over anything. */
  lemma {:induction false} KeyDecodes(prev: Frame, frame: Frame)
    requires |prev| == |frame| && |frame| % 2 == 0
    ensures IsKey(KeyForm(frame)) && |KeyForm(frame).bytes| <= |frame|
    ensures DecodeFrame(prev, KeyForm(frame)) == Some(frame)
  {
    RoundTrip(frame, 2, 2);
    PixelsDecode(prev, frame, EncodedAs(frame, 2, 2));
  }

  lemma {:induction false} PixelsDecode(prev: Frame, frame: Frame, c: seq<byte>)
    requires |prev| == |frame| && Decode(c, |frame|, 2) == Some(frame)
    ensures DecodeFrame(prev, Coded(c, RLE565)) == Some(frame) && DecodeFrame(prev, Coded(frame, 0)) == Some(frame)
    ensures IsKey(Coded(c, RLE565)) && IsKey(Coded(frame, 0))
  {
  }

  lemma {:induction false} InterDecodes(prev: Frame, frame: Frame)
    requires |prev| == |frame| && |frame| % 2 == 0
    ensures |InterForm(prev, frame).bytes| <= |frame|
    ensures DecodeFrame(prev, InterForm(prev, frame)) == Some(frame)
  {
    var delta := Xor(prev, frame);
    KeyDecodes(prev, frame);
    assert |delta| % 1 == 0;
    RoundTrip(delta, 1, 2);
    DeltaDecodes(prev, frame, delta, EncodedAs(delta, 1, 2));
  }

  lemma {:induction false} DeltaDecodes(prev: Frame, frame: Frame, delta: Frame, c: seq<byte>)
    requires |prev| == |frame| && delta == Xor(prev, frame) && Decode(c, |delta|, 1) == Some(delta)
    ensures DecodeFrame(prev, Coded(c, DELTA + RLE8)) == Some(frame)
  {
    DeltaUndone(prev, frame);
  }

  // ----- the frame loop -----

  function KeyInterval(fps: int): (r: nat)
    ensures r > 0
  {
    if fps > 0 then fps else 30
  }

  predicate Frames(fs: seq<Frame>, size: nat) {
    forall k :: 0 <= k < |fs| ==> |fs[k]| == size
  }

  /** What the loop stores for frame `k`. */
  function Chosen(fs: seq<Frame>, size: nat, k: nat, keyint: nat): Coded
    requires Frames(fs, size) && k < |fs| && keyint > 0
  {
    if k % keyint == 0 then KeyForm(fs[k]) else InterForm(fs[k - 1], fs[k])
  }

  /** Decoding frame `k` after frame `k - 1`, or after anything where a key frame is due. */
  lemma {:induction false} ChosenDecodes(fs: seq<Frame>, size: nat, k: nat, keyint: nat, prev: Frame)
    requires Frames(fs, size) && k < |fs| && keyint > 0 && size % 2 == 0 && |prev| == size
    requires k % keyint == 0 || prev == fs[k - 1]
    ensures |Chosen(fs, size, k, keyint).bytes| <= size
    ensures DecodeFrame(prev, Chosen(fs, size, k, keyint)) == Some(fs[k])
    ensures k % keyint == 0 ==> IsKey(Chosen(fs, size, k, keyint))
  {
    if k % keyint == 0 {
      KeyDecodes(prev, fs[k]);
    } else {
      InterDecodes(prev, fs[k]);
    }
  }

  /** Decode frames `from`, ..., `upto - 1` in turn, starting over `prev`. */
  function DecodeRun(ks: seq<Coded>, from: nat, upto: nat, prev: Frame): Option<Frame>
    requires from <= upto <= |ks|
    decreases upto - from
  {
    if from == upto then Some(prev)
    else
      var f := DecodeFrame(prev, ks[from]);
      if f.Some? then DecodeRun(ks, from + 1, upto, f.value) else None
  }

  /** The payloads of all frames. */
  function AllChosen(fs: seq<Frame>, size: nat, keyint: nat): (ks: seq<Coded>)
    requires Frames(fs, size) && keyint > 0
    ensures |ks| == |fs| && forall k :: 0 <= k < |fs| ==> ks[k] == Chosen(fs, size, k, keyint)
  {
    seq(|fs|, k requires 0 <= k < |fs| => Chosen(fs, size, k, keyint))
  }

  /** From a key frame on, over whatever was shown before, decoding reproduces the frames. */
  lemma {:induction false} DecodesOn(fs: seq<Frame>, size: nat, keyint: nat, from: nat, upto: nat, prev: Frame)
    requires Frames(fs, size) && keyint > 0 && size % 2 == 0 && |prev| == size && from < upto <= |fs|
    requires from % keyint == 0 || prev == fs[from - 1]
    ensures DecodeRun(AllChosen(fs, size, keyint), from, upto, prev) == Some(fs[upto - 1])
    decreases upto - from
  {
    ChosenDecodes(fs, size, from, keyint, prev);
    if from + 1 < upto {
      DecodesOn(fs, size, keyint, from + 1, upto, fs[from]);
    }
  }

  /** Any frame is recovered, whatever was shown before, by decoding at most `keyint`
      consecutive frames that end with it. */
  lemma {:induction false} SeekCost(fs: seq<Frame>, size: nat, keyint: nat, k: nat, prev: Frame)
    requires Frames(fs, size) && keyint > 0 && size % 2 == 0 && |prev| == size && k < |fs|
    ensures var s := KeyBefore(k, keyint);
      IsKey(AllChosen(fs, size, keyint)[s]) && DecodeRun(AllChosen(fs, size, keyint), s, k + 1, prev) == Some(fs[k])
  {
    var s := KeyBefore(k, keyint);
    ChosenDecodes(fs, size, s, keyint, prev);
    DecodesOn(fs, size, keyint, s, k + 1, prev);
  }

  /** The last key frame due at or before `k`: less than `keyint` frames back. */
  function KeyBefore(k: nat, keyint: nat): (s: nat)
    requires keyint > 0
    ensures s <= k < s + keyint && s % keyint == 0
  {
    KeyBeforeOk(k, keyint);
    k - k % keyint
  }

  lemma KeyBeforeOk(k: nat, keyint: nat)
    requires keyint > 0
    ensures var s := k - k % keyint; 0 <= s <= k < s + keyint && s % keyint == 0
  {
    var q := k / keyint;
    assert k == q * keyint + k % keyint;
    ModIs(q * keyint, q, 0, keyint);
  }

  // ----- the index and the payload region -----

  datatype Entry = Entry(offset: nat, size: nat, flags: u32)

  /** The first `n` payloads, one after the other, and how many bytes they take. */
  function RegionTo(ks: seq<Coded>, n: nat): (r: seq<byte>)
    requires n <= |ks|
    ensures |r| == Offset(ks, n)
  {
    if n == 0 then [] else RegionTo(ks, n - 1) + ks[n - 1].bytes
  }

  function Offset(ks: seq<Coded>, n: nat): nat
    requires n <= |ks|
  {
    if n == 0 then 0 else Offset(ks, n - 1) + |ks[n - 1].bytes|
  }

  function Region(ks: seq<Coded>): seq<byte> {
    RegionTo(ks, |ks|)
  }

  /** Offsets are the running sums of the sizes. */
  function Index(ks: seq<Coded>): (es: seq<Entry>)
    ensures |es| == |ks|
  {
    seq(|ks|, k requires 0 <= k < |ks| => Entry(Offset(ks, k), |ks[k].bytes|, ks[k].flags))
  }

  /** Each entry cuts out its own payload, and entries follow one another without gap or overlap. */
  lemma {:induction false} IndexFinds(ks: seq<Coded>, k: nat, n: nat)
    requires k < n <= |ks|
    ensures var e := Index(ks)[k];
      && e.offset + e.size == Offset(ks, k + 1) <= Offset(ks, n)
      && RegionTo(ks, n)[e.offset..e.offset + e.size] == ks[k].bytes
  {
    var e := Index(ks)[k];
    if k + 1 < n {
      IndexFinds(ks, k, n - 1);
      assert RegionTo(ks, n)[e.offset..e.offset + e.size] == RegionTo(ks, n - 1)[e.offset..e.offset + e.size];
    }
  }

  /** Earlier offsets and payloads do not depend on later frames. */
  lemma {:induction false} RegionPrefix(ks: seq<Coded>, k: Coded, n: nat)
    requires n <= |ks|
    ensures RegionTo(ks + [k], n) == RegionTo(ks, n) && Offset(ks + [k], n) == Offset(ks, n)
  {
    if n > 0 { RegionPrefix(ks, k, n - 1); }
  }

  // ----- the conversion loop -----

  datatype Outcome = Video(index: seq<Entry>, payload: seq<byte>) | PartialFrame | NoFrames

  /** The index and the payload region are those of the frames. */
  ghost predicate Converted(fs: seq<Frame>, size: nat, keyint: nat, index: seq<Entry>, payload: seq<byte>) {
    && keyint > 0 && Frames(fs, size)
    && index == Index(AllChosen(fs, size, keyint)) && payload == Region(AllChosen(fs, size, keyint))
  }

  /** The loop of `convert_media_to_reiv` over the decoder's pixel stream. */
  method Convert(stream: seq<byte>, size: nat, fps: int) returns (r: Outcome)
    requires size > 0
    ensures |stream| % size != 0 ==> r == PartialFrame
    ensures stream == [] ==> r == NoFrames
    ensures stream != [] && |stream| % size == 0 ==>
      r.Video? && Converted(Cut(stream, size), size, KeyInterval(fps), r.index, r.payload)
  {
    var index: seq<Entry>, payload: seq<byte>, prev := [], [], None;
    var pos, keyint := 0, KeyInterval(fps);
    ghost var fs: seq<Frame> := [];
    while pos < |stream|
      invariant Consumed(stream, pos, fs, size)
      invariant prev == LastOf(fs) && Converted(fs, size, keyint, index, payload)
      decreases |stream| - pos
    {
      var frame := stream[pos..Min(pos + size, |stream|)];
      if |frame| != size {
        PartialLeft(|stream|, |fs|, size);
        return PartialFrame;
      }
      index, payload := Store(frame, size, keyint, prev, index, payload, fs);
      ConsumedMore(stream, pos, fs, size);
      prev := Some(frame);
      fs := fs + [frame];
      pos := pos + size;
    }
    AllConsumed(stream, pos, fs, size);
    if index == [] { return NoFrames; }
    return Video(index, payload);
  }

  function LastOf(fs: seq<Frame>): Option<Frame> {
    if fs == [] then None else Some(fs[|fs| - 1])
  }

  /** Choose a form for one frame, and append its payload and its index entry. */
  method Store(
    frame: Frame, size: nat, keyint: nat, prev: Option<Frame>, index: seq<Entry>, payload: seq<byte>,
    ghost fs: seq<Frame>)
      returns (index': seq<Entry>, payload': seq<byte>)
    requires |frame| == size && prev == LastOf(fs) && Converted(fs, size, keyint, index, payload)
    ensures Converted(fs + [frame], size, keyint, index', payload')
  {
    AddFrame(fs, frame, size, keyint, index, payload);
    var k := if prev.None? || |index| % keyint == 0 then KeyForm(frame) else InterForm(prev.value, frame);
    index' := index + [Entry(|payload|, |k.bytes|, k.flags)];
    payload' := payload + k.bytes;
  }

  /** `fs` are the frames in the first `pos` bytes. */
  ghost predicate Consumed(stream: seq<byte>, pos: nat, fs: seq<Frame>, size: nat)
    requires size > 0
  {
    && pos == Times(|fs|, size) <= |stream| && Frames(fs, size)
    && |fs| <= |Cut(stream, size)| && fs == Cut(stream, size)[..|fs|]
  }

  lemma {:induction false} ConsumedMore(stream: seq<byte>, pos: nat, fs: seq<Frame>, size: nat)
    requires size > 0 && Consumed(stream, pos, fs, size) && pos + size <= |stream|
    ensures Consumed(stream, pos + size, fs + [stream[pos..pos + size]], size)
  {
    UnitStarts(|stream|, size, |fs|);
    assert Cut(stream, size)[|fs|] == UnitAt(stream, size, |fs|);
  }

  lemma {:induction false} AllConsumed(stream: seq<byte>, pos: nat, fs: seq<Frame>, size: nat)
    requires size > 0 && Consumed(stream, pos, fs, size) && pos == |stream|
    ensures Cut(stream, size) == fs && |stream| % size == 0 && (stream == [] <==> fs == [])
  {
    UnitStarts(|stream|, size, |fs|);
    TimesIsProduct(|fs|, size);
    ModIs(pos, |fs|, 0, size);
  }

  lemma {:induction false} PartialLeft(len: nat, n: nat, size: nat)
    requires size > 0 && Times(n, size) < len < Times(n, size) + size
    ensures len % size != 0
  {
    TimesIsProduct(n, size);
    ModIs(len, n, len - n * size, size);
  }

  function LastForm(fs: seq<Frame>, f: Frame, size: nat, keyint: nat): Coded
    requires Frames(fs, size) && |f| == size && keyint > 0
  {
    if fs == [] || |fs| % keyint == 0 then KeyForm(f) else InterForm(fs[|fs| - 1], f)
  }

  /** A further frame leaves the choices for the earlier ones alone. */
  lemma {:induction false} AddFrame(
    fs: seq<Frame>, f: Frame, size: nat, keyint: nat, index: seq<Entry>, payload: seq<byte>)
    requires Converted(fs, size, keyint, index, payload) && |f| == size
    ensures var k := LastForm(fs, f, size, keyint);
      |index| == |fs| &&
        Converted(fs + [f], size, keyint, index + [Entry(|payload|, |k.bytes|, k.flags)], payload + k.bytes)
  {
    ChosenSnoc(fs, f, size, keyint);
    IndexSnoc(AllChosen(fs, size, keyint), LastForm(fs, f, size, keyint));
  }

  lemma {:induction false} ChosenSnoc(fs: seq<Frame>, f: Frame, size: nat, keyint: nat)
    requires Frames(fs, size) && |f| == size && keyint > 0
    ensures AllChosen(fs + [f], size, keyint) == AllChosen(fs, size, keyint) + [LastForm(fs, f, size, keyint)]
  {
  }

  lemma {:induction false} IndexSnoc(ks: seq<Coded>, k: Coded)
    ensures Region(ks + [k]) == Region(ks) + k.bytes
    ensures Index(ks + [k]) == Index(ks) + [Entry(|Region(ks)|, |k.bytes|, k.flags)]
  {
    RegionPrefix(ks, k, |ks|);
    forall i | 0 <= i < |ks| ensures Index(ks + [k])[i] == Index(ks)[i] {
      RegionPrefix(ks, k, i);
    }
  }
}
