/** The two PackBits encoders, devtools/audio_to_reis.py (runs of three or more) and
    devtools/png_to_rei.py (runs of two or more), against one greedy packet cutter. */
module PackBitsEncoders {
  import opened Bytes
  import opened PackBits

  // ----- runs and literals, over any kind of unit -----

  /** Units from `i` on equal to `u`, at most `cap`. */
  function SameAt<T(==)>(us: seq<T>, i: nat, u: T, cap: nat): (n: nat)
    requires i <= |us|
    ensures n <= cap && i + n <= |us|
    decreases |us| - i
  {
    if i == |us| || cap == 0 || us[i] != u then 0 else 1 + SameAt(us, i + 1, u, cap - 1)
  }

  /** `t` equal units start at `i`. */
  predicate RunStarts<T(==)>(us: seq<T>, i: nat, t: nat) {
    2 <= t <= 3 && i + t <= |us| && us[i] == us[i + 1] && (t == 3 ==> us[i + 1] == us[i + 2])
  }

  /** Units from `i` on before the next run starts, at most `cap`. */
  function LitAt<T(==)>(us: seq<T>, i: nat, t: nat, cap: nat): (n: nat)
    requires i <= |us|
    ensures n <= cap && i + n <= |us|
    decreases |us| - i
  {
    if i == |us| || cap == 0 || RunStarts(us, i, t) then 0 else 1 + LitAt(us, i + 1, t, cap - 1)
  }

  lemma {:induction false} RunIsLong<T>(us: seq<T>, i: nat, t: nat)
    requires i < |us| && 2 <= t <= 3
    ensures RunStarts(us, i, t) <==> SameAt(us, i, us[i], 128) >= t
  {
    assert SameAt(us, i, us[i], 128) == 1 + SameAt(us, i + 1, us[i], 127);
  }

  lemma {:induction false} SameMeans<T>(us: seq<T>, i: nat, u: T, cap: nat)
    requires i <= |us|
    ensures forall j :: i <= j < i + SameAt(us, i, u, cap) ==> us[j] == u
    decreases |us| - i
  {
    if !(i == |us| || cap == 0 || us[i] != u) { SameMeans(us, i + 1, u, cap - 1); }
  }

  /** A literal that stops early stops where a run starts. */
  lemma {:induction false} LitEnds<T>(us: seq<T>, i: nat, t: nat, cap: nat)
    requires i <= |us|
    ensures var n := LitAt(us, i, t, cap); n < cap && i + n < |us| ==> RunStarts(us, i + n, t)
    decreases |us| - i
  {
    if !(i == |us| || cap == 0 || RunStarts(us, i, t)) { LitEnds(us, i + 1, t, cap - 1); }
  }

  // ----- units joined -----

  /** `n` units from `i` on, joined. */
  function FlatAt(us: seq<Unit>, i: nat, n: nat): seq<byte>
    requires i + n <= |us|
  {
    if n == 0 then [] else FlatAt(us, i, n - 1) + us[i + n - 1]
  }

  function Flat(us: seq<Unit>): seq<byte> {
    FlatAt(us, 0, |us|)
  }

  lemma {:induction false} FlatSplit(us: seq<Unit>, i: nat, m: nat, n: nat)
    requires i + m + n <= |us|
    ensures FlatAt(us, i, m + n) == FlatAt(us, i, m) + FlatAt(us, i + m, n)
  {
    if n > 0 { FlatSplit(us, i, m, n - 1); }
  }

  predicate UnitsIn(us: seq<Unit>, i: nat, n: nat, p: nat) {
    forall k :: i <= k < i + n && k < |us| ==> |us[k]| == p
  }

  predicate UnitsOf(us: seq<Unit>, p: nat) {
    UnitsIn(us, 0, |us|, p)
  }

  lemma {:induction false} FlatSize(us: seq<Unit>, i: nat, n: nat, p: nat)
    requires i + n <= |us| && UnitsIn(us, i, n, p)
    ensures |FlatAt(us, i, n)| == Times(n, p)
  {
    if n > 0 { FlatSize(us, i, n - 1, p); }
  }

  lemma {:induction false} FlatRun(us: seq<Unit>, i: nat, n: nat, u: Unit)
    requires i + n <= |us| && forall j :: i <= j < i + n ==> us[j] == u
    ensures FlatAt(us, i, n) == Copies(u, n)
  {
    if n > 0 { FlatRun(us, i, n - 1, u); }
  }

  // ----- the greedy cutter -----

  /** The units the packet cut at `i` takes, and the packet: a run if `t` equal units start here,
      else a literal up to the next run. */
  function Extent(us: seq<Unit>, i: nat, t: nat): (n: nat)
    requires i < |us|
    ensures 0 < n && i + n <= |us|
  {
    if RunStarts(us, i, t) then SameAt(us, i, us[i], 128) else LitAt(us, i, t, 128)
  }

  function First(us: seq<Unit>, i: nat, t: nat): Packet
    requires i < |us|
  {
    var n := Extent(us, i, t);
    if RunStarts(us, i, t) then Run(n, us[i]) else Literal(n, FlatAt(us, i, n))
  }

  /** The bytes of the packets from `i` on. */
  function Encoded(us: seq<Unit>, i: nat, t: nat): seq<byte>
    requires i <= |us|
    decreases |us| - i
  {
    if i == |us| then []
    else
      var k := First(us, i, t);
      [Control(k)] + Payload(k) + Encoded(us, i + Extent(us, i, t), t)
  }

  /** Every packet is well formed and stands for the units it takes. */
  lemma {:induction false} FirstOk(us: seq<Unit>, i: nat, t: nat, p: nat)
    requires i < |us| && 2 <= t <= 3 && UnitsIn(us, i, Extent(us, i, t), p)
    ensures WellFormed(First(us, i, t), p) && Content(First(us, i, t)) == FlatAt(us, i, Extent(us, i, t))
  {
    var n := Extent(us, i, t);
    if RunStarts(us, i, t) {
      RunIsLong(us, i, t);
      SameMeans(us, i, us[i], 128);
      FlatRun(us, i, n, us[i]);
    } else {
      FlatSize(us, i, n, p);
    }
  }

  // ----- the encoders -----

  /** The look-ahead both encoders start with: units equal to the one at `start`, at most 128. */
  method RunLength<T(==)>(us: seq<T>, start: nat) returns (runLen: nat)
    requires start < |us|
    ensures runLen == SameAt(us, start, us[start], 128)
  {
    runLen := 1;
    while start + runLen < |us| && runLen < 128 && us[start] == us[start + runLen]
      invariant 1 <= runLen <= 128 && start + runLen <= |us|
      invariant SameAt(us, start, us[start], 128) == runLen + SameAt(us, start + runLen, us[start], 128 - runLen)
    {
      runLen := runLen + 1;
    }
  }

  /** The audio encoder's literal: stop where three equal units start. */
  method AudioLiteral<T(==)>(us: seq<T>, start: nat) returns (count: nat)
    requires start < |us|
    ensures count == LitAt(us, start, 3, 128)
  {
    var pos := start;
    count := 0;
    while pos < |us| && count < 128 && !(pos + 2 < |us| && us[pos] == us[pos + 1] == us[pos + 2])
      invariant start + count == pos <= |us| && count <= 128
      invariant LitAt(us, start, 3, 128) == count + LitAt(us, pos, 3, 128 - count)
    {
      pos := pos + 1;
      count := count + 1;
    }
  }

  /** The image encoder's literal: the first unit, then up to where two equal units start. */
  method ImageLiteral<T(==)>(us: seq<T>, start: nat) returns (count: nat)
    requires start < |us| && !RunStarts(us, start, 2)
    ensures count == LitAt(us, start, 2, 128)
  {
    var i := start + 1;
    count := 1;
    while i < |us| && count < 128 && !(i + 2 <= |us| && us[i] == us[i + 1])
      invariant start + count == i <= |us| && count <= 128
      invariant LitAt(us, start, 2, 128) == count + LitAt(us, i, 2, 128 - count)
    {
      i := i + 1;
      count := count + 1;
    }
  }

  /** One turn of the audio encoder's loop: the packet cut at `pos`. */
  method AudioPacket(us: seq<Unit>, pos: nat) returns (ctrl: byte, body: seq<byte>, taken: nat)
    requires pos < |us|
    ensures var k := First(us, pos, 3); ctrl == Control(k) && body == Payload(k) && taken == Extent(us, pos, 3)
  {
    RunIsLong(us, pos, 3);
    var runLen := RunLength(us, pos);
    if runLen >= 3 {
      return (257 - runLen) % 256, us[pos], runLen;
    }
    var count := AudioLiteral(us, pos);
    return count - 1, FlatAt(us, pos, count), count;
  }

  /** One turn of the image encoder's loop. */
  method ImagePacket(us: seq<Unit>, pos: nat) returns (ctrl: byte, body: seq<byte>, taken: nat)
    requires pos < |us|
    ensures var k := First(us, pos, 2); ctrl == Control(k) && body == Payload(k) && taken == Extent(us, pos, 2)
  {
    RunIsLong(us, pos, 2);
    var runLen := RunLength(us, pos);
    if runLen >= 2 {
      return (256 + 1 - runLen) % 256, us[pos], runLen;
    }
    var count := ImageLiteral(us, pos);
    return (count - 1) % 128, FlatAt(us, pos, count), count;
  }

  /** `out` and the packets still to come make up the whole output. */
  ghost predicate Behind(us: seq<Unit>, pos: nat, t: nat, out: seq<byte>) {
    pos <= |us| && out + Encoded(us, pos, t) == Encoded(us, 0, t)
  }

  lemma {:induction false} Emit(us: seq<Unit>, pos: nat, t: nat, out: seq<byte>, ctrl: byte, body: seq<byte>, n: nat)
    requires pos < |us| && 2 <= t <= 3 && Behind(us, pos, t, out)
    requires var k := First(us, pos, t); ctrl == Control(k) && body == Payload(k) && n == Extent(us, pos, t)
    ensures Behind(us, pos + n, t, out + [ctrl] + body)
  {
    var rest := Encoded(us, pos + n, t);
    assert out + ([ctrl] + body + rest) == (out + [ctrl] + body) + rest;
  }

  /** `_encode_rle` of devtools/audio_to_reis.py, on units. */
  method AudioEncode(us: seq<Unit>) returns (out: seq<byte>)
    ensures out == Encoded(us, 0, 3)
  {
    out := [];
    var pos := 0;
    while pos < |us|
      invariant Behind(us, pos, 3, out)
      decreases |us| - pos
    {
      var ctrl, body, n := AudioPacket(us, pos);
      Emit(us, pos, 3, out, ctrl, body, n);
      out := out + [ctrl] + body;
      pos := pos + n;
    }
    assert out + [] == out;
  }

  /** `_encode_rle` of devtools/png_to_rei.py, on units. */
  method ImageEncode(us: seq<Unit>) returns (out: seq<byte>)
    ensures out == Encoded(us, 0, 2)
  {
    out := [];
    var pos := 0;
    while pos < |us|
      invariant Behind(us, pos, 2, out)
      decreases |us| - pos
    {
      var ctrl, body, n := ImagePacket(us, pos);
      Emit(us, pos, 2, out, ctrl, body, n);
      out := out + [ctrl] + body;
      pos := pos + n;
    }
    assert out + [] == out;
  }

  // ----- cutting the data -----

  /** Units in `len` bytes, a partial one included. */
  function UnitCount(len: nat, p: nat): nat
    requires p > 0
  {
    if len == 0 then 0 else if len <= p then 1 else 1 + UnitCount(len - p, p)
  }

  lemma {:induction false} UnitStarts(len: nat, p: nat, k: nat)
    requires p > 0
    ensures k < UnitCount(len, p) <==> Times(k, p) < len
    decreases len
  {
    if len > 0 && k > 0 {
      if len <= p {
        TimesLe(1, k, p);
      } else {
        UnitStarts(len - p, p, k - 1);
      }
    }
  }

  lemma {:induction false} UnitCountExact(len: nat, p: nat)
    requires p > 0
    ensures len % p == 0 ==> Times(UnitCount(len, p), p) == len && UnitCount(len, p) == len / p
    ensures len % p != 0 ==> UnitCount(len, p) > 0 && Times(UnitCount(len, p) - 1, p) + len % p == len
  {
    var q, r, n := len / p, len % p, UnitCount(len, p);
    assert len == q * p + r;
    TimesIsProduct(q, p);
    UnitStarts(len, p, q);
    if r == 0 {
      if q > 0 { TimesIsProduct(q - 1, p); UnitStarts(len, p, q - 1); MulGap(q - 1, q, p); }
    } else {
      UnitStarts(len, p, q + 1);
    }
  }

  /** The data in units; a partial unit may be left at the end. */
  function Cut(data: seq<byte>, p: nat): (us: seq<Unit>)
    requires p > 0
    ensures |us| == UnitCount(|data|, p)
  {
    seq(UnitCount(|data|, p), k requires 0 <= k < UnitCount(|data|, p) => UnitAt(data, p, k))
  }

  function UnitAt(data: seq<byte>, p: nat, k: nat): Unit
    requires p > 0 && k < UnitCount(|data|, p)
  {
    UnitStarts(|data|, p, k);
    data[Times(k, p)..Min(Times(k + 1, p), |data|)]
  }

  /** The first `n` units joined are the first `n * p` bytes, as far as there are. */
  lemma {:induction false} CutFlatTo(data: seq<byte>, p: nat, n: nat)
    requires p > 0 && n <= UnitCount(|data|, p)
    ensures FlatAt(Cut(data, p), 0, n) == data[..Min(Times(n, p), |data|)]
  {
    if n > 0 {
      CutFlatTo(data, p, n - 1);
      UnitStarts(|data|, p, n - 1);
      assert Cut(data, p)[n - 1] == UnitAt(data, p, n - 1);
    }
  }

  /** Cutting loses nothing; the units are whole but for the last of a length that is no multiple. */
  lemma {:induction false} CutFlat(data: seq<byte>, p: nat)
    requires p > 0
    ensures Flat(Cut(data, p)) == data
    ensures |data| % p == 0 ==> UnitsOf(Cut(data, p), p) && |Cut(data, p)| == |data| / p
    ensures |data| % p != 0 ==> Ragged(Cut(data, p), p)
  {
    var us, n := Cut(data, p), UnitCount(|data|, p);
    CutFlatTo(data, p, n);
    UnitStarts(|data|, p, n);
    UnitCountExact(|data|, p);
    forall k | 0 <= k < n ensures |us[k]| == if k + 1 < n || |data| % p == 0 then p else |data| % p {
      UnitStarts(|data|, p, k);
      if k + 1 < n {
        UnitStarts(|data|, p, k + 1);
      } else {
        assert k + 1 == n;
      }
    }
  }

  /** Whole units but for a shorter, non-empty last one. */
  predicate Ragged(us: seq<Unit>, p: nat) {
    us != [] && UnitsIn(us, 0, |us| - 1, p) && 0 < |us[|us| - 1]| < p
  }

  lemma {:induction false} ModIs(n: nat, q: nat, r: nat, p: nat)
    requires r < p && n == q * p + r
    ensures n % p == r && n / p == q
  {
    var q', r' := n / p, n % p;
    assert n == q' * p + r';
    if q' < q {
      MulGap(q', q, p);
    } else if q' > q {
      MulGap(q, q', p);
    }
  }

  lemma {:induction false} MulGap(a: nat, b: nat, p: nat)
    requires a < b
    ensures b * p >= a * p + p
  {
    TimesIsProduct(a, p);
    TimesIsProduct(b, p);
    TimesLe(a + 1, b, p);
  }

  // ----- the round trips -----

  function EncodedAs(data: seq<byte>, p: nat, t: nat): seq<byte>
    requires p > 0
  {
    Encoded(Cut(data, p), 0, t)
  }

  /** The audio encoder drops a partial unit at the end. */
  method AudioRle(data: seq<byte>, p: nat) returns (out: seq<byte>)
    requires p > 0
    ensures out == EncodedAs(data[..|data| - |data| % p], p, 3)
  {
    out := AudioEncode(Cut(data[..|data| - |data| % p], p));
  }

  method ImageRle(data: seq<byte>, p: nat) returns (out: seq<byte>)
    requires p > 0
    ensures out == EncodedAs(data, p, 2)
  {
    out := ImageEncode(Cut(data, p));
  }

  /** The packet at `i`, taken off the front of the input behind `pre`. */
  lemma {:induction false} NextPacket(us: seq<Unit>, i: nat, t: nat, inp: seq<byte>, pre: seq<byte>, rest: seq<byte>)
    returns (pre': seq<byte>, rest': seq<byte>)
    requires i < |us| && rest == Encoded(us, i, t) && inp == pre + rest
    ensures rest' == Encoded(us, i + Extent(us, i, t), t) && inp == pre' + rest'
    ensures PacketAt(inp, |pre|, First(us, i, t)) && |pre'| == |pre| + 1 + |Payload(First(us, i, t))|
  {
    var k := First(us, i, t);
    rest' := Encoded(us, i + Extent(us, i, t), t);
    Chop(inp, pre, k, rest');
    pre' := pre + [Control(k)] + Payload(k);
  }

  /** The units from `i` on, joined. */
  function FlatFrom(us: seq<Unit>, i: nat): seq<byte>
    requires i <= |us|
  {
    FlatAt(us, i, |us| - i)
  }

  /** What the decoder makes of the packet at `i`. */
  lemma {:induction false} PacketOff(us: seq<Unit>, i: nat, t: nat, inp: seq<byte>, ip: nat, p: nat, f: Decoder)
    requires p > 0 && i < |us| && 2 <= t <= 3 && UnitsIn(us, i, Extent(us, i, t), p) && Lawful(f, inp, p)
    requires PacketAt(inp, ip, First(us, i, t))
    ensures var n, j := |FlatFrom(us, i)|, i + Extent(us, i, t);
      && f(ip, n) == After(FlatAt(us, i, j - i), f(ip + 1 + |Payload(First(us, i, t))|, |FlatFrom(us, j)|))
      && FlatFrom(us, i) == FlatAt(us, i, j - i) + FlatFrom(us, j)
  {
    var n, k := Extent(us, i, t), First(us, i, t);
    FirstOk(us, i, t, p);
    FlatSplit(us, i, n, |us| - i - n);
    assert Peels(f, inp, p, ip, k, |FlatFrom(us, i + n)|);
  }

  /** From `ip` on the input is the packets from `i` on, one behind the other. */
  ghost predicate Cuts(us: seq<Unit>, i: nat, t: nat, inp: seq<byte>, ip: nat)
    requires i <= |us|
    decreases |us| - i
  {
    if i == |us| then ip == |inp|
    else
      && PacketAt(inp, ip, First(us, i, t))
      && Cuts(us, i + Extent(us, i, t), t, inp, ip + 1 + |Payload(First(us, i, t))|)
  }

  lemma {:induction false} EncodedCuts(us: seq<Unit>, i: nat, t: nat, inp: seq<byte>, pre: seq<byte>, rest: seq<byte>)
    requires i <= |us| && rest == Encoded(us, i, t) && inp == pre + rest
    ensures Cuts(us, i, t, inp, |pre|)
    decreases |us| - i
  {
    if i < |us| {
      var pre', rest' := NextPacket(us, i, t, inp, pre, rest);
      var j, ip' := i + Extent(us, i, t), |pre'|;
      EncodedCuts(us, j, t, inp, pre', rest');
      CutsFrom(us, i, t, inp, |pre|, j, ip');
    }
  }

  lemma {:induction false} CutsFrom(us: seq<Unit>, i: nat, t: nat, inp: seq<byte>, ip: nat, j: nat, ip': nat)
    requires i < |us| && PacketAt(inp, ip, First(us, i, t))
    requires j == i + Extent(us, i, t) <= |us| && ip' == ip + 1 + |Payload(First(us, i, t))|
    requires Cuts(us, j, t, inp, ip')
    ensures Cuts(us, i, t, inp, ip)
  {
  }

  /** The next packet, and the packets behind it. */
  lemma {:induction false} CutsOn(us: seq<Unit>, i: nat, t: nat, inp: seq<byte>, ip: nat) returns (j: nat, ip': nat)
    requires i < |us| && Cuts(us, i, t, inp, ip)
    ensures PacketAt(inp, ip, First(us, i, t))
    ensures i < j == i + Extent(us, i, t) <= |us| && ip' == ip + 1 + |Payload(First(us, i, t))|
    ensures Cuts(us, j, t, inp, ip')
  {
    j, ip' := i + Extent(us, i, t), ip + 1 + |Payload(First(us, i, t))|;
  }

  lemma {:induction false} RoundTripAt(us: seq<Unit>, i: nat, t: nat, inp: seq<byte>, ip: nat, p: nat, f: Decoder)
    requires p > 0 && i <= |us| && 2 <= t <= 3 && UnitsOf(us, p) && Cuts(us, i, t, inp, ip) && Lawful(f, inp, p)
    ensures f(ip, |FlatFrom(us, i)|) == Some(FlatFrom(us, i))
    decreases |us| - i
  {
    if i < |us| {
      var j, ip' := CutsOn(us, i, t, inp, ip);
      RoundTripAt(us, j, t, inp, ip', p, f);
      PacketBack(us, i, t, inp, ip, j, ip', p, f);
    }
  }

  lemma {:induction false} PacketBack(
    us: seq<Unit>, i: nat, t: nat, inp: seq<byte>, ip: nat, j: nat, ip': nat, p: nat, f: Decoder)
    requires p > 0 && i < |us| && 2 <= t <= 3 && UnitsOf(us, p) && Lawful(f, inp, p)
    requires PacketAt(inp, ip, First(us, i, t))
    requires j == i + Extent(us, i, t) <= |us| && ip' == ip + 1 + |Payload(First(us, i, t))|
    requires f(ip', |FlatFrom(us, j)|) == Some(FlatFrom(us, j))
    ensures f(ip, |FlatFrom(us, i)|) == Some(FlatFrom(us, i))
  {
    PacketOff(us, i, t, inp, ip, p, f);
  }

  /** The decoder inverts both encoders on every whole number of units. */
  lemma {:induction false} RoundTrip(data: seq<byte>, p: nat, t: nat)
    requires p > 0 && 2 <= t <= 3 && |data| % p == 0
    ensures Decode(EncodedAs(data, p, t), |data|, p) == Some(data)
  {
    var us, inp := Cut(data, p), EncodedAs(data, p, t);
    CutFlat(data, p);
    assert inp == [] + inp;
    DecoderLaws(inp, p);
    EncodedCuts(us, 0, t, inp, [], inp);
    RoundTripAt(us, 0, t, inp, 0, p, DecoderOf(inp, p));
  }

  /** The image encoder ships a partial unit the decoder then refuses: the round trip holds
      exactly on whole numbers of units. */
  lemma {:induction false} ImageRoundTripIff(data: seq<byte>, p: nat)
    requires p > 0
    ensures Decode(EncodedAs(data, p, 2), |data|, p) == if |data| % p == 0 then Some(data) else None
  {
    if |data| % p == 0 {
      RoundTrip(data, p, 2);
    } else {
      var us, inp := Cut(data, p), EncodedAs(data, p, 2);
      CutFlat(data, p);
      assert inp == [] + inp;
      DecoderLaws(inp, p);
      EncodedCuts(us, 0, 2, inp, [], inp);
      PartialFails(us, 0, inp, 0, p, DecoderOf(inp, p));
    }
  }

  lemma {:induction false} PartialFails(us: seq<Unit>, i: nat, inp: seq<byte>, ip: nat, p: nat, f: Decoder)
    requires Ragged(us, p) && i < |us| && Cuts(us, i, 2, inp, ip) && Lawful(f, inp, p)
    ensures f(ip, |FlatFrom(us, i)|) == None
    decreases |us| - i
  {
    var j, ip' := CutsOn(us, i, 2, inp, ip);
    if j < |us| {
      PartialFails(us, j, inp, ip', p, f);
      PartialStep(us, i, inp, ip, j, ip', p, f);
    } else {
      PartialEnd(us, i, inp, ip, p, f);
    }
  }

  /** A failure behind a whole packet is a failure in front of it. */
  lemma {:induction false} PartialStep(
    us: seq<Unit>, i: nat, inp: seq<byte>, ip: nat, j: nat, ip': nat, p: nat, f: Decoder)
    requires Ragged(us, p) && Lawful(f, inp, p)
    requires i < |us| && j == i + Extent(us, i, 2) && i < j < |us|
    requires PacketAt(inp, ip, First(us, i, 2)) && ip' == ip + 1 + |Payload(First(us, i, 2))|
    requires f(ip', |FlatFrom(us, j)|) == None
    ensures f(ip, |FlatFrom(us, i)|) == None
  {
    PacketOff(us, i, 2, inp, ip, p, f);
  }

  lemma {:induction false} PartialEnd(us: seq<Unit>, i: nat, inp: seq<byte>, ip: nat, p: nat, f: Decoder)
    requires Ragged(us, p) && Lawful(f, inp, p)
    requires i < |us| && |us| == i + Extent(us, i, 2)
    requires PacketAt(inp, ip, First(us, i, 2)) && ip + 1 + |Payload(First(us, i, 2))| == |inp|
    ensures f(ip, |FlatFrom(us, i)|) == None
  {
    RaggedEnd(us, i, p);
    assert Refuses(f, inp, p, ip, |us| - i, |FlatFrom(us, i)|);
  }

  /** The last packet is a literal that announces one unit more than it holds in full. */
  lemma {:induction false} RaggedEnd(us: seq<Unit>, i: nat, p: nat)
    requires Ragged(us, p) && i < |us| && i + Extent(us, i, 2) == |us|
    ensures var n, k := Extent(us, i, 2), First(us, i, 2);
      && Control(k) as nat == n - 1 && 1 <= n <= 128
      && |Payload(k)| == |FlatFrom(us, i)| && 0 < |FlatFrom(us, i)| < Times(n, p)
  {
    var n := Extent(us, i, 2);
    RunEndsWhole(us, i, p);
    FlatSize(us, i, n - 1, p);
  }

  lemma {:induction false} RunEndsWhole(us: seq<Unit>, i: nat, p: nat)
    requires us != [] && UnitsIn(us, 0, |us| - 1, p) && i < |us| && i + Extent(us, i, 2) == |us|
    ensures RunStarts(us, i, 2) ==> |us[|us| - 1]| == p
  {
    if RunStarts(us, i, 2) {
      RunIsLong(us, i, 2);
      SameMeans(us, i, us[i], 128);
      assert us[|us| - 1] == us[i];
    }
  }

  // ----- sizes -----

  /** Bytes the packets from `i` on take. */
  function Size<T(==)>(us: seq<T>, i: nat, t: nat, p: nat): nat
    requires i <= |us|
    decreases |us| - i
  {
    if i == |us| then 0
    else if RunStarts(us, i, t) then 1 + p + Size(us, i + SameAt(us, i, us[i], 128), t, p)
    else
      var n := LitAt(us, i, t, 128);
      1 + Times(n, p) + Size(us, i + n, t, p)
  }

  lemma {:induction false} SizeIsEncoded(us: seq<Unit>, i: nat, t: nat, p: nat, bytes: seq<byte>)
    requires i <= |us| && 2 <= t <= 3 && UnitsOf(us, p) && bytes == Encoded(us, i, t)
    ensures |bytes| == Size(us, i, t, p)
    decreases |us| - i
  {
    if i < |us| {
      var n, k := Extent(us, i, t), First(us, i, t);
      var rest := Encoded(us, i + n, t);
      SizeIsEncoded(us, i + n, t, p, rest);
      if !RunStarts(us, i, t) { FlatSize(us, i, n, p); }
      assert |[Control(k)] + Payload(k) + rest| == 1 + |Payload(k)| + |rest|;
    }
  }

  /** A run saves at least one byte, which pays for the literal before it; a full literal pays
      for itself. */
  lemma {:induction false} SizeBound<T>(us: seq<T>, i: nat, t: nat, p: nat)
    requires i <= |us| && ((t == 3 && p >= 1) || (t == 2 && p >= 2))
    ensures Size(us, i, t, p) <= Times(|us| - i, p) + CeilDiv(|us| - i, 128)
    ensures i < |us| && RunStarts(us, i, t) ==> Size(us, i, t, p) + 1 <= Times(|us| - i, p) + CeilDiv(|us| - i, 128)
    decreases |us| - i
  {
    if i < |us| {
      if RunStarts(us, i, t) {
        SizeBound(us, i + SameAt(us, i, us[i], 128), t, p);
        SizeBoundRun(us, i, t, p);
      } else {
        SizeBound(us, i + LitAt(us, i, t, 128), t, p);
        SizeBoundLit(us, i, t, p);
      }
    }
  }

  lemma {:induction false} SizeBoundRun<T>(us: seq<T>, i: nat, t: nat, p: nat)
    requires i < |us| && ((t == 3 && p >= 1) || (t == 2 && p >= 2)) && RunStarts(us, i, t)
    requires var j := i + SameAt(us, i, us[i], 128); Size(us, j, t, p) <= Times(|us| - j, p) + CeilDiv(|us| - j, 128)
    ensures Size(us, i, t, p) + 1 <= Times(|us| - i, p) + CeilDiv(|us| - i, 128)
  {
    RunIsLong(us, i, t);
    var n := SameAt(us, i, us[i], 128);
    RunSum(|us| - i, n, t, p, Size(us, i + n, t, p));
  }

  lemma {:induction false} SizeBoundLit<T>(us: seq<T>, i: nat, t: nat, p: nat)
    requires i < |us| && 2 <= t <= 3 && !RunStarts(us, i, t)
    requires var j := i + LitAt(us, i, t, 128);
      && Size(us, j, t, p) <= Times(|us| - j, p) + CeilDiv(|us| - j, 128)
      && (j < |us| && RunStarts(us, j, t) ==> Size(us, j, t, p) + 1 <= Times(|us| - j, p) + CeilDiv(|us| - j, 128))
    ensures Size(us, i, t, p) <= Times(|us| - i, p) + CeilDiv(|us| - i, 128)
  {
    LitEnds(us, i, t, 128);
    var n := LitAt(us, i, t, 128);
    LitSum(|us| - i, n, p, Size(us, i + n, t, p));
  }

  lemma {:induction false} RunSum(left: nat, n: nat, t: nat, p: nat, rest: nat)
    requires t <= n <= left && ((t == 3 && p >= 1) || (t == 2 && p >= 2))
    requires rest <= Times(left - n, p) + CeilDiv(left - n, 128)
    ensures 1 + p + rest + 1 <= Times(left, p) + CeilDiv(left, 128)
  {
    TimesSum(n, left - n, p);
    RunSaves(n, t, p);
    CeilMono(left - n, left);
  }

  lemma {:induction false} LitSum(left: nat, n: nat, p: nat, rest: nat)
    requires 1 <= n <= left && n <= 128 && rest <= Times(left - n, p) + CeilDiv(left - n, 128)
    requires n == 128 || (n == left && rest == 0) || rest + 1 <= Times(left - n, p) + CeilDiv(left - n, 128)
    ensures 1 + Times(n, p) + rest <= Times(left, p) + CeilDiv(left, 128)
  {
    TimesSum(n, left - n, p);
    CeilMono(left - n, left);
    if n == 128 { CeilStep(left); }
  }

  lemma {:induction false} RunSaves(n: nat, t: nat, p: nat)
    requires n >= t && ((t == 3 && p >= 1) || (t == 2 && p >= 2))
    ensures 2 + p <= Times(n, p)
  {
    TimesLe(t, n, p);
    TimesIsProduct(t, p);
  }

  lemma CeilMono(a: nat, b: nat)
    requires a <= b
    ensures CeilDiv(a, 128) <= CeilDiv(b, 128) && (b > 0 ==> CeilDiv(b, 128) >= 1)
  {
  }

  lemma CeilStep(n: nat)
    requires n >= 128
    ensures CeilDiv(n, 128) == 1 + CeilDiv(n - 128, 128)
  {
  }

  /** Units of one byte, runs of two: a run of two saves nothing, and the bound is one byte
      for every three units. */
  lemma {:induction false} SizeBoundBytewise<T>(us: seq<T>, i: nat)
    requires i <= |us|
    ensures Size(us, i, 2, 1) <= |us| - i + CeilDiv(|us| - i, 3)
    ensures i < |us| && RunStarts(us, i, 2) ==> Size(us, i, 2, 1) <= |us| - i + CeilDiv(|us| - i - 2, 3)
    decreases |us| - i
  {
    if i < |us| {
      RunIsLong(us, i, 2);
      if RunStarts(us, i, 2) {
        SizeBoundBytewise(us, i + SameAt(us, i, us[i], 128));
      } else {
        var n := LitAt(us, i, 2, 128);
        TimesIsProduct(n, 1);
        SizeBoundBytewise(us, i + n);
        LitEnds(us, i, 2, 128);
      }
    }
  }

  /** Both stay within one byte per 128 units of the input, the image encoder from two bytes a unit on. */
  lemma {:induction false} EncodedSize(data: seq<byte>, p: nat, t: nat)
    requires p > 0 && |data| % p == 0 && ((t == 3 && p >= 1) || (t == 2 && p >= 2))
    ensures |EncodedAs(data, p, t)| <= |data| + CeilDiv(|data| / p, 128)
  {
    CutFlat(data, p);
    UnitCountExact(|data|, p);
    SizeIsEncoded(Cut(data, p), 0, t, p, EncodedAs(data, p, t));
    SizeBound(Cut(data, p), 0, t, p);
  }

  /** Bytewise, the image encoder may add one byte for every three. */
  lemma {:induction false} EncodedSizeBytewise(data: seq<byte>)
    ensures |EncodedAs(data, 1, 2)| <= |data| + CeilDiv(|data|, 3)
  {
    CutFlat(data, 1);
    UnitCountExact(|data|, 1);
    SizeIsEncoded(Cut(data, 1), 0, 2, 1, EncodedAs(data, 1, 2));
    SizeBoundBytewise(Cut(data, 1), 0);
  }

  /** The output is within one byte per 128 units of the input. */
  predicate MeetsBound(data: seq<byte>, p: nat, t: nat)
    requires p > 0
  {
    |EncodedAs(data, p, t)| <= |data| + CeilDiv(|data| / p, 128)
  }

  /** The image encoder meets the one-in-128 bound on every whole number of units exactly from two
      bytes a unit on. */
  lemma {:induction false} ImageBoundIff(p: nat)
    requires p > 0
    ensures p >= 2 <==> forall data: seq<byte> :: |data| % p == 0 ==> MeetsBound(data, p, 2)
  {
    if p >= 2 {
      forall data: seq<byte> | |data| % p == 0 ensures MeetsBound(data, p, 2) {
        EncodedSize(data, p, 2);
      }
    } else {
      var data := OverrunInput();
      assert |data| % p == 0 && !MeetsBound(data, p, 2);
    }
  }

  lemma {:induction false} OverrunInput() returns (data: seq<byte>)
    ensures |data| % 1 == 0 && !MeetsBound(data, 1, 2)
  {
    data := [0, 1, 1, 0, 1, 1];
    ImageOverruns(data);
  }

  /** The input 0 1 1 0 1 1 of single bytes: two literals, each before a run that saves nothing,
      make eight bytes where the bound allows seven. */
  lemma {:induction false} ImageOverruns(data: seq<byte>)
    requires data == [0, 1, 1, 0, 1, 1]
    ensures |EncodedAs(data, 1, 2)| == 8 && |data| + CeilDiv(|data| / 1, 128) == 7 && !MeetsBound(data, 1, 2)
  {
    var us := Cut(data, 1);
    CutFlat(data, 1);
    SizeIsEncoded(us, 0, 2, 1, EncodedAs(data, 1, 2));
    SingleBytes(data, us);
    TwoLiterals(us);
  }

  lemma {:induction false} SingleBytes(data: seq<byte>, us: seq<Unit>)
    requires us == Cut(data, 1)
    ensures |us| == |data| && forall k :: 0 <= k < |us| ==> us[k] == [data[k]]
  {
    UnitCountExact(|data|, 1);
    TimesIsProduct(|us|, 1);
    forall k | 0 <= k < |us| ensures us[k] == [data[k]] {
      TimesIsProduct(k, 1);
      TimesIsProduct(k + 1, 1);
      assert us[k] == UnitAt(data, 1, k);
    }
  }

  /** x y y x y y: two literals of one unit, each before a run that saves nothing. */
  lemma {:induction false} TwoLiterals<T>(us: seq<T>)
    requires |us| == 6 && us[0] == us[3] != us[1] && us[1] == us[2] == us[4] == us[5]
    ensures Size(us, 0, 2, 1) == 8
  {
    var y := us[1];
    TimesIsProduct(1, 1);
    assert LitAt(us, 1, 2, 127) == 0 && LitAt(us, 4, 2, 127) == 0;
    assert SameAt(us, 6, y, 126) == 0 && SameAt(us, 5, y, 127) == 1 && SameAt(us, 4, y, 128) == 2;
    assert SameAt(us, 3, y, 126) == 0 && SameAt(us, 2, y, 127) == 1 && SameAt(us, 1, y, 128) == 2;
    assert Size(us, 4, 2, 1) == 2;
    assert Size(us, 3, 2, 1) == 4;
    assert Size(us, 1, 2, 1) == 6;
  }
}
