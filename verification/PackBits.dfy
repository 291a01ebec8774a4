/** The PackBits codec shared by the image, video and audio formats: packets, and the one decoder
    (src/drivers/reis.c, src/drivers/rei.c). */
module PackBits {
  import opened Bytes

  type Unit = seq<byte>

  // ----- counting in units -----

  /** `count * pixel_size`, by repeated addition. */
  function Times(n: nat, p: nat): nat {
    if n == 0 then 0 else p + Times(n - 1, p)
  }

  lemma {:induction false} TimesIsProduct(n: nat, p: nat)
    ensures Times(n, p) == n * p
  {
    if n > 0 { TimesIsProduct(n - 1, p); }
  }

  lemma {:induction false} TimesLe(a: nat, b: nat, p: nat)
    requires a <= b
    ensures Times(a, p) <= Times(b, p)
  {
    if a < b { TimesLe(a, b - 1, p); }
  }

  lemma TimesSum(a: nat, b: nat, p: nat)
    ensures Times(a + b, p) == Times(a, p) + Times(b, p)
  {
    TimesIsProduct(a + b, p);
    TimesIsProduct(a, p);
    TimesIsProduct(b, p);
    assert (a + b) * p == a * p + b * p;
  }

  function Copies(u: Unit, n: nat): (r: seq<byte>)
    ensures |r| == Times(n, |u|)
  {
    if n == 0 then [] else Copies(u, n - 1) + u
  }

  // ----- packets -----

  /** `count` units as they are, joined; or one unit `count` times. */
  datatype Packet = Literal(count: nat, body: seq<byte>) | Run(count: nat, unit: Unit)

  /** Packets of 1..128 units of `p` bytes; runs of at least two. */
  predicate WellFormed(k: Packet, p: nat) {
    match k
    case Literal(n, body) => 1 <= n <= 128 && |body| == Times(n, p)
    case Run(n, u) => 2 <= n <= 128 && |u| == p
  }

  /** The control byte: n-1 for a literal of n units, 1-n for a run, both masked to eight bits. */
  function Control(k: Packet): byte {
    match k
    case Literal(n, _) => (n - 1) % 256
    case Run(n, _) => (1 - n) % 256
  }

  function Payload(k: Packet): seq<byte> {
    match k
    case Literal(_, body) => body
    case Run(_, u) => u
  }

  /** The bytes a packet stands for. */
  function Content(k: Packet): seq<byte> {
    match k
    case Literal(_, body) => body
    case Run(n, u) => Copies(u, n)
  }

  /** No control byte is the no-op 0x80, and its sign tells the two kinds apart. */
  lemma NeverNoOp(k: Packet, p: nat)
    requires WellFormed(k, p)
    ensures Control(k) != 0x80 && (Control(k) < 0x80 <==> k.Literal?)
    ensures Control(k) as nat == if k.Literal? then k.count - 1 else 257 - k.count
  {
  }

  // ----- the decoder -----

  function After(head: seq<byte>, tail: Option<seq<byte>>): Option<seq<byte>> {
    if tail.Some? then Some(head + tail.value) else None
  }

  lemma AfterAfter(a: seq<byte>, b: seq<byte>, t: Option<seq<byte>>)
    ensures After(a, After(b, t)) == After(a + b, t)
  {
    if t.Some? {
      assert a + (b + t.value) == (a + b) + t.value;
    }
  }

  lemma AfterNothing(none: seq<byte>, d: Option<seq<byte>>)
    requires none == []
    ensures After(none, d) == d
  {
    if d.Some? {
      assert none + d.value == d.value;
    }
  }

  /** What decoding from `ip` on yields when it must fill exactly `room` bytes. */
  function DecodeAt(inp: seq<byte>, ip: nat, room: nat, p: nat): Option<seq<byte>>
    requires p > 0 && ip <= |inp|
    decreases |inp| - ip
  {
    if ip == |inp| || room == 0 then (if room == 0 then Some([]) else None)
    else if inp[ip] < 128 then
      var n := Times(inp[ip] as nat + 1, p);
      if ip + 1 + n > |inp| || n > room then None
      else After(inp[ip + 1..ip + 1 + n], DecodeAt(inp, ip + 1 + n, room - n, p))
    else if inp[ip] > 128 then
      var n := Times(257 - inp[ip] as nat, p);
      if ip + 1 + p > |inp| || n > room then None
      else After(Copies(inp[ip + 1..ip + 1 + p], 257 - inp[ip] as nat), DecodeAt(inp, ip + 1 + p, room - n, p))
    else DecodeAt(inp, ip + 1, room, p)
  }

  function Decode(inp: seq<byte>, room: nat, p: nat): Option<seq<byte>>
    requires p > 0
  {
    DecodeAt(inp, 0, room, p)
  }

  /** `n` copies of a unit, byte by byte. */
  lemma {:induction false} CopiesBytes(u: Unit, n: nat, x: nat)
    requires u != [] && x < |Copies(u, n)|
    ensures |Copies(u, n)| == n * |u| && Copies(u, n)[x] == u[x % |u|]
  {
    TimesIsProduct(n, |u|);
    TimesIsProduct(n - 1, |u|);
    if x < |Copies(u, n - 1)| {
      CopiesBytes(u, n - 1, x);
    } else {
      LastCopy(x, n - 1, |u|);
    }
  }

  lemma {:induction false} LastCopy(x: nat, n: nat, p: nat)
    requires p > 0 && n * p <= x < n * p + p
    ensures x % p == x - n * p
  {
    var q := x / p;
    QuotientIs(x, q, n, p);
  }

  lemma {:induction false} QuotientIs(x: nat, q: nat, n: nat, p: nat)
    requires q * p <= x < q * p + p && n * p <= x < n * p + p
    ensures q == n
  {
    TimesIsProduct(q, p);
    TimesIsProduct(n, p);
    if q < n { TimesLe(q + 1, n, p); }
    if n < q { TimesLe(n + 1, q, p); }
  }

  /** What the decoder makes of the byte at `ip`: 128 is passed over; below it, one more than that many
      units follow; above it, the next unit 257 less that many times. What does not fit the input or the
      room fails. With no room left it stops, and what follows is not looked at. */
  lemma {:induction false} DecoderEquations(inp: seq<byte>, ip: nat, room: nat, p: nat, n: nat)
    requires p > 0 && ip <= |inp|
    requires ip < |inp| ==> n == if inp[ip] < 128 then inp[ip] as int + 1 else 257 - inp[ip] as int
    ensures room == 0 ==> DecodeAt(inp, ip, room, p) == Some([])
    ensures room > 0 && ip == |inp| ==> DecodeAt(inp, ip, room, p) == None
    ensures room > 0 && ip < |inp| && inp[ip] == 128 ==> DecodeAt(inp, ip, room, p) == DecodeAt(inp, ip + 1, room, p)
    ensures room > 0 && ip < |inp| && inp[ip] < 128 ==>
      (0 <= n * p && DecodeAt(inp, ip, room, p) == (if ip + 1 + n * p > |inp| || n * p > room then None
        else After(inp[ip + 1..ip + 1 + n * p], DecodeAt(inp, ip + 1 + n * p, room - n * p, p))))
    ensures room > 0 && ip < |inp| && inp[ip] > 128 ==>
      (0 <= n * p && DecodeAt(inp, ip, room, p) == (if ip + 1 + p > |inp| || n * p > room then None
        else After(Copies(inp[ip + 1..ip + 1 + p], n), DecodeAt(inp, ip + 1 + p, room - n * p, p))))
  {
    TimesIsProduct(n, p);
  }

  // ----- decoding a packet -----

  /** The packet stands at `ip` in the input. */
  predicate PacketAt(inp: seq<byte>, ip: nat, k: Packet) {
    ip + 1 + |Payload(k)| <= |inp| && inp[ip] == Control(k) && Stands(inp, ip + 1, Payload(k))
  }

  /** The bytes stand at `at`. */
  predicate Stands(inp: seq<byte>, at: nat, bytes: seq<byte>)
    requires at + |bytes| <= |inp|
  {
    forall j {:trigger bytes[j]} :: 0 <= j < |bytes| ==> inp[at + j] == bytes[j]
  }

  lemma {:induction false} StandsThere(inp: seq<byte>, at: nat, bytes: seq<byte>)
    requires at + |bytes| <= |inp| && Stands(inp, at, bytes)
    ensures inp[at..at + |bytes|] == bytes
  {
  }

  /** What decoding `room` bytes from `ip` on gives, as a function of both. */
  type Decoder = (nat, nat) -> Option<seq<byte>>

  function DecoderOf(inp: seq<byte>, p: nat): Decoder
    requires p > 0
  {
    (ip: nat, room: nat) => if ip <= |inp| then DecodeAt(inp, ip, room, p) else None
  }

  /** A packet's content comes in front of what the rest gives. */
  predicate Peels(f: Decoder, inp: seq<byte>, p: nat, ip: nat, k: Packet, room: nat) {
    PacketAt(inp, ip, k) && WellFormed(k, p) ==>
      f(ip, |Content(k)| + room) == After(Content(k), f(ip + 1 + |Payload(k)|, room))
  }

  /** A last literal that holds less than it announces fails. */
  predicate Refuses(f: Decoder, inp: seq<byte>, p: nat, ip: nat, n: nat, m: nat) {
    ip + 1 + m == |inp| && 1 <= n <= 128 && inp[ip] as nat == n - 1 && 0 < m < Times(n, p) ==> f(ip, m) == None
  }

  /** The laws of the decoder the round trips rest on. */
  ghost predicate Lawful(f: Decoder, inp: seq<byte>, p: nat) {
    && f(|inp|, 0) == Some([])
    && (forall ip: nat, k: Packet, room: nat {:trigger Peels(f, inp, p, ip, k, room)} :: Peels(f, inp, p, ip, k, room))
    && (forall ip: nat, n: nat, m: nat {:trigger Refuses(f, inp, p, ip, n, m)} :: Refuses(f, inp, p, ip, n, m))
  }

  lemma {:induction false} DecoderLaws(inp: seq<byte>, p: nat)
    requires p > 0
    ensures Lawful(DecoderOf(inp, p), inp, p)
  {
    var f := DecoderOf(inp, p);
    forall ip: nat, k: Packet, room: nat ensures Peels(f, inp, p, ip, k, room) {
      DecoderPeels(f, inp, p, ip, k, room);
    }
    forall ip: nat, n: nat, m: nat ensures Refuses(f, inp, p, ip, n, m) { DecoderRefuses(inp, p, ip, n, m); }
  }

  /** `f` answers as the decoder does. */
  ghost predicate Decodes(f: Decoder, inp: seq<byte>, p: nat)
    requires p > 0
  {
    forall ip: nat, room: nat {:trigger f(ip, room)} :: ip <= |inp| ==> f(ip, room) == DecodeAt(inp, ip, room, p)
  }

  lemma {:induction false} DecoderPeels(f: Decoder, inp: seq<byte>, p: nat, ip: nat, k: Packet, room: nat)
    requires p > 0 && Decodes(f, inp, p)
    ensures Peels(f, inp, p, ip, k, room)
  {
    if PacketAt(inp, ip, k) && WellFormed(k, p) { PacketDecodes(inp, p, ip, k, room); }
  }

  lemma {:induction false} PacketDecodes(inp: seq<byte>, p: nat, ip: nat, k: Packet, room: nat)
    requires p > 0 && PacketAt(inp, ip, k) && WellFormed(k, p)
    ensures DecodeAt(inp, ip, |Content(k)| + room, p) ==
      After(Content(k), DecodeAt(inp, ip + 1 + |Payload(k)|, room, p))
  {
    if k.Literal? { LiteralDecodes(inp, p, ip, k, room); } else { RunDecodes(inp, p, ip, k, room); }
  }

  lemma {:induction false} LiteralDecodes(inp: seq<byte>, p: nat, ip: nat, k: Packet, room: nat)
    requires p > 0 && PacketAt(inp, ip, k) && WellFormed(k, p) && k.Literal?
    ensures DecodeAt(inp, ip, |Content(k)| + room, p) ==
      After(Content(k), DecodeAt(inp, ip + 1 + |Payload(k)|, room, p))
  {
    NeverNoOp(k, p);
    StandsThere(inp, ip + 1, Payload(k));
    DecodeLiteral(inp, ip, k.count, ip + 1 + |k.body|, room, p);
  }

  lemma {:induction false} RunDecodes(inp: seq<byte>, p: nat, ip: nat, k: Packet, room: nat)
    requires p > 0 && PacketAt(inp, ip, k) && WellFormed(k, p) && k.Run?
    ensures DecodeAt(inp, ip, |Content(k)| + room, p) ==
      After(Content(k), DecodeAt(inp, ip + 1 + |Payload(k)|, room, p))
  {
    NeverNoOp(k, p);
    StandsThere(inp, ip + 1, Payload(k));
    var content := Content(k);
    DecodeRun(inp, ip, k.count, content, room, p);
  }

  lemma {:induction false} DecoderRefuses(inp: seq<byte>, p: nat, ip: nat, n: nat, m: nat)
    requires p > 0
    ensures Refuses(DecoderOf(inp, p), inp, p, ip, n, m)
  {
  }

  lemma {:induction false} DecodeLiteral(inp: seq<byte>, ip: nat, n: nat, end: nat, room: nat, p: nat)
    requires p > 0 && 1 <= n <= 128 && end == ip + 1 + Times(n, p) <= |inp| && inp[ip] as nat == n - 1
    ensures DecodeAt(inp, ip, end - ip - 1 + room, p) == After(inp[ip + 1..end], DecodeAt(inp, end, room, p))
  {
  }

  lemma {:induction false} DecodeRun(inp: seq<byte>, ip: nat, n: nat, content: seq<byte>, room: nat, p: nat)
    requires p > 0 && 2 <= n <= 128 && ip + 1 + p <= |inp| && inp[ip] as nat == 257 - n
    requires content == Copies(inp[ip + 1..ip + 1 + p], n)
    ensures DecodeAt(inp, ip, |content| + room, p) == After(content, DecodeAt(inp, ip + 1 + p, room, p))
  {
    assert |content| == Times(n, p) > 0;
  }

  /** Where the parts of the input behind `pre` are. */
  lemma {:induction false} Chop(inp: seq<byte>, pre: seq<byte>, k: Packet, wire: seq<byte>)
    requires inp == pre + ([Control(k)] + Payload(k) + wire)
    ensures PacketAt(inp, |pre|, k)
    ensures inp == (pre + [Control(k)] + Payload(k)) + wire &&
      |pre + [Control(k)] + Payload(k)| == |pre| + 1 + |Payload(k)|
  {
  }

  // ----- the decoding loop -----

  method CopyTo(out: array<byte>, at: nat, bytes: seq<byte>)
    requires at + |bytes| <= out.Length
    modifies out
    ensures out[..at] == old(out[..at]) && out[at..at + |bytes|] == bytes
  {
    forall i | 0 <= i < |bytes| { out[at + i] := bytes[i]; }
  }

  /** Writing a piece at `op` keeps what is before it and extends what is from `at` on. */
  lemma {:induction false} Extended(before: seq<byte>, after: seq<byte>, at: nat, op: nat, piece: seq<byte>)
    requires at <= op <= |before| && op + |piece| <= |after|
    requires after[..op] == before[..op] && after[op..op + |piece|] == piece
    ensures after[..at] == before[..at] && after[at..op + |piece|] == before[at..op] + piece
    ensures after[..op + |piece|] == before[..op] + piece
  {
    assert after[at..op + |piece|] == after[at..op] + after[op..op + |piece|];
    assert after[at..op] == after[..op][at..] == before[..op][at..] == before[at..op];
    assert after[..at] == after[..op][..at] == before[..op][..at] == before[..at];
  }

  /** The replicate loop: `count` copies of the unit from `at` on. */
  method Replicate(out: array<byte>, at: nat, unit: Unit, count: nat, ghost bytes: nat)
    requires bytes == Times(count, |unit|) && at + bytes <= out.Length
    modifies out
    ensures out[..at] == old(out[..at]) && out[at..at + bytes] == Copies(unit, count)
  {
    ghost var head := out[..at];
    var op := at;
    for i := 0 to count
      invariant op == at + Times(i, |unit|) <= out.Length
      invariant out[..at] == head && out[at..op] == Copies(unit, i)
    {
      TimesLe(i + 1, count, |unit|);
      ghost var before := out[..];
      CopyTo(out, op, unit);
      Extended(before, out[..], at, op, unit);
      op := op + |unit|;
    }
  }

  /** The literal case: copy the units, or fail. */
  method LiteralPacket(inp: seq<byte>, ip: nat, out: array<byte>, op: nat, p: nat)
    returns (ok: bool, ip': nat, op': nat)
    requires p > 0 && 0 < ip <= |inp| && inp[ip - 1] < 128 && op < out.Length
    modifies out
    ensures ok ==> ip <= ip' <= |inp| && op <= op' <= out.Length && out[..op] == old(out[..op])
    ensures DecodeAt(inp, ip - 1, out.Length - op, p) ==
      if ok then After(out[op..op'], DecodeAt(inp, ip', out.Length - op', p)) else None
  {
    var bytes := Times(inp[ip - 1] as nat + 1, p);
    if ip + bytes > |inp| || op + bytes > out.Length { return false, ip, op; }
    CopyTo(out, op, inp[ip..ip + bytes]);
    return true, ip + bytes, op + bytes;
  }

  /** A replicate packet that does not fit either buffer. */
  lemma {:induction false} RunFails(inp: seq<byte>, ip: nat, room: nat, p: nat)
    requires p > 0 && 0 < ip <= |inp| && inp[ip - 1] > 128 && room > 0
    requires ip + p > |inp| || Times(257 - inp[ip - 1] as nat, p) > room
    ensures DecodeAt(inp, ip - 1, room, p) == None
  {
  }

  /** A replicate packet that fits, up to `next` with `left` bytes of room behind it. */
  lemma {:induction false} RunStep(
    inp: seq<byte>, ip: nat, room: nat, p: nat, count: nat, next: nat, left: nat, content: seq<byte>)
    requires p > 0 && 0 < ip <= |inp| && inp[ip - 1] > 128 && room > 0 && count == 257 - inp[ip - 1] as nat
    requires next == ip + p <= |inp| && left + Times(count, p) == room
    requires content == Copies(inp[ip..next], count)
    ensures DecodeAt(inp, ip - 1, room, p) == After(content, DecodeAt(inp, next, left, p))
  {
  }

  /** The replicate case: copy the unit that many times, or fail. */
  method RunPacket(inp: seq<byte>, ip: nat, out: array<byte>, op: nat, p: nat) returns (ok: bool, ip': nat, op': nat)
    requires p > 0 && 0 < ip <= |inp| && inp[ip - 1] > 128 && op < out.Length
    modifies out
    ensures ok ==> ip <= ip' <= |inp| && op <= op' <= out.Length && out[..op] == old(out[..op])
    ensures DecodeAt(inp, ip - 1, out.Length - op, p) ==
      if ok then After(out[op..op'], DecodeAt(inp, ip', out.Length - op', p)) else None
  {
    var count := 257 - inp[ip - 1] as nat;
    ip', op' := ip + p, op + Times(count, p);
    ok := ip' <= |inp| && op' <= out.Length;
    if ok {
      Replicate(out, op, inp[ip..ip'], count, op' - op);
      RunStep(inp, ip, out.Length - op, p, count, ip', out.Length - op', out[op..op']);
    } else {
      RunFails(inp, ip, out.Length - op, p);
    }
  }

  /** One packet other than a no-op, behind the `op` bytes already written. */
  method NextPacket(inp: seq<byte>, ip: nat, out: array<byte>, op: nat, p: nat, ghost all: Option<seq<byte>>)
    returns (ok: bool, ip': nat, op': nat)
    requires p > 0 && 0 < ip <= |inp| && inp[ip - 1] != 128 && op < out.Length
    requires all == After(out[..op], DecodeAt(inp, ip - 1, out.Length - op, p))
    modifies out
    ensures ok ==> ip <= ip' <= |inp| && op <= op' <= out.Length
    ensures all == if ok then After(out[..op'], DecodeAt(inp, ip', out.Length - op', p)) else None
  {
    ghost var head := out[..op];
    if inp[ip - 1] < 128 {
      ok, ip', op' := LiteralPacket(inp, ip, out, op, p);
    } else {
      ok, ip', op' := RunPacket(inp, ip, out, op, p);
    }
    if ok {
      AfterAfter(head, out[op..op'], DecodeAt(inp, ip', out.Length - op', p));
      assert out[..op'] == head + out[op..op'];
    }
  }

  /** `rle_decode_packbits`: fills the caller's buffer exactly, or fails. */
  method RleDecode(inp: seq<byte>, out: array<byte>, p: int) returns (ok: bool)
    modifies out
    ensures p <= 0 ==> !ok
    ensures p > 0 ==> Decode(inp, out.Length, p) == if ok then Some(out[..]) else None
  {
    if p <= 0 { return false; }
    var ip: nat, op: nat := 0, 0;
    ghost var all := Decode(inp, out.Length, p);
    AfterNothing(out[..0], all);
    while ip < |inp| && op < out.Length
      invariant ip <= |inp| && op <= out.Length
      invariant all == After(out[..op], DecodeAt(inp, ip, out.Length - op, p))
      decreases |inp| - ip
    {
      ip := ip + 1;
      if inp[ip - 1] != 128 {
        var fits, ip', op' := NextPacket(inp, ip, out, op, p, all);
        if !fits { return false; }
        ip, op := ip', op';
      }
    }
    ok := op == out.Length;
    Filled(out[..], out[..op]);
  }

  lemma {:induction false} Filled(whole: seq<byte>, head: seq<byte>)
    requires head <= whole
    ensures |head| == |whole| ==> head + [] == whole
  {
  }
}
