/** Bytes, little-endian words and the two C/Python byte idioms the tools share. */
module Bytes {

  type byte = x: int | 0 <= x < 256
  type u32 = x: int | 0 <= x < 0x1_0000_0000

  datatype Option<+T> = None | Some(value: T)

  function Min(a: int, b: int): (r: int)
    ensures r <= a && r <= b && (r == a || r == b)
  {
    if a < b then a else b
  }

  /** `struct.pack('<I', n)`. */
  function Le32(n: u32): (r: seq<byte>)
    ensures |r| == 4
  {
    [n % 256, n / 256 % 256, n / 65536 % 256, n / 16777216]
  }

  /** `struct.unpack('<I', s)` and the kernel's `*(uint32_t*)s`. */
  function FromLe32(s: seq<byte>): (n: u32)
    requires |s| == 4
  {
    s[0] as int + 256 * (s[1] as int) + 65536 * (s[2] as int) + 16777216 * (s[3] as int)
  }

  lemma Le32RoundTrip(n: u32)
    ensures FromLe32(Le32(n)) == n
  {
    var q1 := n / 256;
    assert n == 256 * q1 + n % 256;
    var q2 := q1 / 256;
    assert q1 == 256 * q2 + q1 % 256;
    assert q2 == n / 65536;
    var q3 := q2 / 256;
    assert q2 == 256 * q3 + q2 % 256;
    assert q3 == n / 16777216;
  }

  lemma FromLe32RoundTrip(s: seq<byte>)
    requires |s| == 4
    ensures Le32(FromLe32(s)) == s
  {
    var n := FromLe32(s);
    var b0: int, b1: int, b2: int, b3: int := s[0], s[1], s[2], s[3];
    var q2 := b2 + 256 * b3;
    var q1 := b1 + 256 * q2;
    assert n == b0 + 256 * q1;
    assert n / 256 == q1 && q1 / 256 == q2 && q2 / 256 == b3;
    assert n / 65536 == q2 && n / 16777216 == b3;
  }

  function Zeros(n: nat): (r: seq<byte>)
    ensures |r| == n && forall i :: 0 <= i < n ==> r[i] == 0
  {
    seq(n, i => 0)
  }

  /** `f.seek(at); f.write(data)` inside one buffer. */
  function Splice(s: seq<byte>, at: nat, data: seq<byte>): (r: seq<byte>)
    requires at + |data| <= |s|
    ensures |r| == |s|
    ensures r[at..at + |data|] == data
    ensures forall i :: 0 <= i < |s| && (i < at || at + |data| <= i) ==> r[i] == s[i]
  {
    s[..at] + data + s[at + |data|..]
  }

  /** The string a NUL-terminated field of fixed width holds. */
  function CStr(raw: seq<byte>): (r: seq<byte>)
    ensures |r| <= |raw| && r == raw[..|r|] && 0 !in r
    ensures |r| < |raw| ==> raw[|r|] == 0
  {
    if raw == [] || raw[0] == 0 then [] else [raw[0]] + CStr(raw[1..])
  }

  /** CStr stops at the first NUL: it is the only prefix with that property. */
  lemma {:induction false} CStrUnique(raw: seq<byte>, s: seq<byte>)
    requires |s| <= |raw| && s == raw[..|s|] && 0 !in s
    requires |s| < |raw| ==> raw[|s|] == 0
    ensures CStr(raw) == s
  {
    if s != [] {
      assert raw[0] == s[0] != 0;
      CStrUnique(raw[1..], s[1..]);
      assert s == [s[0]] + s[1..];
    }
  }

  function CeilDiv(a: nat, b: nat): (r: nat)
    requires b > 0
  {
    (a + b - 1) / b
  }

  // ----- binary digits of a word of `w` bits -----

  function Pow2(w: nat): (r: nat)
    ensures r > 0
  {
    if w == 0 then 1 else 2 * Pow2(w - 1)
  }

  /** `(x >> k) & 1`. */
  predicate BitOf(x: nat, k: nat)
    decreases k
  {
    if k == 0 then x % 2 == 1 else BitOf(x / 2, k - 1)
  }

  /** `x | (1 << k)`. */
  function OrBit(x: nat, k: nat): (r: nat)
    decreases k
  {
    if k == 0 then x - x % 2 + 1 else x % 2 + 2 * OrBit(x / 2, k - 1)
  }

  lemma {:induction false} OrBitSets(x: nat, k: nat, j: nat)
    ensures BitOf(OrBit(x, k), j) <==> BitOf(x, j) || j == k
    decreases k
  {
    if k > 0 {
      assert OrBit(x, k) / 2 == OrBit(x / 2, k - 1);
      if j > 0 {
        OrBitSets(x / 2, k - 1, j - 1);
      }
    } else {
      assert OrBit(x, k) / 2 == x / 2;
    }
  }

  lemma {:induction false} OrBitFits(x: nat, k: nat, w: nat)
    requires k < w && x < Pow2(w)
    ensures OrBit(x, k) < Pow2(w)
    decreases k
  {
    if k > 0 {
      OrBitFits(x / 2, k - 1, w - 1);
    } else {
      assert Pow2(w) == 2 * Pow2(w - 1);
    }
  }

  lemma Pow2Of8()
    ensures Pow2(8) == 256
  {
    assert Pow2(4) == 16;
    assert Pow2(6) == 64;
  }

  // ----- bitmaps -----

  predicate BitSet(bm: seq<byte>, n: nat)
    requires n / 8 < |bm|
  {
    BitOf(bm[n / 8], n % 8)
  }

  function MarkBit(bm: seq<byte>, n: nat): (r: seq<byte>)
    requires n / 8 < |bm|
    ensures |r| == |bm|
    ensures forall j: nat :: j / 8 < |bm| ==> (BitSet(r, j) <==> BitSet(bm, j) || j == n)
  {
    Pow2Of8();
    OrBitFits(bm[n / 8], n % 8, 8);
    var r := bm[n / 8 := OrBit(bm[n / 8], n % 8)];
    assert forall j: nat :: j / 8 < |bm| ==> (BitSet(r, j) <==> BitSet(bm, j) || j == n) by {
      forall j: nat | j / 8 < |bm|
        ensures BitSet(r, j) <==> BitSet(bm, j) || j == n
      {
        if j / 8 == n / 8 {
          OrBitSets(bm[n / 8], n % 8, j % 8);
          assert j == 8 * (j / 8) + j % 8 && n == 8 * (n / 8) + n % 8;
        }
      }
    }
    r
  }
}
