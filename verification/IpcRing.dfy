/** The wrap-around byte ring of src/cpu/isr.c, in place on its buffer, refining a queue. */
module IpcRing {
  import opened Bytes

  /** `n` bytes of the buffer from `pos` on, wrapping once at the end. */
  function Window(b: seq<byte>, pos: nat, n: nat): (w: seq<byte>)
    requires pos <= |b| && n <= |b|
    ensures |w| == n
  {
    if pos + n <= |b| then b[pos..pos + n] else b[pos..] + b[..pos + n - |b|]
  }

  /** A position below twice the capacity, wrapped. */
  function Wrap(x: nat, cap: nat): nat
    requires x < 2 * cap
  {
    if x < cap then x else x - cap
  }

  lemma WrapIsMod(x: nat, cap: nat)
    requires x < 2 * cap
    ensures x % cap == Wrap(x, cap)
  {
    if x < cap {
      DivMod(x, 0, x, cap);
    } else {
      DivMod(x, 1, x - cap, cap);
    }
  }

  lemma DivMod(x: nat, q: nat, r: nat, d: nat)
    requires r < d && q <= 1 && x == (if q == 0 then 0 else d) + r
    ensures x % d == r
  {
    assert x / d == q;
  }

  /** Taking a contiguous chunk off the front moves the window on. */
  lemma WindowAdvance(b: seq<byte>, pos: nat, n: nat, k: nat)
    requires pos < |b| && n <= |b| && k <= n && pos + k <= |b|
    ensures Window(b, pos, n) == b[pos..pos + k] + Window(b, Wrap(pos + k, |b|), n - k)
  {
    var l, r := Window(b, pos, n), b[pos..pos + k] + Window(b, Wrap(pos + k, |b|), n - k);
    forall i | 0 <= i < n ensures l[i] == r[i] {
      WindowAt(b, pos, n, i);
      if i >= k { WindowAt(b, Wrap(pos + k, |b|), n - k, i - k); }
    }
  }

  /** Overwriting the bytes just behind the window appends them to it. */
  lemma WindowExtend(b: seq<byte>, b': seq<byte>, pos: nat, n: nat, data: seq<byte>)
    requires pos < |b| && |b'| == |b| && n + |data| <= |b|
    requires var w := Wrap(pos + n, |b|); w + |data| <= |b| && b' == b[..w] + data + b[w + |data|..]
    ensures Window(b', pos, n + |data|) == Window(b, pos, n) + data
  {
    var l, r := Window(b', pos, n + |data|), Window(b, pos, n) + data;
    forall k | 0 <= k < n + |data| ensures l[k] == r[k] {
      WindowAt(b', pos, n + |data|, k);
      if k < n { WindowAt(b, pos, n, k); }
      ExtendAt(b, b', pos, n, data, k);
    }
  }

  lemma WindowAt(b: seq<byte>, pos: nat, n: nat, k: nat)
    requires pos < |b| && k < n <= |b|
    ensures Window(b, pos, n)[k] == b[Wrap(pos + k, |b|)]
  {
  }

  lemma ExtendAt(b: seq<byte>, b': seq<byte>, pos: nat, n: nat, data: seq<byte>, k: nat)
    requires pos < |b| && |b'| == |b| && k < n + |data| <= |b|
    requires var w := Wrap(pos + n, |b|); w + |data| <= |b| && b' == b[..w] + data + b[w + |data|..]
    ensures b'[Wrap(pos + k, |b|)] == if k < n then b[Wrap(pos + k, |b|)] else data[k - n]
  {
    var w := Wrap(pos + n, |b|);
    var j := Wrap(pos + k, |b|);
    if k < n {
      assert j < w || j >= w + |data|;
    } else {
      assert j == w + (k - n);
    }
  }

  /** Moving a chunk from one side of the boundary to the other. */
  lemma Shift(a: seq<byte>, x: seq<byte>, rest: seq<byte>)
    ensures (a + x) + rest == a + (x + rest)
  {
  }

  lemma Cut(a: seq<byte>, rest: seq<byte>, all: seq<byte>)
    requires a + rest == all
    ensures |a| <= |all| && a == all[..|a|] && rest == all[|a|..]
  {
  }

  lemma Grown(data: seq<byte>, i: nat, j: nat, old_: seq<byte>)
    requires i <= j <= |data|
    ensures (old_ + data[..i]) + data[i..j] == old_ + data[..j]
  {
    assert data[..j] == data[..i] + data[i..j];
  }

  /** Which of the kernel's static buffers a ring is. */
  datatype Home = PipeRing(pipe: nat) | PipeSpool(pipe: nat) | ToSlave(pty: nat) | ToMaster(pty: nat)

  class Ring {
    const buf: array<byte>
    var rpos: nat
    var wpos: nat
    var used: nat
    ghost const home: Home

    ghost predicate Valid()
      reads this
    {
      rpos < buf.Length && used <= buf.Length && wpos == Wrap(rpos + used, buf.Length)
    }

    /** The bytes waiting, oldest first. */
    ghost function Contents(): seq<byte>
      requires Valid()
      reads this, buf
    {
      Window(buf[..], rpos, used)
    }

    constructor (cap: nat, ghost home: Home)
      requires cap > 0
      ensures Valid() && fresh(buf) && buf.Length == cap && Contents() == []
      ensures this.home == home
    {
      this.home := home;
      buf := new byte[cap](_ => 0);
      rpos, wpos, used := 0, 0, 0;
    }

    method Clear()
      requires Valid()
      modifies this
      ensures Valid() && Contents() == [] && used == 0
    {
      rpos, wpos, used := 0, 0, 0;
    }

    /** `user_pipe_copyout_bytes`: at most two contiguous chunks leave the front. */
    method CopyOut(maxlen: nat) returns (out: seq<byte>)
      requires Valid()
      modifies this
      ensures Valid()
      ensures var n := Min(maxlen, |old(Contents())|);
        out == old(Contents())[..n] && Contents() == old(Contents())[n..]
    {
      out := [];
      ghost var all := Contents();
      while |out| < maxlen && used > 0
        invariant Valid() && |out| <= maxlen
        invariant out + Contents() == all
        decreases used
      {
        var contiguous := Min(buf.Length - rpos, used);
        var chunk := Min(maxlen - |out|, contiguous);
        var part := TakeChunk(chunk);
        Shift(out, part, Contents());
        out := out + part;
      }
      Cut(out, Contents(), all);
    }

    /** One contiguous chunk taken off the front. */
    method TakeChunk(k: nat) returns (part: seq<byte>)
      requires Valid() && 0 < k <= used && rpos + k <= buf.Length
      modifies this
      ensures Valid() && used == old(used) - k
      ensures |part| == k && part + Contents() == old(Contents())
    {
      WindowAdvance(buf[..], rpos, used, k);
      part := buf[rpos..rpos + k];
      WrapIsMod(rpos + k, buf.Length);
      rpos := (rpos + k) % buf.Length;
      used := used - k;
    }

    /** `user_pipe_copyin_bytes`: bytes join the back until the ring is full. */
    method CopyIn(data: seq<byte>) returns (copied: nat)
      requires Valid()
      modifies this, buf
      ensures Valid()
      ensures copied == Min(|data|, buf.Length - old(used))
      ensures Contents() == old(Contents()) + data[..copied]
    {
      copied := 0;
      ghost var before := Contents();
      assert before + data[..0] == before;
      while copied < |data| && used < buf.Length
        invariant Valid() && copied <= |data| && used == old(used) + copied
        invariant Contents() == before + data[..copied]
        decreases |data| - copied
      {
        var contiguous := Min(buf.Length - wpos, buf.Length - used);
        var chunk := Min(|data| - copied, contiguous);
        PutChunk(data[copied..copied + chunk]);
        Grown(data, copied, copied + chunk, before);
        copied := copied + chunk;
      }
    }

    /** One contiguous chunk stored behind the bytes already waiting. */
    method PutChunk(part: seq<byte>)
      requires Valid() && used + |part| <= buf.Length && wpos + |part| <= buf.Length
      modifies this, buf
      ensures Valid() && used == old(used) + |part|
      ensures Contents() == old(Contents()) + part
    {
      ghost var was := buf[..];
      forall i | 0 <= i < |part| { buf[wpos + i] := part[i]; }
      assert buf[..] == was[..wpos] + part + was[wpos + |part|..];
      WindowExtend(was, buf[..], rpos, used, part);
      WrapIsMod(wpos + |part|, buf.Length);
      wpos := (wpos + |part|) % buf.Length;
      used := used + |part|;
    }
  }
}
