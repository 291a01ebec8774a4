/** The transfer loops of src/cpu/isr.c over the ring buffers of pipes and PTYs, in place.
    Each loop is proved to move exactly the bytes its step in IpcState moves. */
module IpcBuffers {
  import opened Bytes
  import opened IpcState
  import opened IpcRing

  datatype PipeRec = PipeRec(
    used: bool, fifo: bool, spoolOn: bool, readers: nat, writers: nat,
    ring: Ring, spool: Ring?, path: seq<byte>)

  datatype PtyRec = PtyRec(used: bool, masters: nat, slaves: nat, m2s: Ring, s2m: Ring)

  // ----- what the tables stand for -----

  /** Ring contents, by ring. */
  type Bank = map<Ring, seq<byte>>

  ghost predicate RingShows(r: Ring, home: Home, cap: nat, q: Bank, bytes: seq<byte>) {
    r.home == home && r.buf.Length == cap && r in q && q[r] == bytes
  }

  /** An enabled spool always has its buffer, a disabled one never. */
  ghost predicate PipeShows(r: PipeRec, i: nat, c: Caps, q: Bank, p: Pipe) {
    && p == Pipe(r.used, r.fifo, r.spoolOn, r.readers, r.writers, p.ring, p.spool, r.path)
    && RingShows(r.ring, PipeRing(i), c.ring, q, p.ring)
    && (r.spoolOn <==> r.spool != null)
    && (if r.spool == null then p.spool == [] else RingShows(r.spool, PipeSpool(i), c.spool, q, p.spool))
  }

  ghost predicate PtyShows(r: PtyRec, i: nat, c: Caps, q: Bank, t: Pty) {
    && t == Pty(r.used, r.masters, r.slaves, t.m2s, t.s2m)
    && RingShows(r.m2s, ToSlave(i), c.pty, q, t.m2s)
    && RingShows(r.s2m, ToMaster(i), c.pty, q, t.s2m)
  }

  /** The tables stand for the state. */
  ghost predicate Shows(fds: seq<Fd>, pipes: seq<PipeRec>, ptys: seq<PtyRec>, c: Caps, q: Bank, s: State) {
    && Sane(s) && s.fds == fds && |s.pipes| == |pipes| && |s.ptys| == |ptys|
    && (forall i {:trigger pipes[i]} :: 0 <= i < |pipes| ==> PipeShows(pipes[i], i, c, q, s.pipes[i]))
    && (forall i {:trigger ptys[i]} :: 0 <= i < |ptys| ==> PtyShows(ptys[i], i, c, q, s.ptys[i]))
  }

  ghost predicate Kept(q: Bank, q': Bank, r: Ring) {
    r in q ==> r in q' && q'[r] == q[r]
  }

  /** Ring contents differ at most in one pipe's rings. */
  ghost predicate PipeOnly(q: Bank, q': Bank, i: nat) {
    forall r {:trigger Kept(q, q', r)} :: r in q && r.home != PipeRing(i) && r.home != PipeSpool(i) ==> Kept(q, q', r)
  }

  ghost predicate PtyOnly(q: Bank, q': Bank, i: nat) {
    forall r {:trigger Kept(q, q', r)} :: r in q && r.home != ToSlave(i) && r.home != ToMaster(i) ==> Kept(q, q', r)
  }

  lemma PipeOnlyJoins(q0: Bank, q1: Bank, q2: Bank, i: nat)
    requires PipeOnly(q0, q1, i) && PipeOnly(q1, q2, i)
    ensures PipeOnly(q0, q2, i)
  {
    forall r | r in q0 && r.home != PipeRing(i) && r.home != PipeSpool(i) ensures Kept(q0, q2, r) {
      assert Kept(q0, q1, r) && Kept(q1, q2, r);
    }
  }

  lemma PtyOnlyJoins(q0: Bank, q1: Bank, q2: Bank, i: nat)
    requires PtyOnly(q0, q1, i) && PtyOnly(q1, q2, i)
    ensures PtyOnly(q0, q2, i)
  {
    forall r | r in q0 && r.home != ToSlave(i) && r.home != ToMaster(i) ensures Kept(q0, q2, r) {
      assert Kept(q0, q1, r) && Kept(q1, q2, r);
    }
  }

  /** Changing one pipe's record and rings changes that pipe of the state. */
  lemma ShowPipe(
    fds: seq<Fd>, pipes: seq<PipeRec>, ptys: seq<PtyRec>, c: Caps, q: Bank, s: State, i: nat, r: PipeRec,
    q': Bank, p: Pipe)
    requires Shows(fds, pipes, ptys, c, q, s) && i < |pipes|
    requires PipeOnly(q, q', i) && PipeShows(r, i, c, q', p)
    ensures Shows(fds, pipes[i := r], ptys, c, q', s.(pipes := s.pipes[i := p]))
  {
    forall j | 0 <= j < |pipes| && j != i ensures PipeShows(pipes[j], j, c, q', s.pipes[j]) {
      assert PipeShows(pipes[j], j, c, q, s.pipes[j]);
      assert Kept(q, q', pipes[j].ring) && (pipes[j].spool != null ==> Kept(q, q', pipes[j].spool));
    }
    forall j | 0 <= j < |ptys| ensures PtyShows(ptys[j], j, c, q', s.ptys[j]) {
      assert PtyShows(ptys[j], j, c, q, s.ptys[j]);
      assert Kept(q, q', ptys[j].m2s) && Kept(q, q', ptys[j].s2m);
    }
  }

  lemma ShowPty(
    fds: seq<Fd>, pipes: seq<PipeRec>, ptys: seq<PtyRec>, c: Caps, q: Bank, s: State, i: nat, r: PtyRec,
    q': Bank, t: Pty)
    requires Shows(fds, pipes, ptys, c, q, s) && i < |ptys|
    requires PtyOnly(q, q', i) && PtyShows(r, i, c, q', t)
    ensures Shows(fds, pipes, ptys[i := r], c, q', s.(ptys := s.ptys[i := t]))
  {
    forall j | 0 <= j < |pipes| ensures PipeShows(pipes[j], j, c, q', s.pipes[j]) {
      assert PipeShows(pipes[j], j, c, q, s.pipes[j]);
      assert Kept(q, q', pipes[j].ring) && (pipes[j].spool != null ==> Kept(q, q', pipes[j].spool));
    }
    forall j | 0 <= j < |ptys| && j != i ensures PtyShows(ptys[j], j, c, q', s.ptys[j]) {
      assert PtyShows(ptys[j], j, c, q, s.ptys[j]);
      assert Kept(q, q', ptys[j].m2s) && Kept(q, q', ptys[j].s2m);
    }
  }

  // ----- the buffers -----

  class Buffers {
    ghost var q: Bank
    ghost var Repr: set<object>

    ghost predicate Valid()
      reads this, Repr
    {
      && this in Repr
      && (forall r :: r in q ==> r in Repr && r.buf in Repr)
      && (forall r {:trigger r.Valid()} :: r in q ==> r.Valid() && r.Contents() == q[r])
      && (forall a, b :: a in q && b in q && a.buf == b.buf ==> a == b)
    }

    constructor ()
      ensures Valid() && q == map[] && Repr == {this}
    {
      q, Repr := map[], {this};
    }

    method Allocate(cap: nat, ghost home: Home) returns (r: Ring)
      requires Valid() && cap > 0
      modifies this
      ensures Valid() && r !in old(q) && q == old(q)[r := []]
      ensures fresh(Repr - old(Repr)) && r in Repr
      ensures r.home == home && r.buf.Length == cap
    {
      r := new Ring(cap, home);
      q, Repr := q[r := []], Repr + {r, r.buf};
    }

    method Drain(r: Ring, maxlen: nat) returns (out: seq<byte>)
      requires Valid() && r in q
      modifies this`q, r
      ensures Valid()
      ensures var n := Min(maxlen, |old(q)[r]|);
        out == old(q)[r][..n] && q == old(q)[r := old(q)[r][n..]]
    {
      assert r.Valid();
      out := r.CopyOut(maxlen);
      q := q[r := r.Contents()];
    }

    method Feed(r: Ring, data: seq<byte>) returns (n: nat)
      requires Valid() && r in q
      modifies this`q, r, r.buf
      ensures Valid() && |old(q)[r]| <= r.buf.Length
      ensures n == Min(|data|, r.buf.Length - |old(q)[r]|) && q == old(q)[r := old(q)[r] + data[..n]]
    {
      assert r.Valid();
      n := r.CopyIn(data);
      q := q[r := r.Contents()];
    }

    method Empty(r: Ring)
      requires Valid() && r in q
      modifies this`q, r
      ensures Valid() && q == old(q)[r := []]
    {
      assert r.Valid();
      r.Clear();
      q := q[r := []];
    }

    method Waiting(r: Ring) returns (n: nat)
      requires Valid() && r in q
      ensures n == |q[r]| <= r.buf.Length
    {
      assert r.Valid();
      n := r.used;
    }

    // ----- one pipe -----

    /** The rings of pipe `i` moved from `v` to `v'`; no other ring did. */
    twostate predicate Moved(p: PipeRec, i: nat, c: Caps, v': Pipe)
      reads this
    {
      Repr == old(Repr) && PipeOnly(old(q), q, i) && PipeShows(p, i, c, q, v')
    }

    method DrainRing(p: PipeRec, ghost i: nat, ghost c: Caps, ghost v: Pipe, maxlen: nat) returns (out: seq<byte>)
      requires Valid() && PipeShows(p, i, c, q, v)
      modifies Repr
      ensures |out| == Min(maxlen, |v.ring|) && out == v.ring[..|out|]
      ensures Valid() && Moved(p, i, c, v.(ring := v.ring[|out|..]))
    {
      out := Drain(p.ring, maxlen);
    }

    method DrainSpool(p: PipeRec, ghost i: nat, ghost c: Caps, ghost v: Pipe, maxlen: nat) returns (out: seq<byte>)
      requires Valid() && PipeShows(p, i, c, q, v) && p.spool != null
      modifies Repr
      ensures |out| == Min(maxlen, |v.spool|) && out == v.spool[..|out|]
      ensures Valid() && Moved(p, i, c, v.(spool := v.spool[|out|..]))
    {
      out := Drain(p.spool, maxlen);
    }

    method FeedRing(p: PipeRec, ghost i: nat, ghost c: Caps, ghost v: Pipe, data: seq<byte>) returns (n: nat)
      requires Valid() && PipeShows(p, i, c, q, v)
      modifies Repr
      ensures n == RingRoom(v, c, |data|)
      ensures Valid() && Moved(p, i, c, v.(ring := v.ring + data[..n]))
    {
      n := Feed(p.ring, data);
    }

    method FeedSpool(p: PipeRec, ghost i: nat, ghost c: Caps, ghost v: Pipe, data: seq<byte>) returns (n: nat)
      requires Valid() && PipeShows(p, i, c, q, v) && p.spool != null
      modifies Repr
      ensures n == SpoolRoom(v, c, |data|)
      ensures Valid() && Moved(p, i, c, v.(spool := v.spool + data[..n]))
    {
      n := Feed(p.spool, data);
    }

    /** Bytes waiting in the ring and in the spool. */
    method Levels(p: PipeRec, ghost i: nat, ghost c: Caps, ghost v: Pipe) returns (inRing: nat, inSpool: nat)
      requires Valid() && PipeShows(p, i, c, q, v)
      ensures inRing == |v.ring| <= c.ring && inSpool == |v.spool|
    {
      inRing := Waiting(p.ring);
      inSpool := 0;
      if p.spool != null { inSpool := Waiting(p.spool); }
    }

    /** `user_pipe_read` on the two rings of a pipe. */
    method ReadRings(p: PipeRec, ghost i: nat, ghost c: Caps, ghost v: Pipe, maxlen: nat, nonblock: bool, intr: bool)
      returns (r: Ret)
      requires Valid() && PipeShows(p, i, c, q, v)
      modifies Repr
      ensures Valid() && Moved(p, i, c, ReadPipe(v, maxlen, nonblock, intr).0)
      ensures r == ReadPipe(v, maxlen, nonblock, intr).1
    {
      if !p.used { return Fail; }
      if maxlen == 0 { return Data([]); }
      var inRing, inSpool := Levels(p, i, c, v);
      if inRing == 0 && inSpool == 0 {
        return if p.writers == 0 then Data([]) else if nonblock || intr then Fail else Blocked(0);
      }
      var out := DrainRing(p, i, c, v, maxlen);
      if |out| >= maxlen || inSpool == 0 {
        ReadValue(v, maxlen, nonblock, intr, |out|, 0);
        return Data(out);
      }
      ghost var q1 := q;
      var more := DrainSpool(p, i, c, v.(ring := v.ring[|out|..]), maxlen - |out|);
      PipeOnlyJoins(old(q), q1, q, i);
      ReadValue(v, maxlen, nonblock, intr, |out|, |more|);
      return Data(out + more);
    }

    /** One turn of the write loop, entered with room somewhere: into the ring if it has room, else
        into the spool. The fall-through is never reached: an enabled spool has its buffer. */
    method WriteChunk(p: PipeRec, ghost i: nat, c: Caps, ghost v: Pipe, data: seq<byte>, n: nat) returns (k: nat)
      requires n < |data| && n <= Room(v, c, |data|)
      requires var w := Placed(v, c, data[..n]); Valid() && PipeShows(p, i, c, q, w) && HasRoom(w, c)
      modifies Repr
      ensures 0 < k && n + k <= Room(v, c, |data|) && Valid() && Moved(p, i, c, Placed(v, c, data[..n + k]))
    {
      ghost var w := Placed(v, c, data[..n]);
      var inRing, inSpool := Levels(p, i, c, w);
      if inRing < c.ring {
        PlacedRing(v, c, data, n, w);
        k := FeedRing(p, i, c, w, data[n..]);
      } else if p.spoolOn && p.spool != null && inSpool < c.spool {
        PlacedSpool(v, c, data, n, w);
        k := FeedSpool(p, i, c, w, data[n..]);
      } else {
        assert false;
      }
    }

    method Full(p: PipeRec, ghost i: nat, c: Caps, ghost w: Pipe) returns (full: bool)
      requires Valid() && PipeShows(p, i, c, q, w)
      ensures full == !HasRoom(w, c)
      ensures p.readers == w.readers
    {
      var inRing, inSpool := Levels(p, i, c, w);
      full := inRing >= c.ring && (!p.spoolOn || inSpool >= c.spool);
    }

    /** The write loop of `user_pipe_write` up to the point where it is done or both rings are full. */
    method FillRings(p: PipeRec, ghost i: nat, c: Caps, ghost v: Pipe, data: seq<byte>) returns (n: nat)
      requires Valid() && PipeShows(p, i, c, q, v)
      modifies Repr
      ensures Valid() && Moved(p, i, c, Filled(v, c, data))
      ensures n == Room(v, c, |data|)
    {
      n := 0;
      while n < |data|
        invariant n <= Room(v, c, |data|)
        invariant Valid() && Moved(p, i, c, Placed(v, c, data[..n]))
        decreases |data| - n
      {
        var full := Full(p, i, c, Placed(v, c, data[..n]));
        if full {
          break;
        }
        ghost var q1 := q;
        var k := WriteChunk(p, i, c, v, data, n);
        PipeOnlyJoins(old(q), q1, q, i);
        n := n + k;
      }
      PlacedAll(v, c, data, n);
    }

    /** The rest of `user_pipe_write`: return or sleep. */
    method WriteRings(
      p: PipeRec, ghost i: nat, c: Caps, ghost v: Pipe, data: seq<byte>, done: nat, nonblock: bool,
      intr: bool)
      returns (r: Ret)
      requires Valid() && PipeShows(p, i, c, q, v)
      modifies Repr
      ensures Valid() && Moved(p, i, c, WriteLoop(v, c, data, done, nonblock, intr).0)
      ensures r == WriteLoop(v, c, data, done, nonblock, intr).1
    {
      var n := FillRings(p, i, c, v, data);
      if n == |data| { return Count(done + n); }
      if p.readers != 0 && !nonblock && !intr { return Blocked(done + n); }
      return if done + n > 0 then Count(done + n) else Fail;
    }

    method EmptyPipe(p: PipeRec, ghost i: nat, ghost c: Caps, ghost v: Pipe)
      requires Valid() && PipeShows(p, i, c, q, v)
      modifies Repr
      ensures Valid() && Moved(p, i, c, v.(ring := [], spool := []))
    {
      Empty(p.ring);
      if p.spool != null { Empty(p.spool); }
    }

    // ----- one PTY -----

    method EmptyPty(p: PtyRec, ghost i: nat, ghost c: Caps, ghost t: Pty)
      requires Valid() && PtyShows(p, i, c, q, t)
      modifies Repr
      ensures Valid() && MovedPty(p, i, c, t.(m2s := [], s2m := []))
    {
      Empty(p.m2s);
      Empty(p.s2m);
    }

    twostate predicate MovedPty(p: PtyRec, i: nat, c: Caps, t': Pty)
      reads this
    {
      Repr == old(Repr) && PtyOnly(old(q), q, i) && PtyShows(p, i, c, q, t')
    }

    /** `user_pty_read`. */
    method ReadPtyRing(
      p: PtyRec, ghost i: nat, ghost c: Caps, ghost t: Pty, side: Side, maxlen: nat, nonblock: bool,
      intr: bool)
      returns (r: Ret)
      requires Valid() && PtyShows(p, i, c, q, t)
      modifies Repr
      ensures Valid() && MovedPty(p, i, c, ReadPty(t, side, maxlen, nonblock, intr).0)
      ensures r == ReadPty(t, side, maxlen, nonblock, intr).1
    {
      if !p.used { return Fail; }
      if maxlen == 0 { return Data([]); }
      var src, peers := if side.Master? then p.s2m else p.m2s, if side.Master? then p.slaves else p.masters;
      var waiting := Waiting(src);
      if waiting == 0 {
        return if peers == 0 then Data([]) else if nonblock || intr then Fail else Blocked(0);
      }
      var out := Drain(src, maxlen);
      return Data(out);
    }

    method FeedPty(p: PtyRec, ghost i: nat, ghost c: Caps, ghost t: Pty, side: Side, data: seq<byte>) returns (n: nat)
      requires Valid() && PtyShows(p, i, c, q, t)
      modifies Repr
      ensures n == PtyRoom(t, c, side, |data|)
      ensures Valid() && MovedPty(p, i, c, PtyPut(t, side, data[..n]))
    {
      n := Feed(if side.Master? then p.m2s else p.s2m, data);
    }

    /** The write loop of `user_pty_write` up to the point where it is done or the ring is full. */
    method FillPty(p: PtyRec, ghost i: nat, c: Caps, ghost t: Pty, side: Side, data: seq<byte>) returns (n: nat)
      requires Valid() && PtyShows(p, i, c, q, t)
      modifies Repr
      ensures n == PtyRoom(t, c, side, |data|)
      ensures Valid() && MovedPty(p, i, c, PtyPut(t, side, data[..n]))
    {
      n := 0;
      PtyPutNone(t, side, data);
      while n < |data|
        invariant n <= PtyRoom(t, c, side, |data|)
        invariant Valid() && MovedPty(p, i, c, PtyPut(t, side, data[..n]))
        decreases |data| - n
      {
        var waiting := Waiting(if side.Master? then p.m2s else p.s2m);
        if waiting >= c.pty {
          break;
        }
        ghost var q1, t1 := q, PtyPut(t, side, data[..n]);
        var wrote := FeedPty(p, i, c, t1, side, data[n..]);
        PtyOnlyJoins(old(q), q1, q, i);
        PtyPutMore(t, side, data, n, wrote);
        assert PtyShows(p, i, c, q, PtyPut(t, side, data[..n + wrote]));
        n := n + wrote;
      }
    }

    /** The rest of `user_pty_write`. */
    method WritePtyRing(
      p: PtyRec, ghost i: nat, c: Caps, ghost t: Pty, side: Side, data: seq<byte>, done: nat, nonblock: bool,
      intr: bool)
      returns (r: Ret)
      requires Valid() && PtyShows(p, i, c, q, t)
      modifies Repr
      ensures Valid() && MovedPty(p, i, c, PtyLoop(t, c, side, data, done, nonblock, intr).0)
      ensures r == PtyLoop(t, c, side, data, done, nonblock, intr).1
    {
      var n := FillPty(p, i, c, t, side, data);
      if n == |data| { return Count(done + n); }
      var peers := if side.Master? then p.slaves else p.masters;
      if peers != 0 && !nonblock && !intr { return Blocked(done + n); }
      return if done + n > 0 then Count(done + n) else Fail;
    }
  }

  function PtyPut(t: Pty, side: Side, bytes: seq<byte>): Pty {
    SetIncoming(t, Peer(side), Incoming(t, Peer(side)) + bytes)
  }

  lemma PtyPutNone(t: Pty, side: Side, data: seq<byte>)
    ensures PtyPut(t, side, data[..0]) == t
  {
    Join(Incoming(t, Peer(side)), data, 0, 0, 0);
  }

  lemma PtyPutMore(t: Pty, side: Side, data: seq<byte>, n: nat, k: nat)
    requires n + k <= |data|
    ensures PtyPut(PtyPut(t, side, data[..n]), side, data[n..][..k]) == PtyPut(t, side, data[..n + k])
  {
    Join(Incoming(t, Peer(side)), data, 0, n, n + k);
  }

  function PtyRoom(t: Pty, c: Caps, side: Side, len: nat): nat {
    var q := Incoming(t, Peer(side));
    if |q| < c.pty then Min(len, c.pty - |q|) else 0
  }

  // ----- the values the write loop passes through -----

  lemma ReadValue(v: Pipe, maxlen: nat, nonblock: bool, intr: bool, a: nat, b: nat)
    requires v.used && maxlen > 0 && (v.ring != [] || v.spool != [])
    requires a == Min(maxlen, |v.ring|) && b == Min(maxlen - a, |v.spool|)
    ensures ReadPipe(v, maxlen, nonblock, intr) ==
      (v.(ring := v.ring[a..], spool := v.spool[b..]), Data(v.ring[..a] + v.spool[..b]))
    ensures b == 0 ==> ReadPipe(v, maxlen, nonblock, intr) == (v.(ring := v.ring[a..]), Data(v.ring[..a]))
  {
    if b == 0 {
      assert v.spool[0..] == v.spool && v.ring[..a] + v.spool[..0] == v.ring[..a];
    }
  }

  predicate HasRoom(w: Pipe, c: Caps) {
    |w.ring| < c.ring || (w.spoolOn && |w.spool| < c.spool)
  }

  /** Bytes placed one at a time: in the ring while it has room, then in the spool. */
  function Placed(v: Pipe, c: Caps, data: seq<byte>): Pipe {
    if data == [] then v
    else
      var w := Placed(v, c, data[..|data| - 1]);
      var b := [data[|data| - 1]];
      if |w.ring| < c.ring then w.(ring := w.ring + b) else w.(spool := w.spool + b)
  }

  /** Placing bytes one at a time is filling the ring and then the spool. */
  lemma {:induction false} PlacedForm(v: Pipe, c: Caps, data: seq<byte>, n: nat)
    requires n <= |data|
    ensures var a := RingRoom(v, c, n);
      Placed(v, c, data[..n]) == v.(ring := v.ring + data[..a], spool := v.spool + data[a..n])
  {
    if n == 0 {
      Join(v.ring, data, 0, 0, 0);
      Join(v.spool, data, 0, 0, 0);
    } else {
      PlacedForm(v, c, data, n - 1);
      assert data[..n][..n - 1] == data[..n - 1] && [data[..n][n - 1]] == data[n - 1..n];
      var a := RingRoom(v, c, n - 1);
      if a == n - 1 {
        Join(v.ring, data, 0, n - 1, n);
        Join(v.spool, data, n - 1, n - 1, n);
        Join(v.spool, data, n, n, n);
      } else {
        Join(v.spool, data, a, n - 1, n);
      }
    }
  }

  lemma Join(base: seq<byte>, data: seq<byte>, a: nat, i: nat, j: nat)
    requires a <= i <= j <= |data|
    ensures (base + data[a..i]) + data[i..j] == base + data[a..j]
    ensures a == i ==> base + data[a..i] == base
    ensures data[i..][..j - i] == data[i..j] && data[0..j] == data[..j]
  {
    assert data[a..j] == data[a..i] + data[i..j];
  }

  /** While all of it fits the ring, placing is appending to the ring. */
  lemma {:induction false} PlacedInRing(v: Pipe, c: Caps, data: seq<byte>, n: nat)
    requires n <= |data| && RingRoom(v, c, n) == n
    ensures Placed(v, c, data[..n]) == v.(ring := v.ring + data[..n])
  {
    PlacedForm(v, c, data, n);
    Join(v.spool, data, n, n, n);
  }

  lemma {:induction false} PlacedRing(v: Pipe, c: Caps, data: seq<byte>, n: nat, w: Pipe)
    requires n < |data| && n <= Room(v, c, |data|) && w == Placed(v, c, data[..n]) && |w.ring| < c.ring
    ensures var k := RingRoom(w, c, |data| - n);
      && 0 < k && n + k <= Room(v, c, |data|)
      && Placed(v, c, data[..n + k]) == w.(ring := w.ring + data[n..][..k])
  {
    RingNotFull(v, c, data, n, w);
    PlacedWithin(v, c, data, n, n + RingRoom(w, c, |data| - n));
  }

  lemma {:induction false} PlacedWithin(v: Pipe, c: Caps, data: seq<byte>, n: nat, m: nat)
    requires n <= m <= |data| && RingRoom(v, c, n) == n && RingRoom(v, c, m) == m
    ensures var w := Placed(v, c, data[..n]);
      Placed(v, c, data[..m]) == w.(ring := w.ring + data[n..][..m - n])
  {
    PlacedInRing(v, c, data, n);
    PlacedInRing(v, c, data, m);
    Join(v.ring, data, 0, n, m);
  }

  /** While the ring has room everything went there. */
  lemma {:induction false} RingNotFull(v: Pipe, c: Caps, data: seq<byte>, n: nat, w: Pipe)
    requires n < |data| && w == Placed(v, c, data[..n]) && |w.ring| < c.ring
    ensures RingRoom(v, c, n) == n && |w.ring| == |v.ring| + n
    ensures var k := RingRoom(w, c, |data| - n); RingRoom(v, c, n + k) == n + k
  {
    PlacedForm(v, c, data, n);
  }

  lemma {:induction false} PlacedSpool(v: Pipe, c: Caps, data: seq<byte>, n: nat, w: Pipe)
    requires n < |data| && n <= Room(v, c, |data|) && w == Placed(v, c, data[..n])
    requires |w.ring| >= c.ring && w.spoolOn && |w.spool| < c.spool
    ensures var k := SpoolRoom(w, c, |data| - n);
      && 0 < k && n + k <= Room(v, c, |data|)
      && Placed(v, c, data[..n + k]) == w.(spool := w.spool + data[n..][..k])
  {
    RingFull(v, c, data, n, w);
    PlacedBeyond(v, c, data, RingRoom(v, c, n), n, n + SpoolRoom(w, c, |data| - n));
  }

  lemma {:induction false} PlacedBeyond(v: Pipe, c: Caps, data: seq<byte>, a: nat, n: nat, m: nat)
    requires a <= n <= m <= |data| && a == RingRoom(v, c, n) == RingRoom(v, c, m)
    ensures var w := Placed(v, c, data[..n]);
      Placed(v, c, data[..m]) == w.(spool := w.spool + data[n..][..m - n])
  {
    PlacedForm(v, c, data, n);
    PlacedForm(v, c, data, m);
    Join(v.spool, data, a, n, m);
  }

  /** Once the ring is full it takes no more. */
  lemma {:induction false} RingFull(v: Pipe, c: Caps, data: seq<byte>, n: nat, w: Pipe)
    requires n < |data| && n <= Room(v, c, |data|) && w == Placed(v, c, data[..n])
    requires |w.ring| >= c.ring && w.spoolOn && |w.spool| < c.spool
    ensures var k := SpoolRoom(w, c, |data| - n);
      0 < k && n + k <= Room(v, c, |data|) && RingRoom(v, c, n + k) == RingRoom(v, c, n)
  {
    PlacedForm(v, c, data, n);
  }

  lemma PlacedAll(v: Pipe, c: Caps, data: seq<byte>, n: nat)
    requires n <= Room(v, c, |data|)
    requires n == |data| || !HasRoom(Placed(v, c, data[..n]), c)
    ensures n == Room(v, c, |data|) && Placed(v, c, data[..n]) == Filled(v, c, data)
  {
    PlacedForm(v, c, data, n);
  }
}
