/** Byte streams over whole runs: what goes into a pipe or a PTY direction comes out, in order. */
module IpcStreams {
  import opened Bytes
  import opened IpcState
  import opened IpcInvariant

  /** A one-way byte queue: a pipe, or the PTY direction towards one side. */
  datatype Chan = PipeC(pipe: nat) | PtyC(pty: nat, to: Side)

  predicate ChanIn(s: State, ch: Chan) {
    match ch
    case PipeC(i) => i < |s.pipes|
    case PtyC(i, _) => i < |s.ptys|
  }

  /** The bytes waiting in the channel, next one to be delivered first. */
  function Queue(s: State, ch: Chan): seq<byte>
    requires ChanIn(s, ch)
  {
    match ch
    case PipeC(i) => Buffered(s.pipes[i])
    case PtyC(i, to) => Incoming(s.ptys[i], to)
  }

  /** Some descriptor is open on the object. */
  predicate Held(s: State, ch: Chan)
    requires ChanIn(s, ch)
  {
    match ch
    case PipeC(i) => s.pipes[i].readers + s.pipes[i].writers > 0
    case PtyC(i, _) => s.ptys[i].masters + s.ptys[i].slaves > 0
  }

  predicate ReadsFrom(t: Target, ch: Chan) {
    match ch
    case PipeC(i) => t.PipeT? && t.pipe == i
    case PtyC(i, to) => t == PtyT(i, to)
  }

  predicate WritesTo(t: Target, ch: Chan) {
    match ch
    case PipeC(i) => t.PipeT? && t.pipe == i
    case PtyC(i, to) => t == PtyT(i, Peer(to))
  }

  predicate IsWrite(op: Op) {
    op.OpWrite? || op.OpResume?
  }

  function Base(op: Op): nat {
    if op.OpResume? then op.done else 0
  }

  /** How many of the offered bytes a write step took, by its return value. */
  function Took(op: Op, r: Ret): int {
    match r
    case Count(n) => n - Base(op)
    case Blocked(n) => n - Base(op)
    case _ => 0
  }

  predicate Writing(s: State, op: Op, ch: Chan) {
    IsWrite(op) && OpenFd(s, op.fd) && WritesTo(s.fds[op.fd].target, ch)
  }

  predicate Reading(s: State, op: Op, ch: Chan) {
    op.OpRead? && OpenFd(s, op.fd) && ReadsFrom(s.fds[op.fd].target, ch)
  }

  /** Bytes a step puts into the channel. */
  function Accepts(s: State, c: Caps, op: Op, ch: Chan): seq<byte>
    requires Sane(s)
  {
    var k := Took(op, Step(s, c, op).1);
    if Writing(s, op, ch) && 0 <= k <= |op.data| then op.data[..k] else []
  }

  /** Bytes a step hands to a reader of the channel. */
  function Delivers(s: State, c: Caps, op: Op, ch: Chan): seq<byte>
    requires Sane(s)
  {
    var r := Step(s, c, op).1;
    if Reading(s, op, ch) && r.Data? then r.bytes else []
  }

  /** A write that lands behind everything already buffered: the guard `spool empty or ring full`. */
  predicate Ordered(s: State, c: Caps, op: Op, ch: Chan)
    requires ChanIn(s, ch)
  {
    Writing(s, op, ch) && ch.PipeC? ==> s.pipes[ch.pipe].spool == [] || |s.pipes[ch.pipe].ring| >= c.ring
  }

  /** Turning the spool off throws its bytes away. */
  predicate Discards(s: State, op: Op, ch: Chan) {
    op.OpSpool? && !op.on && ch.PipeC? && OpenFd(s, op.fd) && s.fds[op.fd].target.PipeT? &&
      s.fds[op.fd].target.pipe == ch.pipe
  }

  // ----- one transfer -----

  lemma Pull(ring: seq<byte>, spool: seq<byte>, a: nat, b: nat)
    requires a <= |ring| && b <= |spool| && (b > 0 ==> a == |ring|)
    ensures ring + spool == (ring[..a] + spool[..b]) + (ring[a..] + spool[b..])
  {
    if b == 0 {
      assert spool[..b] == [] && spool[b..] == spool;
      assert ring[..a] + (ring[a..] + spool) == (ring[..a] + ring[a..]) + spool;
      assert ring[..a] + ring[a..] == ring;
    } else {
      assert ring[..a] == ring && ring[a..] == [];
    }
  }

  lemma Push(ring: seq<byte>, spool: seq<byte>, x: seq<byte>, y: seq<byte>)
    ensures x == [] || spool == [] ==> (ring + x) + (spool + y) == (ring + spool) + (x + y)
    ensures multiset((ring + x) + (spool + y)) == multiset(ring + spool) + multiset(x + y)
  {
    assert multiset((ring + x) + (spool + y)) == multiset(ring) + multiset(x) + multiset(spool) + multiset(y);
  }

  /** Reading takes a prefix of ring-then-spool, as long as asked for and available. */
  lemma ReadTakesPrefix(p: Pipe, n: nat, nonblock: bool, intr: bool)
    ensures ReadPipe(p, n, nonblock, intr).1.Data? ==>
      Buffered(p) == ReadPipe(p, n, nonblock, intr).1.bytes + Buffered(ReadPipe(p, n, nonblock, intr).0)
    ensures p.used && n > 0 && Buffered(p) != [] ==>
      ReadPipe(p, n, nonblock, intr).1.Data? && |ReadPipe(p, n, nonblock, intr).1.bytes| == Min(n, |Buffered(p)|)
    ensures !ReadPipe(p, n, nonblock, intr).1.Data? ==> ReadPipe(p, n, nonblock, intr).0 == p
  {
    if p.used && n > 0 && Buffered(p) != [] {
      var a := Min(n, |p.ring|);
      var b := Min(n - a, |p.spool|);
      Pull(p.ring, p.spool, a, b);
      var (p', r) := ReadPipe(p, n, nonblock, intr);
      assert p' == p.(ring := p.ring[a..], spool := p.spool[b..]);
      assert r == Data(p.ring[..a] + p.spool[..b]);
    } else {
      assert [] + Buffered(p) == Buffered(p);
    }
  }

  /** Free ring bytes plus, with the spool on, free spool bytes. */
  function FreeBytes(p: Pipe, c: Caps): nat
    requires |p.ring| <= c.ring && |p.spool| <= c.spool
  {
    c.ring - |p.ring| + (if p.spoolOn then c.spool - |p.spool| else 0)
  }

  /** What the write loop does: the bytes taken split into a ring part and a spool part, and the
      count is exactly what both had room for. */
  lemma LoopEffect(p: Pipe, c: Caps, data: seq<byte>, done: nat, nonblock: bool, intr: bool)
    requires |p.ring| <= c.ring && |p.spool| <= c.spool && (!p.spoolOn ==> p.spool == [])
    ensures var (p', r) := WriteLoop(p, c, data, done, nonblock, intr);
      var n := Min(|data|, FreeBytes(p, c));
      && n == Room(p, c, |data|) && p' == Filled(p, c, data)
      && |Buffered(p')| == |Buffered(p)| + n
      && (r == Count(done + n) || r == Blocked(done + n) || (r == Fail && done == n == 0))
  {
  }

  /** A non-blocking write ends, takes exactly what fits, and fails exactly when the pipe is
      dead, has no reader, or has no free byte. */
  lemma NonblockingWrite(p: Pipe, c: Caps, data: seq<byte>, intr: bool)
    requires PipeOk(p, c) && data != []
    ensures var (p', r) := WritePipe(p, c, data, true, intr);
      && (r == Fail <==> !p.used || p.readers == 0 || FreeBytes(p, c) == 0)
      && (r != Fail ==> r == Count(Min(|data|, FreeBytes(p, c))))
      && |Buffered(p')| == |Buffered(p)| + (if r.Count? then r.n else 0)
  {
    LoopEffect(p, c, data, 0, true, intr);
  }

  /** A write appends in order, whatever its bytes, exactly when the spool is empty or the ring full. */
  lemma {:induction false} InOrderIff(p: Pipe, c: Caps, nonblock: bool, intr: bool)
    requires PipeOk(p, c) && p.used && p.readers > 0
    ensures (p.spool == [] || |p.ring| >= c.ring) <==>
      forall data: seq<byte> :: AppendsInOrder(p, c, data, nonblock, intr)
  {
    if p.spool == [] || |p.ring| >= c.ring {
      forall data: seq<byte> ensures AppendsInOrder(p, c, data, nonblock, intr) {
        KeepsOrder(p, c, data, nonblock, intr);
      }
    } else {
      var b: byte := if p.spool[0] == 0 then 1 else 0;
      var data := [b];
      Overtakes(p, c, data, nonblock, intr);
    }
  }

  lemma {:induction false} KeepsOrder(p: Pipe, c: Caps, data: seq<byte>, nonblock: bool, intr: bool)
    requires PipeOk(p, c) && p.used && p.readers > 0 && (p.spool == [] || |p.ring| >= c.ring)
    ensures AppendsInOrder(p, c, data, nonblock, intr)
  {
    LoopInOrder(p, c, data, 0, nonblock, intr);
    if data == [] {
      assert Buffered(p) + data[..0] == Buffered(p);
    }
  }

  /** A byte unlike the oldest spooled one, written while the ring has room, goes before it. */
  lemma {:induction false} Overtakes(p: Pipe, c: Caps, data: seq<byte>, nonblock: bool, intr: bool)
    requires PipeOk(p, c) && p.used && p.readers > 0 && p.spool != [] && |p.ring| < c.ring
    requires |data| == 1 && data[0] != p.spool[0]
    ensures !AppendsInOrder(p, c, data, nonblock, intr)
  {
    var q := WritePipe(p, c, data, nonblock, intr).0;
    assert RingRoom(p, c, 1) == 1 && Room(p, c, 1) == 1;
    assert data[..1] == data && data[1..1] == [];
    assert q.ring == p.ring + data && q.spool == p.spool;
    var at := |p.ring|;
    assert Buffered(q)[at] == data[0];
    assert (Buffered(p) + data)[at] == p.spool[0];
    assert |Buffered(q)| - |Buffered(p)| == 1;
  }

  predicate AppendsInOrder(p: Pipe, c: Caps, data: seq<byte>, nonblock: bool, intr: bool) {
    var (p', r) := WritePipe(p, c, data, nonblock, intr);
    var n := |Buffered(p')| - |Buffered(p)|;
    0 <= n <= |data| && Buffered(p') == Buffered(p) + data[..n]
  }

  lemma LoopInOrder(p: Pipe, c: Caps, data: seq<byte>, done: nat, nonblock: bool, intr: bool)
    requires |p.ring| <= c.ring && |p.spool| <= c.spool && (!p.spoolOn ==> p.spool == [])
    requires p.spool == [] || |p.ring| >= c.ring
    ensures var (p', r) := WriteLoop(p, c, data, done, nonblock, intr);
      var n := |Buffered(p')| - |Buffered(p)|;
      && 0 <= n <= |data| && Buffered(p') == Buffered(p) + data[..n]
      && (r == Count(done + n) || r == Blocked(done + n) || (r == Fail && n == 0))
  {
    LoopEffect(p, c, data, done, nonblock, intr);
    LoopSplit(p, c, data, done, nonblock, intr);
  }

  lemma LoopSplit(p: Pipe, c: Caps, data: seq<byte>, done: nat, nonblock: bool, intr: bool)
    requires |p.ring| <= c.ring && |p.spool| <= c.spool && (!p.spoolOn ==> p.spool == [])
    ensures var p' := WriteLoop(p, c, data, done, nonblock, intr).0;
      var n := |Buffered(p')| - |Buffered(p)|;
      && 0 <= n <= |data| && multiset(Buffered(p')) == multiset(Buffered(p)) + multiset(data[..n])
      && (p.spool == [] || |p.ring| >= c.ring ==> Buffered(p') == Buffered(p) + data[..n])
  {
    LoopEffect(p, c, data, done, nonblock, intr);
    FilledSplit(p, c, data);
  }

  lemma FilledSplit(p: Pipe, c: Caps, data: seq<byte>)
    ensures multiset(Buffered(Filled(p, c, data))) == multiset(Buffered(p)) + multiset(data[..Room(p, c, |data|)])
    ensures p.spool == [] || |p.ring| >= c.ring ==>
      Buffered(Filled(p, c, data)) == Buffered(p) + data[..Room(p, c, |data|)]
  {
    var a, n := RingRoom(p, c, |data|), Room(p, c, |data|);
    var x, y := data[..a], data[a..n];
    Push(p.ring, p.spool, x, y);
    assert x + y == data[..n];
  }

  // ----- steps that move no byte of the channel -----

  /** The channel's bytes are as before, or nobody holds it any more. */
  predicate KeptOrDropped(s: State, s': State, ch: Chan)
    requires ChanIn(s, ch) && ChanIn(s', ch)
  {
    Queue(s', ch) == Queue(s, ch) || !Held(s', ch)
  }

  lemma ReleaseKeepsQueue(s: State, fd: nat, ch: Chan)
    requires Sane(s) && fd < |s.fds| && ChanIn(s, ch)
    ensures ChanIn(Release(s, fd), ch) && KeptOrDropped(s, Release(s, fd), ch)
    ensures Held(s, ch) || !Held(Release(s, fd), ch)
  {
  }

  lemma AttachKeepsQueue(s: State, fd: nat, t: Target, nonblock: bool, ch: Chan)
    requires fd < |s.fds| && InRange(s, t) && ChanIn(s, ch)
    ensures ChanIn(Attach(s, fd, t, nonblock), ch) && Queue(Attach(s, fd, t, nonblock), ch) == Queue(s, ch)
    ensures Held(Attach(s, fd, t, nonblock), ch) ==>
      Held(s, ch) || (ch.PipeC? && t.PipeT? && t.pipe == ch.pipe) || (ch.PtyC? && t.PtyT? && t.pty == ch.pty)
  {
  }

  lemma HeldIsUsed(s: State, c: Caps, ch: Chan)
    requires Inv(s, c) && ChanIn(s, ch) && Held(s, ch)
    ensures match ch case PipeC(i) => s.pipes[i].used case PtyC(i, _) => s.ptys[i].used
  {
    match ch
    case PipeC(i) => assert PipeOk(s.pipes[i], c);
    case PtyC(i, _) => assert PtyOk(s.ptys[i], c);
  }

  lemma {:induction false} CreateKeepsQueue(s: State, c: Caps, op: Op, ch: Chan)
    requires Inv(s, c) && ChanIn(s, ch) && Held(s, ch) && (op.OpPipe? || op.OpPty?)
    ensures ChanIn(Step(s, c, op).0, ch) && KeptOrDropped(s, Step(s, c, op).0, ch)
  {
    HeldIsUsed(s, c, ch);
    CreateSane(s);
    var r := if op.OpPipe? then CreatePipe(s) else CreatePty(s);
    if op.OpPipe? { NewPipeApart(s, ch); } else { NewPtyApart(s, ch); }
    if r.1.Pair? && !op.copyoutOk {
      ReleaseKeepsQueue(r.0, r.1.a, ch);
      ReleaseSane(r.0, r.1.a);
      ReleaseKeepsQueue(Release(r.0, r.1.a), r.1.b, ch);
    }
  }

  lemma {:induction false} NewPipeApart(s: State, ch: Chan)
    requires Sane(s) && ChanIn(s, ch)
    requires ch.PipeC? ==> s.pipes[ch.pipe].used
    ensures ChanIn(CreatePipe(s).0, ch) && Queue(CreatePipe(s).0, ch) == Queue(s, ch)
  {
  }

  lemma {:induction false} NewPtyApart(s: State, ch: Chan)
    requires Sane(s) && ChanIn(s, ch)
    requires ch.PtyC? ==> s.ptys[ch.pty].used
    ensures ChanIn(CreatePty(s).0, ch) && Queue(CreatePty(s).0, ch) == Queue(s, ch)
  {
  }

  lemma DupKeepsQueue(s: State, c: Caps, oldfd: int, newfd: int, ch: Chan)
    requires Inv(s, c) && ChanIn(s, ch) && Held(s, ch)
    ensures ChanIn(DupInto(s, oldfd, newfd).0, ch) && KeptOrDropped(s, DupInto(s, oldfd, newfd).0, ch)
  {
    if OpenFd(s, oldfd) && 2 < newfd < |s.fds| && oldfd != newfd {
      ReleaseKeepsQueue(s, newfd, ch);
      ReleaseSane(s, newfd);
      ReleaseKeeps(s, c, newfd);
      var s1 := Release(s, newfd);
      NoDangling(s1, c, oldfd);
      AttachKeepsQueue(s1, newfd, s1.fds[oldfd].target, s1.fds[oldfd].nonblock, ch);
    }
  }

  lemma FifoKeepsQueue(s: State, c: Caps, op: Op, ch: Chan)
    requires Inv(s, c) && ChanIn(s, ch) && Held(s, ch) && (op.OpOpenFifo? || op.OpMkFifo?)
    ensures ChanIn(Step(s, c, op).0, ch) && Queue(Step(s, c, op).0, ch) == Queue(s, ch)
  {
    HeldIsUsed(s, c, ch);
  }

  predicate Transfer(op: Op) {
    op.OpRead? || IsWrite(op)
  }

  lemma ControlKeepsQueue(s: State, c: Caps, op: Op, ch: Chan)
    requires Inv(s, c) && ChanIn(s, ch) && Held(s, ch) && !Transfer(op) && !Discards(s, op, ch)
    ensures ChanIn(Step(s, c, op).0, ch) && KeptOrDropped(s, Step(s, c, op).0, ch)
  {
    match op {
      case OpPipe(_) => CreateKeepsQueue(s, c, op, ch);
      case OpPty(_) => CreateKeepsQueue(s, c, op, ch);
      case OpOpenFifo(_, _, _, _) => FifoKeepsQueue(s, c, op, ch);
      case OpMkFifo(_, _, _, _, _) => FifoKeepsQueue(s, c, op, ch);
      case OpOpenFile =>
      case OpClose(fd) => if 2 < fd < |s.fds| { ReleaseKeepsQueue(s, fd, ch); }
      case OpDup(fd) => if FreeFd(s.fds, 3) < |s.fds| { DupKeepsQueue(s, c, Remap(s, fd), FreeFd(s.fds, 3), ch); }
      case OpDup2(fd, newfd) => DupKeepsQueue(s, c, Remap(s, fd), newfd, ch);
      case OpNonblock(_, _) =>
      case OpSpool(_, _, _) =>
      case OpStdio(_, _, _) =>
      case OpReset =>
    }
  }

  // ----- steps that move bytes -----

  /** `q`, then `a` accepted, is `d` delivered, then `q'`: in order, or as a bag of bytes. */
  predicate InOrderFlow(q: seq<byte>, a: seq<byte>, d: seq<byte>, q': seq<byte>) {
    q + a == d + q'
  }

  predicate BagFlow(q: seq<byte>, a: seq<byte>, d: seq<byte>, q': seq<byte>) {
    multiset(q) + multiset(a) == multiset(d) + multiset(q')
  }

  lemma OrderIsBag(q: seq<byte>, a: seq<byte>, d: seq<byte>, q': seq<byte>)
    requires InOrderFlow(q, a, d, q')
    ensures BagFlow(q, a, d, q')
  {
    assert multiset(q + a) == multiset(d + q');
  }

  lemma NoFlow(q: seq<byte>)
    ensures InOrderFlow(q, [], [], q) && BagFlow(q, [], [], q)
  {
    assert q + [] == q && [] + q == q;
  }

  function PipeRet(p: Pipe, c: Caps, op: Op, nonblock: bool): Ret
    requires Transfer(op)
  {
    if op.OpRead? then ReadPipe(p, op.maxlen, nonblock, op.intr).1
    else if op.OpWrite? then WritePipe(p, c, op.data, nonblock, op.intr).1
    else WriteLoop(p, c, op.data, op.done, nonblock, op.intr).1
  }

  function PtyRet(t: Pty, c: Caps, side: Side, op: Op, nonblock: bool): Ret
    requires Transfer(op)
  {
    if op.OpRead? then ReadPty(t, side, op.maxlen, nonblock, op.intr).1
    else if op.OpWrite? then WritePty(t, c, side, op.data, nonblock, op.intr).1
    else PtyLoop(t, c, side, op.data, op.done, nonblock, op.intr).1
  }

  lemma StepOnPipe(s: State, c: Caps, op: Op, i: nat)
    requires Sane(s) && Transfer(op) && OpenFd(s, op.fd) && s.fds[op.fd].target.PipeT? && s.fds[op.fd].target.pipe == i
    ensures i < |s.pipes|
    ensures var p, nb := s.pipes[i], s.fds[op.fd].nonblock;
      Step(s, c, op) == (s.(pipes := s.pipes[i := PipeAfter(p, c, op, nb)]), PipeRet(p, c, op, nb))
  {
    assert InRange(s, s.fds[op.fd].target);
  }

  lemma StepOnPty(s: State, c: Caps, op: Op, i: nat, side: Side)
    requires Sane(s) && Transfer(op) && OpenFd(s, op.fd) && s.fds[op.fd].target == PtyT(i, side)
    ensures i < |s.ptys|
    ensures var t, nb := s.ptys[i], s.fds[op.fd].nonblock;
      Step(s, c, op) == (s.(ptys := s.ptys[i := PtyAfter(t, c, side, op, nb)]), PtyRet(t, c, side, op, nb))
  {
    assert InRange(s, s.fds[op.fd].target);
  }

  lemma PipeReadFlow(p: Pipe, c: Caps, op: Op, nonblock: bool)
    requires op.OpRead?
    ensures var r := PipeRet(p, c, op, nonblock);
      InOrderFlow(Buffered(p), [], if r.Data? then r.bytes else [], Buffered(PipeAfter(p, c, op, nonblock)))
  {
    ReadTakesPrefix(p, op.maxlen, nonblock, op.intr);
    assert Buffered(p) + [] == Buffered(p) && [] + Buffered(p) == Buffered(p);
  }

  /** The return value of a write step tells how many bytes it took. */
  lemma PipeWriteFlow(p: Pipe, c: Caps, op: Op, nonblock: bool)
    requires PipeOk(p, c) && p.used && IsWrite(op)
    ensures var q, k := PipeAfter(p, c, op, nonblock), Took(op, PipeRet(p, c, op, nonblock));
      && 0 <= k <= |op.data|
      && BagFlow(Buffered(p), op.data[..k], [], Buffered(q))
      && (p.spool == [] || |p.ring| >= c.ring ==> InOrderFlow(Buffered(p), op.data[..k], [], Buffered(q)))
  {
    WriteTook(p, c, op, nonblock);
    assert op.data[..0] == [];
    NoFlow(Buffered(p));
    FilledFlow(p, c, op.data);
  }

  /** A write step either takes nothing and changes nothing, or fills what there is room for. */
  lemma WriteTook(p: Pipe, c: Caps, op: Op, nonblock: bool)
    requires PipeOk(p, c) && p.used && IsWrite(op)
    ensures var q, k := PipeAfter(p, c, op, nonblock), Took(op, PipeRet(p, c, op, nonblock));
      (k == 0 && q == p) || (k == Room(p, c, |op.data|) && q == Filled(p, c, op.data))
  {
    if op.OpWrite? && (op.data == [] || p.readers == 0) {
    } else {
      LoopEffect(p, c, op.data, Base(op), nonblock, op.intr);
    }
  }

  lemma FilledFlow(p: Pipe, c: Caps, data: seq<byte>)
    ensures BagFlow(Buffered(p), data[..Room(p, c, |data|)], [], Buffered(Filled(p, c, data)))
    ensures p.spool == [] || |p.ring| >= c.ring ==>
      InOrderFlow(Buffered(p), data[..Room(p, c, |data|)], [], Buffered(Filled(p, c, data)))
  {
    FilledSplit(p, c, data);
    assert [] + Buffered(Filled(p, c, data)) == Buffered(Filled(p, c, data));
  }

  lemma PipeStepFlow(s: State, c: Caps, op: Op, i: nat)
    requires Inv(s, c) && i < |s.pipes| && Transfer(op) && OpenFd(s, op.fd)
    requires s.fds[op.fd].target.PipeT? && s.fds[op.fd].target.pipe == i
    ensures ChanIn(Step(s, c, op).0, PipeC(i)) && FlowStep(s, c, op, PipeC(i))
  {
    NoDangling(s, c, op.fd);
    assert PipeOk(s.pipes[i], c);
    StepOnPipe(s, c, op, i);
    if op.OpRead? { PipeReadStep(s, c, op, i); } else { PipeWriteStep(s, c, op, i); }
  }

  lemma {:induction false} PipeReadStep(s: State, c: Caps, op: Op, i: nat)
    requires Sane(s) && i < |s.pipes| && op.OpRead? && OpenFd(s, op.fd) && s.fds[op.fd].target.PipeT? &&
      s.fds[op.fd].target.pipe == i
    ensures ChanIn(Step(s, c, op).0, PipeC(i)) && FlowStep(s, c, op, PipeC(i))
  {
    var p, nb := s.pipes[i], s.fds[op.fd].nonblock;
    StepOnPipe(s, c, op, i);
    PipeReadFlow(p, c, op, nb);
    OrderIsBag(Buffered(p), [], Delivers(s, c, op, PipeC(i)), Buffered(PipeAfter(p, c, op, nb)));
  }

  lemma {:induction false} PipeWriteStep(s: State, c: Caps, op: Op, i: nat)
    requires Sane(s) && i < |s.pipes| && IsWrite(op) && OpenFd(s, op.fd) && s.fds[op.fd].target.PipeT? &&
      s.fds[op.fd].target.pipe == i
    requires PipeOk(s.pipes[i], c) && s.pipes[i].used
    ensures ChanIn(Step(s, c, op).0, PipeC(i)) && FlowStep(s, c, op, PipeC(i))
  {
    StepOnPipe(s, c, op, i);
    PipeWriteFlow(s.pipes[i], c, op, s.fds[op.fd].nonblock);
  }

  ghost predicate FlowStep(s: State, c: Caps, op: Op, ch: Chan)
    requires Sane(s) && ChanIn(s, ch) && ChanIn(Step(s, c, op).0, ch)
  {
    var q, a, d, q' := Queue(s, ch), Accepts(s, c, op, ch), Delivers(s, c, op, ch), Queue(Step(s, c, op).0, ch);
    BagFlow(q, a, d, q') && (Ordered(s, c, op, ch) ==> InOrderFlow(q, a, d, q'))
  }

  lemma PtyReadFlow(t: Pty, c: Caps, side: Side, op: Op, nonblock: bool)
    requires op.OpRead?
    ensures var r, u := PtyRet(t, c, side, op, nonblock), PtyAfter(t, c, side, op, nonblock);
      && InOrderFlow(Incoming(t, side), [], if r.Data? then r.bytes else [], Incoming(u, side))
      && Incoming(u, Peer(side)) == Incoming(t, Peer(side))
  {
    var q := Incoming(t, side);
    var n := Min(op.maxlen, |q|);
    assert q[..n] + q[n..] == q && q + [] == q && [] + q == q;
  }

  lemma {:induction false} PtyLoopTook(
    t: Pty, c: Caps, side: Side, data: seq<byte>, done: nat, nonblock: bool, intr: bool, u: Pty, r: Ret, k: int)
    requires (u, r) == PtyLoop(t, c, side, data, done, nonblock, intr)
    requires k == match r case Count(n) => n - done case Blocked(n) => n - done case _ => 0
    ensures 0 <= k <= |data| && u == SetIncoming(t, Peer(side), Incoming(t, Peer(side)) + data[..k])
  {
  }

  /** A write step either takes nothing and changes nothing, or appends what it took. */
  lemma {:induction false} PtyTook(t: Pty, c: Caps, side: Side, op: Op, nonblock: bool)
    requires t.used && IsWrite(op)
    ensures var k, u := Took(op, PtyRet(t, c, side, op, nonblock)), PtyAfter(t, c, side, op, nonblock);
      var q := Incoming(t, Peer(side));
      (k == 0 && u == t) || (0 <= k <= |op.data| && u == SetIncoming(t, Peer(side), q + op.data[..k]))
  {
    var u, r := PtyAfter(t, c, side, op, nonblock), PtyRet(t, c, side, op, nonblock);
    var k := Took(op, r);
    if op.OpWrite? && (op.data == [] || PeerRefs(t, side) == 0) {
      assert u == t;
    } else {
      PtyLoopTook(t, c, side, op.data, Base(op), nonblock, op.intr, u, r, k);
    }
  }

  lemma {:induction false} PtyWriteFlow(t: Pty, c: Caps, side: Side, op: Op, nonblock: bool)
    requires PtyOk(t, c) && t.used && IsWrite(op)
    ensures var k, u := Took(op, PtyRet(t, c, side, op, nonblock)), PtyAfter(t, c, side, op, nonblock);
      && 0 <= k <= |op.data|
      && InOrderFlow(Incoming(t, Peer(side)), op.data[..k], [], Incoming(u, Peer(side)))
      && Incoming(u, side) == Incoming(t, side)
  {
    PtyTook(t, c, side, op, nonblock);
    var u := PtyAfter(t, c, side, op, nonblock);
    assert op.data[..0] == [];
    NoFlow(Incoming(t, Peer(side)));
    assert [] + Incoming(u, Peer(side)) == Incoming(u, Peer(side));
  }

  /** A PTY transfer moves one direction and leaves the other alone. */
  lemma PtyStepFlow(s: State, c: Caps, op: Op, i: nat, to: Side)
    requires Inv(s, c) && i < |s.ptys| && Transfer(op) && OpenFd(s, op.fd)
    requires s.fds[op.fd].target.PtyT? && s.fds[op.fd].target.pty == i
    ensures ChanIn(Step(s, c, op).0, PtyC(i, to))
    ensures InOrderFlow(
      Queue(s, PtyC(i, to)), Accepts(s, c, op, PtyC(i, to)),
      Delivers(s, c, op, PtyC(i, to)), Queue(Step(s, c, op).0, PtyC(i, to)))
  {
    NoDangling(s, c, op.fd);
    assert PtyOk(s.ptys[i], c);
    if op.OpRead? {
      PtyReadStep(s, c, op, i, to);
    } else {
      PtyWriteStep(s, c, op, i, to);
    }
  }

  lemma PtyReadStep(s: State, c: Caps, op: Op, i: nat, to: Side)
    requires Sane(s) && i < |s.ptys| && op.OpRead? && OpenFd(s, op.fd)
    requires s.fds[op.fd].target.PtyT? && s.fds[op.fd].target.pty == i
    ensures ChanIn(Step(s, c, op).0, PtyC(i, to))
    ensures InOrderFlow(
      Queue(s, PtyC(i, to)), Accepts(s, c, op, PtyC(i, to)),
      Delivers(s, c, op, PtyC(i, to)), Queue(Step(s, c, op).0, PtyC(i, to)))
  {
    var t, f := s.ptys[i], s.fds[op.fd];
    StepOnPty(s, c, op, i, f.target.side);
    NoFlow(Incoming(t, to));
    PtyReadFlow(t, c, f.target.side, op, f.nonblock);
  }

  lemma PtyWriteStep(s: State, c: Caps, op: Op, i: nat, to: Side)
    requires Sane(s) && i < |s.ptys| && IsWrite(op) && OpenFd(s, op.fd) && PtyOk(s.ptys[i], c) && s.ptys[i].used
    requires s.fds[op.fd].target.PtyT? && s.fds[op.fd].target.pty == i
    ensures ChanIn(Step(s, c, op).0, PtyC(i, to))
    ensures InOrderFlow(
      Queue(s, PtyC(i, to)), Accepts(s, c, op, PtyC(i, to)),
      Delivers(s, c, op, PtyC(i, to)), Queue(Step(s, c, op).0, PtyC(i, to)))
  {
    var t, f, side := s.ptys[i], s.fds[op.fd], s.fds[op.fd].target.side;
    StepOnPty(s, c, op, i, side);
    PtyWriteFlow(t, c, side, op, f.nonblock);
    var u := PtyAfter(t, c, side, op, f.nonblock);
    assert Queue(Step(s, c, op).0, PtyC(i, to)) == Incoming(u, to);
    if side == to {
      NoFlow(Incoming(t, to));
      assert !WritesTo(f.target, PtyC(i, to));
    } else {
      assert Peer(side) == to;
    }
  }

  predicate Touches(s: State, op: Op, ch: Chan) {
    Transfer(op) && OpenFd(s, op.fd) && match ch
      case PipeC(i) => s.fds[op.fd].target.PipeT? && s.fds[op.fd].target.pipe == i
      case PtyC(i, _) => s.fds[op.fd].target.PtyT? && s.fds[op.fd].target.pty == i
  }

  /** A transfer on another object leaves the channel alone. */
  lemma OtherTransfer(s: State, c: Caps, op: Op, ch: Chan)
    requires Inv(s, c) && ChanIn(s, ch) && Transfer(op) && !Touches(s, op, ch)
    ensures ChanIn(Step(s, c, op).0, ch) && Queue(Step(s, c, op).0, ch) == Queue(s, ch)
    ensures Held(Step(s, c, op).0, ch) == Held(s, ch)
  {
    if OpenFd(s, op.fd) {
      match s.fds[op.fd].target
      case FileT =>
      case PipeT(i, _) => StepOnPipe(s, c, op, i);
      case PtyT(i, side) => StepOnPty(s, c, op, i, side);
    }
  }

  /** One step of the stream law, for any channel and any system call. */
  lemma StepFlow(s: State, c: Caps, op: Op, ch: Chan)
    requires Inv(s, c) && EnvOk(op) && ChanIn(s, ch) && Held(s, ch) && !Discards(s, op, ch)
    ensures ChanIn(Step(s, c, op).0, ch)
    ensures Held(Step(s, c, op).0, ch) ==> FlowStep(s, c, op, ch)
  {
    if Touches(s, op, ch) {
      if ch.PipeC? {
        PipeStepFlow(s, c, op, ch.pipe);
      } else {
        PtyStepFlow(s, c, op, ch.pty, ch.to);
        OrderIsBag(Queue(s, ch), Accepts(s, c, op, ch), Delivers(s, c, op, ch), Queue(Step(s, c, op).0, ch));
      }
    } else {
      if Transfer(op) {
        OtherTransfer(s, c, op, ch);
      } else {
        ControlKeepsQueue(s, c, op, ch);
      }
      Untouched(s, c, op, ch);
      NoFlow(Queue(s, ch));
    }
  }

  lemma Untouched(s: State, c: Caps, op: Op, ch: Chan)
    requires Sane(s) && !Touches(s, op, ch)
    ensures Accepts(s, c, op, ch) == [] && Delivers(s, c, op, ch) == []
  {
  }

  // ----- whole runs -----

  function AllAccepted(s: State, c: Caps, ops: seq<Op>, ch: Chan): seq<byte>
    requires Inv(s, c) && forall op :: op in ops ==> EnvOk(op)
    decreases |ops|
  {
    if ops == [] then []
    else
      StepKeeps(s, c, ops[0]);
      Accepts(s, c, ops[0], ch) + AllAccepted(Step(s, c, ops[0]).0, c, ops[1..], ch)
  }

  function AllDelivered(s: State, c: Caps, ops: seq<Op>, ch: Chan): seq<byte>
    requires Inv(s, c) && forall op :: op in ops ==> EnvOk(op)
    decreases |ops|
  {
    if ops == [] then []
    else
      StepKeeps(s, c, ops[0]);
      Delivers(s, c, ops[0], ch) + AllDelivered(Step(s, c, ops[0]).0, c, ops[1..], ch)
  }

  /** The channel stays held through the run and its spool is not switched off. */
  ghost predicate HeldThroughout(s: State, c: Caps, ops: seq<Op>, ch: Chan)
    requires Inv(s, c) && forall op :: op in ops ==> EnvOk(op)
    decreases |ops|
  {
    && ChanIn(s, ch) && Held(s, ch)
    && (ops == [] || (
          StepKeeps(s, c, ops[0]);
          !Discards(s, ops[0], ch) && HeldThroughout(Step(s, c, ops[0]).0, c, ops[1..], ch)))
  }

  /** Every write of the run meets its guard `spool empty or ring full`. */
  ghost predicate OrderedThroughout(s: State, c: Caps, ops: seq<Op>, ch: Chan)
    requires Inv(s, c) && forall op :: op in ops ==> EnvOk(op)
    decreases |ops|
  {
    && ChanIn(s, ch)
    && (ops == [] || (
          StepKeeps(s, c, ops[0]);
          Ordered(s, c, ops[0], ch) && OrderedThroughout(Step(s, c, ops[0]).0, c, ops[1..], ch)))
  }

  /** Over any run, what was buffered plus what was accepted is what was delivered plus what is
      still buffered: byte for byte in order when every write meets its guard. */
  lemma {:induction false} StreamLaw(s: State, c: Caps, ops: seq<Op>, ch: Chan)
    requires Inv(s, c) && forall op :: op in ops ==> EnvOk(op)
    requires HeldThroughout(s, c, ops, ch) && OrderedThroughout(s, c, ops, ch)
    ensures ChanIn(Run(s, c, ops), ch)
    ensures Queue(s, ch) + AllAccepted(s, c, ops, ch) == AllDelivered(s, c, ops, ch) + Queue(Run(s, c, ops), ch)
    decreases |ops|
  {
    if ops != [] {
      var op := ops[0];
      StepKeeps(s, c, op);
      StepFlow(s, c, op, ch);
      var s' := Step(s, c, op).0;
      StreamLaw(s', c, ops[1..], ch);
      Splice(Queue(s, ch), Accepts(s, c, op, ch), Delivers(s, c, op, ch), Queue(s', ch),
             AllAccepted(s', c, ops[1..], ch), AllDelivered(s', c, ops[1..], ch), Queue(Run(s', c, ops[1..]), ch));
    } else {
      assert Queue(s, ch) + [] == [] + Queue(s, ch);
    }
  }

  lemma Splice(q: seq<byte>, a: seq<byte>, d: seq<byte>, q1: seq<byte>, a1: seq<byte>, d1: seq<byte>, q2: seq<byte>)
    requires q + a == d + q1 && q1 + a1 == d1 + q2
    ensures q + (a + a1) == (d + d1) + q2
  {
    assert q + (a + a1) == (q + a) + a1 == d + (q1 + a1);
    assert d + (d1 + q2) == (d + d1) + q2;
  }

  /** Without the guard nothing is lost or invented either; only the order may differ. */
  lemma {:induction false} NothingLost(s: State, c: Caps, ops: seq<Op>, ch: Chan)
    requires Inv(s, c) && forall op :: op in ops ==> EnvOk(op)
    requires HeldThroughout(s, c, ops, ch)
    ensures ChanIn(Run(s, c, ops), ch)
    ensures multiset(Queue(s, ch)) + multiset(AllAccepted(s, c, ops, ch))
         == multiset(AllDelivered(s, c, ops, ch)) + multiset(Queue(Run(s, c, ops), ch))
    decreases |ops|
  {
    if ops != [] {
      StepKeeps(s, c, ops[0]);
      StepFlow(s, c, ops[0], ch);
      var s' := Step(s, c, ops[0]).0;
      NothingLost(s', c, ops[1..], ch);
      BagSplice(Queue(s, ch), Accepts(s, c, ops[0], ch), Delivers(s, c, ops[0], ch), Queue(s', ch),
                AllAccepted(s', c, ops[1..], ch), AllDelivered(s', c, ops[1..], ch), Queue(Run(s', c, ops[1..]), ch));
    }
  }

  lemma BagSplice(q: seq<byte>, a: seq<byte>, d: seq<byte>, q1: seq<byte>, a1: seq<byte>, d1: seq<byte>, q2: seq<byte>)
    requires BagFlow(q, a, d, q1) && BagFlow(q1, a1, d1, q2)
    ensures BagFlow(q, a + a1, d + d1, q2)
  {
    assert multiset(a + a1) == multiset(a) + multiset(a1) && multiset(d + d1) == multiset(d) + multiset(d1);
    BagSum(multiset(q), multiset(a), multiset(d), multiset(q1), multiset(a1), multiset(d1), multiset(q2));
  }

  lemma BagSum(
    q: multiset<byte>, a: multiset<byte>, d: multiset<byte>, q1: multiset<byte>, a1: multiset<byte>,
    d1: multiset<byte>, q2: multiset<byte>)
    requires q + a == d + q1 && q1 + a1 == d1 + q2
    ensures q + (a + a1) == (d + d1) + q2
  {
    var l, r := q + (a + a1), (d + d1) + q2;
    forall x ensures l[x] == r[x] {
      assert (q + a)[x] == (d + q1)[x] && (q1 + a1)[x] == (d1 + q2)[x];
    }
  }

  /** PTY directions need no guard: each is an in-order stream of its own. */
  lemma {:induction false} PtyOrdered(s: State, c: Caps, ops: seq<Op>, ch: Chan)
    requires Inv(s, c) && forall op :: op in ops ==> EnvOk(op)
    requires HeldThroughout(s, c, ops, ch) && ch.PtyC?
    ensures OrderedThroughout(s, c, ops, ch)
    decreases |ops|
  {
    if ops != [] {
      StepKeeps(s, c, ops[0]);
      PtyOrdered(Step(s, c, ops[0]).0, c, ops[1..], ch);
    }
  }

  lemma PtyStreams(s: State, c: Caps, ops: seq<Op>, i: nat, to: Side)
    requires Inv(s, c) && forall op :: op in ops ==> EnvOk(op)
    requires HeldThroughout(s, c, ops, PtyC(i, to))
    ensures ChanIn(Run(s, c, ops), PtyC(i, to))
    ensures var ch := PtyC(i, to);
      Queue(s, ch) + AllAccepted(s, c, ops, ch) == AllDelivered(s, c, ops, ch) + Queue(Run(s, c, ops), ch)
  {
    PtyOrdered(s, c, ops, PtyC(i, to));
    StreamLaw(s, c, ops, PtyC(i, to));
  }
}
