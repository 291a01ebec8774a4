/** Two promises pipes do not keep, each on a run of system calls from boot. */
module IpcFailures {
  import opened Bytes
  import opened IpcState
  import opened IpcInvariant
  import opened IpcStreams
  import opened IpcLaws

  lemma {:induction false} RunOne(s: State, c: Caps, ops: seq<Op>)
    requires Inv(s, c) && ops != [] && forall op :: op in ops ==> EnvOk(op)
    ensures Inv(Step(s, c, ops[0]).0, c) && forall op :: op in ops[1..] ==> EnvOk(op)
    ensures Run(s, c, ops) == Run(Step(s, c, ops[0]).0, c, ops[1..])
    ensures AllAccepted(s, c, ops, PipeC(0)) ==
      Accepts(s, c, ops[0], PipeC(0)) + AllAccepted(Step(s, c, ops[0]).0, c, ops[1..], PipeC(0))
    ensures AllDelivered(s, c, ops, PipeC(0)) ==
      Delivers(s, c, ops[0], PipeC(0)) + AllDelivered(Step(s, c, ops[0]).0, c, ops[1..], PipeC(0))
  {
    StepKeeps(s, c, ops[0]);
  }

  /** A pipe just made at boot: descriptors 3 and 4 on pipe 0. */
  ghost predicate OnPipe(s: State, c: Caps, p: Pipe) {
    && Inv(s, c) && |s.fds| >= 5 && |s.pipes| >= 1 && s.pipes[0] == p
    && s.fds[3] == Open(PipeT(0, ReadEnd), false) && s.fds[4] == Open(PipeT(0, WriteEnd), false)
  }

  const NEW_PIPE: Pipe := Pipe(true, false, false, 1, 1, [], [], [])

  lemma {:induction false} PipeAtBoot(fds: nat, pipes: nat, ptys: nat, c: Caps)
    requires fds >= 5 && pipes >= 1
    ensures Inv(Boot(fds, pipes, ptys), c)
    ensures OnPipe(Step(Boot(fds, pipes, ptys), c, OpPipe(true)).0, c, NEW_PIPE)
  {
    var s := Boot(fds, pipes, ptys);
    BootInv(fds, pipes, ptys, c);
    StepKeeps(s, c, OpPipe(true));
    assert FreePipe(s.pipes, 0) == 0 && FreeFd(s.fds, 3) == 3 && FreeFd(s.fds, 4) == 4;
  }

  // ----- end of file -----

  lemma {:induction false} WriterClosed(s: State, c: Caps)
    requires OnPipe(s, c, NEW_PIPE)
    ensures var s' := Step(s, c, OpClose(4)).0;
      Inv(s', c) && AtEof(s', 0) && |s'.fds| == |s.fds| && s'.fds[3] == s.fds[3]
  {
    StepKeeps(s, c, OpClose(4));
  }

  /** Make a pipe, close its write end: end of file. Write a byte through the read end: it is
      accepted, and read back. */
  lemma {:induction false} EofBrokenFromBoot(
    fds: nat, pipes: nat, ptys: nat, c: Caps, ops: seq<Op>, b: byte, intr: bool)
    requires fds >= 5 && pipes >= 1 && c.ring > 0 && ops == [OpPipe(true), OpClose(4)]
    ensures Inv(Boot(fds, pipes, ptys), c) && forall op :: op in ops ==> EnvOk(op)
    ensures var s := Run(Boot(fds, pipes, ptys), c, ops);
      var (s1, r1) := Step(s, c, OpWrite(3, [b], intr));
      && AtEof(s, 0) && r1 == Count(1)
      && Sane(s1) && Step(s1, c, OpRead(3, 1, intr)).1 == Data([b])
  {
    var s0 := Boot(fds, pipes, ptys);
    PipeAtBoot(fds, pipes, ptys, c);
    RunOne(s0, c, ops);
    var s1 := Step(s0, c, ops[0]).0;
    RunOne(s1, c, ops[1..]);
    WriterClosed(s1, c);
    EofBroken(Step(s1, c, OpClose(4)).0, c, 0, 3, b, intr);
  }

  // ----- order -----

  lemma {:induction false} SpoolSwitched(s: State, c: Caps)
    requires OnPipe(s, c, NEW_PIPE)
    ensures OnPipe(Step(s, c, OpSpool(4, true, true)).0, c, NEW_PIPE.(spoolOn := true))
  {
    StepKeeps(s, c, OpSpool(4, true, true));
  }

  lemma {:induction false} PipeMoves(s: State, c: Caps, p: Pipe, op: Op, q: Pipe)
    requires OnPipe(s, c, p) && Transfer(op) && EnvOk(op) && (op.fd == 3 || op.fd == 4)
    requires q == PipeAfter(p, c, op, false)
    ensures OnPipe(Step(s, c, op).0, c, q) && Step(s, c, op).1 == PipeRet(p, c, op, false)
  {
    StepKeeps(s, c, op);
    StepOnPipe(s, c, op, 0);
  }

  /** One byte more than the ring holds goes into the spool. */
  lemma {:induction false} Overflow(p: Pipe, c: Caps, data: seq<byte>, intr: bool)
    requires p.used && p.readers > 0 && p.spoolOn && p.ring == [] && p.spool == []
    requires c.ring > 0 && c.spool > 0 && |data| == c.ring + 1
    ensures WritePipe(p, c, data, false, intr) ==
      (p.(ring := data[..c.ring], spool := data[c.ring..]), Count(|data|))
  {
    assert RingRoom(p, c, |data|) == c.ring && Room(p, c, |data|) == |data|;
    assert [] + data[..c.ring] == data[..c.ring] && [] + data[c.ring..|data|] == data[c.ring..];
  }

  /** Reading all but the last byte of a full ring leaves the spool alone. */
  lemma {:induction false} Drained(p: Pipe, c: Caps, intr: bool)
    requires p.used && c.ring > 1 && |p.ring| == c.ring
    ensures ReadPipe(p, c.ring - 1, false, intr) ==
      (p.(ring := p.ring[c.ring - 1..]), Data(p.ring[..c.ring - 1]))
  {
    assert p.spool[0..] == p.spool && p.ring[..c.ring - 1] + p.spool[..0] == p.ring[..c.ring - 1];
  }

  /** A byte written while the ring has room does not wait behind the spool. */
  lemma {:induction false} Overtaken(p: Pipe, c: Caps, x: seq<byte>, intr: bool)
    requires p.used && p.readers > 0 && |p.ring| == 1 && c.ring > 1 && |x| == 1
    ensures WritePipe(p, c, x, false, intr) == (p.(ring := p.ring + x), Count(1))
  {
    assert RingRoom(p, c, 1) == 1 && Room(p, c, 1) == 1;
    assert x[..1] == x && x[1..1] == [] && p.spool + [] == p.spool;
  }

  /** Make a pipe, switch its spool on, write one byte more than the ring holds, read all but one
      byte of the ring, write one more byte. What is then waiting is not in the order written: the
      last byte comes before the spooled one. */
  lemma {:induction false} SpillFromBoot(
    fds: nat, pipes: nat, ptys: nat, c: Caps, ops: seq<Op>, data: seq<byte>, x: byte, intr: bool)
    requires fds >= 5 && pipes >= 1 && c.ring > 1 && c.spool > 0 && |data| == c.ring + 1
    requires ops ==
      [OpPipe(true), OpSpool(4, true, true), OpWrite(4, data, intr), OpRead(3, c.ring - 1, intr), OpWrite(4, [x], intr)]
    ensures Inv(Boot(fds, pipes, ptys), c) && forall op :: op in ops ==> EnvOk(op)
    ensures AllAccepted(Boot(fds, pipes, ptys), c, ops, PipeC(0)) == data + [x]
    ensures AllDelivered(Boot(fds, pipes, ptys), c, ops, PipeC(0)) == data[..c.ring - 1]
    ensures var s := Run(Boot(fds, pipes, ptys), c, ops);
      |s.pipes| > 0 && Buffered(s.pipes[0]) == [data[c.ring - 1], x, data[c.ring]]
  {
    var s0 := Boot(fds, pipes, ptys);
    PipeAtBoot(fds, pipes, ptys, c);
    RunOne(s0, c, ops);
    var s1 := Step(s0, c, ops[0]).0;
    RunOne(s1, c, ops[1..]);
    SpoolSwitched(s1, c);
    var s2 := Step(s1, c, ops[1]).0;
    SpillRest(s2, c, ops[2..], NEW_PIPE.(spoolOn := true), data, x, intr);
    assert [] + ([] + (data + [x])) == data + [x];
  }

  lemma {:induction false} SpillRest(s: State, c: Caps, ops: seq<Op>, p: Pipe, data: seq<byte>, x: byte, intr: bool)
    requires OnPipe(s, c, p) && p == NEW_PIPE.(spoolOn := true)
    requires c.ring > 1 && c.spool > 0 && |data| == c.ring + 1
    requires ops == [OpWrite(4, data, intr), OpRead(3, c.ring - 1, intr), OpWrite(4, [x], intr)]
    ensures AllAccepted(s, c, ops, PipeC(0)) == data + [x]
    ensures AllDelivered(s, c, ops, PipeC(0)) == data[..c.ring - 1]
    ensures var s' := Run(s, c, ops);
      |s'.pipes| > 0 && Buffered(s'.pipes[0]) == [data[c.ring - 1], x, data[c.ring]]
  {
    RunOne(s, c, ops);
    var q := p.(ring := data[..c.ring], spool := data[c.ring..]);
    FirstWrite(s, c, ops[0], p, q);
    ReadThenWrite(Step(s, c, ops[0]).0, c, ops[1..], q, x, intr);
    Ends(data, data[..c.ring - 1]);
    Parts(data, c.ring, x);
  }

  lemma Parts(data: seq<byte>, n: nat, x: byte)
    requires 0 < n && |data| == n + 1
    ensures data[..n][..n - 1] == data[..n - 1]
    ensures data[..n][n - 1..] + [x] + data[n..] == [data[n - 1], x, data[n]]
  {
  }

  lemma {:induction false} FirstWrite(s: State, c: Caps, op: Op, p: Pipe, q: Pipe)
    requires OnPipe(s, c, p) && p.used && p.readers > 0 && p.spoolOn && p.ring == [] && p.spool == []
    requires op.OpWrite? && op.fd == 4 && c.ring > 0 && c.spool > 0 && |op.data| == c.ring + 1
    requires q == p.(ring := op.data[..c.ring], spool := op.data[c.ring..])
    ensures OnPipe(Step(s, c, op).0, c, q)
    ensures Accepts(s, c, op, PipeC(0)) == op.data && Delivers(s, c, op, PipeC(0)) == []
  {
    Overflow(p, c, op.data, op.intr);
    PipeMoves(s, c, p, op, q);
    WriteMoved(s, c, op);
  }

  lemma {:induction false} ReadThenWrite(s: State, c: Caps, ops: seq<Op>, p: Pipe, x: byte, intr: bool)
    requires OnPipe(s, c, p) && p.used && p.readers > 0 && c.ring > 1 && |p.ring| == c.ring
    requires ops == [OpRead(3, c.ring - 1, intr), OpWrite(4, [x], intr)]
    ensures AllAccepted(s, c, ops, PipeC(0)) == [x] && AllDelivered(s, c, ops, PipeC(0)) == p.ring[..c.ring - 1]
    ensures var s' := Run(s, c, ops);
      |s'.pipes| > 0 && s'.pipes[0] == p.(ring := p.ring[c.ring - 1..] + [x])
  {
    RunOne(s, c, ops);
    var q := p.(ring := p.ring[c.ring - 1..]);
    FirstRead(s, c, ops[0], p, q);
    LastWrite(Step(s, c, ops[0]).0, c, ops[1..], q, x, intr);
    Ends([x], p.ring[..c.ring - 1]);
  }

  lemma {:induction false} Ends(a: seq<byte>, d: seq<byte>)
    ensures [] + a == a && a + [] == a && [] + d == d && d + [] == d
  {
  }

  /** What a read that answers with data hands over. */
  lemma {:induction false} ReadMoved(s: State, c: Caps, op: Op, bytes: seq<byte>)
    requires Sane(s) && op.OpRead? && Reading(s, op, PipeC(0)) && Step(s, c, op).1 == Data(bytes)
    ensures Accepts(s, c, op, PipeC(0)) == [] && Delivers(s, c, op, PipeC(0)) == bytes
  {
  }

  /** What a write that answers with its whole count takes. */
  lemma {:induction false} WriteMoved(s: State, c: Caps, op: Op)
    requires Sane(s) && op.OpWrite? && Writing(s, op, PipeC(0)) && Step(s, c, op).1 == Count(|op.data|)
    ensures Accepts(s, c, op, PipeC(0)) == op.data && Delivers(s, c, op, PipeC(0)) == []
  {
    assert op.data[..|op.data|] == op.data;
  }

  lemma {:induction false} FirstRead(s: State, c: Caps, op: Op, p: Pipe, q: Pipe)
    requires OnPipe(s, c, p) && p.used && p.readers > 0 && c.ring > 1 && |p.ring| == c.ring
    requires q == p.(ring := p.ring[c.ring - 1..])
    requires op.OpRead? && op.fd == 3 && op.maxlen == c.ring - 1
    ensures OnPipe(Step(s, c, op).0, c, q)
    ensures Accepts(s, c, op, PipeC(0)) == [] && Delivers(s, c, op, PipeC(0)) == p.ring[..c.ring - 1]
  {
    Drained(p, c, op.intr);
    PipeMoves(s, c, p, op, q);
    ReadMoved(s, c, op, p.ring[..c.ring - 1]);
  }

  lemma {:induction false} LastWrite(s: State, c: Caps, ops: seq<Op>, p: Pipe, x: byte, intr: bool)
    requires OnPipe(s, c, p) && p.used && p.readers > 0 && c.ring > 1 && |p.ring| == 1
    requires ops == [OpWrite(4, [x], intr)]
    ensures AllAccepted(s, c, ops, PipeC(0)) == [x] && AllDelivered(s, c, ops, PipeC(0)) == []
    ensures var s' := Run(s, c, ops);
      |s'.pipes| > 0 && s'.pipes[0] == p.(ring := p.ring + [x])
  {
    RunOne(s, c, ops);
    Overtaken(p, c, [x], intr);
    PipeMoves(s, c, p, ops[0], p.(ring := p.ring + [x]));
    WriteMoved(s, c, ops[0]);
    assert ops[1..] == [];
  }
}
