/** What the stream law gives a caller: spool-off pipes, write-then-read pipelines,
    end of file on pipes and PTYs. */
module IpcLaws {
  import opened Bytes
  import opened IpcState
  import opened IpcInvariant
  import opened IpcStreams

  // ----- pipes without a spool -----

  predicate NoSpoolOn(ops: seq<Op>) {
    forall op :: op in ops ==> !(op.OpSpool? && op.on)
  }

  lemma ReleaseSpool(s: State, fd: nat, i: nat)
    requires Sane(s) && fd < |s.fds| && i < |s.pipes| && !s.pipes[i].spoolOn
    ensures i < |Release(s, fd).pipes| && !Release(s, fd).pipes[i].spoolOn
  {
  }

  /** A call that only opens a file or changes a setting. */
  predicate Setting(op: Op) {
    op.OpOpenFile? || op.OpNonblock? || op.OpSpool? || op.OpStdio? || op.OpReset?
  }

  lemma {:induction false} SpoolFifo(s: State, c: Caps, op: Op, i: nat)
    requires Sane(s) && i < |s.pipes| && !s.pipes[i].spoolOn && (op.OpOpenFifo? || op.OpMkFifo?)
    ensures i < |Step(s, c, op).0.pipes| && !Step(s, c, op).0.pipes[i].spoolOn
  {
  }

  lemma {:induction false} SpoolSetting(s: State, c: Caps, op: Op, i: nat)
    requires Sane(s) && i < |s.pipes| && !s.pipes[i].spoolOn && Setting(op) && !(op.OpSpool? && op.on)
    ensures i < |Step(s, c, op).0.pipes| && !Step(s, c, op).0.pipes[i].spoolOn
  {
  }

  lemma {:induction false} SpoolStaysOff(s: State, c: Caps, op: Op, i: nat)
    requires Inv(s, c) && EnvOk(op) && i < |s.pipes| && !s.pipes[i].spoolOn && !(op.OpSpool? && op.on)
    ensures i < |Step(s, c, op).0.pipes| && !Step(s, c, op).0.pipes[i].spoolOn
  {
    if Transfer(op) {
      if OpenFd(s, op.fd) { SpoolTransfer(s, c, op, i); }
    } else {
      match op {
        case OpPipe(_) => SpoolCreate(s, c, op, i);
        case OpPty(_) => SpoolCreate(s, c, op, i);
        case OpClose(fd) => if 2 < fd < |s.fds| { ReleaseSpool(s, fd, i); }
        case OpDup(fd) => if FreeFd(s.fds, 3) < |s.fds| { SpoolDup(s, Remap(s, fd), FreeFd(s.fds, 3), i); }
        case OpDup2(fd, newfd) => SpoolDup(s, Remap(s, fd), newfd, i);
        case OpOpenFifo(_, _, _, _) => SpoolFifo(s, c, op, i);
        case OpMkFifo(_, _, _, _, _) => SpoolFifo(s, c, op, i);
        case _ => SpoolSetting(s, c, op, i);
      }
    }
  }

  lemma {:induction false} SpoolTransfer(s: State, c: Caps, op: Op, i: nat)
    requires Inv(s, c) && Transfer(op) && OpenFd(s, op.fd) && i < |s.pipes| && !s.pipes[i].spoolOn
    ensures i < |Step(s, c, op).0.pipes| && !Step(s, c, op).0.pipes[i].spoolOn
  {
    NoDangling(s, c, op.fd);
    match s.fds[op.fd].target
    case FileT =>
    case PipeT(j, _) =>
      StepOnPipe(s, c, op, j);
      assert PipeOk(s.pipes[j], c);
      PipeTransfer(s.pipes[j], c, op, s.fds[op.fd].nonblock);
    case PtyT(j, side) => StepOnPty(s, c, op, j, side);
  }

  lemma SpoolDup(s: State, oldfd: int, newfd: int, i: nat)
    requires Sane(s) && i < |s.pipes| && !s.pipes[i].spoolOn
    ensures i < |DupInto(s, oldfd, newfd).0.pipes| && !DupInto(s, oldfd, newfd).0.pipes[i].spoolOn
  {
    if OpenFd(s, oldfd) && 2 < newfd < |s.fds| && oldfd != newfd {
      ReleaseSpool(s, newfd, i);
      ReleaseSane(s, newfd);
    }
  }

  lemma SpoolCreate(s: State, c: Caps, op: Op, i: nat)
    requires Sane(s) && i < |s.pipes| && !s.pipes[i].spoolOn && (op.OpPipe? || op.OpPty?)
    ensures i < |Step(s, c, op).0.pipes| && !Step(s, c, op).0.pipes[i].spoolOn
  {
    CreateSane(s);
    var r := if op.OpPipe? then CreatePipe(s) else CreatePty(s);
    assert i < |r.0.pipes| && !r.0.pipes[i].spoolOn;
    if r.1.Pair? && !op.copyoutOk {
      ReleaseSpool(r.0, r.1.a, i);
      ReleaseSane(r.0, r.1.a);
      ReleaseSpool(Release(r.0, r.1.a), r.1.b, i);
    }
  }

  lemma {:induction false} SpoolOffOrdered(s: State, c: Caps, ops: seq<Op>, i: nat)
    requires Inv(s, c) && forall op :: op in ops ==> EnvOk(op)
    requires HeldThroughout(s, c, ops, PipeC(i)) && !s.pipes[i].spoolOn && NoSpoolOn(ops)
    ensures OrderedThroughout(s, c, ops, PipeC(i))
    decreases |ops|
  {
    if ops != [] {
      assert PipeOk(s.pipes[i], c);
      StepKeeps(s, c, ops[0]);
      SpoolStaysOff(s, c, ops[0], i);
      SpoolOffOrdered(Step(s, c, ops[0]).0, c, ops[1..], i);
    }
  }

  /** A pipe whose spool is never switched on delivers exactly the bytes accepted, in order,
      over any interleaving, as long as some descriptor stays open on it. */
  lemma PipeStream(s: State, c: Caps, ops: seq<Op>, i: nat)
    requires Inv(s, c) && forall op :: op in ops ==> EnvOk(op)
    requires HeldThroughout(s, c, ops, PipeC(i)) && !s.pipes[i].spoolOn && NoSpoolOn(ops)
    ensures ChanIn(Run(s, c, ops), PipeC(i))
    ensures Buffered(s.pipes[i]) + AllAccepted(s, c, ops, PipeC(i))
         == AllDelivered(s, c, ops, PipeC(i)) + Buffered(Run(s, c, ops).pipes[i])
  {
    SpoolOffOrdered(s, c, ops, i);
    StreamLaw(s, c, ops, PipeC(i));
  }

  // ----- sequential pipelines: all writing before any reading -----

  /** The spool holds something only behind a full ring. */
  predicate Packed(p: Pipe, c: Caps) {
    p.spool != [] ==> |p.ring| >= c.ring
  }

  lemma PackedStep(s: State, c: Caps, op: Op, i: nat)
    requires Inv(s, c) && EnvOk(op) && i < |s.pipes| && Held(s, PipeC(i)) && Packed(s.pipes[i], c)
    requires !Reading(s, op, PipeC(i)) && !Discards(s, op, PipeC(i))
    ensures i < |Step(s, c, op).0.pipes|
    ensures Held(Step(s, c, op).0, PipeC(i)) ==> Packed(Step(s, c, op).0.pipes[i], c)
  {
    var ch := PipeC(i);
    if Touches(s, op, ch) {
      NoDangling(s, c, op.fd);
      assert PipeOk(s.pipes[i], c);
      StepOnPipe(s, c, op, i);
      WriteTook(s.pipes[i], c, op, s.fds[op.fd].nonblock);
    } else if Transfer(op) {
      if OpenFd(s, op.fd) {
        match s.fds[op.fd].target
        case FileT =>
        case PipeT(j, _) => StepOnPipe(s, c, op, j);
        case PtyT(j, side) => StepOnPty(s, c, op, j, side);
      }
    } else {
      PackedControl(s, c, op, i);
    }
  }

  lemma {:induction false} PackedFifo(s: State, c: Caps, op: Op, i: nat)
    requires Sane(s) && i < |s.pipes| && s.pipes[i].used && Packed(s.pipes[i], c)
    requires op.OpOpenFifo? || op.OpMkFifo?
    ensures i < |Step(s, c, op).0.pipes| && Packed(Step(s, c, op).0.pipes[i], c)
  {
  }

  lemma {:induction false} PackedSetting(s: State, c: Caps, op: Op, i: nat)
    requires Sane(s) && i < |s.pipes| && Packed(s.pipes[i], c)
    requires Setting(op) && !Discards(s, op, PipeC(i))
    ensures i < |Step(s, c, op).0.pipes| && Packed(Step(s, c, op).0.pipes[i], c)
  {
  }

  /** A control step leaves ring and spool alone or empties both. */
  lemma {:induction false} PackedControl(s: State, c: Caps, op: Op, i: nat)
    requires Inv(s, c) && EnvOk(op) && i < |s.pipes| && Held(s, PipeC(i)) && Packed(s.pipes[i], c)
    requires !Transfer(op) && !Discards(s, op, PipeC(i))
    ensures i < |Step(s, c, op).0.pipes|
    ensures Held(Step(s, c, op).0, PipeC(i)) ==> Packed(Step(s, c, op).0.pipes[i], c)
  {
    HeldIsUsed(s, c, PipeC(i));
    match op {
      case OpPipe(_) => PackedCreate(s, c, op, i);
      case OpPty(_) => PackedCreate(s, c, op, i);
      case OpClose(fd) => if 2 < fd < |s.fds| { PackedRelease(s, c, fd, i); }
      case OpDup(fd) => if FreeFd(s.fds, 3) < |s.fds| { PackedDup(s, c, Remap(s, fd), FreeFd(s.fds, 3), i); }
      case OpDup2(fd, newfd) => PackedDup(s, c, Remap(s, fd), newfd, i);
      case OpOpenFifo(_, _, _, _) => PackedFifo(s, c, op, i);
      case OpMkFifo(_, _, _, _, _) => PackedFifo(s, c, op, i);
      case _ => PackedSetting(s, c, op, i);
    }
  }

  lemma PackedRelease(s: State, c: Caps, fd: nat, i: nat)
    requires Sane(s) && fd < |s.fds| && i < |s.pipes| && Packed(s.pipes[i], c)
    ensures i < |Release(s, fd).pipes| && Packed(Release(s, fd).pipes[i], c)
  {
  }

  lemma PackedDup(s: State, c: Caps, oldfd: int, newfd: int, i: nat)
    requires Sane(s) && i < |s.pipes| && Packed(s.pipes[i], c)
    ensures i < |DupInto(s, oldfd, newfd).0.pipes| && Packed(DupInto(s, oldfd, newfd).0.pipes[i], c)
  {
    if OpenFd(s, oldfd) && 2 < newfd < |s.fds| && oldfd != newfd {
      PackedRelease(s, c, newfd, i);
      ReleaseSane(s, newfd);
    }
  }

  lemma PackedCreate(s: State, c: Caps, op: Op, i: nat)
    requires Sane(s) && i < |s.pipes| && s.pipes[i].used && Packed(s.pipes[i], c) && (op.OpPipe? || op.OpPty?)
    ensures i < |Step(s, c, op).0.pipes| && Packed(Step(s, c, op).0.pipes[i], c)
  {
    CreateSane(s);
    var r := if op.OpPipe? then CreatePipe(s) else CreatePty(s);
    assert i < |r.0.pipes| && r.0.pipes[i] == s.pipes[i];
    if r.1.Pair? && !op.copyoutOk {
      PackedRelease(r.0, c, r.1.a, i);
      ReleaseSane(r.0, r.1.a);
      PackedRelease(Release(r.0, r.1.a), c, r.1.b, i);
    }
  }

  /** No read of the pipe happens in the run. */
  ghost predicate UnreadThroughout(s: State, c: Caps, ops: seq<Op>, i: nat)
    requires Inv(s, c) && forall op :: op in ops ==> EnvOk(op)
    decreases |ops|
  {
    ops == [] || (
      StepKeeps(s, c, ops[0]);
      !Reading(s, ops[0], PipeC(i)) && UnreadThroughout(Step(s, c, ops[0]).0, c, ops[1..], i))
  }

  lemma {:induction false} UnreadOrdered(s: State, c: Caps, ops: seq<Op>, i: nat)
    requires Inv(s, c) && forall op :: op in ops ==> EnvOk(op)
    requires HeldThroughout(s, c, ops, PipeC(i)) && UnreadThroughout(s, c, ops, i) && Packed(s.pipes[i], c)
    ensures OrderedThroughout(s, c, ops, PipeC(i))
    decreases |ops|
  {
    if ops != [] {
      StepKeeps(s, c, ops[0]);
      PackedStep(s, c, ops[0], i);
      UnreadOrdered(Step(s, c, ops[0]).0, c, ops[1..], i);
    }
  }

  /** The shell's pipeline runs the writing stage to its end before the reading stage: then even
      a spooled pipe keeps every byte in order behind what it held. */
  lemma WriterFirst(s: State, c: Caps, ops: seq<Op>, i: nat)
    requires Inv(s, c) && forall op :: op in ops ==> EnvOk(op)
    requires HeldThroughout(s, c, ops, PipeC(i)) && UnreadThroughout(s, c, ops, i) && Packed(s.pipes[i], c)
    ensures ChanIn(Run(s, c, ops), PipeC(i))
    ensures Buffered(Run(s, c, ops).pipes[i]) == Buffered(s.pipes[i]) + AllAccepted(s, c, ops, PipeC(i))
  {
    UnreadOrdered(s, c, ops, i);
    StreamLaw(s, c, ops, PipeC(i));
    NothingDelivered(s, c, ops, i);
    var all := Queue(s, PipeC(i)) + AllAccepted(s, c, ops, PipeC(i));
    DropEmpty(all, AllDelivered(s, c, ops, PipeC(i)), Queue(Run(s, c, ops), PipeC(i)));
  }

  lemma DropEmpty(a: seq<byte>, d: seq<byte>, q: seq<byte>)
    requires a == d + q && d == []
    ensures q == a
  {
  }

  lemma {:induction false} NothingDelivered(s: State, c: Caps, ops: seq<Op>, i: nat)
    requires Inv(s, c) && forall op :: op in ops ==> EnvOk(op)
    requires UnreadThroughout(s, c, ops, i)
    ensures AllDelivered(s, c, ops, PipeC(i)) == []
    decreases |ops|
  {
    if ops != [] {
      StepKeeps(s, c, ops[0]);
      NothingDelivered(Step(s, c, ops[0]).0, c, ops[1..], i);
    }
  }

  // ----- end of file -----

  /** An anonymous pipe at end of file: no write descriptor, nothing buffered, still readable. */
  predicate AtEof(s: State, i: nat) {
    i < |s.pipes| && var p := s.pipes[i];
    p.used && !p.fifo && p.writers == 0 && p.readers > 0 && Buffered(p) == []
  }

  /** A non-empty write through a descriptor of the pipe; with no write descriptor left it can
      only be a read descriptor, which the write path does not refuse. */
  predicate WritesThrough(s: State, op: Op, i: nat) {
    Writing(s, op, PipeC(i)) && op.data != []
  }

  lemma NoWriterFd(s: State, c: Caps, i: nat, fd: nat)
    requires Inv(s, c) && AtEof(s, i) && fd < |s.fds| && s.fds[fd].Open?
    ensures s.fds[fd].target != PipeT(i, WriteEnd)
  {
    assert Counted(s, PipeT(i, WriteEnd));
    HoldersPositive(s.fds, PipeT(i, WriteEnd));
  }

  lemma EofRelease(s: State, c: Caps, fd: nat, i: nat)
    requires Inv(s, c) && AtEof(s, i) && fd < |s.fds|
    ensures var s' := Release(s, fd); i < |s'.pipes| && (s'.pipes[i].readers > 0 ==> AtEof(s', i))
  {
  }

  lemma EofDup(s: State, c: Caps, oldfd: int, newfd: int, i: nat)
    requires Inv(s, c) && AtEof(s, i)
    ensures var s' := DupInto(s, oldfd, newfd).0; i < |s'.pipes| && (s'.pipes[i].readers > 0 ==> AtEof(s', i))
  {
    if OpenFd(s, oldfd) && 2 < newfd < |s.fds| && oldfd != newfd {
      NoWriterFd(s, c, i, oldfd);
      EofRelease(s, c, newfd, i);
      ReleaseKeeps(s, c, newfd);
      ReleaseSane(s, newfd);
      NoDangling(Release(s, newfd), c, oldfd);
    }
  }

  lemma {:induction false} EofCreate(s: State, c: Caps, op: Op, i: nat)
    requires Inv(s, c) && AtEof(s, i) && (op.OpPipe? || op.OpPty?)
    ensures var s' := Step(s, c, op).0; i < |s'.pipes| && (s'.pipes[i].readers > 0 ==> AtEof(s', i))
  {
    CreateSane(s);
    if op.OpPipe? {
      CreatePipeKeeps(s, c);
      EofDelivered(CreatePipe(s), c, op.copyoutOk, i);
    } else {
      CreatePtyKeeps(s, c);
      EofDelivered(CreatePty(s), c, op.copyoutOk, i);
    }
  }

  lemma {:induction false} EofDelivered(r: (State, Ret), c: Caps, ok: bool, i: nat)
    requires Inv(r.0, c) && AtEof(r.0, i)
    requires r.1.Pair? ==> r.1.a < |r.0.fds| && r.1.b < |r.0.fds| && r.1.a != r.1.b
    ensures var s' := Delivered(r, ok).0; i < |s'.pipes| && (s'.pipes[i].readers > 0 ==> AtEof(s', i))
  {
    if r.1.Pair? && !ok {
      var s1 := Release(r.0, r.1.a);
      EofRelease(r.0, c, r.1.a, i);
      ReleaseKeeps(r.0, c, r.1.a);
      ReleaseSane(r.0, r.1.a);
      if AtEof(s1, i) { EofRelease(s1, c, r.1.b, i); } else { StillNoReader(s1, r.1.b, i); }
    }
  }

  /** Releasing a descriptor gives no pipe a reader. */
  lemma {:induction false} StillNoReader(s: State, fd: nat, i: nat)
    requires Sane(s) && fd < |s.fds| && i < |s.pipes| && s.pipes[i].readers == 0
    ensures i < |Release(s, fd).pipes| && Release(s, fd).pipes[i].readers == 0
  {
  }

  lemma EofTransfer(s: State, c: Caps, op: Op, i: nat)
    requires Inv(s, c) && AtEof(s, i) && Transfer(op) && c.ring > 0
    ensures var s' := Step(s, c, op).0; i < |s'.pipes| && s'.pipes[i].readers == s.pipes[i].readers
    ensures AtEof(Step(s, c, op).0, i) <==> !WritesThrough(s, op, i)
  {
    if Touches(s, op, PipeC(i)) {
      var p, nb := s.pipes[i], s.fds[op.fd].nonblock;
      assert PipeOk(p, c);
      StepOnPipe(s, c, op, i);
      PipeTransfer(p, c, op, nb);
      if IsWrite(op) {
        LoopEffect(p, c, op.data, Base(op), nb, op.intr);
      }
    } else {
      OtherTransfer(s, c, op, PipeC(i));
      EofElsewhere(s, c, op, i);
    }
  }

  lemma EofElsewhere(s: State, c: Caps, op: Op, i: nat)
    requires Inv(s, c) && AtEof(s, i) && Transfer(op) && !Touches(s, op, PipeC(i))
    ensures i < |Step(s, c, op).0.pipes| && Step(s, c, op).0.pipes[i] == s.pipes[i]
  {
    if OpenFd(s, op.fd) {
      match s.fds[op.fd].target
      case FileT =>
      case PipeT(j, _) => StepOnPipe(s, c, op, j);
      case PtyT(j, side) => StepOnPty(s, c, op, j, side);
    }
  }

  /** A FIFO call touches no anonymous pipe. */
  lemma {:induction false} EofFifo(s: State, c: Caps, op: Op, i: nat)
    requires Sane(s) && AtEof(s, i) && (op.OpOpenFifo? || op.OpMkFifo?)
    ensures i < |Step(s, c, op).0.pipes| && Step(s, c, op).0.pipes[i] == s.pipes[i]
  {
  }

  lemma {:induction false} EofSetting(s: State, c: Caps, op: Op, i: nat)
    requires Sane(s) && AtEof(s, i) && Setting(op)
    ensures var s' := Step(s, c, op).0; i < |s'.pipes| && (s'.pipes[i].readers > 0 ==> AtEof(s', i))
  {
  }

  /** From end of file, one system call leaves a still-readable pipe at end of file exactly when
      it is not a non-empty write through one of the pipe's own descriptors. */
  lemma {:induction false} EofStep(s: State, c: Caps, op: Op, i: nat)
    requires Inv(s, c) && EnvOk(op) && AtEof(s, i) && c.ring > 0
    ensures var s' := Step(s, c, op).0;
      i < |s'.pipes| && (s'.pipes[i].readers > 0 ==> (AtEof(s', i) <==> !WritesThrough(s, op, i)))
  {
    if Transfer(op) {
      EofTransfer(s, c, op, i);
    } else {
      match op {
        case OpPipe(_) => EofCreate(s, c, op, i);
        case OpPty(_) => EofCreate(s, c, op, i);
        case OpClose(fd) => if 2 < fd < |s.fds| { EofRelease(s, c, fd, i); }
        case OpDup(fd) => if FreeFd(s.fds, 3) < |s.fds| { EofDup(s, c, Remap(s, fd), FreeFd(s.fds, 3), i); }
        case OpDup2(fd, newfd) => EofDup(s, c, Remap(s, fd), newfd, i);
        case OpOpenFifo(_, _, _, _) => EofFifo(s, c, op, i);
        case OpMkFifo(_, _, _, _, _) => EofFifo(s, c, op, i);
        case _ => EofSetting(s, c, op, i);
      }
    }
  }

  /** At end of file every read of the pipe returns no bytes, at once. */
  lemma EofReads(s: State, c: Caps, op: Op, i: nat)
    requires Inv(s, c) && AtEof(s, i) && Reading(s, op, PipeC(i))
    ensures Step(s, c, op).1 == Data([])
  {
    StepOnPipe(s, c, op, i);
  }

  /** A read descriptor stays open through the run, and nothing is written through it. */
  ghost predicate QuietThroughout(s: State, c: Caps, ops: seq<Op>, i: nat)
    requires Inv(s, c) && forall op :: op in ops ==> EnvOk(op)
    decreases |ops|
  {
    && i < |s.pipes| && s.pipes[i].readers > 0
    && (ops == [] || (
          StepKeeps(s, c, ops[0]);
          !WritesThrough(s, ops[0], i) && QuietThroughout(Step(s, c, ops[0]).0, c, ops[1..], i)))
  }

  /** End of file is permanent over every such run. */
  lemma {:induction false} EofForever(s: State, c: Caps, ops: seq<Op>, i: nat)
    requires Inv(s, c) && (forall op :: op in ops ==> EnvOk(op)) && c.ring > 0
    requires AtEof(s, i) && QuietThroughout(s, c, ops, i)
    ensures AtEof(Run(s, c, ops), i)
    ensures AllDelivered(s, c, ops, PipeC(i)) == []
    decreases |ops|
  {
    if ops != [] {
      StepKeeps(s, c, ops[0]);
      EofStep(s, c, ops[0], i);
      if Reading(s, ops[0], PipeC(i)) { EofReads(s, c, ops[0], i); }
      EofForever(Step(s, c, ops[0]).0, c, ops[1..], i);
    }
  }

  /** The write path never looks at the descriptor's end: through a read descriptor, any pipe at
      end of file accepts a byte and then hands it out again. */
  lemma {:induction false} EofBroken(s: State, c: Caps, i: nat, fd: nat, b: byte, intr: bool)
    requires Inv(s, c) && AtEof(s, i) && c.ring > 0
    requires fd < |s.fds| && s.fds[fd].Open? && s.fds[fd].target == PipeT(i, ReadEnd)
    ensures var (s1, r1) := Step(s, c, OpWrite(fd, [b], intr));
      && r1 == Count(1)
      && Sane(s1) && Step(s1, c, OpRead(fd, 1, intr)).1 == Data([b])
  {
    var w, r, nb := OpWrite(fd, [b], intr), OpRead(fd, 1, intr), s.fds[fd].nonblock;
    StepOnPipe(s, c, w, i);
    var (s1, r1) := Step(s, c, w);
    EofEcho(s.pipes[i], c, b, nb, intr);
    StepOnPipe(s1, c, r, i);
  }

  lemma {:induction false} EofEcho(p: Pipe, c: Caps, b: byte, nonblock: bool, intr: bool)
    requires p.used && p.readers > 0 && Buffered(p) == [] && c.ring > 0
    ensures WritePipe(p, c, [b], nonblock, intr).1 == Count(1)
    ensures ReadPipe(WritePipe(p, c, [b], nonblock, intr).0, 1, nonblock, intr).1 == Data([b])
  {
    assert |Buffered(p)| == |p.ring| + |p.spool|;
    var data := [b];
    assert RingRoom(p, c, |data|) == 1 && Room(p, c, |data|) == 1;
    assert data[..1] == data && data[1..1] == [];
    var q := WritePipe(p, c, data, nonblock, intr).0;
    assert q.ring == [b] && q.spool == [];
    assert q.ring[..1] == [b] && q.spool[..0] == [];
  }

  /** A PTY read reports end of file exactly when nothing is buffered for that side and no
      descriptor is open on the peer side. */
  lemma PtyEof(s: State, c: Caps, op: Op, i: nat, side: Side)
    requires Inv(s, c) && op.OpRead? && op.maxlen > 0 && OpenFd(s, op.fd) && s.fds[op.fd].target == PtyT(i, side)
    ensures i < |s.ptys|
    ensures Step(s, c, op).1 == Data([]) <==> Queue(s, PtyC(i, side)) == [] && Holders(s.fds, PtyT(i, Peer(side))) == 0
  {
    NoDangling(s, c, op.fd);
    StepOnPty(s, c, op, i, side);
    assert Counted(s, PtyT(i, Peer(side)));
    assert PtyOk(s.ptys[i], c);
    var q := Incoming(s.ptys[i], side);
    if q != [] {
      assert |q[..Min(op.maxlen, |q|)]| > 0;
    }
  }
}
