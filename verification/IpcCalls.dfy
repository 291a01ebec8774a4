/** Reads and writes as a user program issues them: 0, 1 and 2 stand for whatever standard input,
    output and error are mapped to, and the console answers outside the descriptor tables. */
module IpcCalls {
  import opened Bytes
  import opened IpcState
  import opened IpcInvariant

  /** The longest transfer of one call. */
  const IO_MAX: nat := 65536

  /** A call is answered at once, or becomes a step on the tables. */
  datatype Resolved = Answered(r: Ret) | Table(op: Op)

  /** A mapping to a closed descriptor falls back to the console. */
  function Mapped(s: State, to: int, console: int): int {
    if to > 2 && !OpenFd(s, to) then console else to
  }

  function Resolve(s: State, op: Op): Resolved {
    match op
    case OpRead(fd, maxlen, intr) =>
      var to := if fd == 0 then Mapped(s, s.stdin, 0) else fd;
      if maxlen == 0 then Answered(Data([]))
      else if to == 0 then Answered(Elsewhere)
      else Table(OpRead(to, Min(maxlen, IO_MAX), intr))
    case OpWrite(fd, data, intr) =>
      var to :=
        if fd == 1 then Mapped(s, s.stdout, 1) else if fd == 2 then Mapped(s, s.stderr, 2) else fd;
      if data == [] then Answered(Count(0))
      else if to == 1 || to == 2 then Answered(Elsewhere)
      else Table(OpWrite(to, data[..Min(|data|, IO_MAX)], intr))
    case _ => Table(op)
  }

  /** One system call as its caller sees it. */
  function Call(s: State, c: Caps, op: Op): (State, Ret)
    requires Sane(s)
  {
    match Resolve(s, op)
    case Answered(r) => (s, r)
    case Table(op') => Step(s, c, op')
  }

  lemma ResolveEnv(s: State, op: Op)
    requires EnvOk(op)
    ensures Resolve(s, op).Table? ==> EnvOk(Resolve(s, op).op)
  {
  }

  /** The steps on the tables that a run of calls comes down to. */
  function Steps(s: State, c: Caps, ops: seq<Op>): (r: seq<Op>)
    requires Inv(s, c) && forall op :: op in ops ==> EnvOk(op)
    ensures forall op :: op in r ==> EnvOk(op)
    decreases |ops|
  {
    if ops == [] then []
    else
      ResolveEnv(s, ops[0]);
      match Resolve(s, ops[0])
      case Answered(_) => Steps(s, c, ops[1..])
      case Table(op) =>
        StepKeeps(s, c, op);
        [op] + Steps(Step(s, c, op).0, c, ops[1..])
  }

  /** What the calls of a run return. */
  function Answers(s: State, c: Caps, ops: seq<Op>): (r: seq<Ret>)
    requires Inv(s, c) && forall op :: op in ops ==> EnvOk(op)
    ensures |r| == |ops|
    decreases |ops|
  {
    if ops == [] then []
    else
      ResolveEnv(s, ops[0]);
      match Resolve(s, ops[0])
      case Answered(r) => [r] + Answers(s, c, ops[1..])
      case Table(op) =>
        StepKeeps(s, c, op);
        [Step(s, c, op).1] + Answers(Step(s, c, op).0, c, ops[1..])
  }

  /** One call of a run, then the rest. */
  lemma {:induction false} CallOne(s: State, c: Caps, ops: seq<Op>)
    requires Inv(s, c) && ops != [] && forall op :: op in ops ==> EnvOk(op)
    ensures Inv(Call(s, c, ops[0]).0, c) && forall op :: op in ops[1..] ==> EnvOk(op)
    ensures var s1 := Call(s, c, ops[0]).0;
      && Run(s, c, Steps(s, c, ops)) == Run(s1, c, Steps(s1, c, ops[1..]))
      && Answers(s, c, ops) == [Call(s, c, ops[0]).1] + Answers(s1, c, ops[1..])
  {
    ResolveEnv(s, ops[0]);
    match Resolve(s, ops[0])
    case Answered(_) =>
    case Table(op) =>
      StepKeeps(s, c, op);
      var s1 := Step(s, c, op).0;
      RunCons(s, c, op, Steps(s1, c, ops[1..]));
  }

  lemma {:induction false} RunCons(s: State, c: Caps, op: Op, rest: seq<Op>)
    requires Inv(s, c) && EnvOk(op) && forall o :: o in rest ==> EnvOk(o)
    ensures Inv(Step(s, c, op).0, c) && Run(s, c, [op] + rest) == Run(Step(s, c, op).0, c, rest)
  {
    StepKeeps(s, c, op);
    assert ([op] + rest)[0] == op && ([op] + rest)[1..] == rest;
  }

  // ----- where standard input and output end up -----

  /** Descriptors 0, 1 and 2 are never opened, and the mappings name table slots. */
  predicate Wired(s: State) {
    && 3 <= |s.fds| && s.fds[0].Free? && s.fds[1].Free? && s.fds[2].Free?
    && 0 <= s.stdin < |s.fds| && 0 <= s.stdout < |s.fds| && 0 <= s.stderr < |s.fds|
  }

  lemma {:induction false} ReleaseWired(s: State, fd: nat)
    requires Sane(s) && Wired(s) && fd < |s.fds|
    ensures Sane(Release(s, fd)) && Wired(Release(s, fd))
  {
    ReleaseSane(s, fd);
  }

  lemma {:induction false} AttachWired(s: State, fd: nat, t: Target, nonblock: bool)
    requires Wired(s) && 3 <= fd < |s.fds| && InRange(s, t)
    ensures Wired(Attach(s, fd, t, nonblock)) && |Attach(s, fd, t, nonblock).fds| == |s.fds|
  {
  }

  lemma {:induction false} DeliveredWired(r: (State, Ret), ok: bool)
    requires Sane(r.0) && Wired(r.0)
    requires r.1.Pair? ==> r.1.a < |r.0.fds| && r.1.b < |r.0.fds| && r.1.a != r.1.b
    ensures Wired(Delivered(r, ok).0)
  {
    if r.1.Pair? && !ok {
      ReleaseWired(r.0, r.1.a);
      ReleaseWired(Release(r.0, r.1.a), r.1.b);
    }
  }

  lemma {:induction false} PipeWired(s: State)
    requires Wired(s)
    ensures Wired(CreatePipe(s).0)
  {
    var (s1, i) := AllocPipe(s, false, []);
    var a := FreeFd(s.fds, 3);
    if i < |s.pipes| && a < |s.fds| && FreeFd(s.fds, a + 1) < |s.fds| {
      AttachWired(s1, a, PipeT(i, ReadEnd), false);
      AttachWired(Attach(s1, a, PipeT(i, ReadEnd), false), FreeFd(s.fds, a + 1), PipeT(i, WriteEnd), false);
    }
  }

  lemma {:induction false} PtyWired(s: State)
    requires Wired(s)
    ensures Wired(CreatePty(s).0)
  {
    var i := FreePty(s.ptys, 0);
    var a := FreeFd(s.fds, 3);
    if i < |s.ptys| && a < |s.fds| && FreeFd(s.fds, a + 1) < |s.fds| {
      var s1 := s.(ptys := s.ptys[i := NO_PTY.(used := true)]);
      AttachWired(s1, a, PtyT(i, Master), false);
      AttachWired(Attach(s1, a, PtyT(i, Master), false), FreeFd(s.fds, a + 1), PtyT(i, Slave), false);
    }
  }

  lemma {:induction false} DupWired(s: State, oldfd: int, newfd: int)
    requires Sane(s) && Wired(s)
    ensures Wired(DupInto(s, oldfd, newfd).0)
  {
    if OpenFd(s, oldfd) && 2 < newfd < |s.fds| && oldfd != newfd {
      ReleaseWired(s, newfd);
      var s1 := Release(s, newfd);
      if OpenFd(s1, oldfd) && Live(s1, s1.fds[oldfd].target) {
        AttachWired(s1, newfd, s1.fds[oldfd].target, s1.fds[oldfd].nonblock);
      }
    }
  }

  lemma {:induction false} TransferWired(s: State, c: Caps, op: Op)
    requires Sane(s) && Wired(s) && (op.OpRead? || op.OpWrite? || op.OpResume?)
    ensures Wired(Step(s, c, op).0)
  {
  }

  lemma {:induction false} CreateWired(s: State, c: Caps, op: Op)
    requires Sane(s) && Wired(s) && (op.OpPipe? || op.OpPty?)
    ensures Wired(Step(s, c, op).0)
  {
    CreateSane(s);
    PipeWired(s);
    PtyWired(s);
    DeliveredWired(if op.OpPipe? then CreatePipe(s) else CreatePty(s), op.copyoutOk);
  }

  lemma {:induction false} FifoWired(s: State, c: Caps, op: Op)
    requires Sane(s) && Wired(s) && (op.OpOpenFifo? || op.OpMkFifo?)
    ensures Wired(Step(s, c, op).0)
  {
    if op.OpOpenFifo? {
      var (s1, i) := GetOrCreateFifo(s, op.path, op.stat);
      var fd := FreeFd(s1.fds, 3);
      if i < |s1.pipes| && fd < |s1.fds| {
        AttachWired(s1, fd, PipeT(i, if op.write then WriteEnd else ReadEnd), op.nonblock);
      }
    }
  }

  lemma {:induction false} StepWired(s: State, c: Caps, op: Op)
    requires Sane(s) && Wired(s)
    ensures Wired(Step(s, c, op).0)
  {
    match op {
      case OpPipe(_) => CreateWired(s, c, op);
      case OpPty(_) => CreateWired(s, c, op);
      case OpOpenFifo(_, _, _, _) => FifoWired(s, c, op);
      case OpOpenFile =>
        var fd := FreeFd(s.fds, 3);
        if fd < |s.fds| { AttachWired(s, fd, FileT, false); }
      case OpMkFifo(_, _, _, _, _) => FifoWired(s, c, op);
      case OpClose(fd) => if 2 < fd < |s.fds| { ReleaseWired(s, fd); }
      case OpDup(fd) => if FreeFd(s.fds, 3) < |s.fds| { DupWired(s, Remap(s, fd), FreeFd(s.fds, 3)); }
      case OpDup2(fd, newfd) => DupWired(s, Remap(s, fd), newfd);
      case OpRead(_, _, _) => TransferWired(s, c, op);
      case OpWrite(_, _, _) => TransferWired(s, c, op);
      case OpResume(_, _, _, _) => TransferWired(s, c, op);
      case OpNonblock(_, _) =>
      case OpSpool(_, _, _) =>
      case OpStdio(_, _, _) =>
      case OpReset =>
    }
  }

  lemma {:induction false} RunWired(s: State, c: Caps, ops: seq<Op>)
    requires Inv(s, c) && Wired(s) && forall op :: op in ops ==> EnvOk(op)
    ensures Wired(Run(s, c, ops))
    decreases |ops|
  {
    if ops != [] {
      StepKeeps(s, c, ops[0]);
      StepWired(s, c, ops[0]);
      RunWired(Step(s, c, ops[0]).0, c, ops[1..]);
    }
  }

  /** A transfer that finds something to read from or write to: the console or an open descriptor. */
  predicate Reaches(s: State, op: Op)
    requires op.OpRead? || op.OpWrite?
  {
    match Resolve(s, op)
    case Answered(r) => r.Elsewhere?
    case Table(op') => (op'.OpRead? || op'.OpWrite?) && OpenFd(s, op'.fd)
  }

  /** The fallback is meant to keep remapped output from vanishing. It sees only mappings above 2:
      after any run from boot, output to 1 or 2 reaches something exactly when its mapping is not
      0, and input from 0 exactly when its mapping is neither 1 nor 2. */
  lemma {:induction false} StdioReachesIff(fds: nat, pipes: nat, ptys: nat, c: Caps, ops: seq<Op>, op: Op)
    requires 3 <= fds && forall o :: o in ops ==> EnvOk(o)
    ensures Inv(Boot(fds, pipes, ptys), c)
    ensures var s := Run(Boot(fds, pipes, ptys), c, ops);
      && (op.OpWrite? && op.data != [] && op.fd == 1 ==> (Reaches(s, op) <==> s.stdout != 0))
      && (op.OpWrite? && op.data != [] && op.fd == 2 ==> (Reaches(s, op) <==> s.stderr != 0))
      && (op.OpRead? && op.maxlen > 0 && op.fd == 0 ==> (Reaches(s, op) <==> s.stdin != 1 && s.stdin != 2))
  {
    BootInv(fds, pipes, ptys, c);
    RunWired(Boot(fds, pipes, ptys), c, ops);
  }

  /** The mapping call accepts 0 for standard output, whatever the state: output then fails. */
  lemma {:induction false} OutputLost(s: State, c: Caps, data: seq<byte>, intr: bool)
    requires Sane(s) && Wired(s) && data != []
    ensures var (s1, r1) := Step(s, c, OpStdio(0, 0, 2));
      && r1 == Code(0) && Sane(s1)
      && !Reaches(s1, OpWrite(1, data, intr)) && Call(s1, c, OpWrite(1, data, intr)).1 == Fail
  {
  }
}
