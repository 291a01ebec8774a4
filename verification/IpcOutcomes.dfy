/** What each system call answers and which tables it changes, in terms of open descriptors and
    waiting bytes: reads and writes first, then the calls that handle descriptors. */
module IpcOutcomes {
  import opened Bytes
  import opened IpcState
  import opened IpcInvariant
  import opened IpcStreams
  import opened IpcCalls

  /** The descriptors open on a target. */
  ghost function OpenOn(fds: seq<Fd>, t: Target): set<nat> {
    set i: nat | i < |fds| && fds[i] in {Open(t, false), Open(t, true)}
  }

  /** A target's holders are the number of descriptors open on it. */
  lemma {:induction false} HoldersAreOpen(fds: seq<Fd>, t: Target)
    ensures Holders(fds, t) == |OpenOn(fds, t)|
    decreases |fds|
  {
    if fds != [] {
      var n := |fds| - 1;
      HoldersOfLast(fds, t);
      HoldersAreOpen(fds[..n], t);
      var before := OpenOn(fds[..n], t);
      if fds[n].Open? && fds[n].target == t {
        assert OpenOn(fds, t) == before + {n};
      } else {
        assert OpenOn(fds, t) == before;
      }
    }
  }

  lemma {:induction false} HoldersOfLast(fds: seq<Fd>, t: Target)
    requires fds != []
    ensures var f := fds[|fds| - 1];
      Holders(fds, t) == Holders(fds[..|fds| - 1], t) + if f.Open? && f.target == t then 1 else 0
    decreases |fds|
  {
    if |fds| > 1 {
      HoldersOfLast(fds[1..], t);
      assert fds[1..][..|fds| - 2] == fds[..|fds| - 1][1..];
    }
  }

  // ----- reading -----

  /** The open descriptor is on pipe `i`. */
  predicate OnPipe(s: State, fd: int, i: nat) {
    OpenFd(s, fd) && s.fds[fd].target.PipeT? && s.fds[fd].target.pipe == i
  }

  /** A pipe read takes what is there, up to what is asked for. On an empty pipe it reports end of
      file when no write descriptor is open; else it fails when it may not wait, and sleeps when it may. */
  lemma {:induction false} PipeReadAnswers(s: State, c: Caps, op: Op, i: nat)
    requires Inv(s, c) && op.OpRead? && op.maxlen > 0 && OnPipe(s, op.fd, i)
    ensures i < |s.pipes|
    ensures var q, writers, waits := Queue(s, PipeC(i)), Holders(s.fds, PipeT(i, WriteEnd)),
        !s.fds[op.fd].nonblock && !op.intr;
      Step(s, c, op).1 ==
        if q != [] then Data(q[..if op.maxlen < |q| then op.maxlen else |q|])
        else if writers == 0 then Data([])
        else if waits then Blocked(0)
        else Fail
  {
    NoDangling(s, c, op.fd);
    StepOnPipe(s, c, op, i);
    assert Counted(s, PipeT(i, WriteEnd)) && PipeOk(s.pipes[i], c);
    TakenFront(s.pipes[i], op.maxlen);
  }

  lemma {:induction false} TakenFront(p: Pipe, n: nat)
    ensures var a := Min(n, |p.ring|);
      p.ring[..a] + p.spool[..Min(n - a, |p.spool|)] == Buffered(p)[..Min(n, |Buffered(p)|)]
    ensures Buffered(p) == [] <==> p.ring == [] && p.spool == []
  {
    if |p.ring| < n { assert Min(n, |p.ring|) == |p.ring| && p.ring[..|p.ring|] == p.ring; }
  }

  /** End of file on a pipe, exactly. */
  lemma {:induction false} PipeEof(s: State, c: Caps, op: Op, i: nat)
    requires Inv(s, c) && op.OpRead? && op.maxlen > 0 && OnPipe(s, op.fd, i)
    ensures i < |s.pipes|
    ensures Step(s, c, op).1 == Data([]) <==>
      Queue(s, PipeC(i)) == [] && Holders(s.fds, PipeT(i, WriteEnd)) == 0
  {
    PipeReadAnswers(s, c, op, i);
    var q := Queue(s, PipeC(i));
    if q != [] { assert |q[..if op.maxlen < |q| then op.maxlen else |q|]| > 0; }
  }

  /** The same for a PTY: its peer side takes the place of the writers. */
  lemma {:induction false} PtyReadAnswers(s: State, c: Caps, op: Op, i: nat, side: Side)
    requires Inv(s, c) && op.OpRead? && op.maxlen > 0 && OpenFd(s, op.fd) && s.fds[op.fd].target == PtyT(i, side)
    ensures i < |s.ptys|
    ensures var q, peers, waits := Queue(s, PtyC(i, side)),
        Holders(s.fds, PtyT(i, if side.Master? then Slave else Master)), !s.fds[op.fd].nonblock && !op.intr;
      Step(s, c, op).1 ==
        if q != [] then Data(q[..if op.maxlen < |q| then op.maxlen else |q|])
        else if peers == 0 then Data([])
        else if waits then Blocked(0)
        else Fail
  {
    NoDangling(s, c, op.fd);
    StepOnPty(s, c, op, i, side);
    assert Counted(s, PtyT(i, Peer(side))) && PtyOk(s.ptys[i], c);
  }

  // ----- writing -----

  /** What a write answers that finds `room` free bytes, `done` bytes into its data. */
  function Written(len: nat, room: nat, done: nat, waits: bool): Ret {
    if len <= room then Count(done + len)
    else if waits then Blocked(done + room)
    else if done + room > 0 then Count(done + room)
    else Fail
  }

  /** Free bytes of a pipe: of its ring, and of its spool if it is on. */
  predicate FreeRoom(p: Pipe, c: Caps, room: nat) {
    room == c.ring - |p.ring| + if p.spoolOn then c.spool - |p.spool| else 0
  }

  /** A pipe write fails without a read descriptor. Else it takes what there is room for: all, or as
      much as fits, and then it sleeps if it may wait; not a single byte and no waiting is a failure. */
  lemma {:induction false} PipeWriteAnswers(s: State, c: Caps, op: Op, i: nat, room: nat)
    requires Inv(s, c) && op.OpWrite? && OnPipe(s, op.fd, i)
    requires i < |s.pipes| ==> FreeRoom(s.pipes[i], c, room)
    ensures i < |s.pipes|
    ensures var readers, waits := Holders(s.fds, PipeT(i, ReadEnd)), !s.fds[op.fd].nonblock && !op.intr;
      Step(s, c, op).1 ==
        if op.data == [] then Count(0)
        else if readers == 0 then Fail
        else Written(|op.data|, room, 0, waits)
  {
    NoDangling(s, c, op.fd);
    StepOnPipe(s, c, op, i);
    assert Counted(s, PipeT(i, ReadEnd)) && PipeOk(s.pipes[i], c);
  }

  /** A write that slept goes on in the same way; without a reader it gives up waiting. */
  lemma {:induction false} PipeResumeAnswers(s: State, c: Caps, op: Op, i: nat, room: nat)
    requires Inv(s, c) && op.OpResume? && OnPipe(s, op.fd, i)
    requires i < |s.pipes| ==> FreeRoom(s.pipes[i], c, room)
    ensures i < |s.pipes|
    ensures var readers, waits := Holders(s.fds, PipeT(i, ReadEnd)), !s.fds[op.fd].nonblock && !op.intr;
      Step(s, c, op).1 == Written(|op.data|, room, op.done, waits && readers > 0)
  {
    NoDangling(s, c, op.fd);
    StepOnPipe(s, c, op, i);
    assert Counted(s, PipeT(i, ReadEnd)) && PipeOk(s.pipes[i], c);
  }

  /** A PTY write goes by the room towards the peer, and fails without a peer descriptor. */
  lemma {:induction false} PtyWriteAnswers(s: State, c: Caps, op: Op, i: nat, side: Side, room: nat)
    requires Inv(s, c) && IsWrite(op) && OpenFd(s, op.fd) && s.fds[op.fd].target == PtyT(i, side)
    requires i < |s.ptys| ==> room == c.pty - |Queue(s, PtyC(i, if side.Master? then Slave else Master))|
    ensures i < |s.ptys|
    ensures var peers, waits := Holders(s.fds, PtyT(i, if side.Master? then Slave else Master)),
        !s.fds[op.fd].nonblock && !op.intr;
      Step(s, c, op).1 ==
        if op.OpResume? then Written(|op.data|, room, op.done, waits && peers > 0)
        else if op.data == [] then Count(0)
        else if peers == 0 then Fail
        else Written(|op.data|, room, 0, waits)
  {
    NoDangling(s, c, op.fd);
    StepOnPty(s, c, op, i, side);
    assert Counted(s, PtyT(i, Peer(side))) && PtyOk(s.ptys[i], c);
  }

  /** Transfers on a closed descriptor fail, on a file they go to the file system; neither changes anything. */
  lemma {:induction false} OtherAnswers(s: State, c: Caps, op: Op)
    requires Sane(s) && Transfer(op) && (!OpenFd(s, op.fd) || s.fds[op.fd].target.FileT?)
    ensures Step(s, c, op) == (s, if OpenFd(s, op.fd) then Elsewhere else Fail)
  {
  }

  // ----- finding descriptors and objects -----

  predicate LowestFree(fds: seq<Fd>, from: nat, r: int) {
    from <= r < |fds| && fds[r].Free? && forall k :: from <= k < r ==> fds[k].Open?
  }

  lemma {:induction false} FreeFdLowest(fds: seq<Fd>, from: nat)
    requires from <= |fds|
    ensures FreeFd(fds, from) < |fds| ==> LowestFree(fds, from, FreeFd(fds, from))
    ensures FreeFd(fds, from) == |fds| ==> forall k :: from <= k < |fds| ==> fds[k].Open?
    decreases |fds| - from
  {
    if from < |fds| && fds[from].Open? { FreeFdLowest(fds, from + 1); }
  }

  lemma {:induction false} FreePipeLowest(ps: seq<Pipe>, from: nat)
    requires from <= |ps|
    ensures forall k :: from <= k < FreePipe(ps, from) ==> ps[k].used
    decreases |ps| - from
  {
    if from < |ps| && ps[from].used { FreePipeLowest(ps, from + 1); }
  }

  lemma {:induction false} FreePtyLowest(ts: seq<Pty>, from: nat)
    requires from <= |ts|
    ensures forall k :: from <= k < FreePty(ts, from) ==> ts[k].used
    decreases |ts| - from
  {
    if from < |ts| && ts[from].used { FreePtyLowest(ts, from + 1); }
  }

  predicate NoneFree(fds: seq<Fd>, from: nat) {
    forall k :: from <= k < |fds| ==> fds[k].Open?
  }

  // ----- pipes and PTYs made -----

  /** A new pipe is the lowest unused one, with its read end on the lowest free descriptor and its
      write end on the next; it fails exactly when a pipe or one of the two is not to be had, or the
      result cannot be handed over, and then nothing has changed. */
  lemma {:induction false} PipeMade(s: State, c: Caps, ok: bool)
    requires Inv(s, c)
    ensures var (s', r) := Step(s, c, OpPipe(ok));
      if r.Pair? then
        && ok && LowestFree(s.fds, 3, r.a) && LowestFree(s.fds, r.a + 1, r.b)
        && (exists i :: 0 <= i < |s.pipes| && !s.pipes[i].used && (forall k :: 0 <= k < i ==> s.pipes[k].used)
              && s' == s.(pipes := s.pipes[i := Pipe(true, false, false, 1, 1, [], [], [])],
                          fds := s.fds[r.a := Open(PipeT(i, ReadEnd), false)][r.b := Open(PipeT(i, WriteEnd), false)]))
      else
        && r == Fail && s' == s
        && (!ok || (forall k :: 0 <= k < |s.pipes| ==> s.pipes[k].used)
            || forall k :: 3 <= k < |s.fds| && s.fds[k].Free? ==> NoneFree(s.fds, k + 1))
  {
    FreePipeLowest(s.pipes, 0);
    FreeFdLowest(s.fds, 3);
    var i, a := FreePipe(s.pipes, 0), FreeFd(s.fds, 3);
    if i < |s.pipes| {
      assert PipeOk(s.pipes[i], c);
      assert s.pipes[i := NO_PIPE] == s.pipes;
      if a < |s.fds| {
        FreeFdLowest(s.fds, a + 1);
        if FreeFd(s.fds, a + 1) < |s.fds| { PipeTaken(s, c, i, a, FreeFd(s.fds, a + 1), ok); }
      }
    }
  }

  lemma {:induction false} PipeTaken(s: State, c: Caps, i: nat, a: nat, b: nat, ok: bool)
    requires Inv(s, c) && i == FreePipe(s.pipes, 0) < |s.pipes| && s.pipes[i] == NO_PIPE
    requires a == FreeFd(s.fds, 3) < |s.fds| && b == FreeFd(s.fds, a + 1) < |s.fds|
    ensures Step(s, c, OpPipe(ok)) ==
      if ok then
        (s.(pipes := s.pipes[i := Pipe(true, false, false, 1, 1, [], [], [])],
            fds := s.fds[a := Open(PipeT(i, ReadEnd), false)][b := Open(PipeT(i, WriteEnd), false)]), Pair(a, b))
      else (s, Fail)
  {
    CreateSane(s);
    var s1 := CreatePipe(s).0;
    assert s1.pipes == s.pipes[i := Pipe(true, false, false, 1, 1, [], [], [])];
    if !ok {
      var s2 := Release(s1, a);
      assert s2.pipes == s.pipes[i := Pipe(true, false, false, 0, 1, [], [], [])];
      var s3 := Release(s2, b);
      assert s3.pipes == s.pipes && s3.fds == s.fds;
    }
  }

  /** The same for a PTY: master first, then slave. */
  lemma {:induction false} PtyMade(s: State, c: Caps, ok: bool)
    requires Inv(s, c)
    ensures var (s', r) := Step(s, c, OpPty(ok));
      if r.Pair? then
        && ok && LowestFree(s.fds, 3, r.a) && LowestFree(s.fds, r.a + 1, r.b)
        && (exists i :: 0 <= i < |s.ptys| && !s.ptys[i].used && (forall k :: 0 <= k < i ==> s.ptys[k].used)
              && s' == s.(ptys := s.ptys[i := Pty(true, 1, 1, [], [])],
                          fds := s.fds[r.a := Open(PtyT(i, Master), false)][r.b := Open(PtyT(i, Slave), false)]))
      else
        && r == Fail && s' == s
        && (!ok || (forall k :: 0 <= k < |s.ptys| ==> s.ptys[k].used)
            || forall k :: 3 <= k < |s.fds| && s.fds[k].Free? ==> NoneFree(s.fds, k + 1))
  {
    FreePtyLowest(s.ptys, 0);
    FreeFdLowest(s.fds, 3);
    var i, a := FreePty(s.ptys, 0), FreeFd(s.fds, 3);
    if i < |s.ptys| {
      assert PtyOk(s.ptys[i], c);
      assert s.ptys[i := NO_PTY] == s.ptys;
      if a < |s.fds| {
        FreeFdLowest(s.fds, a + 1);
        if FreeFd(s.fds, a + 1) < |s.fds| { PtyTaken(s, c, i, a, FreeFd(s.fds, a + 1), ok); }
      }
    }
  }

  lemma {:induction false} PtyTaken(s: State, c: Caps, i: nat, a: nat, b: nat, ok: bool)
    requires Inv(s, c) && i == FreePty(s.ptys, 0) < |s.ptys| && s.ptys[i] == NO_PTY
    requires a == FreeFd(s.fds, 3) < |s.fds| && b == FreeFd(s.fds, a + 1) < |s.fds|
    ensures Step(s, c, OpPty(ok)) ==
      if ok then
        (s.(ptys := s.ptys[i := Pty(true, 1, 1, [], [])],
            fds := s.fds[a := Open(PtyT(i, Master), false)][b := Open(PtyT(i, Slave), false)]), Pair(a, b))
      else (s, Fail)
  {
    CreateSane(s);
    var s1 := CreatePty(s).0;
    assert s1.ptys == s.ptys[i := Pty(true, 1, 1, [], [])];
    if !ok {
      var s2 := Release(s1, a);
      assert s2.ptys == s.ptys[i := Pty(true, 0, 1, [], [])];
      var s3 := Release(s2, b);
      assert s3.ptys == s.ptys && s3.fds == s.fds;
    }
  }

  /** A file takes the lowest free descriptor. */
  lemma {:induction false} FileOpened(s: State, c: Caps)
    requires Inv(s, c)
    ensures var (s', r) := Step(s, c, OpOpenFile);
      if r == Fail then s' == s && NoneFree(s.fds, 3)
      else r.Code? && LowestFree(s.fds, 3, r.c) && s' == s.(fds := s.fds[r.c := Open(FileT, false)])
  {
    FreeFdLowest(s.fds, 3);
  }

  // ----- FIFOs -----

  predicate IsFifoAt(s: State, i: nat, path: seq<byte>) {
    i < |s.pipes| && s.pipes[i].used && s.pipes[i].fifo && s.pipes[i].path == path
  }

  lemma {:induction false} FifoFound(s: State, c: Caps, i: nat, path: seq<byte>)
    requires Inv(s, c) && IsFifoAt(s, i, path)
    ensures FindFifo(s.pipes, path, 0) == i
  {
    var j := FindFifo(s.pipes, path, 0);
    assert PipeOk(s.pipes[i], c);
    assert IsFifo(s.pipes[i], path);
    if j < |s.pipes| { assert IsFifo(s.pipes[j], path); }
  }

  /** Opening a FIFO that exists takes the lowest free descriptor on the end asked for and counts
      one more reader or one more writer. */
  lemma {:induction false} FifoOpened(s: State, c: Caps, op: Op, i: nat)
    requires Inv(s, c) && op.OpOpenFifo? && IsFifoAt(s, i, op.path)
    ensures var (s', r) := Step(s, c, op); var p := s.pipes[i];
      if r == Fail then s' == s && NoneFree(s.fds, 3)
      else
        && r.Code? && LowestFree(s.fds, 3, r.c)
        && s'.fds == s.fds[r.c := Open(PipeT(i, if op.write then WriteEnd else ReadEnd), op.nonblock)]
        && s'.pipes == s.pipes[i := if op.write then p.(writers := p.writers + 1) else p.(readers := p.readers + 1)]
        && s'.ptys == s.ptys
  {
    FifoFound(s, c, i, op.path);
    FreeFdLowest(s.fds, 3);
  }

  predicate NoFifoAt(s: State, path: seq<byte>) {
    forall i :: 0 <= i < |s.pipes| ==> !IsFifoAt(s, i, path)
  }

  lemma {:induction false} FifoMissing(s: State, path: seq<byte>)
    ensures NoFifoAt(s, path) ==> FindFifo(s.pipes, path, 0) == |s.pipes|
    ensures path != [] && FindFifo(s.pipes, path, 0) == |s.pipes| ==> NoFifoAt(s, path)
  {
    var j := FindFifo(s.pipes, path, 0);
    if j < |s.pipes| {
      assert IsFifo(s.pipes[j], path) && IsFifoAt(s, j, path);
    } else if path != [] {
      forall i | 0 <= i < |s.pipes| ensures !IsFifoAt(s, i, path) { assert !IsFifo(s.pipes[i], path); }
    }
  }

  predicate LowestUnused(ps: seq<Pipe>, i: nat) {
    i < |ps| && !ps[i].used && forall k :: 0 <= k < i ==> ps[k].used
  }

  predicate AllUsed(ps: seq<Pipe>) {
    forall k :: 0 <= k < |ps| ==> ps[k].used
  }

  lemma {:induction false} FreePipeIs(ps: seq<Pipe>, i: nat)
    requires LowestUnused(ps, i)
    ensures FreePipe(ps, 0) == i
  {
    FreePipeLowest(ps, 0);
  }

  /** A FIFO known only to the file system becomes the lowest unused pipe, with the end asked for; when no
      descriptor is left the open fails, but the FIFO is there. */
  lemma {:induction false} FifoAdopted(s: State, c: Caps, op: Op, i: nat)
    requires Inv(s, c) && op.OpOpenFifo? && op.path != [] && NoFifoAt(s, op.path) && op.stat.FifoNode?
    requires LowestUnused(s.pipes, i)
    ensures var (s', r) := Step(s, c, op);
      if NoneFree(s.fds, 3) then
        r == Fail && s' == s.(pipes := s.pipes[i := Pipe(true, true, false, 0, 0, [], [], op.path)])
      else
        && r.Code? && LowestFree(s.fds, 3, r.c)
        && s'.fds == s.fds[r.c := Open(PipeT(i, if op.write then WriteEnd else ReadEnd), op.nonblock)]
        && s'.pipes == s.pipes[i := Pipe(true, true, false,
             if op.write then 0 else 1, if op.write then 1 else 0, [], [], op.path)]
        && s'.ptys == s.ptys
  {
    FifoMissing(s, op.path);
    FreePipeIs(s.pipes, i);
    FreeFdLowest(s.fds, 3);
  }

  /** Any other path, and a FIFO for which no pipe is left, goes on to the file system. */
  lemma {:induction false} FifoLeft(s: State, c: Caps, op: Op)
    requires Inv(s, c) && op.OpOpenFifo? && op.path != [] && NoFifoAt(s, op.path)
    requires !op.stat.FifoNode? || AllUsed(s.pipes)
    ensures Step(s, c, op) == (s, Code(-2))
  {
    FifoMissing(s, op.path);
    FreePipeLowest(s.pipes, 0);
  }

  /** Making a FIFO succeeds when it exists, or when the file system has it or takes its marker and a
      pipe is left; only then is anything changed: the lowest unused pipe becomes that FIFO. */
  lemma {:induction false} FifoMade(s: State, c: Caps, op: Op)
    requires Inv(s, c) && op.OpMkFifo? && op.path != []
    ensures var (s', r) := Step(s, c, op);
      var there, slash := !NoFifoAt(s, op.path), 47 in op.path;
      var allowed := if op.stat.FifoNode? then op.again.FifoNode? else slash && op.parentOk && op.markerOk;
      && r == (if !op.stat.OtherNode? && (there || (allowed && !AllUsed(s.pipes))) then Code(0) else Fail)
      && (r == Fail || there ==> s' == s)
      && (r == Code(0) && !there ==>
            exists i: nat :: LowestUnused(s.pipes, i)
              && s' == s.(pipes := s.pipes[i := Pipe(true, true, false, 0, 0, [], [], op.path)]))
  {
    FifoMissing(s, op.path);
    FreePipeLowest(s.pipes, 0);
    var i := FreePipe(s.pipes, 0);
    if i < |s.pipes| { assert LowestUnused(s.pipes, i); }
  }

  // ----- closing and duplicating -----

  /** Everything but the counts is as it was. */
  predicate PipeKept(p: Pipe, q: Pipe) {
    q == p.(readers := q.readers, writers := q.writers)
  }

  predicate PtyKept(t: Pty, u: Pty) {
    u == t.(masters := u.masters, slaves := u.slaves)
  }

  /** As it was but for the counts; or nobody holds it any more: a FIFO is empty then, anything else gone. */
  predicate PipeFollows(p: Pipe, q: Pipe) {
    || PipeKept(p, q)
    || q == if p.fifo then p.(readers := 0, writers := 0, ring := [], spool := []) else NO_PIPE
  }

  predicate PtyFollows(t: Pty, u: Pty) {
    PtyKept(t, u) || u == NO_PTY
  }

  ghost predicate ObjectsKept(s: State, s': State) {
    && |s'.pipes| == |s.pipes| && (forall i :: 0 <= i < |s.pipes| ==> PipeKept(s.pipes[i], s'.pipes[i]))
    && |s'.ptys| == |s.ptys| && (forall i :: 0 <= i < |s.ptys| ==> PtyKept(s.ptys[i], s'.ptys[i]))
  }

  ghost predicate ObjectsFollow(s: State, s': State) {
    && |s'.pipes| == |s.pipes| && (forall i :: 0 <= i < |s.pipes| ==> PipeFollows(s.pipes[i], s'.pipes[i]))
    && |s'.ptys| == |s.ptys| && (forall i :: 0 <= i < |s.ptys| ==> PtyFollows(s.ptys[i], s'.ptys[i]))
  }

  predicate StdioKept(s: State, s': State) {
    s'.stdin == s.stdin && s'.stdout == s.stdout && s'.stderr == s.stderr
  }

  lemma {:induction false} ReleaseFollows(s: State, fd: nat)
    requires Sane(s) && fd < |s.fds|
    ensures var s' := Release(s, fd);
      s'.fds == s.fds[fd := Free] && ObjectsFollow(s, s') && StdioKept(s, s')
  {
    if s.fds[fd].Free? { assert s.fds[fd := Free] == s.fds; }
  }

  lemma {:induction false} AttachKept(s: State, fd: nat, t: Target, nonblock: bool)
    requires fd < |s.fds| && InRange(s, t)
    ensures var s' := Attach(s, fd, t, nonblock);
      s'.fds == s.fds[fd := Open(t, nonblock)] && ObjectsKept(s, s') && StdioKept(s, s')
  {
  }

  /** Closing frees the descriptor and, with the counts, whatever nobody holds any more; 0, 1 and 2
      and free descriptors are closed without effect. Counts are the open descriptors before and after. */
  lemma {:induction false} Closed(s: State, c: Caps, fd: int)
    requires Inv(s, c)
    ensures var (s', r) := Step(s, c, OpClose(fd));
      && Inv(s', c)
      && (fd < 0 || fd >= |s.fds| ==> r == Fail && s' == s)
      && (0 <= fd < |s.fds| ==>
            r == Code(0) && s'.fds == s.fds[fd := Free] && ObjectsFollow(s, s') && StdioKept(s, s'))
  {
    StepKeeps(s, c, OpClose(fd));
    if 0 <= fd < |s.fds| {
      if fd <= 2 {
        assert s.fds[fd := Free] == s.fds;
      } else {
        ReleaseFollows(s, fd);
      }
    }
  }

  /** Where descriptor 0, 1 or 2 goes. */
  predicate Stands(s: State, fd: int, from: int) {
    from == if fd == 0 then s.stdin else if fd == 1 then s.stdout else if fd == 2 then s.stderr else fd
  }

  /** A duplicate is the lowest free descriptor, on the same object with the same flag; nothing but
      the counts changes with the objects. */
  lemma {:induction false} Duplicated(s: State, c: Caps, fd: int, from: int)
    requires Inv(s, c) && Stands(s, fd, from)
    ensures var (s', r) := Step(s, c, OpDup(fd));
      && Inv(s', c)
      && (r == Fail <==> from <= 2 || !OpenFd(s, from) || NoneFree(s.fds, 3))
      && (r == Fail ==> s' == s)
      && (r != Fail ==>
            && r.Code? && LowestFree(s.fds, 3, r.c) && s'.fds == s.fds[r.c := s.fds[from]]
            && ObjectsKept(s, s') && StdioKept(s, s'))
  {
    StepKeeps(s, c, OpDup(fd));
    FreeFdLowest(s.fds, 3);
    var k := FreeFd(s.fds, 3);
    if from > 2 && OpenFd(s, from) && k < |s.fds| {
      assert Release(s, k) == s;
      NoDangling(s, c, from);
      AttachKept(s, k, s.fds[from].target, s.fds[from].nonblock);
    }
  }

  /** Duplicating onto 0, 1 or 2 sets the mapping; onto itself does nothing; onto any other descriptor
      closes that one first. */
  lemma {:induction false} DuplicatedOnto(s: State, c: Caps, fd: int, newfd: int, from: int)
    requires Inv(s, c) && Stands(s, fd, from)
    ensures var (s', r) := Step(s, c, OpDup2(fd, newfd));
      var bad := from <= 2 || !OpenFd(s, from) || newfd < 0 || newfd >= |s.fds|;
      && Inv(s', c)
      && r == (if bad then Fail else Code(newfd))
      && (bad || newfd == from ==> s' == s)
      && (!bad && newfd == 0 ==> s' == s.(stdin := from))
      && (!bad && newfd == 1 ==> s' == s.(stdout := from))
      && (!bad && newfd == 2 ==> s' == s.(stderr := from))
      && (!bad && newfd > 2 && newfd != from ==>
            s'.fds == s.fds[newfd := s.fds[from]] && ObjectsFollow(s, s') && StdioKept(s, s'))
  {
    StepKeeps(s, c, OpDup2(fd, newfd));
    if from > 2 && OpenFd(s, from) && 2 < newfd < |s.fds| && newfd != from { DupOntoOther(s, c, from, newfd); }
  }

  lemma {:induction false} DupOntoOther(s: State, c: Caps, from: nat, newfd: nat)
    requires Inv(s, c) && 2 < from && OpenFd(s, from) && 2 < newfd < |s.fds| && newfd != from
    ensures var (s', r) := DupInto(s, from, newfd);
      r == Code(newfd) && s'.fds == s.fds[newfd := s.fds[from]] && ObjectsFollow(s, s') && StdioKept(s, s')
  {
    var s1 := Release(s, newfd);
    ReleaseFollows(s, newfd);
    ReleaseSane(s, newfd);
    ReleaseKeeps(s, c, newfd);
    NoDangling(s1, c, from);
    var f := s.fds[from];
    AttachKept(s1, newfd, f.target, f.nonblock);
    var s2 := Attach(s1, newfd, f.target, f.nonblock);
    forall i | 0 <= i < |s.pipes| ensures PipeFollows(s.pipes[i], s2.pipes[i]) {
      assert PipeFollows(s.pipes[i], s1.pipes[i]);
      if f.target.PipeT? && f.target.pipe == i { assert PipeKept(s.pipes[i], s1.pipes[i]); }
    }
    forall i | 0 <= i < |s.ptys| ensures PtyFollows(s.ptys[i], s2.ptys[i]) {
      assert PtyFollows(s.ptys[i], s1.ptys[i]);
      if f.target.PtyT? && f.target.pty == i { assert PtyKept(s.ptys[i], s1.ptys[i]); }
    }
  }

  // ----- settings -----

  /** The flag of an open descriptor above 2 becomes what is asked for; anything else fails. */
  lemma {:induction false} NonblockSet(s: State, c: Caps, fd: int, on: bool)
    requires Inv(s, c)
    ensures Step(s, c, OpNonblock(fd, on)) ==
      if 2 < fd < |s.fds| && s.fds[fd].Open? then
        (s.(fds := s.fds[fd := Open(s.fds[fd].target, on)]), Code(0))
      else (s, Fail)
  {
  }

  /** Switching a spool on needs a buffer unless it is on; switching it off drops its bytes; only
      pipes have one. */
  lemma {:induction false} SpoolSet(s: State, c: Caps, fd: int, on: bool, mallocOk: bool)
    requires Inv(s, c)
    ensures var (s', r) := Step(s, c, OpSpool(fd, on, mallocOk));
      if 2 < fd < |s.fds| && s.fds[fd].Open? && s.fds[fd].target.PipeT? then
        var i := s.fds[fd].target.pipe;
        && i < |s.pipes|
        && var p := s.pipes[i];
           if !on then (s', r) == (s.(pipes := s.pipes[i := p.(spoolOn := false, spool := [])]), Code(0))
           else if p.spoolOn then (s', r) == (s, Code(0))
           else if mallocOk then (s', r) == (s.(pipes := s.pipes[i := p.(spoolOn := true)]), Code(0))
           else (s', r) == (s, Fail)
      else (s', r) == (s, Fail)
  {
    if 2 < fd < |s.fds| && s.fds[fd].Open? && s.fds[fd].target.PipeT? {
      NoDangling(s, c, fd);
      var i := s.fds[fd].target.pipe;
      if s.pipes[i].spoolOn { assert s.pipes[i := s.pipes[i].(spoolOn := true)] == s.pipes; }
    }
  }

  /** All three mappings are set, or none: each must name a slot, and an open one above 2. */
  lemma {:induction false} StdioSet(s: State, c: Caps, i: int, o: int, e: int)
    requires Inv(s, c)
    ensures var (s', r) := Step(s, c, OpStdio(i, o, e));
      var ok := Mappable(s, i) && Mappable(s, o) && Mappable(s, e);
      && r == (if ok then Code(0) else Fail)
      && s'.stdin == (if ok then i else s.stdin)
      && s'.stdout == (if ok then o else s.stdout)
      && s'.stderr == (if ok then e else s.stderr)
      && s'.fds == s.fds && s'.pipes == s.pipes && s'.ptys == s.ptys
  {
  }

  predicate Mappable(s: State, fd: int) {
    0 <= fd < |s.fds| && (fd > 2 ==> s.fds[fd].Open?)
  }

  /** After a reset no descriptor is open and no object is left; the mappings stay. */
  lemma {:induction false} AllReset(s: State, c: Caps)
    requires Inv(s, c)
    ensures var (s', r) := Step(s, c, OpReset);
      && r == Code(0) && |s'.fds| == |s.fds| && |s'.pipes| == |s.pipes| && |s'.ptys| == |s.ptys|
      && (forall k :: 0 <= k < |s'.fds| ==> s'.fds[k] == Free)
      && (forall k :: 0 <= k < |s'.pipes| ==> s'.pipes[k] == Pipe(false, false, false, 0, 0, [], [], []))
      && (forall k :: 0 <= k < |s'.ptys| ==> s'.ptys[k] == Pty(false, 0, 0, [], []))
      && StdioKept(s, s')
  {
  }

  // ----- the mappings at work -----

  /** Once a descriptor has been duplicated onto 1, a write to 1 is a write to that descriptor, and to
      0 and 2 likewise. */
  lemma {:induction false} MappedWrites(s: State, c: Caps, from: nat, data: seq<byte>, intr: bool)
    requires Inv(s, c) && 2 < from && OpenFd(s, from)
    ensures var s1, s2 := Step(s, c, OpDup2(from, 1)).0, Step(s, c, OpDup2(from, 2)).0;
      && Sane(s1) && Sane(s2)
      && Call(s1, c, OpWrite(1, data, intr)) == Call(s1, c, OpWrite(from, data, intr))
      && Call(s2, c, OpWrite(2, data, intr)) == Call(s2, c, OpWrite(from, data, intr))
  {
  }

  lemma {:induction false} MappedReads(s: State, c: Caps, from: nat, maxlen: nat, intr: bool)
    requires Inv(s, c) && 2 < from && OpenFd(s, from)
    ensures var s1 := Step(s, c, OpDup2(from, 0)).0;
      Sane(s1) && Call(s1, c, OpRead(0, maxlen, intr)) == Call(s1, c, OpRead(from, maxlen, intr))
  {
  }

  /** With the mappings of boot, 0, 1 and 2 are the console. */
  lemma {:induction false} ConsoleAnswers(s: State, c: Caps, op: Op)
    requires Inv(s, c) && s.stdin == 0 && s.stdout == 1 && s.stderr == 2
    requires (op.OpRead? && op.fd == 0 && op.maxlen > 0) || (op.OpWrite? && 1 <= op.fd <= 2 && op.data != [])
    ensures Call(s, c, op) == (s, Elsewhere)
  {
  }

  /** At boot nothing is open, and 0, 1 and 2 are the console. */
  lemma {:induction false} AtBoot(nfds: nat, npipes: nat, nptys: nat, c: Caps, op: Op)
    requires 3 <= nfds
    ensures var s := Boot(nfds, npipes, nptys);
      && Inv(s, c) && s.stdin == 0 && s.stdout == 1 && s.stderr == 2
      && (forall k :: 0 <= k < |s.fds| ==> s.fds[k] == Free)
      && (((op.OpRead? && op.fd == 0 && op.maxlen > 0) || (op.OpWrite? && 1 <= op.fd <= 2 && op.data != [])) ==>
            Call(s, c, op) == (s, Elsewhere))
  {
    BootInv(nfds, npipes, nptys, c);
  }

  /** One call moves at most 64 KiB; a longer one is the same call cut there. */
  lemma {:induction false} CallsAreCut(s: State, c: Caps, fd: nat, data: seq<byte>, maxlen: nat, intr: bool)
    requires Inv(s, c) && fd > 2 && |data| > 65536 && maxlen > 65536
    ensures Call(s, c, OpWrite(fd, data, intr)) == Step(s, c, OpWrite(fd, data[..65536], intr))
    ensures Call(s, c, OpRead(fd, maxlen, intr)) == Step(s, c, OpRead(fd, 65536, intr))
  {
  }
}
