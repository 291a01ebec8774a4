/** The kernel IPC layer of src/cpu/isr.c as a state machine: descriptors over shared
    pipes, FIFOs and PTYs. Buffers are queues here; the ring-buffer kernel of
    IpcKernel refines these steps. */
module IpcState {
  import opened Bytes

  datatype End = ReadEnd | WriteEnd
  datatype Side = Master | Slave

  /** What a descriptor refers to. */
  datatype Target = FileT | PipeT(pipe: nat, end: End) | PtyT(pty: nat, side: Side)
  datatype Fd = Free | Open(target: Target, nonblock: bool)

  datatype Pipe = Pipe(
    used: bool, fifo: bool, spoolOn: bool,
    readers: nat, writers: nat,
    ring: seq<byte>, spool: seq<byte>,
    path: seq<byte>)
  datatype Pty = Pty(used: bool, masters: nat, slaves: nat, m2s: seq<byte>, s2m: seq<byte>)

  /** Buffer capacities, kept symbolic. */
  datatype Caps = Caps(ring: nat, spool: nat, pty: nat)

  datatype State = State(
    fds: seq<Fd>, pipes: seq<Pipe>, ptys: seq<Pty>,
    stdin: int, stdout: int, stderr: int)

  /** Data: bytes read (empty at end of file). Count: bytes written. Blocked: the call
      sleeps having moved that many bytes. Code: any other return value. Elsewhere: the call is
      handed on, to the console or to the file system. */
  datatype Ret =
    | Data(bytes: seq<byte>) | Count(n: nat) | Fail | Blocked(sofar: nat)
    | Code(c: int) | Pair(a: nat, b: nat) | Elsewhere

  const NO_PIPE: Pipe := Pipe(false, false, false, 0, 0, [], [], [])
  const NO_PTY: Pty := Pty(false, 0, 0, [], [])

  // ----- moving bytes -----

  function Buffered(p: Pipe): seq<byte> {
    p.ring + p.spool
  }

  /** `user_pipe_read`: ring first, then spool. */
  function ReadPipe(p: Pipe, maxlen: nat, nonblock: bool, intr: bool): (Pipe, Ret) {
    if !p.used then (p, Fail)
    else if maxlen == 0 then (p, Data([]))
    else if p.ring == [] && p.spool == [] then
      if p.writers == 0 then (p, Data([]))
      else if nonblock || intr then (p, Fail)
      else (p, Blocked(0))
    else
      var a := Min(maxlen, |p.ring|);
      var b := Min(maxlen - a, |p.spool|);
      (p.(ring := p.ring[a..], spool := p.spool[b..]), Data(p.ring[..a] + p.spool[..b]))
  }

  function RingRoom(p: Pipe, c: Caps, len: nat): (r: nat)
    ensures r <= len
  {
    if |p.ring| < c.ring then Min(len, c.ring - |p.ring|) else 0
  }

  /** Spool space a write can use after the ring took its share. */
  function SpoolRoom(p: Pipe, c: Caps, len: nat): (r: nat)
    ensures r <= len
  {
    if p.spoolOn && |p.spool| < c.spool then Min(len, c.spool - |p.spool|) else 0
  }

  /** How many of `len` bytes one pass of the write loop can place. */
  function Room(p: Pipe, c: Caps, len: nat): (r: nat)
    ensures r <= len
  {
    var a := RingRoom(p, c, len);
    a + SpoolRoom(p, c, len - a)
  }

  /** The pipe with the ring filled first and the spool after it. */
  function Filled(p: Pipe, c: Caps, data: seq<byte>): Pipe {
    var a := RingRoom(p, c, |data|);
    p.(ring := p.ring + data[..a], spool := p.spool + data[a..Room(p, c, |data|)])
  }

  /** The write loop of `user_pipe_write`, entered with `done` bytes already written: fill the
      ring, then the spool, then return or sleep when both are full. */
  function WriteLoop(p: Pipe, c: Caps, data: seq<byte>, done: nat, nonblock: bool, intr: bool): (Pipe, Ret) {
    var n := Room(p, c, |data|);
    (Filled(p, c, data),
     if n == |data| then Count(done + n)
     else if p.readers == 0 || nonblock || intr then if done + n > 0 then Count(done + n) else Fail
     else Blocked(done + n))
  }

  function WritePipe(p: Pipe, c: Caps, data: seq<byte>, nonblock: bool, intr: bool): (Pipe, Ret) {
    if !p.used then (p, Fail)
    else if data == [] then (p, Count(0))
    else if p.readers == 0 then (p, Fail)
    else WriteLoop(p, c, data, 0, nonblock, intr)
  }

  // ----- PTYs: the same with one buffer per direction and no spool -----

  /** The bytes waiting for a side, and the references of its peer. */
  function Incoming(t: Pty, side: Side): seq<byte> {
    if side.Master? then t.s2m else t.m2s
  }

  function PeerRefs(t: Pty, side: Side): nat {
    if side.Master? then t.slaves else t.masters
  }

  function Peer(side: Side): Side {
    if side.Master? then Slave else Master
  }

  function SetIncoming(t: Pty, side: Side, q: seq<byte>): Pty {
    if side.Master? then t.(s2m := q) else t.(m2s := q)
  }

  function ReadPty(t: Pty, side: Side, maxlen: nat, nonblock: bool, intr: bool): (Pty, Ret) {
    var q := Incoming(t, side);
    if !t.used then (t, Fail)
    else if maxlen == 0 then (t, Data([]))
    else if q == [] then
      if PeerRefs(t, side) == 0 then (t, Data([]))
      else if nonblock || intr then (t, Fail)
      else (t, Blocked(0))
    else
      var n := Min(maxlen, |q|);
      (SetIncoming(t, side, q[n..]), Data(q[..n]))
  }

  function PtyLoop(t: Pty, c: Caps, side: Side, data: seq<byte>, done: nat, nonblock: bool, intr: bool): (Pty, Ret) {
    var q := Incoming(t, Peer(side));
    var n := if |q| < c.pty then Min(|data|, c.pty - |q|) else 0;
    var t' := SetIncoming(t, Peer(side), q + data[..n]);
    if n == |data| then (t', Count(done + n))
    else if PeerRefs(t, side) == 0 || nonblock || intr then (t', if done + n > 0 then Count(done + n) else Fail)
    else (t', Blocked(done + n))
  }

  function WritePty(t: Pty, c: Caps, side: Side, data: seq<byte>, nonblock: bool, intr: bool): (Pty, Ret) {
    if !t.used then (t, Fail)
    else if data == [] then (t, Count(0))
    else if PeerRefs(t, side) == 0 then (t, Fail)
    else PtyLoop(t, c, side, data, 0, nonblock, intr)
  }

  // ----- reference counts -----

  predicate InRange(s: State, t: Target) {
    match t
    case FileT => true
    case PipeT(i, _) => i < |s.pipes|
    case PtyT(i, _) => i < |s.ptys|
  }

  /** The count kept for a target; files keep none. */
  function Refs(s: State, t: Target): nat
    requires InRange(s, t)
  {
    match t
    case FileT => 0
    case PipeT(i, end) => if end.ReadEnd? then s.pipes[i].readers else s.pipes[i].writers
    case PtyT(i, side) => if side.Master? then s.ptys[i].masters else s.ptys[i].slaves
  }

  function SetRefs(s: State, t: Target, n: nat): State
    requires InRange(s, t)
  {
    match t
    case FileT => s
    case PipeT(i, end) =>
      var p := s.pipes[i];
      s.(pipes := s.pipes[i := if end.ReadEnd? then p.(readers := n) else p.(writers := n)])
    case PtyT(i, side) =>
      var p := s.ptys[i];
      s.(ptys := s.ptys[i := if side.Master? then p.(masters := n) else p.(slaves := n)])
  }

  predicate Live(s: State, t: Target)
    requires InRange(s, t)
  {
    match t
    case FileT => true
    case PipeT(i, _) => s.pipes[i].used
    case PtyT(i, _) => s.ptys[i].used
  }

  /** `user_pipe_maybe_destroy`. */
  function DestroyPipe(p: Pipe): Pipe {
    if p.used && p.readers == 0 && p.writers == 0 then
      if p.fifo then p.(ring := [], spool := []) else NO_PIPE
    else p
  }

  /** `user_pty_maybe_destroy`. */
  function DestroyPty(t: Pty): Pty {
    if t.used && t.masters == 0 && t.slaves == 0 then NO_PTY else t
  }

  function MaybeDestroy(s: State, t: Target): State
    requires InRange(s, t)
  {
    match t
    case FileT => s
    case PipeT(i, _) => s.(pipes := s.pipes[i := DestroyPipe(s.pipes[i])])
    case PtyT(i, _) => s.(ptys := s.ptys[i := DestroyPty(s.ptys[i])])
  }

  /** `user_fd_release`. */
  function Release(s: State, fd: nat): State
    requires fd < |s.fds| && (s.fds[fd].Open? ==> InRange(s, s.fds[fd].target))
  {
    if s.fds[fd].Free? then s
    else
      var t := s.fds[fd].target;
      var s1 := if Live(s, t) then MaybeDestroy(SetRefs(s, t, if Refs(s, t) > 0 then Refs(s, t) - 1 else 0), t) else s;
      s1.(fds := s1.fds[fd := Free])
  }

  /** Open a descriptor on a live target and count it. */
  function Attach(s: State, fd: nat, t: Target, nonblock: bool): State
    requires fd < |s.fds| && InRange(s, t)
  {
    var s1 := SetRefs(s, t, Refs(s, t) + 1);
    s1.(fds := s1.fds[fd := Open(t, nonblock)])
  }

  // ----- searching the tables -----

  /** Lowest free descriptor from `from` on, or the table size. */
  function FreeFd(fds: seq<Fd>, from: nat): (r: nat)
    requires from <= |fds|
    ensures from <= r <= |fds| && (r < |fds| ==> fds[r].Free?)
    decreases |fds| - from
  {
    if from < |fds| && fds[from].Open? then FreeFd(fds, from + 1) else from
  }

  function FreePipe(pipes: seq<Pipe>, from: nat): (r: nat)
    requires from <= |pipes|
    ensures from <= r <= |pipes| && (r < |pipes| ==> !pipes[r].used)
    decreases |pipes| - from
  {
    if from < |pipes| && pipes[from].used then FreePipe(pipes, from + 1) else from
  }

  function FreePty(ptys: seq<Pty>, from: nat): (r: nat)
    requires from <= |ptys|
    ensures from <= r <= |ptys| && (r < |ptys| ==> !ptys[r].used)
    decreases |ptys| - from
  {
    if from < |ptys| && ptys[from].used then FreePty(ptys, from + 1) else from
  }

  predicate IsFifo(p: Pipe, path: seq<byte>) {
    p.used && p.fifo && p.path == path
  }

  /** `user_pipe_find_fifo_by_path`: the empty path is never found. */
  function FindFifo(pipes: seq<Pipe>, path: seq<byte>, from: nat): (r: nat)
    requires from <= |pipes|
    ensures from <= r <= |pipes|
    ensures r < |pipes| ==> path != [] && IsFifo(pipes[r], path)
    ensures r == |pipes| && path != [] ==> forall i :: from <= i < |pipes| ==> !IsFifo(pipes[i], path)
    decreases |pipes| - from
  {
    if path == [] || from == |pipes| then |pipes|
    else if IsFifo(pipes[from], path) then from
    else FindFifo(pipes, path, from + 1)
  }

  // ----- system calls -----

  datatype Stat = Missing | FifoNode | OtherNode

  datatype Op =
    | OpPipe(copyoutOk: bool)
    | OpPty(copyoutOk: bool)
    | OpOpenFifo(path: seq<byte>, write: bool, nonblock: bool, stat: Stat)
    | OpOpenFile
    | OpMkFifo(path: seq<byte>, stat: Stat, again: Stat, parentOk: bool, markerOk: bool)
    | OpClose(fd: int)
    | OpDup(fd: int)
    | OpDup2(fd: int, newfd: int)
    | OpRead(fd: int, maxlen: nat, intr: bool)
    | OpWrite(fd: int, data: seq<byte>, intr: bool)
    | OpResume(fd: int, data: seq<byte>, done: nat, intr: bool)
    | OpNonblock(fd: int, on: bool)
    | OpSpool(fd: int, on: bool, mallocOk: bool)
    | OpStdio(i: int, o: int, e: int)
    | OpReset

  predicate OpenFd(s: State, fd: int) {
    0 <= fd < |s.fds| && s.fds[fd].Open?
  }

  /** Every open descriptor refers into the tables. */
  ghost predicate Sane(s: State) {
    && 3 <= |s.fds|
    && forall i :: 0 <= i < |s.fds| && s.fds[i].Open? ==> InRange(s, s.fds[i].target)
  }

  /** `user_pipe_alloc`. */
  function AllocPipe(s: State, fifo: bool, path: seq<byte>): (State, nat) {
    var i := FreePipe(s.pipes, 0);
    if i == |s.pipes| then (s, i)
    else (s.(pipes := s.pipes[i := NO_PIPE.(used := true, fifo := fifo, path := if fifo then path else [])]), i)
  }

  /** `syscall_kernel_pipe_create`. */
  function CreatePipe(s: State): (State, Ret)
    requires 3 <= |s.fds|
  {
    var (s1, i) := AllocPipe(s, false, []);
    if i == |s.pipes| then (s, Fail)
    else
      var back := s1.(pipes := s1.pipes[i := NO_PIPE]);
      var r := FreeFd(s.fds, 3);
      if r == |s.fds| then (back, Fail)
      else
        var w := FreeFd(s.fds, r + 1);
        if w == |s.fds| then (back, Fail)
        else (Attach(Attach(s1, r, PipeT(i, ReadEnd), false), w, PipeT(i, WriteEnd), false), Pair(r, w))
  }

  /** `syscall_kernel_pty_create`. */
  function CreatePty(s: State): (State, Ret)
    requires 3 <= |s.fds|
  {
    var i := FreePty(s.ptys, 0);
    if i == |s.ptys| then (s, Fail)
    else
      var s1 := s.(ptys := s.ptys[i := NO_PTY.(used := true)]);
      var back := s1.(ptys := s1.ptys[i := NO_PTY]);
      var r := FreeFd(s.fds, 3);
      if r == |s.fds| then (back, Fail)
      else
        var w := FreeFd(s.fds, r + 1);
        if w == |s.fds| then (back, Fail)
        else (Attach(Attach(s1, r, PtyT(i, Master), false), w, PtyT(i, Slave), false), Pair(r, w))
  }

  /** The pipe and PTY system calls: when the result cannot be copied out, both ends are released. */
  function Delivered(r: (State, Ret), copyoutOk: bool): (State, Ret)
    requires r.1.Pair? ==> r.1.a < |r.0.fds| && r.1.b < |r.0.fds| && r.1.a != r.1.b
    requires r.1.Pair? ==> Sane(r.0)
  {
    if r.1.Pair? && !copyoutOk then
      var s1 := Release(r.0, r.1.a);
      ReleaseSane(r.0, r.1.a);
      (Release(s1, r.1.b), Fail)
    else r
  }

  lemma ReleaseSane(s: State, fd: nat)
    requires Sane(s) && fd < |s.fds|
    ensures Sane(Release(s, fd))
    ensures |Release(s, fd).fds| == |s.fds| && |Release(s, fd).pipes| == |s.pipes| && |Release(s, fd).ptys| == |s.ptys|
  {
  }

  /** `user_pipe_get_or_create_fifo`: the FIFO's slot, or the table size. */
  function GetOrCreateFifo(s: State, path: seq<byte>, stat: Stat): (State, nat) {
    var i := FindFifo(s.pipes, path, 0);
    if i < |s.pipes| then (s, i)
    else if !stat.FifoNode? then (s, |s.pipes|)
    else AllocPipe(s, true, path)
  }

  /** The FIFO part of OPEN. Code(-2) stands for "not a FIFO": the call goes on to the file system. */
  function OpenFifo(s: State, path: seq<byte>, write: bool, nonblock: bool, stat: Stat): (State, Ret)
    requires 3 <= |s.fds|
  {
    var (s1, i) := GetOrCreateFifo(s, path, stat);
    if i >= |s1.pipes| then (s1, Code(-2))
    else
      var fd := FreeFd(s1.fds, 3);
      if fd == |s1.fds| then (s1, Fail)
      else (Attach(s1, fd, PipeT(i, if write then WriteEnd else ReadEnd), nonblock), Code(fd))
  }

  /** MKFIFO: `stat` is of the current drive; a FIFO found there is looked up `again`, on the physical drive. */
  function MkFifo(s: State, path: seq<byte>, stat: Stat, again: Stat, parentOk: bool, markerOk: bool): (State, Ret) {
    if stat.FifoNode? then
      var (s1, i) := GetOrCreateFifo(s, path, again);
      if i < |s1.pipes| then (s1, Code(0)) else (s1, Fail)
    else if stat.OtherNode? then (s, Fail)
    else if FindFifo(s.pipes, path, 0) < |s.pipes| then (s, Code(0))
    else if 47 !in path || !parentOk || !markerOk then (s, Fail)
    else
      var (s1, i) := AllocPipe(s, true, path);
      if i < |s.pipes| then (s1, Code(0)) else (s1, Fail)
  }

  /** 0, 1, 2 stand for whatever standard input, output and error are mapped to. */
  function Remap(s: State, fd: int): int {
    if fd == 0 then s.stdin else if fd == 1 then s.stdout else if fd == 2 then s.stderr else fd
  }

  /** `user_fd_duplicate_into`. */
  function DupInto(s: State, oldfd: int, newfd: int): (State, Ret)
    requires Sane(s)
  {
    if !OpenFd(s, oldfd) || !(2 < newfd < |s.fds|) then (s, Fail)
    else if oldfd == newfd then (s, Code(newfd))
    else
      var s1 := Release(s, newfd);
      ReleaseSane(s, newfd);
      var t := s1.fds[oldfd].target;
      if !Live(s1, t) then (s1, Fail)
      else (Attach(s1, newfd, t, s1.fds[oldfd].nonblock), Code(newfd))
  }

  function Dup(s: State, req: int): (State, Ret)
    requires Sane(s)
  {
    var old_ := Remap(s, req);
    if old_ <= 2 || !OpenFd(s, old_) then (s, Fail)
    else
      var fd := FreeFd(s.fds, 3);
      if fd == |s.fds| then (s, Fail) else DupInto(s, old_, fd)
  }

  function Dup2(s: State, req: int, newfd: int): (State, Ret)
    requires Sane(s)
  {
    var old_ := Remap(s, req);
    if old_ <= 2 || !OpenFd(s, old_) then (s, Fail)
    else if newfd < 0 || newfd >= |s.fds| then (s, Fail)
    else if newfd == 0 then (s.(stdin := old_), Code(0))
    else if newfd == 1 then (s.(stdout := old_), Code(1))
    else if newfd == 2 then (s.(stderr := old_), Code(2))
    else DupInto(s, old_, newfd)
  }

  /** Reading and writing go by the object alone: neither call looks at the end a descriptor names. */
  function ReadFd(s: State, fd: int, maxlen: nat, intr: bool): (State, Ret)
    requires Sane(s)
  {
    if !OpenFd(s, fd) then (s, Fail)
    else
      var f := s.fds[fd];
      match f.target
      case FileT => (s, Elsewhere)
      case PipeT(i, _) =>
        var (p, r) := ReadPipe(s.pipes[i], maxlen, f.nonblock, intr);
        (s.(pipes := s.pipes[i := p]), r)
      case PtyT(i, side) =>
        var (t, r) := ReadPty(s.ptys[i], side, maxlen, f.nonblock, intr);
        (s.(ptys := s.ptys[i := t]), r)
  }

  function WriteFd(s: State, c: Caps, fd: int, data: seq<byte>, intr: bool): (State, Ret)
    requires Sane(s)
  {
    if !OpenFd(s, fd) then (s, Fail)
    else
      var f := s.fds[fd];
      match f.target
      case FileT => (s, Elsewhere)
      case PipeT(i, _) =>
        var (p, r) := WritePipe(s.pipes[i], c, data, f.nonblock, intr);
        (s.(pipes := s.pipes[i := p]), r)
      case PtyT(i, side) =>
        var (t, r) := WritePty(s.ptys[i], c, side, data, f.nonblock, intr);
        (s.(ptys := s.ptys[i := t]), r)
  }

  /** A write that slept with `done` bytes moved re-checks its guard. */
  function ResumeFd(s: State, c: Caps, fd: int, data: seq<byte>, done: nat, intr: bool): (State, Ret)
    requires Sane(s)
  {
    if !OpenFd(s, fd) then (s, Fail)
    else
      var f := s.fds[fd];
      match f.target
      case FileT => (s, Elsewhere)
      case PipeT(i, _) =>
        var (p, r) := WriteLoop(s.pipes[i], c, data, done, f.nonblock, intr);
        (s.(pipes := s.pipes[i := p]), r)
      case PtyT(i, side) =>
        var (t, r) := PtyLoop(s.ptys[i], c, side, data, done, f.nonblock, intr);
        (s.(ptys := s.ptys[i := t]), r)
  }

  function CloseFd(s: State, fd: int): (State, Ret)
    requires Sane(s)
  {
    if fd < 0 || fd >= |s.fds| then (s, Fail)
    else if fd <= 2 then (s, Code(0))
    else (Release(s, fd), Code(0))
  }

  function SetNonblock(s: State, fd: int, on: bool): (State, Ret) {
    if fd <= 2 || !OpenFd(s, fd) then (s, Fail)
    else (s.(fds := s.fds[fd := s.fds[fd].(nonblock := on)]), Code(0))
  }

  /** `user_pipe_set_spool`: turning it off discards what it holds. A spool that already has
      its buffer needs no new one. */
  function SetSpool(s: State, fd: int, on: bool, mallocOk: bool): (State, Ret)
    requires Sane(s)
  {
    if fd <= 2 || !OpenFd(s, fd) || !s.fds[fd].target.PipeT? then (s, Fail)
    else
      var i := s.fds[fd].target.pipe;
      var p := s.pipes[i];
      if !p.used then (s, Fail)
      else if !on then (s.(pipes := s.pipes[i := p.(spoolOn := false, spool := [])]), Code(0))
      else if !p.spoolOn && !mallocOk then (s, Fail)
      else (s.(pipes := s.pipes[i := p.(spoolOn := true)]), Code(0))
  }

  function SetStdio(s: State, i: int, o: int, e: int): (State, Ret) {
    if !(0 <= i < |s.fds| && 0 <= o < |s.fds| && 0 <= e < |s.fds|) then (s, Fail)
    else if (i > 2 && s.fds[i].Free?) || (o > 2 && s.fds[o].Free?) || (e > 2 && s.fds[e].Free?) then (s, Fail)
    else (s.(stdin := i, stdout := o, stderr := e), Code(0))
  }

  /** `syscall_reset_user_fds`. */
  function ResetAll(s: State): State {
    s.(fds := seq(|s.fds|, i => Free), pipes := seq(|s.pipes|, i => NO_PIPE), ptys := seq(|s.ptys|, i => NO_PTY))
  }

  lemma CreateSane(s: State)
    requires Sane(s)
    ensures Sane(CreatePipe(s).0) && Sane(CreatePty(s).0)
    ensures CreatePipe(s).1.Pair? ==> 3 <= CreatePipe(s).1.a < CreatePipe(s).1.b < |CreatePipe(s).0.fds|
    ensures CreatePty(s).1.Pair? ==> 3 <= CreatePty(s).1.a < CreatePty(s).1.b < |CreatePty(s).0.fds|
  {
  }

  /** One system call. */
  function Step(s: State, c: Caps, op: Op): (State, Ret)
    requires Sane(s)
  {
    match op
    case OpPipe(ok) => CreateSane(s); Delivered(CreatePipe(s), ok)
    case OpPty(ok) => CreateSane(s); Delivered(CreatePty(s), ok)
    case OpOpenFifo(path, write, nonblock, stat) => OpenFifo(s, path, write, nonblock, stat)
    case OpOpenFile =>
      var fd := FreeFd(s.fds, 3);
      if fd == |s.fds| then (s, Fail) else (Attach(s, fd, FileT, false), Code(fd))
    case OpMkFifo(path, stat, again, parentOk, markerOk) => MkFifo(s, path, stat, again, parentOk, markerOk)
    case OpClose(fd) => CloseFd(s, fd)
    case OpDup(fd) => Dup(s, fd)
    case OpDup2(fd, newfd) => Dup2(s, fd, newfd)
    case OpRead(fd, maxlen, intr) => ReadFd(s, fd, maxlen, intr)
    case OpWrite(fd, data, intr) => WriteFd(s, c, fd, data, intr)
    case OpResume(fd, data, done, intr) => ResumeFd(s, c, fd, data, done, intr)
    case OpNonblock(fd, on) => SetNonblock(s, fd, on)
    case OpSpool(fd, on, mallocOk) => SetSpool(s, fd, on, mallocOk)
    case OpStdio(i, o, e) => SetStdio(s, i, o, e)
    case OpReset => (ResetAll(s), Code(0))
  }
}
