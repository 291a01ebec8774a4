/** Reference counting over every run: counts equal the open descriptors, nothing dangles. */
module IpcInvariant {
  import opened Bytes
  import opened IpcState

  /** How many descriptors are open on a target. */
  function Holders(fds: seq<Fd>, t: Target): nat {
    if fds == [] then 0
    else (if fds[0].Open? && fds[0].target == t then 1 else 0) + Holders(fds[1..], t)
  }

  function One(f: Fd, t: Target): nat {
    if f.Open? && f.target == t then 1 else 0
  }

  lemma {:induction false} HoldersUpdate(fds: seq<Fd>, i: nat, f: Fd, t: Target)
    requires i < |fds|
    ensures Holders(fds[i := f], t) == Holders(fds, t) - One(fds[i], t) + One(f, t)
  {
    if i == 0 {
      assert fds[i := f][1..] == fds[1..];
    } else {
      assert fds[i := f][1..] == fds[1..][i - 1 := f];
      HoldersUpdate(fds[1..], i - 1, f, t);
    }
  }

  lemma {:induction false} HoldersPositive(fds: seq<Fd>, t: Target)
    ensures Holders(fds, t) > 0 <==> exists i :: 0 <= i < |fds| && fds[i].Open? && fds[i].target == t
  {
    if fds != [] {
      HoldersPositive(fds[1..], t);
      if i :| 0 <= i < |fds| && fds[i].Open? && fds[i].target == t {
        if i > 0 { assert fds[1..][i - 1] == fds[i]; }
      }
      if j :| 0 <= j < |fds[1..]| && fds[1..][j].Open? && fds[1..][j].target == t {
        assert fds[j + 1] == fds[1..][j];
      }
    }
  }

  // ----- the invariant -----

  ghost predicate PipeOk(p: Pipe, c: Caps) {
    && (!p.used ==> p == NO_PIPE)
    && (p.used && !p.fifo ==> p.readers + p.writers > 0)
    && (p.used && p.fifo ==> p.path != [] && (p.readers + p.writers == 0 ==> p.ring == [] && p.spool == []))
    && |p.ring| <= c.ring && |p.spool| <= c.spool
    && (!p.spoolOn ==> p.spool == [])
  }

  ghost predicate PtyOk(t: Pty, c: Caps) {
    && (!t.used ==> t == NO_PTY)
    && (t.used ==> t.masters + t.slaves > 0)
    && |t.m2s| <= c.pty && |t.s2m| <= c.pty
  }

  ghost predicate Counted(s: State, t: Target) {
    InRange(s, t) && !t.FileT? ==> Refs(s, t) == Holders(s.fds, t)
  }

  ghost predicate AllCounted(s: State) {
    forall t :: Counted(s, t)
  }

  ghost predicate PathsDistinct(pipes: seq<Pipe>) {
    forall i, j :: 0 <= i < j < |pipes| && pipes[i].used && pipes[i].fifo && pipes[j].used && pipes[j].fifo ==>
      pipes[i].path != pipes[j].path
  }

  ghost predicate Inv(s: State, c: Caps) {
    && Sane(s)
    && (forall i :: 0 <= i < 3 ==> s.fds[i].Free?)
    && AllCounted(s)
    && (forall i {:trigger PipeOk(s.pipes[i], c)} :: 0 <= i < |s.pipes| ==> PipeOk(s.pipes[i], c))
    && (forall i {:trigger PtyOk(s.ptys[i], c)} :: 0 <= i < |s.ptys| ==> PtyOk(s.ptys[i], c))
    && PathsDistinct(s.pipes)
  }

  /** Every open descriptor names a live object. */
  lemma NoDangling(s: State, c: Caps, fd: nat)
    requires Inv(s, c) && fd < |s.fds| && s.fds[fd].Open?
    ensures InRange(s, s.fds[fd].target) && Live(s, s.fds[fd].target)
    ensures !s.fds[fd].target.FileT? ==> Refs(s, s.fds[fd].target) > 0
  {
    var t := s.fds[fd].target;
    assert Counted(s, t);
    HoldersPositive(s.fds, t);
    match t
    case FileT =>
    case PipeT(i, _) => assert PipeOk(s.pipes[i], c);
    case PtyT(i, _) => assert PtyOk(s.ptys[i], c);
  }

  // ----- the two ways a count changes -----

  /** The invariant minus "an unreferenced object is gone" for the object of `t`. */
  ghost predicate LooseInv(s: State, c: Caps, t: Target) {
    && Sane(s)
    && (forall i :: 0 <= i < 3 ==> s.fds[i].Free?)
    && AllCounted(s)
    && (forall i {:trigger PipeOk(s.pipes[i], c)} ::
          0 <= i < |s.pipes| && !(t.PipeT? && t.pipe == i) ==> PipeOk(s.pipes[i], c))
    && (forall i {:trigger PtyOk(s.ptys[i], c)} ::
          0 <= i < |s.ptys| && !(t.PtyT? && t.pty == i) ==> PtyOk(s.ptys[i], c))
    && PathsDistinct(s.pipes)
  }

  lemma AttachCounts(s: State, fd: nat, t: Target, nonblock: bool)
    requires Sane(s) && AllCounted(s) && 3 <= fd < |s.fds| && s.fds[fd].Free? && InRange(s, t)
    ensures Sane(Attach(s, fd, t, nonblock)) && AllCounted(Attach(s, fd, t, nonblock))
  {
    var s' := Attach(s, fd, t, nonblock);
    forall u ensures Counted(s', u) {
      assert Counted(s, u);
      HoldersUpdate(s.fds, fd, Open(t, nonblock), u);
    }
  }

  /** Opening one more descriptor on a live object keeps the invariant. */
  lemma AttachKeeps(s: State, c: Caps, fd: nat, t: Target, nonblock: bool)
    requires LooseInv(s, c, t) && 3 <= fd < |s.fds| && s.fds[fd].Free? && InRange(s, t)
    requires match t case FileT => true
      case PipeT(i, _) => var p := s.pipes[i];
        p.used && |p.ring| <= c.ring && |p.spool| <= c.spool && (!p.spoolOn ==> p.spool == []) &&
          (p.fifo ==> p.path != [])
      case PtyT(i, _) => var p := s.ptys[i]; p.used && |p.m2s| <= c.pty && |p.s2m| <= c.pty
    ensures Inv(Attach(s, fd, t, nonblock), c)
  {
    AttachCounts(s, fd, t, nonblock);
    var s' := Attach(s, fd, t, nonblock);
    forall i | 0 <= i < |s'.pipes| ensures PipeOk(s'.pipes[i], c) {
      if !(t.PipeT? && t.pipe == i) { assert PipeOk(s.pipes[i], c); }
    }
    forall i | 0 <= i < |s'.ptys| ensures PtyOk(s'.ptys[i], c) {
      if !(t.PtyT? && t.pty == i) { assert PtyOk(s.ptys[i], c); }
    }
  }

  lemma ReleaseCounts(s: State, c: Caps, fd: nat)
    requires Inv(s, c) && fd < |s.fds|
    ensures AllCounted(Release(s, fd))
  {
    if s.fds[fd].Open? {
      var t := s.fds[fd].target;
      NoDangling(s, c, fd);
      var s' := Release(s, fd);
      forall u ensures Counted(s', u) {
        assert Counted(s, u);
        HoldersUpdate(s.fds, fd, Free, u);
      }
    }
  }

  /** Closing a descriptor keeps the invariant, destroying what nobody holds any more. */
  lemma ReleaseKeeps(s: State, c: Caps, fd: nat)
    requires Inv(s, c) && fd < |s.fds|
    ensures Inv(Release(s, fd), c)
  {
    ReleaseCounts(s, c, fd);
    ReleaseSane(s, fd);
    if s.fds[fd].Open? {
      NoDangling(s, c, fd);
      var s' := Release(s, fd);
      forall i | 0 <= i < |s'.pipes| ensures PipeOk(s'.pipes[i], c) {
        assert PipeOk(s.pipes[i], c);
      }
      forall i | 0 <= i < |s'.ptys| ensures PtyOk(s'.ptys[i], c) {
        assert PtyOk(s.ptys[i], c);
      }
    }
  }

  // ----- every system call -----

  /** Replacing a referenced pipe by one that differs in its bytes only. */
  lemma SwapPipe(s: State, c: Caps, i: nat, p: Pipe)
    requires Inv(s, c) && i < |s.pipes|
    requires var q := s.pipes[i];
      q.used == p.used && q.fifo == p.fifo && q.path == p.path && q.readers == p.readers && q.writers == p.writers
    requires PipeOk(p, c)
    ensures Inv(s.(pipes := s.pipes[i := p]), c)
  {
    var s' := s.(pipes := s.pipes[i := p]);
    forall t ensures Counted(s', t) {
      assert Counted(s, t);
    }
    forall k | 0 <= k < |s'.pipes| ensures PipeOk(s'.pipes[k], c) {
      if k != i { assert PipeOk(s.pipes[k], c); }
    }
  }

  lemma SwapPty(s: State, c: Caps, i: nat, p: Pty)
    requires Inv(s, c) && i < |s.ptys|
    requires var q := s.ptys[i]; q.used == p.used && q.masters == p.masters && q.slaves == p.slaves
    requires PtyOk(p, c)
    ensures Inv(s.(ptys := s.ptys[i := p]), c)
  {
    var s' := s.(ptys := s.ptys[i := p]);
    forall t ensures Counted(s', t) {
      assert Counted(s, t);
    }
    forall k | 0 <= k < |s'.ptys| ensures PtyOk(s'.ptys[k], c) {
      if k != i { assert PtyOk(s.ptys[k], c); }
    }
  }

  predicate SameControl(p: Pipe, q: Pipe) {
    p.(ring := [], spool := []) == q.(ring := [], spool := [])
  }

  predicate SamePtyControl(p: Pty, q: Pty) {
    p.(m2s := [], s2m := []) == q.(m2s := [], s2m := [])
  }

  /** Moving bytes through a referenced pipe touches its queues only, within capacity. */
  lemma PipeReadOk(p: Pipe, c: Caps, n: nat, nonblock: bool, intr: bool)
    requires PipeOk(p, c) && p.used && p.readers + p.writers > 0
    ensures PipeOk(ReadPipe(p, n, nonblock, intr).0, c) && SameControl(ReadPipe(p, n, nonblock, intr).0, p)
  {
  }

  lemma PipeLoopOk(p: Pipe, c: Caps, data: seq<byte>, n: nat, nonblock: bool, intr: bool)
    requires PipeOk(p, c) && p.used && p.readers + p.writers > 0
    ensures PipeOk(WriteLoop(p, c, data, n, nonblock, intr).0, c) &&
      SameControl(WriteLoop(p, c, data, n, nonblock, intr).0, p)
  {
    var a := RingRoom(p, c, |data|);
    var n := Room(p, c, |data|);
    assert |p.ring + data[..a]| <= c.ring && |p.spool + data[a..n]| <= c.spool;
    assert !p.spoolOn ==> p.spool + data[a..n] == [];
  }

  lemma PipeTransfer(p: Pipe, c: Caps, op: Op, nonblock: bool)
    requires PipeOk(p, c) && p.used && p.readers + p.writers > 0
    requires op.OpRead? || op.OpWrite? || op.OpResume?
    ensures PipeOk(PipeAfter(p, c, op, nonblock), c) && SameControl(PipeAfter(p, c, op, nonblock), p)
  {
    if op.OpRead? {
      PipeReadOk(p, c, op.maxlen, nonblock, op.intr);
    } else if op.OpWrite? {
      PipeLoopOk(p, c, op.data, 0, nonblock, op.intr);
    } else {
      PipeLoopOk(p, c, op.data, op.done, nonblock, op.intr);
    }
  }

  lemma {:induction false} PtyReadKeeps(t: Pty, c: Caps, side: Side, n: nat, nonblock: bool, intr: bool)
    requires PtyOk(t, c) && t.used
    ensures var t' := ReadPty(t, side, n, nonblock, intr).0; PtyOk(t', c) && SamePtyControl(t', t)
  {
  }

  lemma {:induction false} PtyLoopKeeps(
    t: Pty, c: Caps, side: Side, data: seq<byte>, done: nat, nonblock: bool, intr: bool)
    requires PtyOk(t, c) && t.used
    ensures var t' := PtyLoop(t, c, side, data, done, nonblock, intr).0; PtyOk(t', c) && SamePtyControl(t', t)
  {
  }

  lemma {:induction false} PtyTransfer(
    t: Pty, c: Caps, side: Side, data: seq<byte>, n: nat, nonblock: bool, intr: bool)
    requires PtyOk(t, c) && t.used
    ensures var t' := ReadPty(t, side, n, nonblock, intr).0; PtyOk(t', c) && SamePtyControl(t', t)
    ensures var t' := PtyLoop(t, c, side, data, n, nonblock, intr).0; PtyOk(t', c) && SamePtyControl(t', t)
    ensures var t' := WritePty(t, c, side, data, nonblock, intr).0; PtyOk(t', c) && SamePtyControl(t', t)
  {
    PtyReadKeeps(t, c, side, n, nonblock, intr);
    PtyLoopKeeps(t, c, side, data, n, nonblock, intr);
    PtyLoopKeeps(t, c, side, data, 0, nonblock, intr);
  }

  /** A step that replaces the object of an open descriptor by one with the same control fields. */
  lemma TransferKeeps(s: State, c: Caps, op: Op)
    requires Inv(s, c) && (op.OpRead? || op.OpWrite? || op.OpResume?)
    ensures Inv(Step(s, c, op).0, c)
  {
    if OpenFd(s, op.fd) {
      NoDangling(s, c, op.fd);
      var f := s.fds[op.fd];
      var data := if op.OpRead? then [] else op.data;
      var n := if op.OpRead? then op.maxlen else if op.OpWrite? then 0 else op.done;
      match f.target
      case FileT =>
      case PipeT(i, _) =>
        assert PipeOk(s.pipes[i], c);
        PipeTransfer(s.pipes[i], c, op, f.nonblock);
        SwapPipe(s, c, i, PipeAfter(s.pipes[i], c, op, f.nonblock));
      case PtyT(i, side) =>
        assert PtyOk(s.ptys[i], c);
        PtyTransfer(s.ptys[i], c, side, data, n, f.nonblock, op.intr);
        SwapPty(s, c, i, PtyAfter(s.ptys[i], c, side, op, f.nonblock));
    }
  }

  function PipeAfter(p: Pipe, c: Caps, op: Op, nonblock: bool): Pipe
    requires op.OpRead? || op.OpWrite? || op.OpResume?
  {
    if op.OpRead? then ReadPipe(p, op.maxlen, nonblock, op.intr).0
    else if op.OpWrite? then WritePipe(p, c, op.data, nonblock, op.intr).0
    else WriteLoop(p, c, op.data, op.done, nonblock, op.intr).0
  }

  function PtyAfter(t: Pty, c: Caps, side: Side, op: Op, nonblock: bool): Pty
    requires op.OpRead? || op.OpWrite? || op.OpResume?
  {
    if op.OpRead? then ReadPty(t, side, op.maxlen, nonblock, op.intr).0
    else if op.OpWrite? then WritePty(t, c, side, op.data, nonblock, op.intr).0
    else PtyLoop(t, c, side, op.data, op.done, nonblock, op.intr).0
  }

  lemma UnusedHasNoHolder(s: State, c: Caps, i: nat)
    requires Inv(s, c) && i < |s.pipes| && !s.pipes[i].used
    ensures s.pipes[i] == NO_PIPE
    ensures Holders(s.fds, PipeT(i, ReadEnd)) == 0 && Holders(s.fds, PipeT(i, WriteEnd)) == 0
  {
    assert PipeOk(s.pipes[i], c);
    assert Counted(s, PipeT(i, ReadEnd)) && Counted(s, PipeT(i, WriteEnd));
  }

  /** A freshly allocated pipe slot: everything holds but its references. */
  lemma AllocLoose(s: State, c: Caps, fifo: bool, path: seq<byte>)
    requires Inv(s, c) && FreePipe(s.pipes, 0) < |s.pipes|
    requires fifo ==> path != [] && forall i :: 0 <= i < |s.pipes| ==> !IsFifo(s.pipes[i], path)
    ensures LooseInv(AllocPipe(s, fifo, path).0, c, PipeT(AllocPipe(s, fifo, path).1, ReadEnd))
    ensures fifo ==> Inv(AllocPipe(s, fifo, path).0, c)
  {
    var i := FreePipe(s.pipes, 0);
    var s1 := AllocPipe(s, fifo, path).0;
    UnusedHasNoHolder(s, c, i);
    forall t ensures Counted(s1, t) {
      assert Counted(s, t);
    }
    forall k | 0 <= k < |s1.pipes| && k != i ensures PipeOk(s1.pipes[k], c) {
      assert PipeOk(s.pipes[k], c);
    }
    forall j, k | 0 <= j < k < |s1.pipes| && s1.pipes[j].used && s1.pipes[j].fifo && s1.pipes[k].used &&
      s1.pipes[k].fifo
      ensures s1.pipes[j].path != s1.pipes[k].path
    {
      if j == i { assert !IsFifo(s.pipes[k], path); }
      if k == i { assert !IsFifo(s.pipes[j], path); }
    }
  }

  lemma CreatePipeKeeps(s: State, c: Caps)
    requires Inv(s, c)
    ensures Inv(CreatePipe(s).0, c)
  {
    var (s1, i) := AllocPipe(s, false, []);
    if i < |s.pipes| {
      UnusedHasNoHolder(s, c, i);
      assert s1.(pipes := s1.pipes[i := NO_PIPE]) == s;
      var r := FreeFd(s.fds, 3);
      if r < |s.fds| {
        var w := FreeFd(s.fds, r + 1);
        if w < |s.fds| {
          AllocLoose(s, c, false, []);
          AttachKeeps(s1, c, r, PipeT(i, ReadEnd), false);
          AttachKeeps(Attach(s1, r, PipeT(i, ReadEnd), false), c, w, PipeT(i, WriteEnd), false);
        }
      }
    }
  }

  lemma CreatePtyKeeps(s: State, c: Caps)
    requires Inv(s, c)
    ensures Inv(CreatePty(s).0, c)
  {
    var i := FreePty(s.ptys, 0);
    if i < |s.ptys| {
      assert PtyOk(s.ptys[i], c);
      assert Counted(s, PtyT(i, Master)) && Counted(s, PtyT(i, Slave));
      var s1 := s.(ptys := s.ptys[i := NO_PTY.(used := true)]);
      assert s1.(ptys := s1.ptys[i := NO_PTY]) == s;
      var r := FreeFd(s.fds, 3);
      if r < |s.fds| {
        var w := FreeFd(s.fds, r + 1);
        if w < |s.fds| {
          PtyLoose(s, c, i);
          AttachKeeps(s1, c, r, PtyT(i, Master), false);
          AttachKeeps(Attach(s1, r, PtyT(i, Master), false), c, w, PtyT(i, Slave), false);
        }
      }
    }
  }

  lemma PtyLoose(s: State, c: Caps, i: nat)
    requires Inv(s, c) && i < |s.ptys| && s.ptys[i] == NO_PTY
    ensures LooseInv(s.(ptys := s.ptys[i := NO_PTY.(used := true)]), c, PtyT(i, Master))
  {
    var s1 := s.(ptys := s.ptys[i := NO_PTY.(used := true)]);
    forall t ensures Counted(s1, t) {
      assert Counted(s, t);
    }
    forall k | 0 <= k < |s1.ptys| && k != i ensures PtyOk(s1.ptys[k], c) {
      assert PtyOk(s.ptys[k], c);
    }
  }

  /** The virtual file system never calls the empty path a FIFO. */
  predicate EnvOk(op: Op) {
    (op.OpOpenFifo? || op.OpMkFifo?) && op.path == [] ==> !op.stat.FifoNode?
  }

  lemma GetOrCreateKeeps(s: State, c: Caps, path: seq<byte>, stat: Stat)
    requires Inv(s, c) && (path == [] ==> !stat.FifoNode?)
    ensures Inv(GetOrCreateFifo(s, path, stat).0, c)
    ensures var (s1, i) := GetOrCreateFifo(s, path, stat);
      i < |s1.pipes| ==> s1.pipes[i].used && s1.pipes[i].fifo && s1.pipes[i].path == path
  {
    if FindFifo(s.pipes, path, 0) == |s.pipes| && stat.FifoNode? && FreePipe(s.pipes, 0) < |s.pipes| {
      AllocLoose(s, c, true, path);
    }
  }

  lemma OpenFifoKeeps(s: State, c: Caps, path: seq<byte>, write: bool, nonblock: bool, stat: Stat)
    requires Inv(s, c) && (path == [] ==> !stat.FifoNode?)
    ensures Inv(OpenFifo(s, path, write, nonblock, stat).0, c)
  {
    var (s1, i) := GetOrCreateFifo(s, path, stat);
    GetOrCreateKeeps(s, c, path, stat);
    if i < |s1.pipes| {
      assert PipeOk(s1.pipes[i], c);
      var fd := FreeFd(s1.fds, 3);
      if fd < |s1.fds| {
        AttachKeeps(s1, c, fd, PipeT(i, if write then WriteEnd else ReadEnd), nonblock);
      }
    }
  }

  lemma MkFifoKeeps(
    s: State, c: Caps, path: seq<byte>, stat: Stat, again: Stat, parentOk: bool, markerOk: bool)
    requires Inv(s, c) && (path == [] ==> !stat.FifoNode?)
    ensures Inv(MkFifo(s, path, stat, again, parentOk, markerOk).0, c)
  {
    if stat.FifoNode? { GetOrCreateKeeps(s, c, path, again); }
    if stat.Missing? && FindFifo(s.pipes, path, 0) == |s.pipes| && 47 in path && FreePipe(s.pipes, 0) < |s.pipes| {
      AllocLoose(s, c, true, path);
    }
  }

  lemma DupKeeps(s: State, c: Caps, oldfd: int, newfd: int)
    requires Inv(s, c)
    ensures Inv(DupInto(s, oldfd, newfd).0, c)
  {
    if OpenFd(s, oldfd) && 2 < newfd < |s.fds| && oldfd != newfd {
      ReleaseKeeps(s, c, newfd);
      var s1 := Release(s, newfd);
      NoDangling(s1, c, oldfd);
      var t := s1.fds[oldfd].target;
      match t {
        case FileT =>
        case PipeT(i, _) => assert PipeOk(s1.pipes[i], c);
        case PtyT(i, _) => assert PtyOk(s1.ptys[i], c);
      }
      AttachKeeps(s1, c, newfd, t, s1.fds[oldfd].nonblock);
    }
  }

  lemma {:induction false} NoHolders(fds: seq<Fd>, t: Target)
    requires forall i :: 0 <= i < |fds| ==> fds[i].Free?
    ensures Holders(fds, t) == 0
  {
    if fds != [] { NoHolders(fds[1..], t); }
  }

  lemma ResetKeeps(s: State, c: Caps)
    requires Inv(s, c)
    ensures Inv(ResetAll(s), c)
  {
    var s' := ResetAll(s);
    forall t ensures Counted(s', t) {
      NoHolders(s'.fds, t);
    }
  }

  lemma NonblockKeeps(s: State, c: Caps, fd: int, on: bool)
    requires Inv(s, c)
    ensures Inv(SetNonblock(s, fd, on).0, c)
  {
    if fd > 2 && OpenFd(s, fd) {
      var s' := SetNonblock(s, fd, on).0;
      forall t ensures Counted(s', t) {
        assert Counted(s, t);
        HoldersUpdate(s.fds, fd, s.fds[fd].(nonblock := on), t);
      }
    }
  }

  lemma SpoolKeeps(s: State, c: Caps, fd: int, on: bool, mallocOk: bool)
    requires Inv(s, c)
    ensures Inv(SetSpool(s, fd, on, mallocOk).0, c)
  {
    if fd > 2 && OpenFd(s, fd) && s.fds[fd].target.PipeT? {
      var i := s.fds[fd].target.pipe;
      assert PipeOk(s.pipes[i], c);
      var p := s.pipes[i];
      if p.used {
        SwapPipe(s, c, i, if on then p.(spoolOn := true) else p.(spoolOn := false, spool := []));
      }
    }
  }

  lemma StdioKeeps(s: State, c: Caps, i: int, o: int, e: int)
    requires Inv(s, c)
    ensures Inv(s.(stdin := i, stdout := o, stderr := e), c)
  {
    var s' := s.(stdin := i, stdout := o, stderr := e);
    forall t ensures Counted(s', t) { assert Counted(s, t); }
  }

  lemma Dup2Keeps(s: State, c: Caps, req: int, newfd: int)
    requires Inv(s, c)
    ensures Inv(Dup2(s, req, newfd).0, c)
  {
    var old_ := Remap(s, req);
    if 0 <= newfd <= 2 {
      StdioKeeps(s, c, old_, s.stdout, s.stderr);
      StdioKeeps(s, c, s.stdin, old_, s.stderr);
      StdioKeeps(s, c, s.stdin, s.stdout, old_);
    } else {
      DupKeeps(s, c, old_, newfd);
    }
  }

  lemma CreateKeeps(s: State, c: Caps, op: Op)
    requires Inv(s, c) && (op.OpPipe? || op.OpPty?)
    ensures Inv(Step(s, c, op).0, c)
  {
    CreateSane(s);
    if op.OpPipe? {
      CreatePipeKeeps(s, c);
      DeliveredKeeps(s, c, CreatePipe(s), op.copyoutOk);
    } else {
      CreatePtyKeeps(s, c);
      DeliveredKeeps(s, c, CreatePty(s), op.copyoutOk);
    }
  }

  /** Every system call keeps the reference-count invariant. */
  lemma StepKeeps(s: State, c: Caps, op: Op)
    requires Inv(s, c) && EnvOk(op)
    ensures Inv(Step(s, c, op).0, c)
  {
    match op {
      case OpPipe(_) => CreateKeeps(s, c, op);
      case OpPty(_) => CreateKeeps(s, c, op);
      case OpOpenFifo(path, write, nonblock, stat) => OpenFifoKeeps(s, c, path, write, nonblock, stat);
      case OpOpenFile =>
        var fd := FreeFd(s.fds, 3);
        if fd < |s.fds| { AttachKeeps(s, c, fd, FileT, false); }
      case OpMkFifo(path, stat, again, parentOk, markerOk) =>
        MkFifoKeeps(s, c, path, stat, again, parentOk, markerOk);
      case OpClose(fd) => if 2 < fd < |s.fds| { ReleaseKeeps(s, c, fd); }
      case OpDup(fd) =>
        if FreeFd(s.fds, 3) < |s.fds| { DupKeeps(s, c, Remap(s, fd), FreeFd(s.fds, 3)); }
      case OpDup2(fd, newfd) => Dup2Keeps(s, c, fd, newfd);
      case OpRead(_, _, _) => TransferKeeps(s, c, op);
      case OpWrite(_, _, _) => TransferKeeps(s, c, op);
      case OpResume(_, _, _, _) => TransferKeeps(s, c, op);
      case OpNonblock(fd, on) => NonblockKeeps(s, c, fd, on);
      case OpSpool(fd, on, mallocOk) => SpoolKeeps(s, c, fd, on, mallocOk);
      case OpStdio(i, o, e) => StdioKeeps(s, c, i, o, e);
      case OpReset => ResetKeeps(s, c);
    }
  }

  lemma DeliveredKeeps(s: State, c: Caps, r: (State, Ret), ok: bool)
    requires Inv(r.0, c)
    requires r.1.Pair? ==> r.1.a < |r.0.fds| && r.1.b < |r.0.fds| && r.1.a != r.1.b
    ensures Inv(Delivered(r, ok).0, c)
  {
    if r.1.Pair? && !ok {
      ReleaseKeeps(r.0, c, r.1.a);
      ReleaseSane(r.0, r.1.a);
      ReleaseKeeps(Release(r.0, r.1.a), c, r.1.b);
    }
  }

  // ----- whole runs -----

  /** The tables at boot. */
  function Boot(fds: nat, pipes: nat, ptys: nat): State {
    State(seq(fds, i => Free), seq(pipes, i => NO_PIPE), seq(ptys, i => NO_PTY), 0, 1, 2)
  }

  function Run(s: State, c: Caps, ops: seq<Op>): (s': State)
    requires Inv(s, c) && forall op :: op in ops ==> EnvOk(op)
    ensures Inv(s', c)
    decreases |ops|
  {
    if ops == [] then s
    else
      StepKeeps(s, c, ops[0]);
      Run(Step(s, c, ops[0]).0, c, ops[1..])
  }

  lemma BootInv(fds: nat, pipes: nat, ptys: nat, c: Caps)
    requires 3 <= fds
    ensures Inv(Boot(fds, pipes, ptys), c)
  {
    var s := Boot(fds, pipes, ptys);
    forall t ensures Counted(s, t) {
      NoHolders(s.fds, t);
    }
  }

  /** After any run of system calls from boot: counts are exactly the open descriptors, no
      descriptor names a dead object, only FIFOs outlive their descriptors, FIFO paths are distinct. */
  lemma EveryRun(fds: nat, pipes: nat, ptys: nat, c: Caps, ops: seq<Op>)
    requires 3 <= fds && forall op :: op in ops ==> EnvOk(op)
    ensures Inv(Boot(fds, pipes, ptys), c)
    ensures var s := Run(Boot(fds, pipes, ptys), c, ops);
      && (forall i :: 0 <= i < |s.pipes| ==>
            && s.pipes[i].readers == Holders(s.fds, PipeT(i, ReadEnd))
            && s.pipes[i].writers == Holders(s.fds, PipeT(i, WriteEnd)))
      && (forall i :: 0 <= i < |s.ptys| ==>
            && s.ptys[i].masters == Holders(s.fds, PtyT(i, Master))
            && s.ptys[i].slaves == Holders(s.fds, PtyT(i, Slave)))
      && (forall k :: 0 <= k < |s.fds| && s.fds[k].Open? ==> InRange(s, s.fds[k].target) && Live(s, s.fds[k].target))
      && (forall i :: 0 <= i < |s.pipes| && s.pipes[i].used && !s.pipes[i].fifo ==>
            s.pipes[i].readers + s.pipes[i].writers > 0)
      && (forall i :: 0 <= i < |s.ptys| && s.ptys[i].used ==> s.ptys[i].masters + s.ptys[i].slaves > 0)
      && PathsDistinct(s.pipes)
  {
    BootInv(fds, pipes, ptys, c);
    var s := Run(Boot(fds, pipes, ptys), c, ops);
    forall i | 0 <= i < |s.pipes|
      ensures s.pipes[i].readers == Holders(s.fds, PipeT(i, ReadEnd)) &&
        s.pipes[i].writers == Holders(s.fds, PipeT(i, WriteEnd))
      ensures s.pipes[i].used && !s.pipes[i].fifo ==> s.pipes[i].readers + s.pipes[i].writers > 0
    {
      assert Counted(s, PipeT(i, ReadEnd)) && Counted(s, PipeT(i, WriteEnd)) && PipeOk(s.pipes[i], c);
    }
    forall i | 0 <= i < |s.ptys|
      ensures s.ptys[i].masters == Holders(s.fds, PtyT(i, Master)) && s.ptys[i].slaves == Holders(s.fds, PtyT(i, Slave))
      ensures s.ptys[i].used ==> s.ptys[i].masters + s.ptys[i].slaves > 0
    {
      assert Counted(s, PtyT(i, Master)) && Counted(s, PtyT(i, Slave)) && PtyOk(s.ptys[i], c);
    }
    forall k | 0 <= k < |s.fds| && s.fds[k].Open?
      ensures InRange(s, s.fds[k].target) && Live(s, s.fds[k].target)
    {
      NoDangling(s, c, k);
    }
  }
}
