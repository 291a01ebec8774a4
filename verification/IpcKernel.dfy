/** The kernel tables of src/cpu/isr.c, updated in place. Every method is proved to be the step
    of IpcState that it implements, so the laws of that state machine are laws of this code. */
module IpcKernel {
  import opened Bytes
  import opened IpcState
  import opened IpcRing
  import opened IpcInvariant
  import opened IpcCalls
  import opened IpcBuffers

  method BootPipes(b: Buffers, n: nat, c: Caps) returns (ps: seq<PipeRec>)
    requires b.Valid() && c.ring > 0
    modifies b.Repr
    ensures b.Valid() && fresh(b.Repr - old(b.Repr)) && |ps| == n
    ensures forall i {:trigger ps[i]} :: 0 <= i < n ==> PipeShows(ps[i], i, c, b.q, NO_PIPE)
  {
    ps := [];
    while |ps| < n
      invariant |ps| <= n && b.Valid() && fresh(b.Repr - old(b.Repr))
      invariant forall i {:trigger ps[i]} :: 0 <= i < |ps| ==> PipeShows(ps[i], i, c, b.q, NO_PIPE)
      decreases n - |ps|
    {
      var r := b.Allocate(c.ring, PipeRing(|ps|));
      ps := ps + [PipeRec(false, false, false, 0, 0, r, null, [])];
    }
  }

  method BootPty(b: Buffers, ghost i: nat, c: Caps) returns (t: PtyRec)
    requires b.Valid() && c.pty > 0
    modifies b.Repr
    ensures b.Valid() && fresh(b.Repr - old(b.Repr)) && PtyShows(t, i, c, b.q, NO_PTY)
    ensures forall r :: r in old(b.q) ==> r in b.q && b.q[r] == old(b.q)[r]
  {
    var m2s := b.Allocate(c.pty, ToSlave(i));
    var s2m := b.Allocate(c.pty, ToMaster(i));
    t := PtyRec(false, 0, 0, m2s, s2m);
  }

  method BootPtys(b: Buffers, n: nat, c: Caps) returns (ts: seq<PtyRec>)
    requires b.Valid() && c.pty > 0
    modifies b.Repr
    ensures b.Valid() && fresh(b.Repr - old(b.Repr)) && |ts| == n
    ensures forall i {:trigger ts[i]} :: 0 <= i < n ==> PtyShows(ts[i], i, c, b.q, NO_PTY)
    ensures forall r :: r in old(b.q) ==> r in b.q && b.q[r] == old(b.q)[r]
  {
    ts := [];
    while |ts| < n
      invariant |ts| <= n && b.Valid() && fresh(b.Repr - old(b.Repr))
      invariant forall i {:trigger ts[i]} :: 0 <= i < |ts| ==> PtyShows(ts[i], i, c, b.q, NO_PTY)
      invariant forall r :: r in old(b.q) ==> r in b.q && b.q[r] == old(b.q)[r]
      decreases n - |ts|
    {
      var t := BootPty(b, |ts|, c);
      ts := ts + [t];
    }
  }

  /** Allocating more rings disturbs no pipe. */
  lemma StillShow(ps: seq<PipeRec>, c: Caps, q: Bank, q': Bank)
    requires forall i {:trigger ps[i]} :: 0 <= i < |ps| ==> PipeShows(ps[i], i, c, q, NO_PIPE)
    requires forall r :: r in q ==> r in q' && q'[r] == q[r]
    ensures forall i {:trigger ps[i]} :: 0 <= i < |ps| ==> PipeShows(ps[i], i, c, q', NO_PIPE)
  {
  }

  method BootTables(b: Buffers, npipes: nat, nptys: nat, c: Caps) returns (ps: seq<PipeRec>, ts: seq<PtyRec>)
    requires b.Valid() && c.ring > 0 && c.pty > 0
    modifies b.Repr
    ensures b.Valid() && fresh(b.Repr - old(b.Repr)) && |ps| == npipes && |ts| == nptys
    ensures forall i {:trigger ps[i]} :: 0 <= i < |ps| ==> PipeShows(ps[i], i, c, b.q, NO_PIPE)
    ensures forall i {:trigger ts[i]} :: 0 <= i < |ts| ==> PtyShows(ts[i], i, c, b.q, NO_PTY)
  {
    ps := BootPipes(b, npipes, c);
    ghost var q := b.q;
    ts := BootPtys(b, nptys, c);
    StillShow(ps, c, q, b.q);
  }

  /** The descriptors of a new object: the lowest two free ones, or none at all. */
  function TwoEnds(s: State, t: Target, u: Target): (State, Ret)
    requires 3 <= |s.fds| && InRange(s, t) && InRange(s, u)
  {
    var a := FreeFd(s.fds, 3);
    if a == |s.fds| then (s, Fail)
    else
      var b := FreeFd(s.fds, a + 1);
      if b == |s.fds| then (s, Fail)
      else (Attach(Attach(s, a, t, false), b, u, false), Pair(a, b))
  }

  lemma {:induction false} PipeParts(s: State)
    requires 3 <= |s.fds|
    ensures CreatePipe(s) ==
      var (s1, i) := AllocPipe(s, false, []);
      if i == |s.pipes| then (s, Fail)
      else
        var (s2, r) := TwoEnds(s1, PipeT(i, ReadEnd), PipeT(i, WriteEnd));
        (if r.Fail? then s1.(pipes := s1.pipes[i := NO_PIPE]) else s2, r)
  {
  }

  lemma {:induction false} PtyParts(s: State)
    requires 3 <= |s.fds|
    ensures CreatePty(s) ==
      var i := FreePty(s.ptys, 0);
      if i == |s.ptys| then (s, Fail)
      else
        var s1 := s.(ptys := s.ptys[i := NO_PTY.(used := true)]);
        var (s2, r) := TwoEnds(s1, PtyT(i, Master), PtyT(i, Slave));
        (if r.Fail? then s1.(ptys := s1.ptys[i := NO_PTY]) else s2, r)
  {
  }

  lemma {:induction false} CallIsStep(s: State, c: Caps, op: Op)
    requires Sane(s) && !op.OpRead? && !op.OpWrite?
    ensures Call(s, c, op) == Step(s, c, op)
  {
  }

  /** Tables of zeros show the boot state. */
  lemma {:induction false} BootShows(fds: seq<Fd>, ps: seq<PipeRec>, ts: seq<PtyRec>, c: Caps, q: Bank, s: State)
    requires s == Boot(|fds|, |ps|, |ts|) && forall i :: 0 <= i < |fds| ==> fds[i] == Free
    requires 3 <= |fds|
    requires forall i {:trigger ps[i]} :: 0 <= i < |ps| ==> PipeShows(ps[i], i, c, q, NO_PIPE)
    requires forall i {:trigger ts[i]} :: 0 <= i < |ts| ==> PtyShows(ts[i], i, c, q, NO_PTY)
    ensures Shows(fds, ps, ts, c, q, s)
  {
  }

  class Kernel {
    const c: Caps
    const fds: array<Fd>
    const pipes: array<PipeRec>
    const ptys: array<PtyRec>
    const bank: Buffers
    var stdin: int
    var stdout: int
    var stderr: int

    /** The state the tables stand for. */
    ghost var s: State

    /** The static tables at boot, all zero. */
    constructor (nfds: nat, npipes: nat, nptys: nat, c: Caps)
      requires 3 <= nfds && c.ring > 0 && c.spool > 0 && c.pty > 0
      ensures Valid() && s == Boot(nfds, npipes, nptys) && this.c == c
      ensures fresh(bank) && fresh(bank.Repr) && fresh(fds) && fresh(pipes) && fresh(ptys)
    {
      var b := new Buffers();
      var ps, ts := BootTables(b, npipes, nptys, c);
      this.c, bank := c, b;
      stdin, stdout, stderr := 0, 1, 2;
      s := Boot(nfds, npipes, nptys);
      fds := new Fd[nfds](_ => Free);
      pipes := new PipeRec[npipes](i requires 0 <= i < |ps| => ps[i]);
      ptys := new PtyRec[nptys](i requires 0 <= i < |ts| => ts[i]);
      new;
      assert pipes[..] == ps && ptys[..] == ts;
      BootShows(fds[..], ps, ts, c, b.q, s);
    }

    ghost predicate Valid()
      reads this, fds, pipes, ptys, bank, bank.Repr
    {
      && c.ring > 0 && c.spool > 0 && c.pty > 0
      && bank.Valid() && {this, fds, pipes, ptys} !! bank.Repr
      && Shows(fds[..], pipes[..], ptys[..], c, bank.q, s)
      && s.stdin == stdin && s.stdout == stdout && s.stderr == stderr
    }

    /** The tables are sound and now stand for `s'`. */
    twostate predicate Became(s': State)
      reads this, fds, pipes, ptys, bank, bank.Repr
    {
      Valid() && s == s' && fresh(bank.Repr - old(bank.Repr))
    }

    // ----- the elementary updates -----

    method SetFd(fd: nat, f: Fd)
      requires Valid() && fd < fds.Length && (f.Open? ==> InRange(s, f.target))
      modifies this`s, fds
      ensures Became(old(s).(fds := old(s).fds[fd := f]))
    {
      fds[fd] := f;
      s := s.(fds := s.fds[fd := f]);
      assert forall i {:trigger pipes[..][i]} :: 0 <= i < pipes.Length ==>
        PipeShows(pipes[..][i], i, c, bank.q, s.pipes[i]);
    }

    method SetPipe(i: nat, r: PipeRec, ghost p: Pipe)
      requires Valid() && i < pipes.Length && PipeShows(r, i, c, bank.q, p)
      modifies this`s, pipes
      ensures Became(old(s).(pipes := old(s).pipes[i := p]))
    {
      ShowPipe(fds[..], pipes[..], ptys[..], c, bank.q, s, i, r, bank.q, p);
      pipes[i] := r;
      s := s.(pipes := s.pipes[i := p]);
      assert pipes[..] == old(pipes[..])[i := r];
    }

    method SetPty(i: nat, r: PtyRec, ghost t: Pty)
      requires Valid() && i < ptys.Length && PtyShows(r, i, c, bank.q, t)
      modifies this`s, ptys
      ensures Became(old(s).(ptys := old(s).ptys[i := t]))
    {
      ShowPty(fds[..], pipes[..], ptys[..], c, bank.q, s, i, r, bank.q, t);
      ptys[i] := r;
      s := s.(ptys := s.ptys[i := t]);
      assert ptys[..] == old(ptys[..])[i := r];
    }

    // ----- moving bytes -----

    method PipeRead(i: nat, maxlen: nat, nonblock: bool, intr: bool) returns (r: Ret)
      requires Valid() && i < pipes.Length
      modifies this`s, bank.Repr
      ensures var (p, ret) := ReadPipe(old(s).pipes[i], maxlen, nonblock, intr);
        Became(old(s).(pipes := old(s).pipes[i := p])) && r == ret
    {
      ghost var v := s.pipes[i];
      assert pipes[..][i] == pipes[i];
      ghost var q0 := bank.q;
      r := bank.ReadRings(pipes[i], i, c, v, maxlen, nonblock, intr);
      ghost var p := ReadPipe(v, maxlen, nonblock, intr).0;
      ShowPipe(fds[..], pipes[..], ptys[..], c, q0, s, i, pipes[i], bank.q, p);
      assert pipes[..][i := pipes[i]] == pipes[..];
      s := s.(pipes := s.pipes[i := p]);
    }

    method PipeWrite(i: nat, data: seq<byte>, nonblock: bool, intr: bool) returns (r: Ret)
      requires Valid() && i < pipes.Length
      modifies this`s, bank.Repr
      ensures var (p, ret) := WritePipe(old(s).pipes[i], c, data, nonblock, intr);
        Became(old(s).(pipes := old(s).pipes[i := p])) && r == ret
    {
      assert pipes[..][i] == pipes[i];
      if !pipes[i].used || data == [] || pipes[i].readers == 0 {
        assert s.pipes[i := s.pipes[i]] == s.pipes;
        return if pipes[i].used && data == [] then Count(0) else Fail;
      }
      r := PipeWriteFrom(i, data, 0, nonblock, intr);
    }

    /** The write loop, from the start or on waking up. */
    method PipeWriteFrom(i: nat, data: seq<byte>, done: nat, nonblock: bool, intr: bool) returns (r: Ret)
      requires Valid() && i < pipes.Length
      modifies this`s, bank.Repr
      ensures var (p, ret) := WriteLoop(old(s).pipes[i], c, data, done, nonblock, intr);
        Became(old(s).(pipes := old(s).pipes[i := p])) && r == ret
    {
      ghost var v := s.pipes[i];
      assert pipes[..][i] == pipes[i];
      ghost var q0 := bank.q;
      r := bank.WriteRings(pipes[i], i, c, v, data, done, nonblock, intr);
      ghost var p := WriteLoop(v, c, data, done, nonblock, intr).0;
      ShowPipe(fds[..], pipes[..], ptys[..], c, q0, s, i, pipes[i], bank.q, p);
      assert pipes[..][i := pipes[i]] == pipes[..];
      s := s.(pipes := s.pipes[i := p]);
    }

    method PtyRead(i: nat, side: Side, maxlen: nat, nonblock: bool, intr: bool) returns (r: Ret)
      requires Valid() && i < ptys.Length
      modifies this`s, bank.Repr
      ensures var (t, ret) := ReadPty(old(s).ptys[i], side, maxlen, nonblock, intr);
        Became(old(s).(ptys := old(s).ptys[i := t])) && r == ret
    {
      ghost var v := s.ptys[i];
      assert ptys[..][i] == ptys[i];
      ghost var q0 := bank.q;
      r := bank.ReadPtyRing(ptys[i], i, c, v, side, maxlen, nonblock, intr);
      ghost var t := ReadPty(v, side, maxlen, nonblock, intr).0;
      ShowPty(fds[..], pipes[..], ptys[..], c, q0, s, i, ptys[i], bank.q, t);
      assert ptys[..][i := ptys[i]] == ptys[..];
      s := s.(ptys := s.ptys[i := t]);
    }

    method PtyWrite(i: nat, side: Side, data: seq<byte>, nonblock: bool, intr: bool) returns (r: Ret)
      requires Valid() && i < ptys.Length
      modifies this`s, bank.Repr
      ensures var (t, ret) := WritePty(old(s).ptys[i], c, side, data, nonblock, intr);
        Became(old(s).(ptys := old(s).ptys[i := t])) && r == ret
    {
      assert ptys[..][i] == ptys[i];
      var t := ptys[i];
      if !t.used || data == [] || (if side.Master? then t.slaves else t.masters) == 0 {
        assert s.ptys[i := s.ptys[i]] == s.ptys;
        return if t.used && data == [] then Count(0) else Fail;
      }
      r := PtyWriteFrom(i, side, data, 0, nonblock, intr);
    }

    method PtyWriteFrom(i: nat, side: Side, data: seq<byte>, done: nat, nonblock: bool, intr: bool) returns (r: Ret)
      requires Valid() && i < ptys.Length
      modifies this`s, bank.Repr
      ensures var (t, ret) := PtyLoop(old(s).ptys[i], c, side, data, done, nonblock, intr);
        Became(old(s).(ptys := old(s).ptys[i := t])) && r == ret
    {
      ghost var v := s.ptys[i];
      assert ptys[..][i] == ptys[i];
      ghost var q0 := bank.q;
      r := bank.WritePtyRing(ptys[i], i, c, v, side, data, done, nonblock, intr);
      ghost var t := PtyLoop(v, c, side, data, done, nonblock, intr).0;
      ShowPty(fds[..], pipes[..], ptys[..], c, q0, s, i, ptys[i], bank.q, t);
      assert ptys[..][i := ptys[i]] == ptys[..];
      s := s.(ptys := s.ptys[i := t]);
    }

    // ----- references -----

    /** Zero a pipe's ring positions, and its spool's. */
    method WipePipe(i: nat)
      requires Valid() && i < pipes.Length
      modifies this`s, bank.Repr
      ensures Became(old(s).(pipes := old(s).pipes[i := old(s).pipes[i].(ring := [], spool := [])]))
    {
      ghost var v, q0 := s.pipes[i], bank.q;
      assert pipes[..][i] == pipes[i];
      bank.EmptyPipe(pipes[i], i, c, v);
      ShowPipe(fds[..], pipes[..], ptys[..], c, q0, s, i, pipes[i], bank.q, v.(ring := [], spool := []));
      assert pipes[..][i := pipes[i]] == pipes[..];
      s := s.(pipes := s.pipes[i := v.(ring := [], spool := [])]);
    }

    /** `memset(p, 0, …)` on a pipe, then the given control fields. */
    method ResetPipe(i: nat, used: bool, fifo: bool, path: seq<byte>)
      requires Valid() && i < pipes.Length
      modifies this`s, pipes, bank.Repr
      ensures Became(old(s).(pipes := old(s).pipes[i := Pipe(used, fifo, false, 0, 0, [], [], path)]))
    {
      WipePipe(i);
      assert pipes[..][i] == pipes[i];
      var r := PipeRec(used, fifo, false, 0, 0, pipes[i].ring, null, path);
      SetPipe(i, r, Pipe(used, fifo, false, 0, 0, [], [], path));
    }

    method PipeMaybeDestroy(i: nat)
      requires Valid() && i < pipes.Length
      modifies this`s, pipes, bank.Repr
      ensures Became(old(s).(pipes := old(s).pipes[i := DestroyPipe(old(s).pipes[i])]))
    {
      assert pipes[..][i] == pipes[i];
      var p := pipes[i];
      if p.used && p.readers == 0 && p.writers == 0 {
        if p.fifo { WipePipe(i); } else { ResetPipe(i, false, false, []); }
      } else {
        assert s.pipes[i := s.pipes[i]] == s.pipes;
      }
    }

    method ResetPty(i: nat, used: bool)
      requires Valid() && i < ptys.Length
      modifies this`s, ptys, bank.Repr
      ensures Became(old(s).(ptys := old(s).ptys[i := NO_PTY.(used := used)]))
    {
      ghost var q0 := bank.q;
      assert ptys[..][i] == ptys[i];
      bank.EmptyPty(ptys[i], i, c, s.ptys[i]);
      ShowPty(fds[..], pipes[..], ptys[..], c, q0, s, i, ptys[i], bank.q, s.ptys[i].(m2s := [], s2m := []));
      assert ptys[..][i := ptys[i]] == ptys[..];
      s := s.(ptys := s.ptys[i := s.ptys[i].(m2s := [], s2m := [])]);
      SetPty(i, PtyRec(used, 0, 0, ptys[i].m2s, ptys[i].s2m), NO_PTY.(used := used));
    }

    method PtyMaybeDestroy(i: nat)
      requires Valid() && i < ptys.Length
      modifies this`s, ptys, bank.Repr
      ensures Became(old(s).(ptys := old(s).ptys[i := DestroyPty(old(s).ptys[i])]))
    {
      assert ptys[..][i] == ptys[i];
      if ptys[i].used && ptys[i].masters == 0 && ptys[i].slaves == 0 {
        ResetPty(i, false);
      } else {
        assert s.ptys[i := s.ptys[i]] == s.ptys;
      }
    }

    /** Store a target's reference count. */
    method StoreRefs(t: Target, n: nat)
      requires Valid() && InRange(s, t)
      modifies this`s, pipes, ptys
      ensures Became(SetRefs(old(s), t, n))
    {
      match t
      case FileT =>
      case PipeT(i, end) =>
        assert pipes[..][i] == pipes[i];
        if end.ReadEnd? {
          SetPipe(i, pipes[i].(readers := n), s.pipes[i].(readers := n));
        } else {
          SetPipe(i, pipes[i].(writers := n), s.pipes[i].(writers := n));
        }
      case PtyT(i, side) =>
        assert ptys[..][i] == ptys[i];
        if side.Master? {
          SetPty(i, ptys[i].(masters := n), s.ptys[i].(masters := n));
        } else {
          SetPty(i, ptys[i].(slaves := n), s.ptys[i].(slaves := n));
        }
    }

    method LoadRefs(t: Target) returns (live: bool, n: nat)
      requires Valid() && InRange(s, t)
      ensures live == Live(s, t) && n == Refs(s, t)
    {
      match t
      case FileT => live, n := true, 0;
      case PipeT(i, end) =>
        assert pipes[..][i] == pipes[i];
        live, n := pipes[i].used, if end.ReadEnd? then pipes[i].readers else pipes[i].writers;
      case PtyT(i, side) =>
        assert ptys[..][i] == ptys[i];
        live, n := ptys[i].used, if side.Master? then ptys[i].masters else ptys[i].slaves;
    }

    /** `user_fd_release`. */
    method ReleaseFd(fd: nat)
      requires Valid() && fd < fds.Length
      modifies this`s, fds, pipes, ptys, bank.Repr
      ensures Became(Release(old(s), fd))
    {
      if fds[fd].Open? {
        var t := fds[fd].target;
        assert InRange(s, t);
        var live, n := LoadRefs(t);
        if live {
          StoreRefs(t, if n > 0 then n - 1 else 0);
          match t
          case FileT =>
          case PipeT(i, _) => PipeMaybeDestroy(i);
          case PtyT(i, _) => PtyMaybeDestroy(i);
        }
        SetFd(fd, Free);
      }
    }

    /** Open a descriptor on a target and count it. */
    method AttachFd(fd: nat, t: Target, nonblock: bool)
      requires Valid() && fd < fds.Length && InRange(s, t)
      modifies this`s, fds, pipes, ptys
      ensures Became(Attach(old(s), fd, t, nonblock))
    {
      var _, n := LoadRefs(t);
      StoreRefs(t, n + 1);
      SetFd(fd, Open(t, nonblock));
    }

    // ----- searching the tables -----

    method FindFreeFd(from: nat) returns (r: nat)
      requires Valid() && from <= fds.Length
      ensures r == FreeFd(s.fds, from)
    {
      r := from;
      while r < fds.Length && fds[r].Open?
        invariant from <= r <= fds.Length && FreeFd(s.fds, from) == FreeFd(s.fds, r)
      {
        r := r + 1;
      }
    }

    method FindFreePipe() returns (r: nat)
      requires Valid()
      ensures r == FreePipe(s.pipes, 0)
    {
      r := 0;
      while r < pipes.Length && pipes[r].used
        invariant r <= pipes.Length && FreePipe(s.pipes, 0) == FreePipe(s.pipes, r)
        invariant r < pipes.Length ==> PipeShows(pipes[..][r], r, c, bank.q, s.pipes[r])
      {
        r := r + 1;
      }
    }

    method FindFreePty() returns (r: nat)
      requires Valid()
      ensures r == FreePty(s.ptys, 0)
    {
      r := 0;
      while r < ptys.Length && ptys[r].used
        invariant r <= ptys.Length && FreePty(s.ptys, 0) == FreePty(s.ptys, r)
        invariant r < ptys.Length ==> PtyShows(ptys[..][r], r, c, bank.q, s.ptys[r])
      {
        r := r + 1;
      }
    }

    /** `user_pipe_find_fifo_by_path`. */
    method FindFifoByPath(path: seq<byte>) returns (r: nat)
      requires Valid()
      ensures r == FindFifo(s.pipes, path, 0)
    {
      if path == [] { return pipes.Length; }
      r := 0;
      while r < pipes.Length && !(pipes[r].used && pipes[r].fifo && pipes[r].path == path)
        invariant r <= pipes.Length && FindFifo(s.pipes, path, 0) == FindFifo(s.pipes, path, r)
        invariant r < pipes.Length ==> PipeShows(pipes[..][r], r, c, bank.q, s.pipes[r])
      {
        r := r + 1;
      }
    }

    // ----- creating -----

    method PipeAlloc(fifo: bool, path: seq<byte>) returns (i: nat)
      requires Valid()
      modifies this`s, pipes, bank.Repr
      ensures var (s1, j) := AllocPipe(old(s), fifo, path); i == j && Became(s1)
    {
      i := FindFreePipe();
      if i < pipes.Length {
        ResetPipe(i, true, fifo, if fifo then path else []);
      }
    }

    /** `syscall_kernel_pipe_create`. */
    method PipeCreate() returns (r: Ret)
      requires Valid()
      modifies this`s, fds, pipes, ptys, bank.Repr
      ensures var (s1, ret) := CreatePipe(old(s)); r == ret && Became(s1)
    {
      PipeParts(s);
      var i := PipeAlloc(false, []);
      if i == pipes.Length { return Fail; }
      r := TakeEnds(PipeT(i, ReadEnd), PipeT(i, WriteEnd));
      if r.Fail? { ResetPipe(i, false, false, []); }
    }

    /** `syscall_kernel_pty_create`. */
    method PtyCreate() returns (r: Ret)
      requires Valid()
      modifies this`s, fds, pipes, ptys, bank.Repr
      ensures var (s1, ret) := CreatePty(old(s)); r == ret && Became(s1)
    {
      PtyParts(s);
      var i := FindFreePty();
      if i == ptys.Length { return Fail; }
      ResetPty(i, true);
      r := TakeEnds(PtyT(i, Master), PtyT(i, Slave));
      if r.Fail? { ResetPty(i, false); }
    }

    /** Open both ends of a new object on the lowest two free descriptors. */
    method TakeEnds(t: Target, u: Target) returns (r: Ret)
      requires Valid() && InRange(s, t) && InRange(s, u)
      modifies this`s, fds, pipes, ptys
      ensures var (s1, ret) := TwoEnds(old(s), t, u); r == ret && Became(s1)
    {
      var a := FindFreeFd(3);
      if a == fds.Length { return Fail; }
      var b := FindFreeFd(a + 1);
      if b == fds.Length { return Fail; }
      AttachEnds(a, b, t, u);
      r := Pair(a, b);
    }

    method AttachEnds(a: nat, b: nat, t: Target, u: Target)
      requires Valid() && a < fds.Length && b < fds.Length && InRange(s, t) && InRange(s, u)
      modifies this`s, fds, pipes, ptys
      ensures Became(Attach(Attach(old(s), a, t, false), b, u, false))
    {
      AttachFd(a, t, false);
      AttachFd(b, u, false);
    }

    /** When the result cannot be copied out, both new ends are released. */
    method Deliver(r: Ret, copyoutOk: bool) returns (r': Ret)
      requires Valid() && (r.Pair? ==> r.a < fds.Length && r.b < fds.Length && r.a != r.b)
      modifies this`s, fds, pipes, ptys, bank.Repr
      ensures var (s1, ret) := Delivered((old(s), r), copyoutOk); r' == ret && Became(s1)
    {
      if r.Pair? && !copyoutOk {
        ReleaseSane(s, r.a);
        ReleaseFd(r.a);
        ReleaseFd(r.b);
        return Fail;
      }
      return r;
    }

    method FifoGetOrCreate(path: seq<byte>, stat: Stat) returns (i: nat)
      requires Valid()
      modifies this`s, pipes, bank.Repr
      ensures var (s1, j) := GetOrCreateFifo(old(s), path, stat); i == j && Became(s1)
    {
      i := FindFifoByPath(path);
      if i < pipes.Length { return; }
      if !stat.FifoNode? { return pipes.Length; }
      i := PipeAlloc(true, path);
    }

    method FifoOpen(path: seq<byte>, write: bool, nonblock: bool, stat: Stat) returns (r: Ret)
      requires Valid()
      modifies this`s, fds, pipes, ptys, bank.Repr
      ensures var (s1, ret) := OpenFifo(old(s), path, write, nonblock, stat); r == ret && Became(s1)
    {
      var i := FifoGetOrCreate(path, stat);
      if i >= pipes.Length { return Code(-2); }
      var fd := FindFreeFd(3);
      if fd == fds.Length { return Fail; }
      AttachFd(fd, PipeT(i, if write then WriteEnd else ReadEnd), nonblock);
      return Code(fd);
    }

    method FifoMake(path: seq<byte>, stat: Stat, again: Stat, parentOk: bool, markerOk: bool) returns (r: Ret)
      requires Valid()
      modifies this`s, pipes, bank.Repr
      ensures var (s1, ret) := MkFifo(old(s), path, stat, again, parentOk, markerOk); r == ret && Became(s1)
    {
      if stat.FifoNode? {
        var i := FifoGetOrCreate(path, again);
        return if i < pipes.Length then Code(0) else Fail;
      }
      if stat.OtherNode? { return Fail; }
      var i := FindFifoByPath(path);
      if i < pipes.Length { return Code(0); }
      if 47 !in path || !parentOk || !markerOk { return Fail; }
      i := PipeAlloc(true, path);
      return if i < pipes.Length then Code(0) else Fail;
    }

    // ----- duplicating -----

    method RemapFd(fd: int) returns (r: int)
      requires Valid()
      ensures r == Remap(s, fd)
    {
      r := if fd == 0 then stdin else if fd == 1 then stdout else if fd == 2 then stderr else fd;
    }

    /** `user_fd_duplicate_into`. */
    method DuplicateInto(oldfd: int, newfd: int) returns (r: Ret)
      requires Valid()
      modifies this`s, fds, pipes, ptys, bank.Repr
      ensures var (s1, ret) := DupInto(old(s), oldfd, newfd); r == ret && Became(s1)
    {
      if !(0 <= oldfd < fds.Length && fds[oldfd].Open?) || !(2 < newfd < fds.Length) { return Fail; }
      if oldfd == newfd { return Code(newfd); }
      ReleaseSane(s, newfd);
      ReleaseFd(newfd);
      var f := fds[oldfd];
      assert s.fds[oldfd] == f;
      var live, _ := LoadRefs(f.target);
      if !live { return Fail; }
      AttachFd(newfd, f.target, f.nonblock);
      return Code(newfd);
    }

    method DupCall(req: int) returns (r: Ret)
      requires Valid()
      modifies this`s, fds, pipes, ptys, bank.Repr
      ensures var (s1, ret) := Dup(old(s), req); r == ret && Became(s1)
    {
      var old_ := RemapFd(req);
      if old_ <= 2 || old_ >= fds.Length || fds[old_].Free? { return Fail; }
      var fd := FindFreeFd(3);
      if fd == fds.Length { return Fail; }
      r := DuplicateInto(old_, fd);
    }

    method SetStdioFields(i: int, o: int, e: int)
      requires Valid()
      modifies this
      ensures Became(old(s).(stdin := i, stdout := o, stderr := e))
    {
      stdin, stdout, stderr := i, o, e;
      s := s.(stdin := i, stdout := o, stderr := e);
    }

    method Dup2Call(req: int, newfd: int) returns (r: Ret)
      requires Valid()
      modifies this, fds, pipes, ptys, bank.Repr
      ensures var (s1, ret) := Dup2(old(s), req, newfd); r == ret && Became(s1)
    {
      var old_ := RemapFd(req);
      if old_ <= 2 || old_ >= fds.Length || fds[old_].Free? { return Fail; }
      if newfd < 0 || newfd >= fds.Length { return Fail; }
      if newfd == 0 { SetStdioFields(old_, stdout, stderr); return Code(0); }
      if newfd == 1 { SetStdioFields(stdin, old_, stderr); return Code(1); }
      if newfd == 2 { SetStdioFields(stdin, stdout, old_); return Code(2); }
      r := DuplicateInto(old_, newfd);
    }

    // ----- the rest of the calls -----

    method ReadCall(fd: int, maxlen: nat, intr: bool) returns (r: Ret)
      requires Valid()
      modifies this`s, bank.Repr
      ensures var (s1, ret) := ReadFd(old(s), fd, maxlen, intr); r == ret && Became(s1)
    {
      if !(0 <= fd < fds.Length && fds[fd].Open?) { return Fail; }
      var f := fds[fd];
      assert s.fds[fd] == f;
      match f.target
      case FileT => return Elsewhere;
      case PipeT(i, _) => r := PipeRead(i, maxlen, f.nonblock, intr);
      case PtyT(i, side) => r := PtyRead(i, side, maxlen, f.nonblock, intr);
    }

    method WriteCall(fd: int, data: seq<byte>, intr: bool) returns (r: Ret)
      requires Valid()
      modifies this`s, bank.Repr
      ensures var (s1, ret) := WriteFd(old(s), c, fd, data, intr); r == ret && Became(s1)
    {
      if !(0 <= fd < fds.Length && fds[fd].Open?) { return Fail; }
      var f := fds[fd];
      assert s.fds[fd] == f;
      match f.target
      case FileT => return Elsewhere;
      case PipeT(i, _) => r := PipeWrite(i, data, f.nonblock, intr);
      case PtyT(i, side) => r := PtyWrite(i, side, data, f.nonblock, intr);
    }

    /** A sleeping write wakes up. */
    method ResumeCall(fd: int, data: seq<byte>, done: nat, intr: bool) returns (r: Ret)
      requires Valid()
      modifies this`s, bank.Repr
      ensures var (s1, ret) := ResumeFd(old(s), c, fd, data, done, intr); r == ret && Became(s1)
    {
      if !(0 <= fd < fds.Length && fds[fd].Open?) { return Fail; }
      var f := fds[fd];
      assert s.fds[fd] == f;
      match f.target
      case FileT => return Elsewhere;
      case PipeT(i, _) => r := PipeWriteFrom(i, data, done, f.nonblock, intr);
      case PtyT(i, side) => r := PtyWriteFrom(i, side, data, done, f.nonblock, intr);
    }

    method CloseCall(fd: int) returns (r: Ret)
      requires Valid()
      modifies this`s, fds, pipes, ptys, bank.Repr
      ensures var (s1, ret) := CloseFd(old(s), fd); r == ret && Became(s1)
    {
      if fd < 0 || fd >= fds.Length { return Fail; }
      if fd <= 2 { return Code(0); }
      ReleaseFd(fd);
      return Code(0);
    }

    method NonblockCall(fd: int, on: bool) returns (r: Ret)
      requires Valid()
      modifies this`s, fds
      ensures var (s1, ret) := SetNonblock(old(s), fd, on); r == ret && Became(s1)
    {
      if fd <= 2 || fd >= fds.Length || fds[fd].Free? { return Fail; }
      assert s.fds[fd] == fds[fd];
      SetFd(fd, fds[fd].(nonblock := on));
      return Code(0);
    }

    method StdioCall(i: int, o: int, e: int) returns (r: Ret)
      requires Valid()
      modifies this
      ensures var (s1, ret) := SetStdio(old(s), i, o, e); r == ret && Became(s1)
    {
      if !(0 <= i < fds.Length && 0 <= o < fds.Length && 0 <= e < fds.Length) { return Fail; }
      if (i > 2 && fds[i].Free?) || (o > 2 && fds[o].Free?) || (e > 2 && fds[e].Free?) { return Fail; }
      SetStdioFields(i, o, e);
      return Code(0);
    }

    /** `user_pipe_set_spool`. */
    method SpoolCall(fd: int, on: bool, mallocOk: bool) returns (r: Ret)
      requires Valid()
      modifies this`s, pipes, bank.Repr
      ensures var (s1, ret) := SetSpool(old(s), fd, on, mallocOk); r == ret && Became(s1)
    {
      if fd <= 2 || fd >= fds.Length || fds[fd].Free? || !fds[fd].target.PipeT? { return Fail; }
      assert s.fds[fd] == fds[fd];
      var i := fds[fd].target.pipe;
      assert pipes[..][i] == pipes[i];
      if !pipes[i].used { return Fail; }
      if !on {
        SetPipe(i, pipes[i].(spoolOn := false, spool := null), s.pipes[i].(spoolOn := false, spool := []));
        return Code(0);
      }
      if pipes[i].spool == null {
        if !mallocOk { return Fail; }
        AllocSpool(i);
        return Code(0);
      }
      assert s.pipes[i := s.pipes[i].(spoolOn := true)] == s.pipes;
      return Code(0);
    }

    method AllocSpool(i: nat)
      requires Valid() && i < pipes.Length && pipes[i].spool == null
      modifies this`s, pipes, bank.Repr
      ensures Became(old(s).(pipes := old(s).pipes[i := old(s).pipes[i].(spoolOn := true)]))
    {
      assert pipes[..][i] == pipes[i];
      ghost var q0 := bank.q;
      var b := bank.Allocate(c.spool, PipeSpool(i));
      var r := pipes[i].(spoolOn := true, spool := b);
      ghost var p := s.pipes[i].(spoolOn := true);
      ShowPipe(fds[..], pipes[..], ptys[..], c, q0, s, i, r, bank.q, p);
      pipes[i] := r;
      s := s.(pipes := s.pipes[i := p]);
      assert pipes[..] == old(pipes[..])[i := r];
    }

    /** `syscall_reset_user_fds`. */
    method ResetCall()
      requires Valid()
      modifies this`s, fds, pipes, ptys, bank.Repr
      ensures Became(ResetAll(old(s)))
    {
      for i := 0 to fds.Length
        invariant Valid() && fresh(bank.Repr - old(bank.Repr)) && SameStdio(s, old(s))
        invariant forall k :: 0 <= k < i ==> s.fds[k].Free?
      {
        ghost var before := s;
        ReleaseFd(i);
        ReleaseFrees(before, i);
      }
      for i := 0 to pipes.Length
        invariant Valid() && fresh(bank.Repr - old(bank.Repr)) && SameStdio(s, old(s))
        invariant forall k :: 0 <= k < fds.Length ==> s.fds[k].Free?
        invariant forall k :: 0 <= k < i ==> s.pipes[k] == NO_PIPE
      {
        ResetPipe(i, false, false, []);
      }
      for i := 0 to ptys.Length
        invariant Valid() && fresh(bank.Repr - old(bank.Repr)) && SameStdio(s, old(s))
        invariant forall k :: 0 <= k < fds.Length ==> s.fds[k].Free?
        invariant forall k :: 0 <= k < pipes.Length ==> s.pipes[k] == NO_PIPE
        invariant forall k :: 0 <= k < i ==> s.ptys[k] == NO_PTY
      {
        ResetPty(i, false);
      }
      assert s.fds == ResetAll(old(s)).fds && s.pipes == ResetAll(old(s)).pipes && s.ptys == ResetAll(old(s)).ptys;
    }

    /** A call on the tables goes through the step of the state machine. */
    method Dispatch(op: Op) returns (r: Ret)
      requires Valid()
      modifies this, fds, pipes, ptys, bank.Repr
      ensures var (s1, ret) := Step(old(s), c, op); r == ret && Became(s1)
    {
      match op
      case OpPipe(_) => r := OpenCall(op);
      case OpPty(_) => r := OpenCall(op);
      case OpOpenFifo(_, _, _, _) => r := OpenCall(op);
      case OpOpenFile => r := OpenCall(op);
      case OpMkFifo(_, _, _, _, _) => r := OpenCall(op);
      case OpClose(fd) => r := CloseCall(fd);
      case OpDup(fd) => r := DupCall(fd);
      case OpDup2(fd, newfd) => r := Dup2Call(fd, newfd);
      case OpRead(fd, maxlen, intr) => r := ReadCall(fd, maxlen, intr);
      case OpWrite(fd, data, intr) => r := WriteCall(fd, data, intr);
      case OpResume(fd, data, done, intr) => r := ResumeCall(fd, data, done, intr);
      case OpNonblock(fd, on) => r := NonblockCall(fd, on);
      case OpSpool(fd, on, mallocOk) => r := SpoolCall(fd, on, mallocOk);
      case OpStdio(i, o, e) => r := StdioCall(i, o, e);
      case OpReset => ResetCall(); r := Code(0);
    }

    /** One system call as the user program makes it. */
    method SystemCall(op: Op) returns (r: Ret)
      requires Valid()
      modifies this, fds, pipes, ptys, bank.Repr
      ensures var (s1, ret) := Call(old(s), c, op); r == ret && Became(s1)
    {
      if op.OpRead? {
        r := ReadRequest(op.fd, op.maxlen, op.intr);
      } else if op.OpWrite? {
        r := WriteRequest(op.fd, op.data, op.intr);
      } else {
        CallIsStep(s, c, op);
        r := Dispatch(op);
      }
    }

    method ReadRequest(fd: int, maxlen: nat, intr: bool) returns (r: Ret)
      requires Valid()
      modifies this`s, bank.Repr
      ensures var (s1, ret) := Call(old(s), c, OpRead(fd, maxlen, intr)); r == ret && Became(s1)
    {
      if maxlen == 0 { return Data([]); }
      var to := fd;
      if fd == 0 { to := MappedFd(stdin, 0); }
      if to == 0 { return Elsewhere; }
      r := ReadCall(to, Min(maxlen, IO_MAX), intr);
    }

    method WriteRequest(fd: int, data: seq<byte>, intr: bool) returns (r: Ret)
      requires Valid()
      modifies this`s, bank.Repr
      ensures var (s1, ret) := Call(old(s), c, OpWrite(fd, data, intr)); r == ret && Became(s1)
    {
      var to := fd;
      if fd == 1 { to := MappedFd(stdout, 1); } else if fd == 2 { to := MappedFd(stderr, 2); }
      if data == [] { return Count(0); }
      if to == 1 || to == 2 { return Elsewhere; }
      r := WriteCall(to, data[..Min(|data|, IO_MAX)], intr);
    }

    /** A mapping above 2 to a closed descriptor means the console. */
    method MappedFd(to: int, console: int) returns (r: int)
      requires Valid()
      ensures r == Mapped(s, to, console)
    {
      r := if to > 2 && (to >= fds.Length || fds[to].Free?) then console else to;
    }

    /** Any run of system calls: the tables end where the state machine's run of the resulting
        steps ends, with the same answers, so the laws of every run hold of the tables. */
    method Serve(ops: seq<Op>) returns (rs: seq<Ret>)
      requires Valid() && Inv(s, c) && forall op :: op in ops ==> EnvOk(op)
      modifies this, fds, pipes, ptys, bank.Repr
      ensures Became(Run(old(s), c, Steps(old(s), c, ops))) && Inv(s, c)
      ensures rs == Answers(old(s), c, ops)
    {
      rs := [];
      ghost var s0 := s;
      for i := 0 to |ops|
        invariant Valid() && fresh(bank.Repr - old(bank.Repr)) && Inv(s, c)
        invariant forall op :: op in ops[i..] ==> EnvOk(op)
        invariant Run(s, c, Steps(s, c, ops[i..])) == Run(s0, c, Steps(s0, c, ops))
        invariant rs + Answers(s, c, ops[i..]) == Answers(s0, c, ops)
      {
        CallOne(s, c, ops[i..]);
        ghost var before := s;
        var r := SystemCall(ops[i]);
        assert ops[i..][0] == ops[i] && ops[i..][1..] == ops[i + 1..];
        assert (rs + [r]) + Answers(s, c, ops[i + 1..]) == rs + ([r] + Answers(s, c, ops[i + 1..]));
        rs := rs + [r];
      }
      assert rs + [] == rs;
    }

    /** The calls that make objects or take descriptors for them. */
    method OpenCall(op: Op) returns (r: Ret)
      requires Valid() && (op.OpPipe? || op.OpPty? || op.OpOpenFifo? || op.OpOpenFile? || op.OpMkFifo?)
      modifies this, fds, pipes, ptys, bank.Repr
      ensures var (s1, ret) := Step(old(s), c, op); r == ret && Became(s1)
    {
      if op.OpPipe? || op.OpPty? {
        r := CreateCall(op);
      } else if op.OpOpenFifo? {
        r := FifoOpen(op.path, op.write, op.nonblock, op.stat);
      } else if op.OpMkFifo? {
        r := FifoMake(op.path, op.stat, op.again, op.parentOk, op.markerOk);
      } else {
        r := FileOpen();
      }
    }

    method CreateCall(op: Op) returns (r: Ret)
      requires Valid() && (op.OpPipe? || op.OpPty?)
      modifies this, fds, pipes, ptys, bank.Repr
      ensures var (s1, ret) := Step(old(s), c, op); r == ret && Became(s1)
    {
      CreateSane(s);
      if op.OpPipe? { r := PipeCreate(); } else { r := PtyCreate(); }
      r := Deliver(r, op.copyoutOk);
    }

    /** The part of OPEN that takes a descriptor for an ordinary file. */
    method FileOpen() returns (r: Ret)
      requires Valid()
      modifies this`s, fds, pipes, ptys
      ensures var (s1, ret) := Step(old(s), c, OpOpenFile); r == ret && Became(s1)
    {
      var fd := FindFreeFd(3);
      if fd == fds.Length { return Fail; }
      AttachFd(fd, FileT, false);
      return Code(fd);
    }
  }

  predicate SameStdio(s: State, s0: State) {
    s.stdin == s0.stdin && s.stdout == s0.stdout && s.stderr == s0.stderr
    && |s.fds| == |s0.fds| && |s.pipes| == |s0.pipes| && |s.ptys| == |s0.ptys|
  }

  lemma ReleaseFrees(s: State, fd: nat)
    requires Sane(s) && fd < |s.fds|
    ensures var s' := Release(s, fd);
      SameStdio(s', s) && s'.fds[fd].Free? && forall k :: 0 <= k < |s.fds| && s.fds[k].Free? ==> s'.fds[k].Free?
  {
  }
}
