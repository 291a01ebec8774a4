/** The GUI event ring of src/cpu/isr.c: 64 slots in place, refining a queue of the 63 latest events. */
module EventRing {
  import opened Bytes

  const CAP: nat := 64

  // ----- the queue -----

  /** A full queue drops its oldest event for a new one. */
  function Pushed<T>(q: seq<T>, e: T): seq<T> {
    (if |q| == CAP - 1 then q[1..] else q) + [e]
  }

  // ----- the ring -----

  /** Slot `k` places behind `tail`. */
  function Slot(tail: nat, k: nat): (i: nat)
    ensures i < CAP
  {
    (tail + k) % CAP
  }

  function Count(head: nat, tail: nat): (n: nat)
    requires head < CAP && tail < CAP
    ensures n < CAP && Slot(tail, n) == head
  {
    if head >= tail then head - tail else head + CAP - tail
  }

  /** `n` slots from `tail` on. */
  function Waiting<T>(a: seq<T>, tail: nat, n: nat): (q: seq<T>)
    requires |a| == CAP
    ensures |q| == n && forall k :: 0 <= k < n ==> q[k] == a[Slot(tail, k)]
  {
    seq(n, k requires 0 <= k < n => a[Slot(tail, k)])
  }

  /** Slots closer than a full turn are different. */
  lemma SlotApart(tail: nat, j: nat, k: nat)
    requires tail < CAP && j < k < CAP
    ensures Slot(tail, j) != Slot(tail, k)
  {
  }

  lemma SlotNext(tail: nat, k: nat)
    ensures Slot(Slot(tail, 1), k) == Slot(tail, k + 1)
  {
  }

  /** Storing at the head appends; moving the tail first drops the oldest. */
  lemma {:induction false} Stored<T>(a: seq<T>, tail: nat, n: nat, e: T)
    requires |a| == CAP && tail < CAP && n < CAP
    ensures Waiting(a[Slot(tail, n) := e], tail, n + 1) == Waiting(a, tail, n) + [e]
    ensures n > 0 ==> Waiting(a[Slot(tail, n) := e], Slot(tail, 1), n) == Waiting(a, tail, n)[1..] + [e]
  {
    var a' := a[Slot(tail, n) := e];
    forall k | 0 <= k < n ensures a'[Slot(tail, k)] == a[Slot(tail, k)] { SlotApart(tail, k, n); }
    if n > 0 {
      var l, r := Waiting(a', Slot(tail, 1), n), Waiting(a, tail, n)[1..] + [e];
      forall k | 0 <= k < n ensures l[k] == r[k] { SlotNext(tail, k); }
    }
  }

  /** The ring is full when the slot after the head is the tail. */
  lemma {:induction false} FullIff(head: nat, tail: nat)
    requires head < CAP && tail < CAP
    ensures var n, next := Count(head, tail), (head + 1) % CAP;
      if next == tail then n == CAP - 1 && Count(next, (tail + 1) % CAP) == n
      else n < CAP - 1 && Count(next, tail) == n + 1
  {
  }

  lemma {:induction false} StoredIsPushed<T>(a: seq<T>, head: nat, tail: nat, e: T)
    requires |a| == CAP && head < CAP && tail < CAP
    ensures var next := (head + 1) % CAP;
      var tail' := if next == tail then (tail + 1) % CAP else tail;
      Waiting(a[head := e], tail', Count(next, tail')) == Pushed(Waiting(a, tail, Count(head, tail)), e)
  {
    Stored(a, tail, Count(head, tail), e);
    FullIff(head, tail);
  }

  lemma {:induction false} PushedSlots<T>(was: seq<T>, now: seq<T>, h: nat, e: T)
    requires |was| == |now| && h < |was| && now[h] == e && forall i :: 0 <= i < |was| && i != h ==> now[i] == was[i]
    ensures now == was[h := e]
  {
  }

  lemma Masked(n: nat)
    requires n < CAP
    ensures n % CAP == n
  {
  }

  class Ring<T(0)> {
    const ev: array<T>
    var head: nat
    var tail: nat

    ghost predicate Valid()
      reads this
    {
      ev.Length == CAP && head < CAP && tail < CAP
    }

    /** The events waiting, oldest first. */
    ghost function Queue(): (q: seq<T>)
      requires Valid()
      reads this, ev
      ensures |q| < CAP
    {
      Waiting(ev[..], tail, Count(head, tail))
    }

    constructor ()
      ensures Valid() && fresh(ev) && Queue() == []
    {
      ev := new T[CAP];
      head, tail := 0, 0;
    }

    /** `user_gui_push_event`. */
    method Push(e: T)
      requires Valid()
      modifies this, ev
      ensures Valid() && Queue() == Pushed(old(Queue()), e)
    {
      ghost var was, q, head0, tail0 := ev[..], Queue(), head, tail;
      var h, t := head % CAP, tail % CAP;
      Masked(head0);
      Masked(tail0);
      var next := (h + 1) % CAP;
      if next == t {
        t := (t + 1) % CAP;
        tail := t;
      }
      ev[h] := e;
      head := next;
      PushedSlots(was, ev[..], h, e);
      StoredIsPushed(was, head0, tail0, e);
      ghost var now := Waiting(was[h := e], tail, Count(head, tail));
      assert now == Pushed(q, e) && Queue() == now;
    }

    /** `user_gui_pop_event`. */
    method Pop() returns (e: Option<T>)
      requires Valid()
      modifies this
      ensures Valid()
      ensures if old(Queue()) == [] then e == None && Queue() == []
              else e == Some(old(Queue())[0]) && Queue() == old(Queue())[1..]
    {
      ghost var q := Queue();
      var h, t := head % CAP, tail % CAP;
      if t == h { return None; }
      e := Some(ev[t]);
      tail := (t + 1) % CAP;
      ghost var q' := Queue();
      assert |q'| == |q| - 1;
      forall k | 0 <= k < |q'| ensures q'[k] == q[k + 1] { SlotNext(t, k); }
      assert q' == q[1..];
    }

    /** One operation, and the event it yields, if any. */
    method Do(op: Op<T>) returns (got: seq<T>)
      requires Valid()
      modifies this, ev
      ensures Valid() && Queue() == Step(old(Queue()), op)
      ensures got == if op.Pop? && old(Queue()) != [] then [old(Queue())[0]] else []
    {
      got := [];
      match op
      case Push(e) => Push(e);
      case Pop =>
        var e := Pop();
        if e.Some? { got := [e.value]; }
    }

    /** Any interleaving of pushes and pops: the ring ends where the run of the queue ends, and what
        was popped is what the run pops. */
    method Serve(ops: seq<Op<T>>) returns (out: seq<T>)
      requires Valid()
      modifies this, ev
      ensures Valid() && Queue() == Run(old(Queue()), ops) && out == Pops(old(Queue()), ops)
    {
      out := [];
      ghost var start := Queue();
      for i := 0 to |ops|
        invariant Valid()
        invariant Run(Queue(), ops[i..]) == Run(start, ops)
        invariant out + Pops(Queue(), ops[i..]) == Pops(start, ops)
      {
        OpFirst(ops, i);
        ghost var q := Queue();
        ghost var popped := if ops[i].Pop? && q != [] then [q[0]] else [];
        PopsOne(q, ops[i..], ops[i + 1..], out, popped);
        var got := Do(ops[i]);
        assert got == popped;
        out := out + got;
      }
      assert out + [] == out;
    }
  }

  lemma {:induction false} OpFirst<T>(ops: seq<Op<T>>, i: nat)
    requires i < |ops|
    ensures ops[i..][0] == ops[i] && ops[i..][1..] == ops[i + 1..]
  {
  }

  /** What the first operation adds to the output, and what is left to do. */
  lemma {:induction false} PopsOne<T>(q: seq<T>, ops: seq<Op<T>>, rest: seq<Op<T>>, out: seq<T>, popped: seq<T>)
    requires ops != [] && rest == ops[1..]
    requires popped == if ops[0].Pop? && q != [] then [q[0]] else []
    ensures out + Pops(q, ops) == (out + popped) + Pops(Step(q, ops[0]), rest)
    ensures Run(q, ops) == Run(Step(q, ops[0]), rest)
  {
    Regroup(out, popped, Pops(Step(q, ops[0]), rest));
  }

  lemma Regroup<T>(a: seq<T>, b: seq<T>, c: seq<T>)
    ensures a + (b + c) == (a + b) + c
  {
  }

  /** The ring holds 63 events; one more and the oldest goes. */
  lemma PushedAtEnd<T>(q: seq<T>, e: T)
    requires |q| <= 63
    ensures Pushed(q, e) == if |q| < 63 then q + [e] else q[1..] + [e]
  {
  }

  // ----- whole runs -----

  datatype Op<T> = Push(e: T) | Pop

  function Step<T>(q: seq<T>, op: Op<T>): seq<T> {
    match op
    case Push(e) => Pushed(q, e)
    case Pop => if q == [] then q else q[1..]
  }

  function Run<T>(q: seq<T>, ops: seq<Op<T>>): seq<T>
    decreases |ops|
  {
    if ops == [] then q else Run(Step(q, ops[0]), ops[1..])
  }

  /** The events pushed, and the events popped, in order. */
  function Pushes<T>(ops: seq<Op<T>>): seq<T> {
    if ops == [] then []
    else (if ops[0].Push? then [ops[0].e] else []) + Pushes(ops[1..])
  }

  function Pops<T>(q: seq<T>, ops: seq<Op<T>>): seq<T>
    decreases |ops|
  {
    if ops == [] then []
    else (if ops[0].Pop? && q != [] then [q[0]] else []) + Pops(Step(q, ops[0]), ops[1..])
  }

  /** Pushes that found the ring full. */
  function Drops<T>(q: seq<T>, ops: seq<Op<T>>): nat
    decreases |ops|
  {
    if ops == [] then 0
    else (if ops[0].Push? && |q| == CAP - 1 then 1 else 0) + Drops(Step(q, ops[0]), ops[1..])
  }

  /** `a` is what is left of `b` when some events are struck out. */
  predicate Within<T(==)>(a: seq<T>, b: seq<T>)
    decreases |b|
  {
    if a == [] then true
    else if b == [] then false
    else if a[0] == b[0] then Within(a[1..], b[1..])
    else Within(a, b[1..])
  }

  /** What is waiting is the latest part of what came in. */
  lemma {:induction false} KeepsLatest<T>(q: seq<T>, ops: seq<Op<T>>)
    requires |q| < CAP
    ensures var all, r := q + Pushes(ops), Run(q, ops);
      |r| < CAP && |r| <= |all| && r == all[|all| - |r|..]
    decreases |ops|
  {
    if ops != [] {
      KeepsLatest(Step(q, ops[0]), ops[1..]);
      LatestStep(q, ops[0], Pushes(ops[1..]), Run(q, ops));
    } else {
      assert q + [] == q;
    }
  }

  /** `r` is the end of `all`. */
  predicate Tail<T(==)>(r: seq<T>, all: seq<T>) {
    |r| <= |all| && r == all[|all| - |r|..]
  }

  lemma {:induction false} LatestStep<T>(q: seq<T>, op: Op<T>, more: seq<T>, r: seq<T>)
    requires |q| < CAP && Tail(r, Step(q, op) + more)
    ensures Tail(r, q + ((if op.Push? then [op.e] else []) + more))
  {
    if op.Push? { LatestPush(q, op.e, more, r); } else { LatestPop(q, op, more, r); }
  }

  lemma {:induction false} LatestPop<T>(q: seq<T>, op: Op<T>, more: seq<T>, r: seq<T>)
    requires |q| < CAP && op.Pop? && Tail(r, Step(q, op) + more)
    ensures Tail(r, q + ([] + more))
  {
    assert [] + more == more;
    if q != [] {
      assert q + more == [q[0]] + (q[1..] + more);
      OneBefore(q[0], q[1..] + more, r);
    }
  }

  lemma {:induction false} LatestPush<T>(q: seq<T>, e: T, more: seq<T>, r: seq<T>)
    requires |q| < CAP && Tail(r, Step(q, Push(e)) + more)
    ensures Tail(r, q + ([e] + more))
  {
    assert q + ([e] + more) == (q + [e]) + more;
    if |q| == CAP - 1 {
      assert (q + [e]) + more == [q[0]] + (Step(q, Push(e)) + more);
      OneBefore(q[0], Step(q, Push(e)) + more, r);
    }
  }

  lemma {:induction false} OneBefore<T>(x: T, all: seq<T>, r: seq<T>)
    requires Tail(r, all)
    ensures Tail(r, [x] + all)
  {
  }

  /** Popped, waiting and dropped events account for all that came in. */
  lemma {:induction false} Accounting<T>(q: seq<T>, ops: seq<Op<T>>)
    ensures |Pops(q, ops)| + |Run(q, ops)| + Drops(q, ops) == |q| + |Pushes(ops)|
    decreases |ops|
  {
    if ops != [] { Accounting(Step(q, ops[0]), ops[1..]); }
  }

  /** Without a drop the ring is a plain queue. */
  lemma {:induction false} NoDropNoLoss<T>(q: seq<T>, ops: seq<Op<T>>)
    requires Drops(q, ops) == 0
    ensures Pops(q, ops) + Run(q, ops) == q + Pushes(ops)
    decreases |ops|
  {
    if ops != [] {
      var q1 := Step(q, ops[0]);
      NoDropNoLoss(q1, ops[1..]);
      NoDropStep(q, ops[0], Pops(q1, ops[1..]), Run(q1, ops[1..]), Pushes(ops[1..]));
    }
  }

  lemma {:induction false} NoDropStep<T>(q: seq<T>, op: Op<T>, out: seq<T>, rest: seq<T>, more: seq<T>)
    requires out + rest == Step(q, op) + more && (op.Push? ==> |q| != CAP - 1)
    ensures (if op.Pop? && q != [] then [q[0]] else []) + out + rest == q + ((if op.Push? then [op.e] else []) + more)
  {
    if op.Push? {
      assert [] + out == out && q + ([op.e] + more) == (q + [op.e]) + more;
    } else if q != [] {
      assert ([q[0]] + out) + rest == [q[0]] + (out + rest);
      assert q + ([] + more) == [q[0]] + (q[1..] + more);
    } else {
      assert [] + out == out && [] + more == more;
    }
  }

  /** Drops or not, events come out in the order they came in. */
  lemma {:induction false} InOrder<T>(q: seq<T>, ops: seq<Op<T>>)
    ensures Within(Pops(q, ops) + Run(q, ops), q + Pushes(ops))
    decreases |ops|
  {
    if ops == [] {
      assert [] + q == q && q + [] == q;
      WithinSelf(q);
    } else {
      InOrder(Step(q, ops[0]), ops[1..]);
      InOrderStep(q, ops[0], Pops(Step(q, ops[0]), ops[1..]), Run(Step(q, ops[0]), ops[1..]), Pushes(ops[1..]));
    }
  }

  lemma {:induction false} InOrderStep<T>(q: seq<T>, op: Op<T>, out: seq<T>, rest: seq<T>, more: seq<T>)
    requires Within(out + rest, Step(q, op) + more)
    ensures Within(
      (if op.Pop? && q != [] then [q[0]] else []) + out + rest,
      q + ((if op.Push? then [op.e] else []) + more))
  {
    var kept, q1 := out + rest, Step(q, op);
    if op.Push? {
      assert [] + out == out && q + ([op.e] + more) == (q + [op.e]) + more;
      if |q| == CAP - 1 {
        assert (q + [op.e]) + more == [q[0]] + (q1 + more);
        WithinMore(kept, q[0], q1 + more);
      }
    } else if q != [] {
      var l, r := [q[0]] + kept, [q[0]] + (q1 + more);
      assert ([q[0]] + out) + rest == l && q + ([] + more) == r;
      assert l[1..] == kept && r[1..] == q1 + more;
    } else {
      assert [] + out == out && [] + more == more;
    }
  }

  lemma {:induction false} WithinSelf<T>(a: seq<T>)
    ensures Within(a, a)
  {
    if a != [] { WithinSelf(a[1..]); }
  }

  /** One more event in front may be struck out. */
  lemma {:induction false} WithinMore<T>(a: seq<T>, x: T, b: seq<T>)
    requires Within(a, b)
    ensures Within(a, [x] + b)
    decreases |b|, 1
  {
    assert ([x] + b)[1..] == b;
    if a != [] && a[0] == x {
      WithinTail(a, b);
    }
  }

  lemma {:induction false} WithinTail<T>(a: seq<T>, b: seq<T>)
    requires a != [] && Within(a, b)
    ensures Within(a[1..], b)
    decreases |b|, 0
  {
    if b != [] {
      if a[0] == b[0] {
        WithinMore(a[1..], b[0], b[1..]);
        assert [b[0]] + b[1..] == b;
      } else {
        WithinTail(a, b[1..]);
        WithinMore(a[1..], b[0], b[1..]);
        assert [b[0]] + b[1..] == b;
      }
    }
  }
}
