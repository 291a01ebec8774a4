/** The packets of both encoders, stated on the units alone: there is one greedy way to cut them, and
    the encoders take it. */
module PackBitsGreedy {
  import opened Bytes
  import opened PackBits
  import opened PackBitsEncoders

  /** `t` equal units stand at `i`. */
  predicate EqualHere(us: seq<Unit>, i: nat, t: nat) {
    i + t <= |us| && forall x :: i <= x < i + t ==> us[x] == us[i]
  }

  /** Units `i` to `j` make one packet of at most 128. Where `t` equal units start it is a run, of
      equal units, and goes on until a different one or the end; elsewhere it is a literal in which no
      `t` equal units start, and goes on until some do or the end. */
  predicate Piece(us: seq<Unit>, t: nat, i: nat, j: nat) {
    && i < j <= |us| && j - i <= 128
    && (EqualHere(us, i, t) ==>
          && (forall x :: i <= x < j ==> us[x] == us[i])
          && (j == |us| || j - i == 128 || us[j] != us[i]))
    && (!EqualHere(us, i, t) ==>
          && (forall x :: i <= x < j ==> !EqualHere(us, x, t))
          && (j == |us| || j - i == 128 || EqualHere(us, j, t)))
  }

  /** The borders of the packets from number `k` on. */
  predicate GreedyFrom(us: seq<Unit>, t: nat, bs: seq<nat>, k: nat) {
    k < |bs| && bs[|bs| - 1] == |us| && forall x :: k <= x < |bs| - 1 ==> Piece(us, t, bs[x], bs[x + 1])
  }

  predicate Greedy(us: seq<Unit>, t: nat, bs: seq<nat>) {
    GreedyFrom(us, t, bs, 0) && bs[0] == 0
  }

  /** The bytes of a packet: 257 - n and the unit for a run of n, n - 1 and the units for a literal. */
  function PieceBytes(us: seq<Unit>, t: nat, i: nat, j: nat): seq<byte>
    requires 2 <= t && Piece(us, t, i, j)
  {
    if EqualHere(us, i, t) then (LongEnough(us, t, i, j); [257 - (j - i)] + us[i])
    else [j - i - 1] + FlatAt(us, i, j - i)
  }

  lemma LongEnough(us: seq<Unit>, t: nat, i: nat, j: nat)
    requires 2 <= t && Piece(us, t, i, j) && EqualHere(us, i, t)
    ensures j - i >= 2
  {
  }

  function Wire(us: seq<Unit>, t: nat, bs: seq<nat>, k: nat): seq<byte>
    requires 2 <= t && GreedyFrom(us, t, bs, k)
    decreases |bs| - k
  {
    if k == |bs| - 1 then [] else PieceBytes(us, t, bs[k], bs[k + 1]) + Wire(us, t, bs, k + 1)
  }

  // ----- one way to cut -----

  lemma {:induction false} PieceUnique(us: seq<Unit>, t: nat, i: nat, j: nat, j': nat)
    requires Piece(us, t, i, j) && Piece(us, t, i, j')
    ensures j == j'
  {
  }

  lemma {:induction false} BordersBelow(us: seq<Unit>, t: nat, bs: seq<nat>)
    requires Greedy(us, t, bs)
    ensures forall n :: 0 <= n < |bs| - 1 ==> bs[n] < |us|
  {
    forall n | 0 <= n < |bs| - 1 ensures bs[n] < |us| { assert Piece(us, t, bs[n], bs[n + 1]); }
  }

  /** Two greedy cuts of the same units are the same. */
  lemma {:induction false} GreedyUnique(us: seq<Unit>, t: nat, bs: seq<nat>, bs': seq<nat>)
    requires Greedy(us, t, bs) && Greedy(us, t, bs')
    ensures bs == bs'
  {
    SameBorders(us, t, bs, bs', Min(|bs|, |bs'|) - 1);
    SameBorders(us, t, bs', bs, Min(|bs|, |bs'|) - 1);
    BordersBelow(us, t, bs);
    BordersBelow(us, t, bs');
  }

  lemma {:induction false} SameBorders(us: seq<Unit>, t: nat, bs: seq<nat>, bs': seq<nat>, n: int)
    requires Greedy(us, t, bs) && Greedy(us, t, bs') && 0 <= n < |bs| && n < |bs'|
    ensures bs[n] == bs'[n] && forall x :: 0 <= x <= n ==> bs[x] == bs'[x]
    decreases n
  {
    if n > 0 {
      SameBorders(us, t, bs, bs', n - 1);
      assert Piece(us, t, bs[n - 1], bs[n - 1 + 1]) && Piece(us, t, bs'[n - 1], bs'[n - 1 + 1]);
      PieceUnique(us, t, bs[n - 1], bs[n], bs'[n]);
    }
  }

  // ----- the encoders cut that way -----

  lemma {:induction false} StartsIs(us: seq<Unit>, i: nat, t: nat)
    requires 2 <= t <= 3
    ensures RunStarts(us, i, t) <==> EqualHere(us, i, t)
  {
    if EqualHere(us, i, t) {
      assert us[i + 1] == us[i];
      if t == 3 { assert us[i + 2] == us[i]; }
    }
  }

  /** A stretch of equal units that stops early stops at a different one. */
  lemma {:induction false} SameStops(us: seq<Unit>, i: nat, u: Unit, cap: nat)
    requires i <= |us|
    ensures var n := SameAt(us, i, u, cap); n < cap && i + n < |us| ==> us[i + n] != u
    decreases |us| - i
  {
    if !(i == |us| || cap == 0 || us[i] != u) { SameStops(us, i + 1, u, cap - 1); }
  }

  lemma {:induction false} LitHolds(us: seq<Unit>, i: nat, t: nat, cap: nat)
    requires i <= |us|
    ensures forall x :: i <= x < i + LitAt(us, i, t, cap) ==> !RunStarts(us, x, t)
    decreases |us| - i
  {
    if !(i == |us| || cap == 0 || RunStarts(us, i, t)) { LitHolds(us, i + 1, t, cap - 1); }
  }

  /** The packet the encoders cut at `i` is the greedy one. */
  lemma {:induction false} ExtentIsPiece(us: seq<Unit>, i: nat, t: nat)
    requires i < |us| && 2 <= t <= 3
    ensures Piece(us, t, i, i + Extent(us, i, t))
  {
    StartsIs(us, i, t);
    var j := i + Extent(us, i, t);
    if RunStarts(us, i, t) {
      SameMeans(us, i, us[i], 128);
      SameStops(us, i, us[i], 128);
    } else {
      LitHolds(us, i, t, 128);
      LitEnds(us, i, t, 128);
      forall x | i <= x < j ensures !EqualHere(us, x, t) { StartsIs(us, x, t); }
      StartsIs(us, j, t);
    }
  }

  /** Its bytes are the packet's. */
  lemma {:induction false} FirstIsPiece(us: seq<Unit>, i: nat, t: nat, j: nat)
    requires i < |us| && 2 <= t <= 3 && Piece(us, t, i, j)
    ensures j == i + Extent(us, i, t)
    ensures PieceBytes(us, t, i, j) == [Control(First(us, i, t))] + Payload(First(us, i, t))
  {
    ExtentIsPiece(us, i, t);
    PieceUnique(us, t, i, j, i + Extent(us, i, t));
    StartsIs(us, i, t);
    if EqualHere(us, i, t) { RunIsPiece(us, i, t, j); } else { LiteralIsPiece(us, i, t, j); }
  }

  lemma {:induction false} RunIsPiece(us: seq<Unit>, i: nat, t: nat, j: nat)
    requires i < |us| && 2 <= t <= 3 && Piece(us, t, i, j) && j == i + Extent(us, i, t)
    requires EqualHere(us, i, t) && RunStarts(us, i, t)
    ensures PieceBytes(us, t, i, j) == [Control(First(us, i, t))] + Payload(First(us, i, t))
  {
    var k := First(us, i, t);
    ControlOf(us, i, t, j);
    assert Payload(k) == us[i];
  }

  lemma {:induction false} LiteralIsPiece(us: seq<Unit>, i: nat, t: nat, j: nat)
    requires i < |us| && 2 <= t <= 3 && Piece(us, t, i, j) && j == i + Extent(us, i, t)
    requires !EqualHere(us, i, t) && !RunStarts(us, i, t)
    ensures PieceBytes(us, t, i, j) == [Control(First(us, i, t))] + Payload(First(us, i, t))
  {
    var k := First(us, i, t);
    ControlOf(us, i, t, j);
    assert Payload(k) == FlatAt(us, i, j - i);
  }

  lemma {:induction false} ControlOf(us: seq<Unit>, i: nat, t: nat, j: nat)
    requires i < |us| && 2 <= t <= 3 && Piece(us, t, i, j) && j == i + Extent(us, i, t)
    ensures Control(First(us, i, t)) == if RunStarts(us, i, t) then 257 - (j - i) else j - i - 1
  {
    StartsIs(us, i, t);
    if EqualHere(us, i, t) { LongEnough(us, t, i, j); }
  }

  lemma {:induction false} EncodedIsWire(us: seq<Unit>, t: nat, bs: seq<nat>, k: nat)
    requires 2 <= t <= 3 && GreedyFrom(us, t, bs, k) && bs[k] <= |us|
    ensures Encoded(us, bs[k], t) == Wire(us, t, bs, k)
    decreases |bs| - k
  {
    if k < |bs| - 1 {
      var i, j := bs[k], bs[k + 1];
      assert Piece(us, t, i, j);
      EncodedIsWire(us, t, bs, k + 1);
      EncodedOne(us, i, t, j);
    }
  }

  lemma {:induction false} EncodedOne(us: seq<Unit>, i: nat, t: nat, j: nat)
    requires i < |us| && 2 <= t <= 3 && Piece(us, t, i, j)
    ensures Encoded(us, i, t) == PieceBytes(us, t, i, j) + Encoded(us, j, t)
  {
    FirstIsPiece(us, i, t, j);
    EncodedStep(us, i, t);
  }

  lemma {:induction false} EncodedStep(us: seq<Unit>, i: nat, t: nat)
    requires i < |us|
    ensures var k := First(us, i, t);
      Encoded(us, i, t) == ([Control(k)] + Payload(k)) + Encoded(us, i + Extent(us, i, t), t)
  {
  }

  /** Both encoders, on any data, emit the packets of the greedy cut, with runs from three units on
      for audio and from two for images. */
  lemma {:induction false} EncodesGreedily(data: seq<byte>, p: nat, t: nat, bs: seq<nat>)
    requires p > 0 && 2 <= t <= 3 && Greedy(Cut(data, p), t, bs)
    ensures EncodedAs(data, p, t) == Wire(Cut(data, p), t, bs, 0)
  {
    EncodedIsWire(Cut(data, p), t, bs, 0);
  }

  /** There is a greedy cut of all units. */
  lemma {:induction false} GreedyExists(us: seq<Unit>, t: nat, i: nat) returns (bs: seq<nat>)
    requires 2 <= t <= 3 && i <= |us|
    ensures GreedyFrom(us, t, bs, 0) && bs[0] == i
    decreases |us| - i
  {
    if i == |us| {
      bs := [i];
    } else {
      ExtentIsPiece(us, i, t);
      var j := i + Extent(us, i, t);
      var rest := GreedyExists(us, t, j);
      bs := [i] + rest;
      forall x | 0 <= x < |bs| - 1 ensures Piece(us, t, bs[x], bs[x + 1]) {
        if x > 0 { assert Piece(us, t, rest[x - 1], rest[x - 1 + 1]); }
      }
    }
  }

  // ----- packets as slices of the data -----

  /** Unit `k` of the data is its `p` bytes from `k * p` on, fewer at the end. */
  lemma {:induction false} UnitBytes(data: seq<byte>, p: nat, k: nat)
    requires p > 0 && k < |Cut(data, p)|
    ensures k * p < |data|
    ensures Cut(data, p)[k] == data[k * p..if (k + 1) * p < |data| then (k + 1) * p else |data|]
  {
    UnitStarts(|data|, p, k);
    TimesIsProduct(k, p);
    TimesIsProduct(k + 1, p);
  }

  /** What stands behind the control byte: the run's unit, or the literal's units, as in the data. */
  lemma {:induction false} PieceOnData(data: seq<byte>, p: nat, t: nat, i: nat, j: nat)
    requires p > 0 && 2 <= t <= 3 && Piece(Cut(data, p), t, i, j)
    ensures i * p < |data|
    ensures var us, end := Cut(data, p), if EqualHere(Cut(data, p), i, t) then (i + 1) * p else j * p;
      var last := if end < |data| then end else |data|;
      && i * p <= last
      && PieceBytes(us, t, i, j) ==
           [if EqualHere(us, i, t) then 257 - (j - i) else j - i - 1] + data[i * p..last]
  {
    UnitBytes(data, p, i);
    BordersGrow(i, i + 1, p);
    BordersGrow(i, j, p);
    if EqualHere(Cut(data, p), i, t) {
      LongEnough(Cut(data, p), t, i, j);
    } else {
      LiteralOnData(data, p, t, i, j, if j * p < |data| then j * p else |data|);
    }
  }

  lemma {:induction false} LiteralOnData(data: seq<byte>, p: nat, t: nat, i: nat, j: nat, last: nat)
    requires p > 0 && 2 <= t <= 3 && Piece(Cut(data, p), t, i, j) && !EqualHere(Cut(data, p), i, t)
    requires last == if j * p < |data| then j * p else |data|
    ensures i * p <= last && PieceBytes(Cut(data, p), t, i, j) == [j - i - 1] + data[i * p..last]
  {
    JoinedBytes(data, p, i, j, i * p, last);
  }

  lemma {:induction false} JoinedBytes(data: seq<byte>, p: nat, i: nat, j: nat, lo: nat, hi: nat)
    requires p > 0 && i < j <= |Cut(data, p)|
    requires lo == i * p && hi == if j * p < |data| then j * p else |data|
    ensures lo <= hi <= |data| && FlatAt(Cut(data, p), i, j - i) == data[lo..hi]
  {
    var us := Cut(data, p);
    UnitBytes(data, p, i);
    BordersGrow(i, j, p);
    HeadBytes(data, p, i, lo);
    HeadBytes(data, p, j, hi);
    JoinedParts(us, i, j);
    TailOf(data, lo, hi, FlatAt(us, 0, i), FlatAt(us, i, j - i), FlatAt(us, 0, j));
  }

  lemma {:induction false} JoinedParts(us: seq<Unit>, i: nat, j: nat)
    requires i <= j <= |us|
    ensures FlatAt(us, 0, j) == FlatAt(us, 0, i) + FlatAt(us, i, j - i)
  {
    FlatSplit(us, 0, i, j - i);
  }

  lemma {:induction false} BordersGrow(i: nat, j: nat, p: nat)
    requires i < j
    ensures i * p <= j * p
  {
    TimesIsProduct(i, p);
    TimesIsProduct(j, p);
    TimesLe(i, j, p);
  }

  lemma {:induction false} HeadBytes(data: seq<byte>, p: nat, n: nat, hi: nat)
    requires p > 0 && n <= |Cut(data, p)| && hi == if n * p < |data| then n * p else |data|
    ensures FlatAt(Cut(data, p), 0, n) == data[..hi]
  {
    TimesIsProduct(n, p);
    CutFlatTo(data, p, n);
  }

  lemma TailOf(data: seq<byte>, lo: nat, hi: nat, head: seq<byte>, tail: seq<byte>, all: seq<byte>)
    requires lo <= hi <= |data| && head == data[..lo] && all == data[..hi] && all == head + tail
    ensures tail == data[lo..hi]
  {
  }
}
