/** Line clipping of src/cpu/isr.c: Cohen-Sutherland on integers, with C's truncating division. */
module ClipLine {
  import opened Bytes

  datatype Pt = Pt(x: int, y: int)
  datatype Rect = Rect(l: int, t: int, r: int, b: int)
  datatype Segment = Segment(a: Pt, b: Pt)

  function Abs(n: int): nat {
    if n < 0 then -n else n
  }

  /** C division: towards zero. */
  function TruncDiv(n: int, d: int): int
    requires d != 0
  {
    if (n >= 0) == (d > 0) then Abs(n) / Abs(d) else -(Abs(n) / Abs(d))
  }

  // ----- outcodes -----

  predicate Left(p: Pt, c: Rect) { p.x < c.l }
  predicate Right(p: Pt, c: Rect) { !(p.x < c.l) && p.x >= c.r }
  predicate Top(p: Pt, c: Rect) { p.y < c.t }
  predicate Bottom(p: Pt, c: Rect) { !(p.y < c.t) && p.y >= c.b }

  predicate Inside(p: Pt, c: Rect) {
    c.l <= p.x < c.r && c.t <= p.y < c.b
  }

  /** Both ends lie beyond the same edge. */
  predicate SameSide(a: Pt, b: Pt, c: Rect) {
    || (Left(a, c) && Left(b, c)) || (Right(a, c) && Right(b, c))
    || (Top(a, c) && Top(b, c)) || (Bottom(a, c) && Bottom(b, c))
  }

  /** Where the segment meets the edge that `p` is beyond; nothing for a zero divisor. */
  function Meet(a: Pt, b: Pt, p: Pt, c: Rect): Option<Pt> {
    if Top(p, c) then AtY(a, b, c.t)
    else if Bottom(p, c) then AtY(a, b, c.b - 1)
    else if Right(p, c) then AtX(a, b, c.r - 1)
    else AtX(a, b, c.l)
  }

  function AtY(a: Pt, b: Pt, y: int): Option<Pt> {
    if a.y == b.y then None else Some(Pt(a.x + TruncDiv((b.x - a.x) * (y - a.y), b.y - a.y), y))
  }

  function AtX(a: Pt, b: Pt, x: int): Option<Pt> {
    if a.x == b.x then None else Some(Pt(x, a.y + TruncDiv((b.y - a.y) * (x - a.x), b.x - a.x)))
  }

  // ----- arithmetic -----

  lemma AbsProduct(a: int, b: int)
    ensures Abs(a * b) == Abs(a) * Abs(b)
  {
    if a < 0 && b < 0 { assert a * b == (-a) * (-b); }
    else if a < 0 { assert a * b == -((-a) * b); MulPos(-a, b); }
    else if b < 0 { assert a * b == -(a * (-b)); MulPos(a, -b); }
    else { MulPos(a, b); }
  }

  lemma MulPos(a: nat, b: nat)
    ensures a * b >= 0
  {
  }

  lemma MulMono(a: nat, b: nat, p: nat)
    requires a <= b
    ensures p * a <= p * b
  {
    assert p * b - p * a == p * (b - a);
  }

  lemma DivBound(p: nat, u: nat, d: nat)
    requires u <= d && d > 0
    ensures 0 <= p * u / d <= p
  {
    MulMono(u, d, p);
    var q := p * u / d;
    assert d * q <= p * u <= p * d;
    if q > p { MulMono(p + 1, q, d); }
  }

  /** A fraction of a displacement stays between nothing and all of it. */
  lemma FractionBetween(d: int, u: int, den: int)
    requires den != 0 && ((0 <= u <= den) || (den <= u <= 0))
    ensures var q := TruncDiv(d * u, den); if d >= 0 then 0 <= q <= d else d <= q <= 0
  {
    AbsProduct(d, u);
    DivBound(Abs(d), Abs(u), Abs(den));
    if u == 0 {
      assert d * u == 0;
    } else {
      SignProduct(d, u);
    }
  }

  lemma SignProduct(d: int, u: int)
    ensures u > 0 ==> (d * u >= 0 <==> d >= 0)
    ensures u < 0 && d != 0 ==> (d * u >= 0 <==> d < 0)
    ensures d == 0 || u == 0 ==> d * u == 0
  {
    if d > 0 && u > 0 { MulPos(d, u); }
    else if d < 0 && u > 0 { assert d * u == -((-d) * u); MulMono(1, u, -d); }
    else if d > 0 && u < 0 { assert d * u == -(d * (-u)); MulMono(1, -u, d); }
    else if d < 0 && u < 0 { assert d * u == (-d) * (-u); MulPos(-d, -u); }
  }

  predicate Between(x: int, p: int, q: int) {
    p <= x <= q || q <= x <= p
  }

  lemma AtYBetween(a: Pt, b: Pt, y: int)
    requires a.y != b.y && Between(y, a.y, b.y)
    ensures AtY(a, b, y).Some? && Between(AtY(a, b, y).value.x, a.x, b.x)
  {
    FractionBetween(b.x - a.x, y - a.y, b.y - a.y);
  }

  lemma AtXBetween(a: Pt, b: Pt, x: int)
    requires a.x != b.x && Between(x, a.x, b.x)
    ensures AtX(a, b, x).Some? && Between(AtX(a, b, x).value.y, a.y, b.y)
  {
    FractionBetween(b.y - a.y, x - a.x, b.x - a.x);
  }

  // ----- one clip -----

  predicate InBox(p: Pt, a: Pt, b: Pt) {
    Between(p.x, a.x, b.x) && Between(p.y, a.y, b.y)
  }

  /** Clips still needed at an end: beyond top or bottom first, then left or right. */
  function Cost(p: Pt, c: Rect): nat {
    if Top(p, c) || Bottom(p, c) then 2 else if Left(p, c) || Right(p, c) then 1 else 0
  }

  /** Clipping an end that is outside never divides by zero and stays in the segment's box; the
      end then costs less, or the segment is seen to lie beyond one edge. */
  lemma ClipEnd(a: Pt, b: Pt, p: Pt, o: Pt, c: Rect)
    requires c.l < c.r && c.t < c.b && !SameSide(a, b, c) && !Inside(p, c)
    requires (p == a && o == b) || (p == b && o == a)
    ensures Meet(a, b, p, c).Some?
    ensures var q := Meet(a, b, p, c).value;
      InBox(q, a, b) && (SameSide(q, o, c) || Cost(q, c) < Cost(p, c))
  {
    if Top(p, c) {
      AtYBetween(a, b, c.t);
    } else if Bottom(p, c) {
      AtYBetween(a, b, c.b - 1);
    } else if Right(p, c) {
      AtXBetween(a, b, c.r - 1);
    } else {
      AtXBetween(a, b, c.l);
    }
  }

  // ----- the loop -----

  function Rank(a: Pt, b: Pt, c: Rect): nat {
    if SameSide(a, b, c) then 0 else 1 + Cost(a, c) + Cost(b, c)
  }

  /** The clipped segment, if any is left. */
  function Clip(a: Pt, b: Pt, c: Rect): Option<Segment>
    requires c.l < c.r && c.t < c.b
    decreases Rank(a, b, c)
  {
    if Inside(a, c) && Inside(b, c) then Some(Segment(a, b))
    else if SameSide(a, b, c) then None
    else if !Inside(a, c) then
      ClipEnd(a, b, a, b, c);
      Clip(Meet(a, b, a, c).value, b, c)
    else
      ClipEnd(a, b, b, a, c);
      Clip(a, Meet(a, b, b, c).value, c)
  }

  /** How often each end is clipped on the way. */
  function Clips(a: Pt, b: Pt, c: Rect): (nat, nat)
    requires c.l < c.r && c.t < c.b
    decreases Rank(a, b, c)
  {
    if (Inside(a, c) && Inside(b, c)) || SameSide(a, b, c) then (0, 0)
    else if !Inside(a, c) then
      ClipEnd(a, b, a, b, c);
      var (m, n) := Clips(Meet(a, b, a, c).value, b, c); (m + 1, n)
    else
      ClipEnd(a, b, b, a, c);
      var (m, n) := Clips(a, Meet(a, b, b, c).value, c); (m, n + 1)
  }

  /** At most two clips for each end. */
  lemma {:induction false} FewClips(a: Pt, b: Pt, c: Rect)
    requires c.l < c.r && c.t < c.b
    ensures Clips(a, b, c).0 <= Cost(a, c) <= 2 && Clips(a, b, c).1 <= Cost(b, c) <= 2
    decreases Rank(a, b, c)
  {
    if !(Inside(a, c) && Inside(b, c)) && !SameSide(a, b, c) {
      if !Inside(a, c) {
        ClipEnd(a, b, a, b, c);
        FewClips(Meet(a, b, a, c).value, b, c);
      } else {
        ClipEnd(a, b, b, a, c);
        FewClips(a, Meet(a, b, b, c).value, c);
      }
    }
  }

  /** `user_gui_clip_line`. */
  method ClipSegment(p: Pt, q: Pt, c: Rect) returns (ok: bool, p': Pt, q': Pt)
    ensures c.l >= c.r || c.t >= c.b ==> !ok
    ensures c.l < c.r && c.t < c.b ==> (if ok then Some(Segment(p', q')) else None) == Clip(p, q, c)
    ensures !ok ==> p' == p && q' == q
  {
    if c.l >= c.r || c.t >= c.b { return false, p, q; }
    var a, b := p, q;
    while true
      invariant Clip(p, q, c) == Clip(a, b, c)
      decreases Rank(a, b, c)
    {
      if Inside(a, c) && Inside(b, c) { return true, a, b; }
      if SameSide(a, b, c) { return false, p, q; }
      if !Inside(a, c) {
        ClipEnd(a, b, a, b, c);
        var m := Meet(a, b, a, c);
        if m.None? { return false, p, q; }
        a := m.value;
      } else {
        ClipEnd(a, b, b, a, c);
        var m := Meet(a, b, b, c);
        if m.None? { return false, p, q; }
        b := m.value;
      }
    }
  }

  // ----- 32-bit arithmetic -----

  predicate Int32(n: int) {
    -0x8000_0000 <= n < 0x8000_0000
  }

  /** Every intermediate of `base + (d * u) / den` is a 32-bit int. */
  predicate Fits(base: int, d: int, u: int, den: int) {
    && Int32(d) && Int32(u) && Int32(den) && Int32(d * u)
    && (den != 0 ==> Int32(TruncDiv(d * u, den)) && Int32(base + TruncDiv(d * u, den)))
  }

  /** The same for the clip of the end `p`. */
  predicate MeetFits(a: Pt, b: Pt, p: Pt, c: Rect) {
    if Top(p, c) then Fits(a.x, b.x - a.x, c.t - a.y, b.y - a.y)
    else if Bottom(p, c) then Fits(a.x, b.x - a.x, c.b - 1 - a.y, b.y - a.y)
    else if Right(p, c) then Fits(a.y, b.y - a.y, c.r - 1 - a.x, b.x - a.x)
    else Fits(a.y, b.y - a.y, c.l - a.x, b.x - a.x)
  }

  /** No step of the loop overflows. */
  predicate AllFit(a: Pt, b: Pt, c: Rect)
    requires c.l < c.r && c.t < c.b
    decreases Rank(a, b, c)
  {
    if (Inside(a, c) && Inside(b, c)) || SameSide(a, b, c) then true
    else if !Inside(a, c) then
      ClipEnd(a, b, a, b, c);
      MeetFits(a, b, a, c) && AllFit(Meet(a, b, a, c).value, b, c)
    else
      ClipEnd(a, b, b, a, c);
      MeetFits(a, b, b, c) && AllFit(a, Meet(a, b, b, c).value, c)
  }

  /** The segment's box has sides and an area that are 32-bit ints. */
  predicate Narrow(a: Pt, b: Pt) {
    Int32(b.x - a.x) && Int32(b.y - a.y) && Int32((b.x - a.x) * (b.y - a.y))
  }

  predicate Coord(p: Pt) {
    Int32(p.x) && Int32(p.y) && Int32(p.x + 1) && Int32(p.y + 1)
  }

  /** Shrinking both factors towards zero shrinks the product towards zero. */
  lemma {:induction false} Shrinks(x: int, y: int, u: int, v: int)
    requires Between(u, 0, x) && Between(v, 0, y)
    ensures Between(u * v, 0, x * y)
  {
    SignedMono(x, v, y);
    SignedMono(v, u, x);
    assert v * u == u * v && v * x == x * v;
  }

  lemma {:induction false} SignedMono(x: int, v: int, y: int)
    requires Between(v, 0, y)
    ensures Between(x * v, 0, x * y)
  {
    if x >= 0 && y >= 0 { MulMono(0, v, x); MulMono(v, y, x); }
    else if x >= 0 { MulMono(0, -v, x); MulMono(-v, -y, x); assert x * -v == -(x * v) && x * -y == -(x * y); }
    else if y >= 0 { MulMono(0, v, -x); MulMono(v, y, -x); assert -x * v == -(x * v) && -x * y == -(x * y); }
    else { MulMono(0, -v, -x); MulMono(-v, -y, -x); assert -x * -v == x * v && -x * -y == x * y; }
  }

  /** Within a narrow box a clip between the ends fits. */
  lemma {:induction false} FitsWithin(base: int, d: int, u: int, den: int)
    requires Int32(base) && Int32(base + d) && Int32(d) && Int32(den) && Int32(d * den)
    requires den != 0 && Between(u, 0, den)
    ensures Fits(base, d, u, den)
  {
    Shrinks(d, den, d, u);
    FractionBetween(d, u, den);
  }

  lemma {:induction false} YWithin(a: Pt, b: Pt, y: int)
    requires Coord(a) && Coord(b) && Narrow(a, b) && a.y != b.y && Between(y, a.y, b.y)
    ensures Fits(a.x, b.x - a.x, y - a.y, b.y - a.y)
  {
    FitsWithin(a.x, b.x - a.x, y - a.y, b.y - a.y);
  }

  lemma {:induction false} XWithin(a: Pt, b: Pt, x: int)
    requires Coord(a) && Coord(b) && Narrow(a, b) && a.x != b.x && Between(x, a.x, b.x)
    ensures Fits(a.y, b.y - a.y, x - a.x, b.x - a.x)
  {
    Commutes(b.x - a.x, b.y - a.y);
    FitsWithin(a.y, b.y - a.y, x - a.x, b.x - a.x);
  }

  lemma Commutes(m: int, n: int)
    ensures m * n == n * m
  {
  }

  lemma {:induction false} MeetWithin(a: Pt, b: Pt, p: Pt, o: Pt, c: Rect)
    requires c.l < c.r && c.t < c.b && !SameSide(a, b, c) && !Inside(p, c)
    requires (p == a && o == b) || (p == b && o == a)
    requires Coord(a) && Coord(b) && Narrow(a, b)
    ensures MeetFits(a, b, p, c)
  {
    if Top(p, c) {
      YWithin(a, b, c.t);
    } else if Bottom(p, c) {
      YWithin(a, b, c.b - 1);
    } else if Right(p, c) {
      XWithin(a, b, c.r - 1);
    } else {
      XWithin(a, b, c.l);
    }
  }

  lemma {:induction false} StaysNarrow(a: Pt, b: Pt, q: Pt)
    requires Coord(a) && Coord(b) && Narrow(a, b) && InBox(q, a, b)
    ensures Coord(q) && Narrow(q, b) && Narrow(a, q)
  {
    Shrinks(b.x - a.x, b.y - a.y, b.x - q.x, b.y - q.y);
    Shrinks(b.x - a.x, b.y - a.y, q.x - a.x, q.y - a.y);
  }

  lemma {:induction false} NarrowFits(a: Pt, b: Pt, c: Rect)
    requires c.l < c.r && c.t < c.b && Coord(a) && Coord(b) && Narrow(a, b)
    ensures AllFit(a, b, c)
    decreases Rank(a, b, c)
  {
    if !(Inside(a, c) && Inside(b, c)) && !SameSide(a, b, c) {
      if !Inside(a, c) {
        ClipEnd(a, b, a, b, c);
        MeetWithin(a, b, a, b, c);
        StaysNarrow(a, b, Meet(a, b, a, c).value);
        NarrowFits(Meet(a, b, a, c).value, b, c);
      } else {
        ClipEnd(a, b, b, a, c);
        MeetWithin(a, b, b, a, c);
        StaysNarrow(a, b, Meet(a, b, b, c).value);
        NarrowFits(a, Meet(a, b, b, c).value, c);
      }
    }
  }

  /** The loop's arithmetic stays in 32 bits for every clip rectangle exactly when the segment's box
      has 32-bit sides and a 32-bit area. */
  lemma {:induction false} NarrowIff(a: Pt, b: Pt)
    requires Coord(a) && Coord(b)
    ensures Narrow(a, b) <==> forall c: Rect | c.l < c.r && c.t < c.b :: AllFit(a, b, c)
  {
    if Narrow(a, b) {
      forall c: Rect | c.l < c.r && c.t < c.b ensures AllFit(a, b, c) { NarrowFits(a, b, c); }
    } else {
      var c := Rect(b.x, b.y, b.x + 1, b.y + 1);
      assert !Inside(a, c) && Inside(b, c) && !MeetFits(a, b, a, c);
      assert !AllFit(a, b, c);
    }
  }

  /** A segment whose first clip at the top edge overflows. */
  lemma {:induction false} OverflowInput(a: Pt, b: Pt, c: Rect)
    requires a == Pt(0, -100000) && b == Pt(100000, 100) && c == Rect(0, 0, 640, 480)
    ensures Coord(a) && Coord(b) && !AllFit(a, b, c)
  {
    assert (b.x - a.x) * (c.t - a.y) == 10_000_000_000;
  }

  // ----- what is left of the segment -----

  lemma BoxTrans(p: Pt, q: Pt, a: Pt, b: Pt, o: Pt)
    requires InBox(q, a, b) && InBox(p, q, o) && (o == a || o == b)
    ensures InBox(p, a, b)
  {
  }

  /** What is drawn lies inside the clip rectangle and inside the original segment's box. */
  lemma {:induction false} ClippedInside(a: Pt, b: Pt, c: Rect)
    requires c.l < c.r && c.t < c.b && Clip(a, b, c).Some?
    ensures var s := Clip(a, b, c).value;
      Inside(s.a, c) && Inside(s.b, c) && InBox(s.a, a, b) && InBox(s.b, a, b)
    decreases Rank(a, b, c)
  {
    if !(Inside(a, c) && Inside(b, c)) {
      var s := Clip(a, b, c).value;
      if !Inside(a, c) {
        ClipEnd(a, b, a, b, c);
        var m := Meet(a, b, a, c).value;
        ClippedInside(m, b, c);
        BoxTrans(s.a, m, a, b, b);
        BoxTrans(s.b, m, a, b, b);
      } else {
        ClipEnd(a, b, b, a, c);
        var m := Meet(a, b, b, c).value;
        ClippedInside(a, m, c);
        BoxTrans(s.a, m, a, b, a);
        BoxTrans(s.b, m, a, b, a);
      }
    }
  }

  predicate OnEdge(p: Pt, c: Rect) {
    p.x == c.l || p.x == c.r - 1 || p.y == c.t || p.y == c.b - 1
  }

  /** An end inside stays put and keeps the segment alive; an end outside moves onto an edge. */
  lemma {:induction false} EndsKept(a: Pt, b: Pt, c: Rect)
    requires c.l < c.r && c.t < c.b
    ensures Inside(a, c) || Inside(b, c) ==> Clip(a, b, c).Some?
    ensures Clip(a, b, c).Some? ==> var s := Clip(a, b, c).value;
      && (if Inside(a, c) then s.a == a else OnEdge(s.a, c))
      && (if Inside(b, c) then s.b == b else OnEdge(s.b, c))
    decreases Rank(a, b, c)
  {
    if !(Inside(a, c) && Inside(b, c)) && !SameSide(a, b, c) {
      if !Inside(a, c) {
        ClipEnd(a, b, a, b, c);
        EndsKept(Meet(a, b, a, c).value, b, c);
      } else {
        ClipEnd(a, b, b, a, c);
        EndsKept(a, Meet(a, b, b, c).value, c);
      }
    }
  }

  // ----- straight segments: exact -----

  function Clamp(x: int, lo: int, hi: int): int {
    if x < lo then lo else if x > hi then hi else x
  }

  /** Some whole number of [p, q], in either order, is in [lo, hi). */
  predicate Meets(p: int, q: int, lo: int, hi: int) {
    !(p < lo && q < lo) && !(p >= hi && q >= hi)
  }

  lemma ZeroDiv(d: int)
    requires d != 0
    ensures TruncDiv(0, d) == 0
  {
  }

  lemma FlatMeet(a: Pt, b: Pt, x: int)
    ensures a.y == b.y && a.x != b.x ==> AtX(a, b, x) == Some(Pt(x, a.y))
    ensures a.x == b.x && a.y != b.y ==> AtY(a, b, x) == Some(Pt(a.x, x))
  {
    if a.y == b.y && a.x != b.x {
      assert (b.y - a.y) * (x - a.x) == 0;
      ZeroDiv(b.x - a.x);
    }
    if a.x == b.x && a.y != b.y {
      assert (b.x - a.x) * (x - a.y) == 0;
      ZeroDiv(b.y - a.y);
    }
  }

  /** Clipping a horizontal segment is interval intersection. */
  lemma {:induction false} HorizontalExact(a: Pt, b: Pt, c: Rect)
    requires c.l < c.r && c.t < c.b && a.y == b.y
    ensures Clip(a, b, c) ==
      if c.t <= a.y < c.b && Meets(a.x, b.x, c.l, c.r)
      then Some(Segment(Pt(Clamp(a.x, c.l, c.r - 1), a.y), Pt(Clamp(b.x, c.l, c.r - 1), a.y)))
      else None
    decreases Rank(a, b, c)
  {
    if !(Inside(a, c) && Inside(b, c)) && !SameSide(a, b, c) {
      FlatMeet(a, b, c.l);
      FlatMeet(a, b, c.r - 1);
      if !Inside(a, c) {
        ClipEnd(a, b, a, b, c);
        HorizontalExact(Meet(a, b, a, c).value, b, c);
      } else {
        ClipEnd(a, b, b, a, c);
        HorizontalExact(a, Meet(a, b, b, c).value, c);
      }
    }
  }

  lemma {:induction false} VerticalExact(a: Pt, b: Pt, c: Rect)
    requires c.l < c.r && c.t < c.b && a.x == b.x
    ensures Clip(a, b, c) ==
      if c.l <= a.x < c.r && Meets(a.y, b.y, c.t, c.b)
      then Some(Segment(Pt(a.x, Clamp(a.y, c.t, c.b - 1)), Pt(a.x, Clamp(b.y, c.t, c.b - 1))))
      else None
    decreases Rank(a, b, c)
  {
    if !(Inside(a, c) && Inside(b, c)) && !SameSide(a, b, c) {
      FlatMeet(a, b, c.t);
      FlatMeet(a, b, c.b - 1);
      if !Inside(a, c) {
        ClipEnd(a, b, a, b, c);
        VerticalExact(Meet(a, b, a, c).value, b, c);
      } else {
        ClipEnd(a, b, b, a, c);
        VerticalExact(a, Meet(a, b, b, c).value, c);
      }
    }
  }

  // ----- how far rounding moves the line -----

  /** Twice the area of the triangle of `p` with the original segment: zero on its line. */
  function Dev(p: Pt, s: Segment): int {
    (p.x - s.a.x) * (s.b.y - s.a.y) - (p.y - s.a.y) * (s.b.x - s.a.x)
  }

  lemma TruncError(n: int, d: int)
    requires d != 0
    ensures Abs(TruncDiv(n, d) * d - n) < Abs(d)
  {
    var q, m := Abs(n) / Abs(d), Abs(n) % Abs(d);
    assert Abs(n) == Abs(d) * q + m;
    if d > 0 {
      assert n >= 0 ==> TruncDiv(n, d) * d == q * d;
      assert n < 0 ==> TruncDiv(n, d) * d == -(q * d);
    } else {
      assert n >= 0 ==> TruncDiv(n, d) * d == (-q) * d == q * (-d);
      assert n < 0 ==> TruncDiv(n, d) * d == q * d == -(q * (-d));
    }
  }

  /** The area of a point between two others, up to the rounding of its x. */
  lemma Blend(x: int, y: int, w: int, d: int, u: int, q: int, dx: int, dy: int)
    ensures d * ((x + q) * dy - (y + u) * dx)
         == (d - u) * (x * dy - y * dx) + u * ((x + w) * dy - (y + d) * dx) + (q * d - w * u) * dy
  {
    assert (d - u) * (x * dy - y * dx) + u * (x * dy - y * dx) == d * (x * dy - y * dx);
    assert u * ((x + w) * dy - (y + d) * dx) == u * (x * dy - y * dx) + u * (w * dy - d * dx);
    assert u * (w * dy - d * dx) == u * (w * dy) - u * (d * dx);
    assert (q * d - w * u) * dy == q * d * dy - w * u * dy;
    assert u * (w * dy) == w * u * dy;
    assert u * (d * dx) == d * (u * dx);
    assert q * d * dy == d * (q * dy);
    assert (x + q) * dy - (y + u) * dx == (x * dy - y * dx) + q * dy - u * dx;
    assert d * ((x * dy - y * dx) + q * dy - u * dx) == d * (x * dy - y * dx) + d * (q * dy) - d * (u * dx);
  }

  lemma BlendBound(d: int, u: int, da: int, db: int, e: int, dy: int, r: int, m: nat)
    requires d != 0 && ((0 <= u <= d) || (d <= u <= 0)) && Abs(e) <= Abs(d)
    requires d * r == (d - u) * da + u * db + e * dy && Abs(da) <= m && Abs(db) <= m
    ensures Abs(r) <= m + Abs(dy)
  {
    AbsProduct(d, r);
    AbsProduct(d - u, da);
    AbsProduct(u, db);
    AbsProduct(e, dy);
    MulMono(Abs(da), m, Abs(d - u));
    MulMono(Abs(db), m, Abs(u));
    MulLess(Abs(e), Abs(d), Abs(dy));
    Share(Abs(d - u), Abs(u), Abs(d), m, Abs(dy));
    Triangle(d * r, (d - u) * da, u * db, e * dy);
    Cancel(Abs(d), Abs(r), m + Abs(dy));
  }

  lemma MulLess(a: nat, b: nat, p: nat)
    requires a <= b
    ensures a * p <= b * p
  {
    MulMono(a, b, p);
  }

  lemma Share(x: nat, y: nat, d: nat, m: nat, k: nat)
    requires x + y == d
    ensures x * m + y * m + d * k == d * (m + k)
  {
    assert x * m + y * m == (x + y) * m;
  }

  lemma Triangle(n: int, x: int, y: int, z: int)
    requires n == x + y + z
    ensures Abs(n) <= Abs(x) + Abs(y) + Abs(z)
  {
  }

  lemma Cancel(d: nat, r: nat, k: nat)
    requires d > 0 && d * r <= d * k
    ensures r <= k
  {
    if r > k { MulMono(k + 1, r, d); }
  }

  lemma AtYDev(a: Pt, b: Pt, y: int, s: Segment, m: nat)
    requires a.y != b.y && Between(y, a.y, b.y) && Abs(Dev(a, s)) <= m && Abs(Dev(b, s)) <= m
    ensures AtY(a, b, y).Some? && Abs(Dev(AtY(a, b, y).value, s)) <= m + Abs(s.b.y - s.a.y)
  {
    var d, u, w := b.y - a.y, y - a.y, b.x - a.x;
    var q := TruncDiv(w * u, d);
    TruncError(w * u, d);
    var dx, dy := s.b.x - s.a.x, s.b.y - s.a.y;
    Blend(a.x - s.a.x, a.y - s.a.y, w, d, u, q, dx, dy);
    BlendBound(d, u, Dev(a, s), Dev(b, s), q * d - w * u, dy, Dev(Pt(a.x + q, y), s), m);
  }

  /** Exchanging the axes. */
  function Swap(p: Pt): Pt {
    Pt(p.y, p.x)
  }

  lemma AtXDev(a: Pt, b: Pt, x: int, s: Segment, m: nat)
    requires a.x != b.x && Between(x, a.x, b.x) && Abs(Dev(a, s)) <= m && Abs(Dev(b, s)) <= m
    ensures AtX(a, b, x).Some? && Abs(Dev(AtX(a, b, x).value, s)) <= m + Abs(s.b.x - s.a.x)
  {
    var s' := Segment(Swap(s.a), Swap(s.b));
    assert Dev(Swap(a), s') == -Dev(a, s) && Dev(Swap(b), s') == -Dev(b, s);
    AtYDev(Swap(a), Swap(b), x, s', m);
    assert AtY(Swap(a), Swap(b), x).value == Swap(AtX(a, b, x).value);
  }

  /** Rounding still to come at an end: a row for a vertical clip, a column for a horizontal one. */
  function Budget(p: Pt, c: Rect, s: Segment): nat {
    (if Top(p, c) || Bottom(p, c) then Abs(s.b.x - s.a.x) + Abs(s.b.y - s.a.y)
     else if Left(p, c) || Right(p, c) then Abs(s.b.x - s.a.x) else 0)
  }

  lemma ClipEndDev(a: Pt, b: Pt, p: Pt, o: Pt, c: Rect, s: Segment, m: nat)
    requires c.l < c.r && c.t < c.b && !SameSide(a, b, c) && !Inside(p, c)
    requires (p == a && o == b) || (p == b && o == a)
    requires Abs(Dev(a, s)) <= m && Abs(Dev(b, s)) <= m
    ensures Meet(a, b, p, c).Some?
    ensures var q := Meet(a, b, p, c).value;
      SameSide(q, o, c) || Abs(Dev(q, s)) + Budget(q, c, s) <= m + Budget(p, c, s)
  {
    ClipEnd(a, b, p, o, c);
    if Top(p, c) {
      AtYDev(a, b, c.t, s, m);
    } else if Bottom(p, c) {
      AtYDev(a, b, c.b - 1, s, m);
    } else if Right(p, c) {
      AtXDev(a, b, c.r - 1, s, m);
    } else {
      AtXDev(a, b, c.l, s, m);
    }
  }

  /** Every clip moves an end off the line by less than a pixel in one direction; the errors add
      up to at most the budgets of the two ends. */
  lemma {:induction false} DevGrows(a: Pt, b: Pt, c: Rect, s: Segment, m: nat)
    requires c.l < c.r && c.t < c.b && Clip(a, b, c).Some? && Abs(Dev(a, s)) <= m && Abs(Dev(b, s)) <= m
    ensures var z, n := Clip(a, b, c).value, m + Budget(a, c, s) + Budget(b, c, s);
      Abs(Dev(z.a, s)) <= n && Abs(Dev(z.b, s)) <= n
    decreases Rank(a, b, c)
  {
    if !(Inside(a, c) && Inside(b, c)) {
      if !Inside(a, c) {
        ClipEnd(a, b, a, b, c);
        ClipEndDev(a, b, a, b, c, s, m);
        var q := Meet(a, b, a, c).value;
        DevGrows(q, b, c, s, m + Budget(a, c, s) - Budget(q, c, s));
      } else {
        ClipEnd(a, b, b, a, c);
        ClipEndDev(a, b, b, a, c, s, m);
        var q := Meet(a, b, b, c).value;
        DevGrows(a, q, c, s, m + Budget(b, c, s) - Budget(q, c, s));
      }
    }
  }

  /** The ends drawn are off the original line by at most 2(|dx| + |dy|) in area. Twice the area of
      a triangle over the segment is its length times the height: the distance from the line is
      at most the square root of 8, less than three pixels, however long the segment. */
  lemma {:induction false} StaysOnLine(a: Pt, b: Pt, c: Rect)
    requires c.l < c.r && c.t < c.b && Clip(a, b, c).Some?
    ensures var z, s, n := Clip(a, b, c).value, Segment(a, b), 2 * (Abs(b.x - a.x) + Abs(b.y - a.y));
      Abs(Dev(z.a, s)) <= n && Abs(Dev(z.b, s)) <= n
    ensures var z, s := Clip(a, b, c).value, Segment(a, b);
      && Square(Dev(z.a, s)) <= 8 * LengthSquared(s)
      && Square(Dev(z.b, s)) <= 8 * LengthSquared(s)
  {
    var z, s := Clip(a, b, c).value, Segment(a, b);
    AreaStays(a, b, c);
    DistanceStays(Dev(z.a, s), s);
    DistanceStays(Dev(z.b, s), s);
  }

  lemma {:induction false} AreaStays(a: Pt, b: Pt, c: Rect)
    requires c.l < c.r && c.t < c.b && Clip(a, b, c).Some?
    ensures var z, s, n := Clip(a, b, c).value, Segment(a, b), 2 * (Abs(b.x - a.x) + Abs(b.y - a.y));
      Abs(Dev(z.a, s)) <= n && Abs(Dev(z.b, s)) <= n
  {
    var s, n := Segment(a, b), Abs(b.x - a.x) + Abs(b.y - a.y);
    OwnEnds(a, b);
    DevGrows(a, b, c, s, 0);
    assert Budget(a, c, s) <= n && Budget(b, c, s) <= n;
  }

  lemma {:induction false} DistanceStays(d: int, s: Segment)
    requires Abs(d) <= 2 * (Abs(s.b.x - s.a.x) + Abs(s.b.y - s.a.y))
    ensures Square(d) <= 8 * LengthSquared(s)
  {
    AreaToDistance(d, s.b.x - s.a.x, s.b.y - s.a.y);
  }

  function Square(n: int): int {
    n * n
  }

  function LengthSquared(s: Segment): int {
    Square(s.b.x - s.a.x) + Square(s.b.y - s.a.y)
  }

  lemma {:induction false} AreaToDistance(d: int, x: int, y: int)
    requires Abs(d) <= 2 * (Abs(x) + Abs(y))
    ensures Square(d) <= 8 * (Square(x) + Square(y))
  {
    var u, v := Abs(x), Abs(y);
    SquareMono(Abs(d), 2 * (u + v));
    assert Square(2 * (u + v)) == 8 * (u * u + v * v) - 4 * Square(u - v);
    NotNegative(u - v);
    assert Square(d) == Square(Abs(d)) && Square(x) == u * u && Square(y) == v * v;
  }

  lemma SquareMono(m: nat, n: nat)
    requires m <= n
    ensures Square(m) <= Square(n)
  {
    MulMono(m, n, m);
    MulMono(m, n, n);
  }

  lemma NotNegative(n: int)
    ensures Square(n) >= 0
  {
  }

  lemma OwnEnds(a: Pt, b: Pt)
    ensures Dev(a, Segment(a, b)) == 0 && Dev(b, Segment(a, b)) == 0
  {
  }
}
