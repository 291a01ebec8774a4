/** What the line clipper leaves out: only lines that stay within two pixels of the rectangle's edge,
    or outside. Diagonals are exact. */
module ClipReject {
  import opened Bytes
  import opened ClipLine

  /** The point (x / k, y / k) of the plane. */
  datatype Spot = Spot(x: int, y: int, k: nat)

  /** The spot lies on the line through the segment. */
  predicate OnLine(p: Spot, s: Segment) {
    p.k > 0 && (p.x - p.k * s.a.x) * (s.b.y - s.a.y) == (p.y - p.k * s.a.y) * (s.b.x - s.a.x)
  }

  /** The spot lies in the segment's box. */
  predicate SpotInBox(p: Spot, a: Pt, b: Pt) {
    && (p.k * a.x <= p.x <= p.k * b.x || p.k * b.x <= p.x <= p.k * a.x)
    && (p.k * a.y <= p.y <= p.k * b.y || p.k * b.y <= p.y <= p.k * a.y)
  }

  /** The spot lies in the rectangle, two pixels or more from each of its edges. */
  predicate Inner(p: Spot, c: Rect) {
    && p.k * (c.l + 2) <= p.x <= p.k * (c.r - 3)
    && p.k * (c.t + 2) <= p.y <= p.k * (c.b - 3)
  }

  function Least(m: int, n: int): int {
    if m < n then m else n
  }

  function Most(m: int, n: int): int {
    if m < n then n else m
  }

  /** The spot lies within two pixels of the box of the two ends. */
  predicate Near(p: Spot, a: Pt, b: Pt) {
    && p.k * (Least(a.x, b.x) - 2) <= p.x <= p.k * (Most(a.x, b.x) + 2)
    && p.k * (Least(a.y, b.y) - 2) <= p.y <= p.k * (Most(a.y, b.y) + 2)
  }

  /** What is left of the segment runs as the segment does. */
  predicate Runs(a: Pt, b: Pt, s: Segment) {
    && (s.a.x <= a.x <= b.x <= s.b.x || s.a.x >= a.x >= b.x >= s.b.x)
    && (s.a.y <= a.y <= b.y <= s.b.y || s.a.y >= a.y >= b.y >= s.b.y)
  }

  /** Twice the sides of the segment's box: the most an end is off the line, in area. */
  function Slack(s: Segment): nat {
    2 * (Abs(s.b.x - s.a.x) + Abs(s.b.y - s.a.y))
  }

  // ----- one clip keeps the spot near -----

  /** Two pixels inward make up for what the clipped end is off the line. */
  lemma {:induction false} Inward(a: int, e: int, u: int, w: int, k: nat, dev: int)
    requires a > 0 && e >= 0 && k > 0 && u >= 2 * k
    requires a * w == e * u + k * dev && Abs(dev) <= 2 * (e + a)
    ensures w >= -2 * k
  {
    MulMono(2 * k, u, e);
    var d := 2 * (e + a) + dev;
    MulPos(k, d);
    assert k * d == 2 * (k * e) + 2 * (k * a) + k * dev;
    assert a * (w + 2 * k) == a * w + 2 * (k * a);
    if w + 2 * k < 0 { MulMono(1, -(w + 2 * k), a); NegProduct(a, w + 2 * k); }
  }

  lemma NegProduct(a: int, b: int)
    ensures a * -b == -(a * b) && -a * b == -(a * b) && -a * -b == a * b
  {
  }

  lemma Assoc(a: int, b: int, f: int)
    ensures (a * b) * f == a * (b * f)
  {
  }

  lemma Expand(m: int, n: int, f: int)
    ensures (m + n) * f == m * f + n * f && f * (m + n) == f * m + f * n
  {
  }

  /** Distance in columns and rows from `q` to a spot on the line. */
  lemma {:induction false} OffLine(z: Spot, q: Pt, s: Segment)
    requires OnLine(z, s)
    ensures (s.b.y - s.a.y) * (z.x - z.k * q.x) == (s.b.x - s.a.x) * (z.y - z.k * q.y) - z.k * Dev(q, s)
  {
    var k, x, y := z.k, q.x - s.a.x, q.y - s.a.y;
    Expand(q.x, -s.a.x, k);
    Expand(q.y, -s.a.y, k);
    NegProduct(k, s.a.x);
    NegProduct(k, s.a.y);
    Offsets(k, x, y, z.x - k * q.x, z.y - k * q.y, s.b.x - s.a.x, s.b.y - s.a.y, z.x - k * s.a.x, z.y - k * s.a.y);
  }

  lemma {:induction false} Offsets(k: int, x: int, y: int, w: int, u: int, dx: int, dy: int, m: int, n: int)
    requires m == w + k * x && n == u + k * y && m * dy == n * dx
    ensures dy * w == dx * u - k * (x * dy - y * dx)
  {
    Expand(w, k * x, dy);
    Expand(u, k * y, dx);
    Assoc(k, x, dy);
    Assoc(k, y, dx);
    Expand(x * dy, -(y * dx), k);
    NegProduct(k, y * dx);
  }

  /** Where a row clip at `q` leaves the spot: `ex` and `ey` lead from the clipped end to the other. */
  lemma {:induction false} ColumnStays(
    px: int, ox: int, qx: int, ex: int, ey: int, dv: int, up: bool, u: int, w: int, k: nat)
    requires k > 0 && Between(qx, px, ox) && ey * w == ex * u - k * dv && Abs(dv) <= 2 * (Abs(ex) + Abs(ey))
    requires if up then ey > 0 && u >= 2 * k else ey < 0 && u <= -2 * k
    requires (px < ox ==> ex > 0) && (px > ox ==> ex < 0)
    ensures (px < ox ==> w >= -2 * k) && (px > ox ==> w <= 2 * k)
  {
    NegProduct(ey, w);
    NegProduct(ex, u);
    NegProduct(k, dv);
    if px < ox {
      if up { Inward(ey, ex, u, w, k, -dv); } else { Inward(-ey, ex, -u, w, k, dv); }
    } else if px > ox {
      if up { Inward(ey, -ex, u, -w, k, dv); } else { Inward(-ey, -ex, -u, -w, k, -dv); }
    }
  }

  lemma {:induction false} RowKept(p: Pt, o: Pt, q: Pt, ex: int, ey: int, dv: int, up: bool, z: Spot)
    requires z.k > 0 && Near(z, p, o) && Between(q.x, p.x, o.x)
    requires ey * (z.x - z.k * q.x) == ex * (z.y - z.k * q.y) - z.k * dv && Abs(dv) <= 2 * (Abs(ex) + Abs(ey))
    requires if up then p.y < q.y <= o.y && ey > 0 && z.y - z.k * q.y >= 2 * z.k
             else p.y > q.y >= o.y && ey < 0 && z.y - z.k * q.y <= -2 * z.k
    requires (p.x < o.x ==> ex > 0) && (p.x > o.x ==> ex < 0)
    ensures Near(z, q, o)
  {
    ColumnStays(p.x, o.x, q.x, ex, ey, dv, up, z.y - z.k * q.y, z.x - z.k * q.x, z.k);
    TwoOff(z.k, q.x);
    TwoOff(z.k, q.y);
  }

  lemma TwoOff(k: int, n: int)
    ensures k * (n - 2) == k * n - 2 * k && k * (n + 2) == k * n + 2 * k
  {
  }

  /** The same for a column clip, by exchanging the axes. */
  lemma {:induction false} ColumnKept(p: Pt, o: Pt, q: Pt, ex: int, ey: int, dv: int, up: bool, z: Spot)
    requires z.k > 0 && Near(z, p, o) && Between(q.y, p.y, o.y)
    requires ey * (z.x - z.k * q.x) == ex * (z.y - z.k * q.y) - z.k * dv && Abs(dv) <= 2 * (Abs(ex) + Abs(ey))
    requires if up then p.x < q.x <= o.x && ex > 0 && z.x - z.k * q.x >= 2 * z.k
             else p.x > q.x >= o.x && ex < 0 && z.x - z.k * q.x <= -2 * z.k
    requires (p.y < o.y ==> ey > 0) && (p.y > o.y ==> ey < 0)
    ensures Near(z, q, o)
  {
    NegProduct(z.k, dv);
    RowKept(Swap(p), Swap(o), Swap(q), ey, ex, -dv, up, Spot(z.y, z.x, z.k));
  }

  lemma {:induction false} MeetDev(a: Pt, b: Pt, p: Pt, o: Pt, c: Rect, s: Segment, m: nat)
    requires c.l < c.r && c.t < c.b && !SameSide(a, b, c) && !Inside(p, c)
    requires (p == a && o == b) || (p == b && o == a)
    requires Abs(Dev(a, s)) <= m && Abs(Dev(b, s)) <= m
    ensures Meet(a, b, p, c).Some? && Abs(Dev(Meet(a, b, p, c).value, s)) <= m + Budget(p, c, s)
  {
    if Top(p, c) {
      AtYDev(a, b, c.t, s, m);
    } else if Bottom(p, c) {
      AtYDev(a, b, c.b - 1, s, m);
    } else if Right(p, c) {
      AtXDev(a, b, c.r - 1, s, m);
    } else {
      AtXDev(a, b, c.l, s, m);
    }
  }

  /** A clip of the end `p` leaves a spot well inside near what is left. */
  lemma {:induction false} ClipKeepsNear(a: Pt, b: Pt, p: Pt, o: Pt, c: Rect, s: Segment, z: Spot)
    requires c.l < c.r && c.t < c.b && !SameSide(a, b, c) && !Inside(p, c)
    requires (p == a && o == b) || (p == b && o == a)
    requires Runs(a, b, s) && OnLine(z, s) && Near(z, a, b) && Inner(z, c)
    requires Meet(a, b, p, c).Some? && Abs(Dev(Meet(a, b, p, c).value, s)) <= Slack(s)
    ensures Near(z, Meet(a, b, p, c).value, o)
  {
    var q := Meet(a, b, p, c).value;
    var dx, dy, dev := s.b.x - s.a.x, s.b.y - s.a.y, Dev(q, s);
    ClipEnd(a, b, p, o, c);
    OffLine(z, q, s);
    if p == a {
      Heading(a, b, p, o, 1, s);
      EndKept(a, b, p, o, q, c, dx, dy, dev, z);
    } else {
      Heading(a, b, p, o, -1, s);
      NegProduct(dy, z.x - z.k * q.x);
      NegProduct(dx, z.y - z.k * q.y);
      NegProduct(z.k, dev);
      EndKept(a, b, p, o, q, c, -dx, -dy, -dev, z);
    }
  }

  lemma {:induction false} EndKept(
    a: Pt, b: Pt, p: Pt, o: Pt, q: Pt, c: Rect, ex: int, ey: int, dv: int, z: Spot)
    requires c.l < c.r && c.t < c.b && !SameSide(a, b, c) && !Inside(p, c)
    requires ((p == a && o == b) || (p == b && o == a)) && Meet(a, b, p, c) == Some(q) && InBox(q, a, b)
    requires z.k > 0 && Near(z, a, b) && Inner(z, c)
    requires ey * (z.x - z.k * q.x) == ex * (z.y - z.k * q.y) - z.k * dv && Abs(dv) <= 2 * (Abs(ex) + Abs(ey))
    requires (p.x < o.x ==> ex > 0) && (p.x > o.x ==> ex < 0) && (p.y < o.y ==> ey > 0) && (p.y > o.y ==> ey < 0)
    ensures Near(z, q, o)
  {
    Margins(z, c);
    if Top(p, c) {
      RowKept(p, o, q, ex, ey, dv, true, z);
    } else if Bottom(p, c) {
      RowKept(p, o, q, ex, ey, dv, false, z);
    } else if Right(p, c) {
      ColumnKept(p, o, q, ex, ey, dv, false, z);
    } else {
      ColumnKept(p, o, q, ex, ey, dv, true, z);
    }
  }

  lemma {:induction false} Margins(z: Spot, c: Rect)
    requires Inner(z, c)
    ensures z.x - z.k * c.l >= 2 * z.k && z.y - z.k * c.t >= 2 * z.k
    ensures z.k * (c.r - 1) - z.x >= 2 * z.k && z.k * (c.b - 1) - z.y >= 2 * z.k
  {
    assert z.k * (c.l + 2) == z.k * c.l + 2 * z.k && z.k * (c.t + 2) == z.k * c.t + 2 * z.k;
    assert z.k * (c.r - 1) == z.k * (c.r - 3) + 2 * z.k && z.k * (c.b - 1) == z.k * (c.b - 3) + 2 * z.k;
  }

  /** Where the ends differ the segment runs the same way. */
  lemma {:induction false} Heading(a: Pt, b: Pt, p: Pt, o: Pt, g: int, s: Segment)
    requires Runs(a, b, s) && ((p == a && o == b && g == 1) || (p == b && o == a && g == -1))
    ensures (p.x < o.x ==> g * (s.b.x - s.a.x) > 0) && (p.x > o.x ==> g * (s.b.x - s.a.x) < 0)
    ensures (p.y < o.y ==> g * (s.b.y - s.a.y) > 0) && (p.y > o.y ==> g * (s.b.y - s.a.y) < 0)
  {
  }

  // ----- what is rejected -----

  /** Both ends beyond one edge: nothing near their box is well inside. */
  lemma {:induction false} FarSide(a: Pt, b: Pt, c: Rect, z: Spot)
    requires SameSide(a, b, c) && Near(z, a, b) && z.k > 0
    ensures !Inner(z, c)
  {
    var hx, lx, hy, ly := Most(a.x, b.x) + 2, Least(a.x, b.x) - 2, Most(a.y, b.y) + 2, Least(a.y, b.y) - 2;
    ScaleLess(hx, c.l + 2, z.k);
    ScaleLess(hy, c.t + 2, z.k);
    ScaleLess(c.r - 3, lx, z.k);
    ScaleLess(c.b - 3, ly, z.k);
  }

  lemma ScaleLess(m: int, n: int, k: nat)
    requires k > 0
    ensures m < n ==> k * m < k * n
  {
    if m < n {
      assert k * n - k * m == k * (n - m);
      MulMono(1, n - m, k);
    }
  }

  /** A spot well inside is not lost: something is drawn, and the spot is near it. */
  predicate Shown(z: Spot, a: Pt, b: Pt, c: Rect)
    requires c.l < c.r && c.t < c.b
  {
    Inner(z, c) ==> Clip(a, b, c).Some? && Near(z, Clip(a, b, c).value.a, Clip(a, b, c).value.b)
  }

  lemma {:induction false} ShownFrom(a: Pt, b: Pt, c: Rect, s: Segment, m: nat, z: Spot)
    requires c.l < c.r && c.t < c.b
    requires Abs(Dev(a, s)) <= m && Abs(Dev(b, s)) <= m && m + Budget(a, c, s) + Budget(b, c, s) <= Slack(s)
    requires Runs(a, b, s) && OnLine(z, s) && Near(z, a, b)
    ensures Shown(z, a, b, c)
    decreases Rank(a, b, c)
  {
    if SameSide(a, b, c) {
      FarSide(a, b, c, z);
    } else if !Inside(a, c) {
      ClipEnd(a, b, a, b, c);
      ShownAfter(a, b, a, b, c, s, m, z);
    } else if !Inside(b, c) {
      ClipEnd(a, b, b, a, c);
      ShownAfter(a, b, b, a, c, s, m, z);
    }
  }

  lemma {:induction false} ShownAfter(a: Pt, b: Pt, p: Pt, o: Pt, c: Rect, s: Segment, m: nat, z: Spot)
    requires c.l < c.r && c.t < c.b && !SameSide(a, b, c) && !Inside(p, c)
    requires (p == a && o == b) || (p == b && o == a && Inside(a, c))
    requires Abs(Dev(a, s)) <= m && Abs(Dev(b, s)) <= m && m + Budget(a, c, s) + Budget(b, c, s) <= Slack(s)
    requires Runs(a, b, s) && OnLine(z, s) && Near(z, a, b)
    requires Meet(a, b, p, c).Some?
    ensures var q := Meet(a, b, p, c).value;
      Shown(z, if p == a then q else a, if p == a then b else q, c)
    decreases Rank(a, b, c), 0
  {
    if Inner(z, c) {
      var q := Meet(a, b, p, c).value;
      ClipEnd(a, b, p, o, c);
      MeetDev(a, b, p, o, c, s, m);
      ClipEndDev(a, b, p, o, c, s, m);
      ClipKeepsNear(a, b, p, o, c, s, z);
      if SameSide(q, o, c) {
        FarSide(q, o, c, z);
      } else {
        var m' := m + Budget(p, c, s) - Budget(q, c, s);
        if p == a { ShownFrom(q, b, c, s, m', z); } else { ShownFrom(a, q, c, s, m', z); }
      }
    }
  }

  /** If the clipper draws nothing, no point of the segment, however fine the grid, lies two pixels or
      more inside the rectangle. */
  lemma {:induction false} RejectedMisses(a: Pt, b: Pt, c: Rect, z: Spot)
    requires c.l < c.r && c.t < c.b && Clip(a, b, c) == None
    requires OnLine(z, Segment(a, b)) && SpotInBox(z, a, b)
    ensures !Inner(z, c)
  {
    DrawnCovers(a, b, c, z);
  }

  /** What is drawn reaches, within two pixels, every point of the segment that lies two pixels or more
      inside the rectangle. */
  lemma {:induction false} DrawnCovers(a: Pt, b: Pt, c: Rect, z: Spot)
    requires c.l < c.r && c.t < c.b
    requires OnLine(z, Segment(a, b)) && SpotInBox(z, a, b)
    ensures Inner(z, c) ==> Clip(a, b, c).Some? && Near(z, Clip(a, b, c).value.a, Clip(a, b, c).value.b)
  {
    OwnEnds(a, b);
    BoxIsNear(z, a, b);
    ShownFrom(a, b, c, Segment(a, b), 0, z);
  }

  lemma {:induction false} BoxIsNear(z: Spot, a: Pt, b: Pt)
    requires SpotInBox(z, a, b)
    ensures Near(z, a, b)
  {
    AxisNear(z.k, z.x, a.x, b.x);
    AxisNear(z.k, z.y, a.y, b.y);
  }

  lemma {:induction false} AxisNear(k: nat, x: int, m: int, n: int)
    requires k * m <= x <= k * n || k * n <= x <= k * m
    ensures k * (Least(m, n) - 2) <= x <= k * (Most(m, n) + 2)
  {
    TwoOff(k, m);
    TwoOff(k, n);
    if k > 0 {
      ScaleLess(m, n, k);
      ScaleLess(n, m, k);
    }
  }

  // ----- diagonals -----

  /** As many columns as rows. */
  predicate Diagonal(a: Pt, b: Pt) {
    Abs(b.x - a.x) == Abs(b.y - a.y)
  }

  /** A pixel of the segment: in its box and on its line. */
  predicate Pixel(p: Pt, a: Pt, b: Pt) {
    InBox(p, a, b) && Dev(p, Segment(a, b)) == 0
  }

  lemma {:induction false} WholeDiv(n: int, d: int)
    requires d != 0
    ensures TruncDiv(d * n, d) == n && TruncDiv(-d * n, d) == -n
  {
    AbsProduct(d, n);
    AbsProduct(-d, n);
    DivCancels(Abs(d), Abs(n));
    SignProduct(n, d);
    SignProduct(n, -d);
    assert n * d == d * n && n * -d == -d * n;
  }

  lemma {:induction false} DivCancels(d: nat, n: nat)
    requires d > 0
    ensures d * n / d == n
  {
    var q := d * n / d;
    assert d * q <= d * n < d * q + d;
    assert d * (q + 1) == d * q + d && d * (n + 1) == d * n + d;
    if q < n { MulMono(q + 1, n, d); }
    if n < q { MulMono(n + 1, q, d); }
  }

  /** On a diagonal a clip rounds nothing away. */
  lemma {:induction false} DiagonalMeet(a: Pt, b: Pt, v: int)
    requires Diagonal(a, b) && a != b
    ensures AtY(a, b, v) == Some(Pt(if b.x - a.x == b.y - a.y then a.x + (v - a.y) else a.x - (v - a.y), v))
    ensures AtX(a, b, v) == Some(Pt(v, if b.x - a.x == b.y - a.y then a.y + (v - a.x) else a.y - (v - a.x)))
  {
    WholeDiv(v - a.y, b.y - a.y);
    WholeDiv(v - a.x, b.x - a.x);
  }

  /** The pixels of a diagonal, without products. */
  predicate Step(p: Pt, a: Pt, b: Pt) {
    && InBox(p, a, b)
    && if b.x - a.x == b.y - a.y then p.x - a.x == p.y - a.y else p.x - a.x == -(p.y - a.y)
  }

  lemma {:induction false} StepIsPixel(p: Pt, a: Pt, b: Pt)
    requires Diagonal(a, b)
    ensures Step(p, a, b) <==> Pixel(p, a, b)
  {
    var n, x, y := b.x - a.x, p.x - a.x, p.y - a.y;
    if n == b.y - a.y {
      assert Dev(p, Segment(a, b)) == x * n - y * n == (x - y) * n;
      if x != y && n != 0 { NotZero(x - y, n); }
    } else {
      assert Dev(p, Segment(a, b)) == x * -n - y * n == -((x + y) * n);
      if x != -y { NotZero(x + y, n); }
    }
  }

  lemma NotZero(m: int, n: int)
    requires m != 0 && n != 0
    ensures m * n != 0
  {
  }

  /** A diagonal is drawn exactly if one of its pixels is in the rectangle, and then exactly from its
      first to its last pixel there. */
  lemma {:induction false} DiagonalExact(a: Pt, b: Pt, c: Rect, p: Pt)
    requires c.l < c.r && c.t < c.b && Diagonal(a, b)
    ensures Clip(a, b, c).Some? ==> var z := Clip(a, b, c).value;
      Pixel(z.a, a, b) && Pixel(z.b, a, b) && Inside(z.a, c) && Inside(z.b, c)
    ensures Pixel(p, a, b) && Inside(p, c) ==>
      Clip(a, b, c).Some? && InBox(p, Clip(a, b, c).value.a, Clip(a, b, c).value.b)
  {
    StepsExact(a, b, c, p);
    StepIsPixel(p, a, b);
    if Clip(a, b, c).Some? {
      StepIsPixel(Clip(a, b, c).value.a, a, b);
      StepIsPixel(Clip(a, b, c).value.b, a, b);
    }
  }

  /** Both ends of what is drawn are steps of the diagonal in the rectangle, and `p` is between them if
      it is one. */
  predicate Draws(z: Option<Segment>, a: Pt, b: Pt, c: Rect, p: Pt) {
    && (z.Some? ==>
          Step(z.value.a, a, b) && Step(z.value.b, a, b) && Inside(z.value.a, c) && Inside(z.value.b, c))
    && (Step(p, a, b) && Inside(p, c) ==> z.Some? && InBox(p, z.value.a, z.value.b))
  }

  lemma {:induction false} StepsExact(a: Pt, b: Pt, c: Rect, p: Pt)
    requires c.l < c.r && c.t < c.b && Diagonal(a, b)
    ensures Draws(Clip(a, b, c), a, b, c, p)
    decreases Rank(a, b, c)
  {
    if !(Inside(a, c) && Inside(b, c)) && !SameSide(a, b, c) {
      if !Inside(a, c) {
        ClipEnd(a, b, a, b, c);
        var q := Meet(a, b, a, c).value;
        StepCut(a, b, a, b, c, q);
        if !SameSide(q, b, c) { StepsExact(q, b, c, p); }
        DrawsMore(a, b, q, b, c, p, Clip(q, b, c));
      } else {
        ClipEnd(a, b, b, a, c);
        var q := Meet(a, b, b, c).value;
        StepCut(a, b, b, a, c, q);
        if !SameSide(a, q, c) { StepsExact(a, q, c, p); }
        DrawsMore(a, b, a, q, c, p, Clip(a, q, c));
      }
    }
  }

  /** The clipped end is a step of the diagonal, and none of the steps cut off is in the rectangle. */
  ghost predicate CutTo(a: Pt, b: Pt, o: Pt, q: Pt, c: Rect) {
    Step(q, a, b) && forall x: Pt :: Step(x, a, b) && Inside(x, c) ==> InBox(x, q, o)
  }

  lemma {:induction false} StepCut(a: Pt, b: Pt, e: Pt, o: Pt, c: Rect, q: Pt)
    requires c.l < c.r && c.t < c.b && Diagonal(a, b) && !SameSide(a, b, c) && !Inside(e, c)
    requires (e == a && o == b) || (e == b && o == a)
    requires Meet(a, b, e, c) == Some(q)
    ensures CutTo(a, b, o, q, c)
  {
    MeetIsStep(a, b, e, o, c, q);
    forall x: Pt | Step(x, a, b) && Inside(x, c) ensures InBox(x, q, o) {
      StepBeyond(a, b, e, o, c, q, x);
    }
  }

  lemma {:induction false} MeetIsStep(a: Pt, b: Pt, e: Pt, o: Pt, c: Rect, q: Pt)
    requires c.l < c.r && c.t < c.b && Diagonal(a, b) && !SameSide(a, b, c) && !Inside(e, c)
    requires (e == a && o == b) || (e == b && o == a)
    requires Meet(a, b, e, c) == Some(q)
    ensures Step(q, a, b)
    ensures q == if Top(e, c) then Pt(q.x, c.t) else if Bottom(e, c) then Pt(q.x, c.b - 1)
                 else if Right(e, c) then Pt(c.r - 1, q.y) else Pt(c.l, q.y)
  {
    ClipEnd(a, b, e, o, c);
    if Top(e, c) {
      DiagonalMeet(a, b, c.t);
    } else if Bottom(e, c) {
      DiagonalMeet(a, b, c.b - 1);
    } else if Right(e, c) {
      DiagonalMeet(a, b, c.r - 1);
    } else {
      DiagonalMeet(a, b, c.l);
    }
  }

  lemma {:induction false} StepBeyond(a: Pt, b: Pt, e: Pt, o: Pt, c: Rect, q: Pt, x: Pt)
    requires c.l < c.r && c.t < c.b && Diagonal(a, b) && !Inside(e, c)
    requires (e == a && o == b) || (e == b && o == a)
    requires Step(q, a, b) && Step(x, a, b) && Inside(x, c)
    requires q == if Top(e, c) then Pt(q.x, c.t) else if Bottom(e, c) then Pt(q.x, c.b - 1)
                  else if Right(e, c) then Pt(c.r - 1, q.y) else Pt(c.l, q.y)
    ensures InBox(x, q, o)
  {
    if Top(e, c) || Bottom(e, c) { BeyondRow(a, b, e, o, q, x); } else { BeyondColumn(a, b, e, o, q, x); }
  }

  /** Of two steps of a diagonal, the one in a row nearer the end `o` is nearer in columns too. */
  lemma {:induction false} BeyondRow(a: Pt, b: Pt, e: Pt, o: Pt, q: Pt, x: Pt)
    requires Diagonal(a, b) && ((e == a && o == b) || (e == b && o == a))
    requires Step(q, a, b) && Step(x, a, b) && Between(x.y, q.y, o.y)
    ensures InBox(x, q, o)
  {
  }

  lemma {:induction false} BeyondColumn(a: Pt, b: Pt, e: Pt, o: Pt, q: Pt, x: Pt)
    requires Diagonal(a, b) && ((e == a && o == b) || (e == b && o == a))
    requires Step(q, a, b) && Step(x, a, b) && Between(x.x, q.x, o.x)
    ensures InBox(x, q, o)
  {
  }

  lemma {:induction false} DrawsMore(a: Pt, b: Pt, a': Pt, b': Pt, c: Rect, p: Pt, z: Option<Segment>)
    requires Diagonal(a, b)
    requires (CutTo(a, b, b, a', c) && b' == b) || (CutTo(a, b, a, b', c) && a' == a)
    requires Draws(z, a', b', c, p) || (z == None && SameSide(a', b', c))
    ensures Draws(z, a, b, c, p)
  {
    PartSteps(a, b, a', b', p);
    if z.Some? {
      PartSteps(a, b, a', b', z.value.a);
      PartSteps(a, b, a', b', z.value.b);
    }
  }

  /** The steps of a part of a diagonal are the diagonal's steps in the part's box. */
  lemma {:induction false} PartSteps(a: Pt, b: Pt, a': Pt, b': Pt, x: Pt)
    requires Diagonal(a, b) && Step(a', a, b) && Step(b', a, b) && (a' == a || b' == b)
    ensures Step(x, a', b') <==> Step(x, a, b) && InBox(x, a', b')
  {
  }

  // ----- each clip, exactly -----

  /** C's quotient, by its remainder: smaller than the divisor, and on the dividend's side of zero. */
  predicate Quotient(n: int, d: int, q: int) {
    var r := n - q * d;
    d != 0 && Abs(r) < Abs(d) && (n >= 0 ==> r >= 0) && (n <= 0 ==> r <= 0)
  }

  lemma {:induction false} TruncIsQuotient(n: int, d: int)
    requires d != 0
    ensures Quotient(n, d, TruncDiv(n, d))
  {
    var k, ke, rest := Parts(Abs(n), Abs(d));
    FromParts(n, d, k, ke, rest, TruncDiv(n, d));
  }

  lemma Parts(m: nat, e: nat) returns (k: nat, ke: nat, rest: nat)
    requires e > 0
    ensures k == m / e && ke == k * e && m == ke + rest && rest < e
  {
    k, rest := m / e, m % e;
    ke := m - rest;
  }

  lemma {:induction false} FromParts(n: int, d: int, k: int, ke: int, rest: int, q: int)
    requires Abs(n) == ke + rest && 0 <= rest < Abs(d) && ke == k * Abs(d) && ke >= 0
    requires q == if (n >= 0) == (d > 0) then k else -k
    ensures Quotient(n, d, q)
  {
    Signs(k, Abs(d), ke);
    var qd := q * d;
    assert qd == if n >= 0 then ke else -ke;
  }

  lemma Signs(k: int, e: int, ke: int)
    requires ke == k * e
    ensures (-k) * e == -ke && k * (-e) == -ke && (-k) * (-e) == ke
  {
  }

  lemma {:induction false} OneQuotient(n: int, d: int, q: int, q': int)
    requires Quotient(n, d, q) && Quotient(n, d, q')
    ensures q == q'
  {
    var a, b := q * d, q' * d;
    Apart(q, q', d, a, b);
    assert Abs(n - a) < Abs(d) && Abs(n - b) < Abs(d);
  }

  /** Different multiples of a number are at least that number apart. */
  lemma {:induction false} Apart(q: int, q': int, d: int, a: int, b: int)
    requires a == q * d && b == q' * d
    ensures q == q' || Abs(a - b) >= Abs(d)
  {
    if q != q' {
      var k := q - q';
      assert k * d == a - b;
      AbsProduct(k, d);
      MulMono(1, Abs(k), Abs(d));
    }
  }

  /** The new end for the end `p` of the segment from `a` to `b`: on the top or bottom row if `p` is above
      or below, else on the last or first column, and as far along the other way as C divides. */
  predicate Cuts(a: Pt, b: Pt, p: Pt, c: Rect, m: Pt) {
    if p.y < c.t then m.y == c.t && Quotient((b.x - a.x) * (c.t - a.y), b.y - a.y, m.x - a.x)
    else if p.y >= c.b then m.y == c.b - 1 && Quotient((b.x - a.x) * (c.b - 1 - a.y), b.y - a.y, m.x - a.x)
    else if p.x >= c.r then m.x == c.r - 1 && Quotient((b.y - a.y) * (c.r - 1 - a.x), b.x - a.x, m.y - a.y)
    else m.x == c.l && Quotient((b.y - a.y) * (c.l - a.x), b.x - a.x, m.y - a.y)
  }

  lemma {:induction false} CutsRow(a: Pt, b: Pt, y: int, m: Pt)
    requires a.y != b.y && m.y == y && Quotient((b.x - a.x) * (y - a.y), b.y - a.y, m.x - a.x)
    ensures AtY(a, b, y) == Some(m)
  {
    var n, d := (b.x - a.x) * (y - a.y), b.y - a.y;
    TruncIsQuotient(n, d);
    OneQuotient(n, d, TruncDiv(n, d), m.x - a.x);
  }

  lemma {:induction false} CutsColumn(a: Pt, b: Pt, x: int, m: Pt)
    requires a.x != b.x && m.x == x && Quotient((b.y - a.y) * (x - a.x), b.x - a.x, m.y - a.y)
    ensures AtX(a, b, x) == Some(m)
  {
    var n, d := (b.y - a.y) * (x - a.x), b.x - a.x;
    TruncIsQuotient(n, d);
    OneQuotient(n, d, TruncDiv(n, d), m.y - a.y);
  }

  lemma {:induction false} CutsMeet(a: Pt, b: Pt, p: Pt, c: Rect, m: Pt)
    requires c.l < c.r && c.t < c.b && !Inside(p, c) && Cuts(a, b, p, c, m)
    ensures Meet(a, b, p, c) == Some(m)
  {
    if p.y < c.t { CutsRow(a, b, c.t, m); }
    else if p.y >= c.b { CutsRow(a, b, c.b - 1, m); }
    else if p.x >= c.r { CutsColumn(a, b, c.r - 1, m); }
    else { CutsColumn(a, b, c.l, m); }
  }

  /** The whole of the clipper: both ends inside, and the segment stays; both beyond one edge, and it
      goes; otherwise the first end that is outside is cut, and the rest clipped the same way. */
  lemma {:induction false} ClipEquations(a: Pt, b: Pt, c: Rect, m: Pt)
    requires c.l < c.r && c.t < c.b
    ensures var inA, inB := c.l <= a.x < c.r && c.t <= a.y < c.b, c.l <= b.x < c.r && c.t <= b.y < c.b;
      var out := Most(a.x, b.x) < c.l || Least(a.x, b.x) >= c.r || Most(a.y, b.y) < c.t || Least(a.y, b.y) >= c.b;
      && (inA && inB ==> Clip(a, b, c) == Some(Segment(a, b)))
      && (out ==> Clip(a, b, c) == None)
      && (!inA && !out && Cuts(a, b, a, c, m) ==> Clip(a, b, c) == Clip(m, b, c))
      && (inA && !inB && Cuts(a, b, b, c, m) ==> Clip(a, b, c) == Clip(a, m, c))
  {
    if !Inside(a, c) && Cuts(a, b, a, c, m) { CutsMeet(a, b, a, c, m); }
    if !Inside(b, c) && Cuts(a, b, b, c, m) { CutsMeet(a, b, b, c, m); }
  }
}
