/** The line drawing of sim/sw/common/ssd1306.h: the error term walks exactly the points nearest
    to the ideal line, in all octants, and the framebuffer changes at those points only. */
module Line {

  import opened PowersOfTwo

  const WIDTH := 128
  const HEIGHT := 64

  function Abs(x: int): nat { if x < 0 then -x else x }

  function Max(a: nat, b: nat): nat { if a < b then b else a }

  predicate FitsInt32(x: int) { -0x8000_0000 <= x < 0x8000_0000 }

  // ------------------------------------------------------------ the ideal line

  /** The whole number nearest to k * d / m; a tie goes down. */
  function Nearest(k: nat, d: nat, m: nat): nat {
    if m == 0 then 0 else (2 * k * d + m - 1) / (2 * m)
  }

  predicate Near(k: nat, d: nat, m: nat, r: nat) {
    2 * (k * d - r * m) <= m && 2 * (r * m - k * d) < m
  }

  lemma NearestIsNear(k: nat, d: nat, m: nat)
    requires m > 0
    ensures Near(k, d, m, Nearest(k, d, m))
  {
    var n := 2 * k * d + m - 1;
    assert n == 2 * m * (n / (2 * m)) + n % (2 * m);
    assert 2 * m * (n / (2 * m)) == 2 * ((n / (2 * m)) * m);
    assert 2 * k * d == 2 * (k * d);
  }

  lemma NearIsNearest(k: nat, d: nat, m: nat, r: nat)
    requires Near(k, d, m, r)
    ensures r == Nearest(k, d, m)
  {
    assert 2 * k * d == 2 * (k * d);
    assert r * (2 * m) == 2 * (r * m);
    DivModUnique(2 * k * d + m - 1, 2 * m, r, 2 * (k * d - r * m) + m - 1);
  }

  datatype Segment = Segment(x0: int, y0: int, x1: int, y1: int)
  {
    function Dx(): nat { Abs(x1 - x0) }
    function Dy(): nat { Abs(y1 - y0) }
    function Sx(): int { if x0 < x1 then 1 else -1 }
    function Sy(): int { if y0 < y1 then 1 else -1 }
    /** The number of steps along the longer axis. */
    function Steps(): nat { Max(Dx(), Dy()) }

    function XAt(k: nat): int { x0 + Sx() * Nearest(k, Dx(), Steps()) }
    function YAt(k: nat): int { y0 + Sy() * Nearest(k, Dy(), Steps()) }
    function Back(): Segment { Segment(x1, y1, x0, y0) }
  }

  /** (x, y) is one of the first `count` points of the ideal line. */
  ghost predicate Among(s: Segment, count: nat, x: int, y: int) {
    exists k: nat :: k < count && s.XAt(k) == x && s.YAt(k) == y
  }

  lemma StartAndEnd(s: Segment)
    ensures s.XAt(0) == s.x0 && s.YAt(0) == s.y0
    ensures s.XAt(s.Steps()) == s.x1 && s.YAt(s.Steps()) == s.y1
  {
    var m := s.Steps();
    if m > 0 {
      NearIsNearest(0, s.Dx(), m, 0);
      NearIsNearest(0, s.Dy(), m, 0);
      assert m * s.Dx() - s.Dx() * m == 0 && m * s.Dy() - s.Dy() * m == 0;
      NearIsNearest(m, s.Dx(), m, s.Dx());
      NearIsNearest(m, s.Dy(), m, s.Dy());
    }
  }

  /** The longer axis moves at every step. */
  lemma MajorAxis(k: nat, m: nat)
    requires m > 0
    ensures Nearest(k, m, m) == k
  {
    NearIsNearest(k, m, m, k);
  }

  /** Each point lies within half a pixel of the ideal line. */
  lemma WithinHalfAPixel(s: Segment, k: nat)
    requires k <= s.Steps()
    ensures 2 * Abs(Abs(s.XAt(k) - s.x0) * s.Dy() - Abs(s.YAt(k) - s.y0) * s.Dx()) <= s.Steps()
  {
    var m := s.Steps();
    if m > 0 {
      NearestIsNear(k, s.Dx(), m);
      NearestIsNear(k, s.Dy(), m);
      MajorAxis(k, m);
      assert Abs(s.XAt(k) - s.x0) == Nearest(k, s.Dx(), m);
      assert Abs(s.YAt(k) - s.y0) == Nearest(k, s.Dy(), m);
    }
  }

  /** Half way between two pixels, the shorter axis stays with the one nearer the start. */
  lemma TieGoesDown(s: Segment, k: nat)
    requires k <= s.Steps()
    ensures var i, j := Abs(s.XAt(k) - s.x0), Abs(s.YAt(k) - s.y0);
      var dx: int := s.Dx();
      var dy: int := s.Dy();
      && (dx >= dy && dx > 0 ==> i == k && -dx < 2 * (i * dy - j * dx) <= dx)
      && (dy > dx ==> j == k && -dy < 2 * (j * dx - i * dy) <= dy)
  {
    var m := s.Steps();
    if m > 0 {
      NearestIsNear(k, s.Dx(), m);
      NearestIsNear(k, s.Dy(), m);
      MajorAxis(k, m);
      assert Abs(s.XAt(k) - s.x0) == Nearest(k, s.Dx(), m);
      assert Abs(s.YAt(k) - s.y0) == Nearest(k, s.Dy(), m);
    }
  }

  /** Neither coordinate ever leaves the box between the two endpoints. */
  lemma InsideTheBox(s: Segment, k: nat)
    requires k <= s.Steps()
    ensures s.x0 <= s.XAt(k) <= s.x1 || s.x1 <= s.XAt(k) <= s.x0
    ensures s.y0 <= s.YAt(k) <= s.y1 || s.y1 <= s.YAt(k) <= s.y0
  {
    NearestAtMost(k, s.Dx(), s.Steps());
    NearestAtMost(k, s.Dy(), s.Steps());
  }

  lemma NearestAtMost(k: nat, d: nat, m: nat)
    requires k <= m
    ensures Nearest(k, d, m) <= d
  {
    if m > 0 {
      NearestIsNear(k, d, m);
      var r := Nearest(k, d, m);
      MulLe(k, m, d);
      assert (d + 1) * m == d * m + m;
      if r > d {
        MulLe(d + 1, r, m);
      }
    }
  }

  /** No two points coincide, and the last one is not met early: m + 1 distinct pixels. */
  lemma PointsAreDistinct(s: Segment, i: nat, k: nat)
    requires i < k <= s.Steps()
    ensures s.XAt(i) != s.XAt(k) || s.YAt(i) != s.YAt(k)
  {
    MajorAxis(i, s.Steps());
    MajorAxis(k, s.Steps());
  }

  /** Drawn from the other end, the line meets the same point after m - k steps except exactly
      where the ideal line passes half way between two pixels. */
  lemma BackwardsUnlessTied(s: Segment, k: nat)
    requires k <= s.Steps()
    ensures var b, m := s.Back(), s.Steps();
      b.Steps() == m
      && (b.XAt(m - k) == s.XAt(k) <==> !Tied(k, s.Dx(), m))
      && (b.YAt(m - k) == s.YAt(k) <==> !Tied(k, s.Dy(), m))
  {
    hide Nearest, Tied;
    InsideTheBox(s, k);
    InsideTheBox(s.Back(), s.Steps() - k);
    MirrorUnlessTied(k, s.Dx(), s.Steps());
    MirrorUnlessTied(k, s.Dy(), s.Steps());
  }

  /** k * d / m lies half way between two whole numbers. */
  predicate Tied(k: nat, d: nat, m: nat) {
    m > 0 && (2 * k * d) % (2 * m) == m
  }

  lemma MirrorUnlessTied(k: nat, d: nat, m: nat)
    requires k <= m && d <= m
    ensures Nearest(k, d, m) + Nearest(m - k, d, m) == d <==> !Tied(k, d, m)
  {
    if m > 0 {
      var r := Nearest(k, d, m);
      NearestAtMost(k, d, m);
      NearestIsNear(k, d, m);
      NearestIsNear(m - k, d, m);
      hide Nearest;
      TiedRemainder(k, d, m, r);
      assert (m - k) * d - (d - r) * m == -(k * d - r * m) by {
        assert (m - k) * d == m * d - k * d;
        assert (d - r) * m == d * m - r * m;
      }
      if 2 * (k * d - r * m) != m {
        NearIsNearest(m - k, d, m, d - r);
      }
    }
  }

  lemma TiedRemainder(k: nat, d: nat, m: nat, r: nat)
    requires m > 0 && Near(k, d, m, r)
    ensures Tied(k, d, m) <==> 2 * (k * d - r * m) == m
  {
    var e := 2 * (k * d - r * m);
    assert 2 * k * d == 2 * (k * d);
    if e >= 0 {
      assert r * (2 * m) == 2 * (r * m);
      DivModUnique(2 * k * d, 2 * m, r, e);
    } else {
      assert (r - 1) * (2 * m) == 2 * (r * m) - 2 * m;
      DivModUnique(2 * k * d, 2 * m, r - 1, e + 2 * m);
    }
  }

  // ------------------------------------------------------------ the error term

  /** The error term after i steps along x and j along y. */
  function Error(dx: nat, dy: nat, i: nat, j: nat): int {
    dx - dy - (i * dy - j * dx)
  }

  /** The two tests on the error term take each coordinate to its next nearest value. */
  lemma NextPoint(dx: nat, dy: nat, k: nat)
    requires Max(dx, dy) > 0
    ensures var m := Max(dx, dy);
      var i, j := Nearest(k, dx, m), Nearest(k, dy, m);
      var e2 := 2 * Error(dx, dy, i, j);
      && Nearest(k + 1, dx, m) == (if e2 + dy > 0 then i + 1 else i)
      && Nearest(k + 1, dy, m) == (if e2 < dx then j + 1 else j)
  {
    hide Nearest, Near;
    var m := Max(dx, dy);
    var i, j := Nearest(k, dx, m), Nearest(k, dy, m);
    MajorAxis(k, m);
    MajorAxis(k + 1, m);
    if dy <= dx {
      NearestIsNear(k, dy, m);
      if dx == dy {
        MajorAxis(k, dy);
      } else {
        MinorStep(k, dy, m, j, if 2 * Error(dx, dy, i, j) < dx then j + 1 else j);
      }
    } else {
      NearestIsNear(k, dx, m);
      MinorStep(k, dx, m, i, if 2 * Error(dx, dy, i, j) + dy > 0 then i + 1 else i);
    }
  }

  lemma MinorStep(k: nat, d: nat, m: nat, r: nat, next: nat)
    requires Near(k, d, m, r)
    requires d < m
    requires next == if 2 * (k * d - r * m) > m - 2 * d then r + 1 else r
    ensures next == Nearest(k + 1, d, m)
  {
    assert (k + 1) * d == k * d + d && (r + 1) * m == r * m + m;
    NearIsNearest(k + 1, d, m, next);
  }

  lemma ErrorSteps(dx: nat, dy: nat, k: nat)
    ensures var m := Max(dx, dy);
      var i, j := Nearest(k, dx, m), Nearest(k, dy, m);
      && Error(dx, dy, i + 1, j) == Error(dx, dy, i, j) - dy
      && Error(dx, dy, i, j + 1) == Error(dx, dy, i, j) + dx
      && Error(dx, dy, i + 1, j + 1) == Error(dx, dy, i, j) - dy + dx
  {
    hide Nearest;
    var m := Max(dx, dy);
    var i, j := Nearest(k, dx, m), Nearest(k, dy, m);
    assert (i + 1) * dy == i * dy + dy && (j + 1) * dx == j * dx + dx;
  }

  /** The error term when the loop has drawn k points. */
  function ErrorAt(s: Segment, k: nat): int {
    Error(s.Dx(), s.Dy(), Nearest(k, s.Dx(), s.Steps()), Nearest(k, s.Dy(), s.Steps()))
  }

  lemma ErrorStarts(s: Segment)
    ensures ErrorAt(s, 0) == s.Dx() - s.Dy()
  {
    StartAndEnd(s);
  }

  /** What one turn of the loop does to the point and to the error term. */
  lemma LineStep(s: Segment, k: nat)
    requires k < s.Steps()
    ensures var e2 := 2 * ErrorAt(s, k);
      var byX, byY := e2 > -(s.Dy() as int), e2 < s.Dx();
      && s.XAt(k + 1) == (if byX then s.XAt(k) + s.Sx() else s.XAt(k))
      && s.YAt(k + 1) == (if byY then s.YAt(k) + s.Sy() else s.YAt(k))
      && ErrorAt(s, k + 1) == ErrorAt(s, k) - (if byX then s.Dy() else 0) + (if byY then s.Dx() else 0)
  {
    NextPoint(s.Dx(), s.Dy(), k);
    ErrorSteps(s.Dx(), s.Dy(), k);
    hide Nearest, Error;
  }

  /** Every value that turn k of the loop computes is a 32-bit value. */
  predicate TurnFits(s: Segment, k: nat) {
    var e, dx, dy := ErrorAt(s, k), s.Dx(), s.Dy();
    var byX, byY := 2 * e > -(dy as int), 2 * e < dx;
    && FitsInt32(e) && FitsInt32(2 * e)
    && (byX ==> FitsInt32(e - dy))
    && (byY ==> FitsInt32((if byX then e - dy else e) + dx))
  }

  /** The loop never leaves 32 bits: what the C code needs to be defined at all. */
  ghost predicate LoopFits(s: Segment) {
    && FitsInt32(s.Dx()) && FitsInt32(s.Dy()) && FitsInt32(-(s.Dy() as int)) && FitsInt32(s.Dx() - s.Dy())
    && forall k: nat :: k < s.Steps() ==> TurnFits(s, k)
  }

  /** With neither side longer than a third of the range, no value of the loop overflows. */
  lemma ErrorFits(s: Segment)
    requires 3 * s.Steps() < 0x8000_0000
    ensures LoopFits(s)
  {
    var dx, dy, m := s.Dx(), s.Dy(), s.Steps();
    forall k: nat | k < m ensures TurnFits(s, k) {
      MajorAxis(k, m);
      NearestIsNear(k, dx, m);
      NearestIsNear(k, dy, m);
    }
  }

  /** The shortest horizontal line that overflows, at its first doubling. */
  lemma LongHorizontalOverflows(s: Segment)
    requires s == Segment(0, 0, 0x4000_0000, 0)
    ensures !LoopFits(s) && !FitsInt32(2 * ErrorAt(s, 0))
  {
    hide Nearest, ErrorAt;
    ErrorStarts(s);
    assert LoopFits(s) ==> TurnFits(s, 0);
  }

  // ------------------------------------------------------------ the exact limits

  function Gcd(a: nat, b: nat): (g: nat)
    ensures a > 0 || b > 0 ==> g > 0
    decreases b
  {
    if b == 0 then a else Gcd(b, a % b)
  }

  lemma {:induction false} GcdDivides(a: nat, b: nat) returns (p: nat, q: nat)
    ensures p * Gcd(a, b) == a && q * Gcd(a, b) == b
    decreases b
  {
    if b == 0 {
      p, q := 1, 0;
    } else {
      var n, g := a / b, Gcd(a, b);
      var p', q' := GcdDivides(b, a % b);
      p, q := n * p' + q', p';
      assert (n * p' + q') * g == n * (p' * g) + q' * g;
    }
  }

  lemma {:induction false} Bezout(a: nat, b: nat) returns (u: int, v: int)
    ensures u * a + v * b == Gcd(a, b)
    decreases b
  {
    if b == 0 {
      u, v := 1, 0;
    } else {
      var n, r := a / b, a % b;
      var u', v' := Bezout(b, r);
      u, v := v', u' - n * v';
      assert v' * a == v' * (n * b) + v' * r && (u' - n * v') * b == u' * b - n * v' * b;
      assert v' * (n * b) == n * v' * b;
    }
  }

  /** How far, in units of 1/m, the ideal point is past the k-th drawn one on the shorter axis. */
  function Residue(k: nat, d: nat, m: nat): int { k * d - Nearest(k, d, m) * m }

  lemma ResidueIsMultiple(k: nat, d: nat, m: nat) returns (c: int)
    ensures Residue(k, d, m) == c * Gcd(m, d)
  {
    hide Nearest, Gcd;
    var r := Nearest(k, d, m);
    var p, q := GcdDivides(m, d);
    c := k * q - r * p;
    Regroup(k, q, r, p, Gcd(m, d));
  }

  lemma Regroup(k: int, q: int, r: int, p: int, g: int)
    ensures (k * q - r * p) * g == k * (q * g) - r * (p * g)
  {
    assert (k * q - r * p) * g == k * q * g - r * p * g;
  }

  /** Every multiple of the common divisor that a residue could be is one, before the line ends. */
  lemma ResidueAttained(d: nat, m: nat, c: int) returns (k: nat)
    requires m > 0 && -(m as int) < 2 * (c * Gcd(m, d)) <= m
    ensures k < m && Residue(k, d, m) == c * Gcd(m, d)
  {
    hide Nearest, Gcd;
    var u, v := Bezout(m, d);
    var t := c * Gcd(m, d);
    var w: int := c * v;
    var n: int := w / m;
    k := w % m;
    var r: int := -(n * d) - c * u;
    assert k * d - t == r * m by {
      Reduced(k, n, c, u, v, d, m);
    }
    NotBelowZero(k, d, m, t, r);
    NearIsNearest(k, d, m, r);
  }

  lemma Reduced(k: int, n: int, c: int, u: int, v: int, d: int, m: int)
    requires k == c * v - n * m
    ensures k * d - c * (u * m + v * d) == (-(n * d) - c * u) * m
  {
    assert (c * v - n * m) * d == c * v * d - n * m * d;
    assert c * (u * m + v * d) == c * (u * m) + c * (v * d);
    assert c * (u * m) == c * u * m && c * (v * d) == c * v * d && n * m * d == n * d * m;
    assert (-(n * d) - c * u) * m == -(n * d * m) - c * u * m;
  }

  lemma NotBelowZero(k: nat, d: nat, m: nat, t: int, r: int)
    requires 2 * t <= m && k * d - t == r * m && m > 0
    ensures r >= 0
  {
    assert k * d >= 0;
    if r < 0 {
      MulLe(r, -1, m);
    }
  }

  function Halves(n: nat, g: nat): nat
    requires g > 0
  {
    n / 2 / g
  }

  /** The largest and, negated, the smallest residue: multiples of g at most, or below, m / 2. */
  function Above(g: nat, m: nat): int
    requires g > 0
  {
    Halves(m, g) * g
  }

  function Below(g: nat, m: nat): int
    requires g > 0 && m > 0
  {
    Halves(m - 1, g) * g
  }

  lemma MultipleBounds(g: nat, m: nat, c: int)
    requires g > 0 && m > 0
    ensures 2 * (c * g) <= m <==> c * g <= Above(g, m)
    ensures -(m as int) < 2 * (c * g) <==> -Below(g, m) <= c * g
  {
    hide Halves;
    var n: int := -c;
    assert n * g == -(c * g);
    Floor(g, m, c);
    Floor(g, m - 1, n);
  }

  lemma Floor(g: nat, n: nat, c: int)
    requires g > 0
    ensures 2 * (c * g) <= n <==> c * g <= Halves(n, g) * g
  {
    var h, f := n / 2, Halves(n, g);
    assert h == f * g + h % g;
    if c <= f {
      MulLe(c, f, g);
    } else {
      MulLe(f + 1, c, g);
      assert (f + 1) * g == f * g + g;
    }
  }

  /** No value that the loop computes leaves 32 bits, said of the line's sides alone. */
  predicate SidesFit(dx: nat, dy: nat) {
    var m, g := Max(dx, dy), Gcd(Max(dx, dy), if dx < dy then dx else dy);
    && m < 0x8000_0000
    && (m == 0
        || (if dx >= dy then dx - dy + Below(g, m) < 0x4000_0000 && 2 * dy - dx + Above(g, m) <= 0x8000_0000
            else dy - dx + Below(g, m) <= 0x4000_0000 && dy + Below(g, m) <= 0x8000_0000))
  }

  /** The exact condition under which the loop is defined, for every line. */
  lemma LoopFitsIff(s: Segment)
    ensures LoopFits(s) <==> SidesFit(s.Dx(), s.Dy())
  {
    hide Nearest, Gcd, Above, Below, TurnFits;
    if s.Steps() == 0 {
    } else if s.Dx() >= s.Dy() {
      FlatFits(s);
    } else {
      SteepFits(s);
    }
  }

  lemma FlatFits(s: Segment)
    requires s.Dx() >= s.Dy() && s.Dx() > 0
    ensures LoopFits(s) <==> SidesFit(s.Dx(), s.Dy())
  {
    hide Nearest, Gcd, Above, Below;
    var dx, dy := s.Dx(), s.Dy();
    var g := Gcd(dx, dy);
    if LoopFits(s) {
      var low, high := Extremes(dy, dx);
      FlatError(s, low);
      FlatError(s, high);
      assert TurnFits(s, low) && TurnFits(s, high);
    }
    if SidesFit(dx, dy) {
      forall k: nat | k < dx ensures TurnFits(s, k) {
        FlatError(s, k);
        FlatError(s, k + 1);
        ResidueInReach(k, dy, dx);
        ResidueInReach(k + 1, dy, dx);
        LineStep(s, k);
      }
    }
  }

  lemma FlatError(s: Segment, k: nat)
    requires s.Dx() >= s.Dy() && s.Dx() > 0
    ensures var e := ErrorAt(s, k); e == s.Dx() - s.Dy() - Residue(k, s.Dy(), s.Dx()) && 2 * e > -(s.Dy() as int)
  {
    hide Nearest;
    MajorAxis(k, s.Dx());
    NearestIsNear(k, s.Dy(), s.Dx());
  }

  lemma SteepFits(s: Segment)
    requires s.Dx() < s.Dy()
    ensures LoopFits(s) <==> SidesFit(s.Dx(), s.Dy())
  {
    hide SidesFit, LoopFits;
    if LoopFits(s) {
      SteepNeeds(s);
    }
    if SidesFit(s.Dx(), s.Dy()) {
      SteepSuffices(s);
    }
  }

  lemma SteepNeeds(s: Segment)
    requires s.Dx() < s.Dy() && LoopFits(s)
    ensures SidesFit(s.Dx(), s.Dy())
  {
    hide Nearest, Gcd, Above, Below, Error, ErrorAt, Residue;
    var dx, dy := s.Dx(), s.Dy();
    var low, high := Extremes(dx, dy);
    SteepError(s, low);
    assert TurnFits(s, low);
    if dx > 0 {
      var k := LowestStep(dx, dy);
      SteepError(s, k);
      ResidueInReach(low, dx, dy);
      assert TurnFits(s, k);
    } else {
      UprightReach(dx, dy);
    }
  }

  lemma SteepSuffices(s: Segment)
    requires s.Dx() < s.Dy() && SidesFit(s.Dx(), s.Dy())
    ensures LoopFits(s)
  {
    hide Nearest, Gcd, Above, Below, Error, ErrorAt, Residue;
    var dx, dy := s.Dx(), s.Dy();
    forall k: nat | k < dy ensures TurnFits(s, k) {
      SteepError(s, k);
      SteepError(s, k + 1);
      ResidueInReach(k, dx, dy);
      ResidueInReach(k + 1, dx, dy);
      LineStep(s, k);
    }
  }

  lemma SteepError(s: Segment, k: nat)
    requires s.Dx() < s.Dy()
    ensures var e := ErrorAt(s, k); e == s.Dx() - s.Dy() + Residue(k, s.Dx(), s.Dy()) && 2 * e < s.Dx()
  {
    hide Nearest;
    MajorAxis(k, s.Dy());
    NearestIsNear(k, s.Dx(), s.Dy());
  }

  /** Upright lines have no residue. */
  lemma UprightReach(d: nat, m: nat)
    requires d == 0 < m
    ensures Below(Gcd(m, d), m) == 0
  {
  }

  lemma ResidueInReach(k: nat, d: nat, m: nat)
    requires m > 0
    ensures var t, g := Residue(k, d, m), Gcd(m, d); -Below(g, m) <= t <= Above(g, m) && -(m as int) < 2 * t <= m
  {
    hide Nearest, Gcd, Above, Below;
    NearestIsNear(k, d, m);
    var c := ResidueIsMultiple(k, d, m);
    MultipleBounds(Gcd(m, d), m, c);
  }

  /** Both extremes are met. */
  lemma Extremes(d: nat, m: nat) returns (low: nat, high: nat)
    requires m > 0
    ensures low < m && Residue(low, d, m) == -Below(Gcd(m, d), m)
    ensures high < m && Residue(high, d, m) == Above(Gcd(m, d), m)
  {
    hide Nearest, Gcd, Residue, Halves;
    var g := Gcd(m, d);
    var b: int := Halves(m - 1, g);
    var a: int := Halves(m, g);
    assert (-b) * g == -(b * g);
    MultipleBounds(g, m, -b);
    MultipleBounds(g, m, a);
    assert b * g <= a * g by {
      MultipleBounds(g, m, b);
      Floor(g, m - 1, b);
    }
    assert 0 <= a * g;
    low := ResidueAttained(d, m, -b);
    high := ResidueAttained(d, m, a);
  }

  /** The turn that steps along the shorter axis to the smallest residue. */
  lemma LowestStep(d: nat, m: nat) returns (k: nat)
    requires 0 < d < m
    ensures k < m && Residue(k, d, m) == m - d - Below(Gcd(m, d), m)
  {
    hide Nearest, Gcd, Residue, Halves;
    var g := Gcd(m, d);
    var b: int := Halves(m - 1, g);
    var p, q := GcdDivides(m, d);
    var c: int := p - q - b;
    assert c * g == m - d - Below(g, m) by {
      assert (p - q - b) * g == p * g - q * g - b * g;
    }
    Floor(g, m - 1, b);
    Floor(g, m - 1, b + 1);
    assert (b + 1) * g == b * g + g;
    MulLe(1, q, g);
    k := ResidueAttained(d, m, c);
  }

  // ------------------------------------------------------------ the framebuffer

  function Bit(k: nat): (mask: bv8)
    requires k < 8
  {
    match k
    case 0 => 0x01 case 1 => 0x02 case 2 => 0x04 case 3 => 0x08
    case 4 => 0x10 case 5 => 0x20 case 6 => 0x40 case 7 => 0x80
  }

  predicate IsSet(b: bv8, k: nat)
    requires k < 8
  {
    b & Bit(k) != 0
  }

  function WithBit(b: bv8, k: nat, on: bool): bv8
    requires k < 8
  {
    if on then b | Bit(k) else b & !Bit(k)
  }

  lemma WriteBit(b: bv8, k: nat, on: bool, j: nat)
    requires k < 8 && j < 8
    ensures IsSet(WithBit(b, k, on), j) == if j == k then on else IsSet(b, j)
  {
  }

  /** Page-major: eight vertical pixels of one column to a byte. */
  function ByteAt(x: nat, y: nat): (at: nat)
    requires x < WIDTH && y < HEIGHT
    ensures at < WIDTH * HEIGHT / 8
  {
    y / 8 * WIDTH + x
  }

  lemma SameByte(x: nat, y: nat, px: nat, py: nat)
    requires x < WIDTH && y < HEIGHT && px < WIDTH && py < HEIGHT
    ensures ByteAt(px, py) == ByteAt(x, y) <==> px == x && py / 8 == y / 8
    ensures px == x && py == y <==> px == x && py / 8 == y / 8 && py % 8 == y % 8
  {
  }

  /** Whether pixel (x, y) is lit in the framebuffer. */
  predicate LitIn(fb: seq<bv8>, x: nat, y: nat)
    requires |fb| == WIDTH * HEIGHT / 8 && x < WIDTH && y < HEIGHT
  {
    IsSet(fb[ByteAt(x, y)], y % 8)
  }

  /** The SSD1306's page layout: pixel (x, y) is bit y mod 8 of byte y / 8 * 128 + x, lowest first. */
  lemma PixelIsBit(fb: seq<bv8>, x: nat, y: nat)
    requires |fb| == 1024 && x < 128 && y < 64
    ensures LitIn(fb, x, y) <==> (fb[y / 8 * 128 + x] >> (y % 8)) & 1 == 1
  {
    BitIsShift(fb[y / 8 * 128 + x], y % 8);
  }

  lemma BitIsShift(b: bv8, k: nat)
    requires k < 8
    ensures IsSet(b, k) <==> (b >> k) & 1 == 1
  {
    match k
    case 0 => case 1 => case 2 => case 3 => case 4 => case 5 => case 6 => case 7 =>
  }

  type Frame = fb: seq<bv8> | |fb| == WIDTH * HEIGHT / 8 witness seq(WIDTH * HEIGHT / 8, i => 0)

  /** Set or clear one pixel; coordinates off the screen are dropped. */
  function WithPixel(fb: Frame, x: nat, y: nat, on: bool): Frame {
    if x >= WIDTH || y >= HEIGHT then fb
    else
      var at := ByteAt(x, y);
      fb[at := WithBit(fb[at], y % 8, on)]
  }

  lemma PixelChangesOne(fb: Frame, x: nat, y: nat, on: bool, px: nat, py: nat)
    requires px < WIDTH && py < HEIGHT
    ensures LitIn(WithPixel(fb, x, y, on), px, py) == if px == x && py == y then on else LitIn(fb, px, py)
  {
    hide IsSet, WithBit, ByteAt;
    if x < WIDTH && y < HEIGHT {
      SameByte(x, y, px, py);
      WriteBit(fb[ByteAt(x, y)], y % 8, on, py % 8);
    }
  }

  /** `now` is `before` with the first `count` points of the line set or cleared, and nothing else. */
  ghost predicate Drawn(before: Frame, now: Frame, s: Segment, count: nat, on: bool) {
    forall px: nat, py: nat :: px < WIDTH && py < HEIGHT ==>
      LitIn(now, px, py) == if Among(s, count, px, py) then on else LitIn(before, px, py)
  }

  lemma DrawNext(before: Frame, now: Frame, s: Segment, k: nat, on: bool)
    requires Drawn(before, now, s, k, on)
    requires FitsInt32(s.XAt(k)) && FitsInt32(s.YAt(k))
    ensures Drawn(before, WithPixel(now, ToUnsigned(s.XAt(k)), ToUnsigned(s.YAt(k)), on), s, k + 1, on)
  {
    var x, y := ToUnsigned(s.XAt(k)), ToUnsigned(s.YAt(k));
    forall px: nat, py: nat | px < WIDTH && py < HEIGHT
      ensures LitIn(WithPixel(now, x, y, on), px, py)
              == if Among(s, k + 1, px, py) then on else LitIn(before, px, py)
    {
      hide LitIn, WithPixel, Nearest;
      PixelChangesOne(now, x, y, on, px, py);
      AmongNext(s, k, px, py);
    }
  }

  lemma AmongNext(s: Segment, k: nat, px: int, py: int)
    ensures Among(s, k + 1, px, py) <==> Among(s, k, px, py) || (s.XAt(k) == px && s.YAt(k) == py)
  {
  }

  /** The conversion of a signed 32-bit argument to unsigned. */
  function ToUnsigned(x: int): nat
    requires FitsInt32(x)
  {
    if x < 0 then x + 0x1_0000_0000 else x
  }

  class Display {
    const fb: array<bv8>

    constructor ()
      ensures fresh(fb) && Valid()
    {
      fb := new bv8[WIDTH * HEIGHT / 8];
    }

    ghost predicate Valid() { fb.Length == WIDTH * HEIGHT / 8 }

    method Pixel(x: nat, y: nat, on: bool)
      requires Valid()
      modifies fb
      ensures fb[..] == WithPixel(old(fb[..]), x, y, on)
    {
      if x >= WIDTH || y >= HEIGHT {
        return;
      }
      hide WithBit;
      var at := y / 8 * WIDTH + x;
      fb[at] := WithBit(fb[at], y % 8, on);
    }

    /** The line from one endpoint to the other, for every line on which the loop's own arithmetic
        stays inside 32 bits. */
    method DrawLine(x0: int, y0: int, x1: int, y1: int, on: bool)
      requires Valid()
      requires FitsInt32(x0) && FitsInt32(y0) && FitsInt32(x1) && FitsInt32(y1)
      requires SidesFit(Abs(x1 - x0), Abs(y1 - y0))
      modifies fb
      ensures var s := Segment(x0, y0, x1, y1);
        Drawn(old(fb[..]), fb[..], s, s.Steps() + 1, on)
    {
      hide Nearest, LitIn, WithPixel, Drawn, Among, ErrorAt, SidesFit;
      ghost var s := Segment(x0, y0, x1, y1);
      LoopFitsIff(s);
      var dx := if x1 > x0 then x1 - x0 else x0 - x1;
      var dy := if y1 > y0 then y1 - y0 else y0 - y1;
      var sx := if x0 < x1 then 1 else -1;
      var sy := if y0 < y1 then 1 else -1;
      var err := dx - dy;
      var x, y := x0, y0;
      ghost var k: nat := 0;
      StartAndEnd(s);
      ErrorStarts(s);
      NothingDrawn(fb[..], s, on);
      while true
        invariant k <= s.Steps()
        invariant x == s.XAt(k) && y == s.YAt(k)
        invariant err == ErrorAt(s, k)
        invariant Drawn(old(fb[..]), fb[..], s, k, on)
        decreases s.Steps() - k
      {
        InsideTheBox(s, k);
        DrawNext(old(fb[..]), fb[..], s, k, on);
        Pixel(ToUnsigned(x), ToUnsigned(y), on);
        if k < s.Steps() {
          PointsAreDistinct(s, k, s.Steps());
        }
        if x == x1 && y == y1 {
          break;
        }
        assert TurnFits(s, k);
        LineStep(s, k);
        assert FitsInt32(err) && FitsInt32(2 * err) && FitsInt32(-dy);
        var e2 := 2 * err;
        if e2 > -dy {
          assert FitsInt32(err - dy);
          err := err - dy;
          x := x + sx;
        }
        if e2 < dx {
          assert FitsInt32(err + dx);
          err := err + dx;
          y := y + sy;
        }
        k := k + 1;
      }
    }
  }

  lemma NothingDrawn(fb: Frame, s: Segment, on: bool)
    ensures Drawn(fb, fb, s, 0, on)
  {
  }
}
