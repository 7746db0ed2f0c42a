/**
 What the size hints make of a geometry, told from the fields of the hints and of the areas alone.
 */
module HintFields {
  import opened Geometry
  import opened SizeHints

  // ----- one dimension

  function Steps(base: int, inc: int, k: nat): int {
    base + k * Magnitude(inc)
  }

  /** The largest of base, base + inc, base + 2 * inc, ... that is not above c. */
  ghost predicate Largest(r: int, base: int, inc: int, c: int) {
    && (exists k: nat :: r == Steps(base, inc, k)) && r <= c
    && forall k: nat :: Steps(base, inc, k) <= c ==> Steps(base, inc, k) <= r
  }

  /** A size that is asked for, but at least the minimum, and then at most the maximum unless that is 0. */
  function Bounded(n: int, min: int, max: int): (c: int)
    ensures max == 0 ==> c >= min && c >= n && (c == min || c == n)
    ensures max != 0 ==> c <= max && (c == max || (c >= min && c >= n && (c == min || c == n)))
  {
    var m := if n < min then min else n;
    if max != 0 && max < m then max else m
  }

  /** The size that n is to become; an increment of 0 means that there is none. */
  ghost predicate Fulfils(r: int, n: int, base: int, min: int, max: int, inc: int) {
    var c := Bounded(n, min, max);
    if inc == 0 || c < base then r == c else Largest(r, base, inc, c)
  }

  lemma MeetsFulfils(r: int, n: int, l: Limits)
    requires Meets(r, n, l)
    ensures Fulfils(r, n, l.base, l.min, l.max, l.inc)
  {
    var c := Clamp(n, l);
    if l.inc != 0 && c >= l.base {
      var k: nat :| r == GridSize(l, k);
      assert r == Steps(l.base, l.inc, k);
      forall j: nat | Steps(l.base, l.inc, j) <= c ensures Steps(l.base, l.inc, j) <= r {
        if k < j {
          StepUp(k, j, l);
        }
      }
    }
  }

  /** No negative maximum, no minimum that a window cannot have, and no grid that starts at a negative base. */
  predicate Sane(base: int, min: int, max: int, inc: int) {
    max >= 0 && min < 0x1_0000 && (base >= 0 || inc == 0)
  }

  // ----- the aspect ratio

  lemma Product(a: int, b: int)
    ensures (a * b) as real == a as real * b as real
  {
  }

  lemma CrossMultiply(a: int, b: int, c: int, d: int)
    requires b > 0 && d > 0
    ensures a as real / b as real < c as real / d as real <==> a * d < c * b
  {
    var p, q, z := a as real / b as real, c as real / d as real, b as real * d as real;
    assert a as real == p * b as real && c as real == q * d as real;
    Product(a, d);
    Product(c, b);
    assert (a * d) as real == p * z && (c * b) as real == q * z && z > 0.0;
    if p < q {
      Less(p, q, z);
    }
    if a * d < c * b {
      Cancelled(p, q, z);
    }
  }

  /** n / d rounded to the nearest whole number, halves up. */
  predicate Nearest(e: int, n: int, d: int) {
    2 * d * e <= 2 * n + d < 2 * d * (e + 1)
  }

  lemma RoundedIsNearest(x: real, n: int, d: int)
    requires d > 0 && x * d as real == n as real
    ensures Nearest(Rounded(x), n, d)
  {
    var e := Rounded(x);
    hide Rounded;
    RoundedDown(x, n, d);
    RoundedUp(x, n, d);
    Doubled(d * e, d * (e + 1), n, d);
  }

  lemma RoundedDown(x: real, n: int, d: int)
    requires d > 0 && x * d as real == n as real
    ensures (d * Rounded(x)) as real <= n as real + 0.5 * d as real
  {
    var e := Rounded(x);
    assert e as real <= x + 0.5;
    hide Rounded;
    Product(d, e);
    Scaled(e as real, x + 0.5, d as real);
    HalfUp(x, n as real, d as real);
  }

  lemma RoundedUp(x: real, n: int, d: int)
    requires d > 0 && x * d as real == n as real
    ensures n as real + 0.5 * d as real < (d * (Rounded(x) + 1)) as real
  {
    var e := Rounded(x) + 1;
    assert x + 0.5 < e as real;
    hide Rounded;
    Product(d, e);
    Less(x + 0.5, e as real, d as real);
    HalfUp(x, n as real, d as real);
  }

  lemma HalfUp(x: real, z: real, y: real)
    requires x * y == z
    ensures (x + 0.5) * y == z + 0.5 * y
  {
  }

  lemma Doubled(a: int, b: int, n: int, d: int)
    requires a as real <= n as real + 0.5 * d as real < b as real
    ensures 2 * a <= 2 * n + d < 2 * b
  {
  }

  lemma Scaled(a: real, b: real, c: real)
    requires a <= b && c > 0.0
    ensures a * c <= b * c
  {
  }

  lemma NearestUnique(e: int, f: int, n: int, d: int)
    requires d > 0 && Nearest(e, n, d) && Nearest(f, n, d)
    ensures e == f
  {
    assert e + 1 <= f ==> 2 * d * (e + 1) <= 2 * d * f;
    assert f + 1 <= e ==> 2 * d * (f + 1) <= 2 * d * e;
  }

  /** What the aspect ratio makes of a size: above the base size, which is not counted, the width and the height are
      in a ratio between the smallest and the largest, but for a rounded pixel. */
  ghost predicate FitsAspect(h: Hints, width: int, height: int, w: int, t: int) {
    var (bw, bt) := if h.hasBase then (h.baseWidth, h.baseHeight) else (0, 0);
    var (dx, dy) := (width - bw, height - bt);
    if h.hasAspect && dx > 0 && dy > 0
      && h.minAspectNum > 0 && h.minAspectDen > 0 && h.maxAspectNum > 0 && h.maxAspectDen > 0
    then
      if dx * h.minAspectDen < h.minAspectNum * dy then
        w == width && Nearest(t - bt, dx * h.minAspectDen, h.minAspectNum)
      else if h.maxAspectNum * dy < dx * h.maxAspectDen then
        t == height && Nearest(w - bw, dy * h.maxAspectNum, h.maxAspectDen)
      else w == width && t == height
    else w == width && t == height
  }

  lemma AspectUnique(h: Hints, width: int, height: int, w: int, t: int, w': int, t': int)
    requires FitsAspect(h, width, height, w, t) && FitsAspect(h, width, height, w', t')
    ensures w == w' && t == t'
  {
    hide Nearest;
    var (bw, bt) := if h.hasBase then (h.baseWidth, h.baseHeight) else (0, 0);
    var (dx, dy) := (width - bw, height - bt);
    if t != t' {
      NearestUnique(t - bt, t' - bt, dx * h.minAspectDen, h.minAspectNum);
    }
    if w != w' {
      NearestUnique(w - bw, w' - bw, dy * h.maxAspectNum, h.maxAspectDen);
    }
  }

  lemma RatioPositive(n: int, d: int)
    requires d > 0
    ensures n as real / d as real > 0.0 <==> n > 0
  {
    CrossMultiply(0, 1, n, d);
  }

  lemma AspectFields(h: Hints, width: int, height: int)
    ensures FitsAspect(h, width, height, Aspect(h, width, height).0, Aspect(h, width, height).1)
  {
    hide Nearest, Rounded;
    var (dx, dy) := (width - RealBaseWidth(h), height - RealBaseHeight(h));
    if h.hasAspect && h.minAspectDen > 0 && h.maxAspectDen > 0 && dx > 0 && dy > 0 {
      RatioPositive(h.minAspectNum, h.minAspectDen);
      RatioPositive(h.maxAspectNum, h.maxAspectDen);
      if h.minAspectNum > 0 && h.maxAspectNum > 0 {
        CrossMultiply(dx, dy, h.minAspectNum, h.minAspectDen);
        CrossMultiply(h.maxAspectNum, h.maxAspectDen, dx, dy);
        IdealHeightIs(h, width);
        IdealWidthIs(h, height);
        RoundedIsNearest(IdealHeight(h, width), dx * h.minAspectDen, h.minAspectNum);
        RoundedIsNearest(IdealWidth(h, height), dy * h.maxAspectNum, h.maxAspectDen);
      }
    }
  }

  lemma IdealHeightIs(h: Hints, width: int)
    requires h.minAspectDen > 0 && MinRatio(h) > 0.0
    ensures IdealHeight(h, width) * h.minAspectNum as real
         == ((width - RealBaseWidth(h)) * h.minAspectDen) as real
  {
    var x, d := IdealHeight(h, width), h.minAspectDen as real;
    Product(width - RealBaseWidth(h), h.minAspectDen);
    assert x * MinRatio(h) == (width - RealBaseWidth(h)) as real && MinRatio(h) * d == h.minAspectNum as real;
    assert x * (MinRatio(h) * d) == (x * MinRatio(h)) * d;
  }

  lemma IdealWidthIs(h: Hints, height: int)
    requires h.maxAspectDen > 0
    ensures IdealWidth(h, height) * h.maxAspectDen as real
         == ((height - RealBaseHeight(h)) * h.maxAspectNum) as real
  {
    var y, d := (height - RealBaseHeight(h)) as real, h.maxAspectDen as real;
    Product(height - RealBaseHeight(h), h.maxAspectNum);
    assert MaxRatio(h) * d == h.maxAspectNum as real;
    assert (y * MaxRatio(h)) * d == y * (MaxRatio(h) * d);
  }

  // ----- the geometry

  /** The size r is what a request for n gets; n is first brought to the 16 bits of its field. */
  ghost predicate Gets(r: int, n: int, base: int, min: int, max: int, inc: int) {
    if Sane(base, min, max, inc) then Fulfils(r, n % 0x1_0000, base, min, max, inc)
    else Answers(r, n % 0x1_0000, Limits(base, min, max, inc))
  }

  /** The minimum stands in for a missing base size and the base size for a missing minimum; there are increments only
      where neither is 0. */
  ghost predicate SizesGiven(h: Hints, w: int, t: int, rw: int, rt: int) {
    var grid := (h.hasInc || h.hasBase) && h.widthInc != 0 && h.heightInc != 0;
    var (iw, it) := if grid then (h.widthInc, h.heightInc) else (0, 0);
    var (mw, mt) := if h.hasMax then (h.maxWidth, h.maxHeight) else (0, 0);
    if h.hasBase && h.hasMin then
      Gets(rw, w, h.baseWidth, h.minWidth, mw, iw) && Gets(rt, t, h.baseHeight, h.minHeight, mt, it)
    else if h.hasBase then
      Gets(rw, w, h.baseWidth, h.baseWidth, mw, iw) && Gets(rt, t, h.baseHeight, h.baseHeight, mt, it)
    else if h.hasMin then
      Gets(rw, w, h.minWidth, h.minWidth, mw, iw) && Gets(rt, t, h.minHeight, h.minHeight, mt, it)
    else
      Gets(rw, w, 0, 0, mw, iw) && Gets(rt, t, 0, 0, mt, it)
  }

  /** The frame r for the frame a that was asked for: it stays where it is, and the room between its bars has the sizes
      that the hints give to the room in a, after the aspect ratio has cut that. */
  ghost predicate HintsApplied(h: Hints, bars: Bars, a: Area, r: Area) {
    && r.x == a.x && r.y == a.y && IsU16(r.width) && IsU16(r.height)
    && RoomGiven(h, (a.width - bars.left - bars.right) % 0x1_0000, (a.height - bars.top - bars.bottom) % 0x1_0000,
         (r.width - bars.left - bars.right) % 0x1_0000, (r.height - bars.top - bars.bottom) % 0x1_0000)
  }

  ghost predicate RoomGiven(h: Hints, width: int, height: int, rw: int, rt: int) {
    exists w, t :: FitsAspect(h, width, height, w, t) && SizesGiven(h, w, t, rw, rt)
  }

  lemma AnswersGets(r: int, n: int, l: Limits)
    requires Answers(r, n % 0x1_0000, l)
    ensures Gets(r, n, l.base, l.min, l.max, l.inc)
  {
    if SaneLimits(l) {
      MeetsFulfils(r, n % 0x1_0000, l);
    }
    assert Limits(l.base, l.min, l.max, l.inc) == l;
    hide Meets, Fulfils, Answers;
  }

  /** The frame that the code computes is that one. */
  lemma AppliedFields(h: Hints, bars: Bars, a: Area)
    requires Ranged(a)
    ensures HintsApplied(h, bars, a, Applied(h, bars, a))
  {
    var g, r := Inside(a, bars), Inside(Applied(h, bars, a), bars);
    var (w, t) := Aspect(h, g.width, g.height);
    AppliedInside(h, bars, a);
    AppliedAnswers(U16(w), WidthLimits(h));
    AppliedAnswers(U16(t), HeightLimits(h));
    AspectFields(h, g.width, g.height);
    AnswersGets(r.width, w, WidthLimits(h));
    AnswersGets(r.height, t, HeightLimits(h));
    AroundInside(a, bars);
    hide Aspect, AppliedTo, Answers, Gets, FitsAspect;
    assert SizesGiven(h, w, t, r.width, r.height);
  }
}
