/**
 Applying the size hints of a window to a geometry that is asked for it (ICCCM section 4.1.2.3).
 */
module SizeHints {
  import opened Geometry

  /** WM_NORMAL_HINTS: which fields are given, and the fields. */
  datatype Hints = Hints(
    hasMin: bool, hasMax: bool, hasInc: bool, hasAspect: bool, hasBase: bool,
    minWidth: int, minHeight: int, maxWidth: int, maxHeight: int, widthInc: int, heightInc: int,
    minAspectNum: int, minAspectDen: int, maxAspectNum: int, maxAspectDen: int, baseWidth: int, baseHeight: int)

  /** The hints for one of the two dimensions; a maximum or increment of 0 means that there is none. */
  datatype Limits = Limits(base: int, min: int, max: int, inc: int)

  predicate HasInc(h: Hints) {
    (h.hasInc || h.hasBase) && h.widthInc != 0 && h.heightInc != 0
  }

  /** The minimum stands in for a missing base size and the base size for a missing minimum. */
  function WidthLimits(h: Hints): Limits {
    Limits(
      if h.hasBase then h.baseWidth else if h.hasMin then h.minWidth else 0,
      if h.hasMin then h.minWidth else if h.hasBase then h.baseWidth else 0,
      if h.hasMax then h.maxWidth else 0,
      if HasInc(h) then h.widthInc else 0)
  }

  function HeightLimits(h: Hints): Limits {
    Limits(
      if h.hasBase then h.baseHeight else if h.hasMin then h.minHeight else 0,
      if h.hasMin then h.minHeight else if h.hasBase then h.baseHeight else 0,
      if h.hasMax then h.maxHeight else 0,
      if HasInc(h) then h.heightInc else 0)
  }

  /** No grid that starts at a negative base. */
  predicate Grounded(l: Limits) {
    l.base >= 0 || l.inc == 0
  }

  /** No negative maximum either, and no minimum that a window cannot have. */
  predicate SaneLimits(l: Limits) {
    Grounded(l) && l.max >= 0 && l.min < 0x1_0000
  }

  /** Between minimum and maximum; the maximum wins when they contradict each other. */
  function Clamp(n: int, l: Limits): int {
    var m := if n < l.min then l.min else n;
    if l.max != 0 && l.max < m then l.max else m
  }

  function Magnitude(inc: int): nat {
    if inc < 0 then -inc else inc
  }

  /** The k-th size on the grid that starts at the base and has the increment as its step. */
  function GridSize(l: Limits, k: int): int {
    l.base + k * Magnitude(l.inc)
  }

  ghost predicate OnGrid(n: int, l: Limits) {
    exists k: nat :: n == GridSize(l, k)
  }

  /**
   What a dimension should become: the clamp of what is asked for when there is no grid or the clamp lies
   below it, otherwise the largest size on the grid that is not above the clamp.
   */
  ghost predicate Meets(r: int, n: int, l: Limits) {
    var c := Clamp(n, l);
    if l.inc == 0 || c < l.base then r == c
    else OnGrid(r, l) && r <= c < r + Magnitude(l.inc)
  }

  lemma {:induction false} StepUp(p: int, q: int, l: Limits)
    requires p < q
    ensures GridSize(l, p) + Magnitude(l.inc) <= GridSize(l, q)
    decreases q - p
  {
    NextSize(l, q - 1);
    if p + 1 < q {
      StepUp(p, q - 1, l);
    }
  }

  lemma NextSize(l: Limits, k: int)
    ensures GridSize(l, k + 1) == GridSize(l, k) + Magnitude(l.inc)
  {
    var inc := Magnitude(l.inc);
    assert (k + 1) * inc == k * inc + inc;
  }

  lemma GridUnique(a: int, b: int, c: int, l: Limits)
    requires l.inc != 0 && OnGrid(a, l) && OnGrid(b, l)
    requires a <= c < a + Magnitude(l.inc) && b <= c < b + Magnitude(l.inc)
    ensures a == b
  {
    var p: nat :| a == GridSize(l, p);
    var q: nat :| b == GridSize(l, q);
    if p < q {
      StepUp(p, q, l);
    } else if q < p {
      StepUp(q, p, l);
    }
  }

  /** There is one such size only. */
  lemma MeetsUnique(r: int, s: int, n: int, l: Limits)
    requires Meets(r, n, l) && Meets(s, n, l)
    ensures r == s
  {
    var c := Clamp(n, l);
    if l.inc != 0 && c >= l.base {
      GridUnique(r, s, c, l);
    }
  }

  /** Asking for the size that was given changes nothing, also when the hints contradict each other. */
  lemma MeetsAgain(r: int, s: int, n: int, l: Limits)
    requires Meets(r, n, l) && Meets(s, r, l)
    ensures s == r
  {
    var c, d := Clamp(n, l), Clamp(r, l);
    if l.inc != 0 && c >= l.base {
      assert r <= d <= c;
      GridUnique(r, s, d, l);
    }
  }

  lemma AboveMinimum(r: int, n: int, l: Limits)
    requires SaneLimits(l) && Meets(r, n, l)
    requires (l.max == 0 || l.min <= l.max) && (l.inc == 0 || l.min <= l.base || OnGrid(l.min, l))
    ensures l.min <= r
  {
    var c := Clamp(n, l);
    if l.inc != 0 && l.base <= c && l.base < l.min && r < l.min {
      var p: nat :| r == GridSize(l, p);
      var q: nat :| l.min == GridSize(l, q);
      if q < p {
        StepUp(q, p, l);
      } else if p < q {
        StepUp(p, q, l);
      }
    }
  }

  /** A size below the minimum that is the answer when the minimum is asked for. */
  lemma BelowMinimum(l: Limits) returns (r: int)
    requires SaneLimits(l)
    requires !((l.max == 0 || l.min <= l.max) && (l.inc == 0 || l.min <= l.base || OnGrid(l.min, l)))
    ensures Meets(r, l.min, l) && r < l.min
  {
    var c := Clamp(l.min, l);
    r := Snapped(c, l);
    SnappedMeets(l.min, l);
  }

  function Snapped(c: int, l: Limits): int {
    if l.inc == 0 || c < l.base then c else c - (c - l.base) % Magnitude(l.inc)
  }

  lemma SnappedMeets(n: int, l: Limits)
    ensures Meets(Snapped(Clamp(n, l), l), n, l)
  {
    var c := Clamp(n, l);
    if l.inc != 0 && c >= l.base {
      var k := (c - l.base) / Magnitude(l.inc);
      assert c - l.base == k * Magnitude(l.inc) + (c - l.base) % Magnitude(l.inc);
      Quotient(c - l.base, Magnitude(l.inc));
      assert Snapped(c, l) == GridSize(l, k);
    }
  }

  lemma Quotient(n: nat, d: nat)
    requires d > 0
    ensures n / d >= 0
  {
  }

  // ----- the aspect ratio

  function RealBaseWidth(h: Hints): int {
    if h.hasBase then h.baseWidth else 0
  }

  function RealBaseHeight(h: Hints): int {
    if h.hasBase then h.baseHeight else 0
  }

  function MinRatio(h: Hints): real
    requires h.minAspectDen > 0
  {
    h.minAspectNum as real / h.minAspectDen as real
  }

  function MaxRatio(h: Hints): real
    requires h.maxAspectDen > 0
  {
    h.maxAspectNum as real / h.maxAspectDen as real
  }

  /** An aspect ratio is asked for that can be checked. */
  predicate ChecksAspect(h: Hints, width: int, height: int) {
    && h.hasAspect && h.minAspectDen > 0 && h.maxAspectDen > 0
    && height > RealBaseHeight(h) && width > RealBaseWidth(h)
    && MaxRatio(h) > 0.0 && MinRatio(h) > 0.0
  }

  /** Half a pixel up, then the fraction is cut off. */
  function Rounded(x: real): int {
    (x + 0.5).Floor
  }

  function Ratio(h: Hints, width: int, height: int): real
    requires height > RealBaseHeight(h)
  {
    (width - RealBaseWidth(h)) as real / (height - RealBaseHeight(h)) as real
  }

  /** The height above the base that goes with a width at the smallest ratio. */
  function IdealHeight(h: Hints, width: int): real
    requires h.minAspectDen > 0 && MinRatio(h) > 0.0
  {
    (width - RealBaseWidth(h)) as real / MinRatio(h)
  }

  /** The width above the base that goes with a height at the largest ratio. */
  function IdealWidth(h: Hints, height: int): real
    requires h.maxAspectDen > 0
  {
    (height - RealBaseHeight(h)) as real * MaxRatio(h)
  }

  function Aspect(h: Hints, width: int, height: int): (int, int) {
    if !ChecksAspect(h, width, height) then (width, height)
    else if Ratio(h, width, height) < MinRatio(h) then (width, Rounded(IdealHeight(h, width)) + RealBaseHeight(h))
    else if Ratio(h, width, height) > MaxRatio(h) then (Rounded(IdealWidth(h, height)) + RealBaseWidth(h), height)
    else (width, height)
  }

  predicate WithinHalf(n: int, x: real) {
    x - 0.5 < n as real <= x + 0.5
  }

  /**
   Too narrow a window gets lower and too wide a one gets narrower, by as much as is needed to within half a
   pixel; the base size is not counted. Nothing grows.
   */
  lemma AspectShrinks(h: Hints, width: int, height: int)
    requires ChecksAspect(h, width, height)
    ensures var (w, t) := Aspect(h, width, height);
      && RealBaseWidth(h) <= w <= width && RealBaseHeight(h) <= t <= height
      && (if Ratio(h, width, height) < MinRatio(h) then
            w == width && WithinHalf(t - RealBaseHeight(h), IdealHeight(h, width))
          else if Ratio(h, width, height) > MaxRatio(h) then
            t == height && WithinHalf(w - RealBaseWidth(h), IdealWidth(h, height))
          else w == width && t == height)
  {
    if Ratio(h, width, height) < MinRatio(h) {
      TooNarrow(h, width, height);
    } else if Ratio(h, width, height) > MaxRatio(h) {
      TooWide(h, width, height);
    }
    hide Ratio, IdealHeight, IdealWidth, MinRatio, MaxRatio, Rounded, WithinHalf;
  }

  lemma TooNarrow(h: Hints, width: int, height: int)
    requires ChecksAspect(h, width, height) && Ratio(h, width, height) < MinRatio(h)
    ensures 0 <= Rounded(IdealHeight(h, width)) <= height - RealBaseHeight(h)
    ensures WithinHalf(Rounded(IdealHeight(h, width)), IdealHeight(h, width))
  {
    var dx, dy := (width - RealBaseWidth(h)) as real, (height - RealBaseHeight(h)) as real;
    Cross(dx, dy, MinRatio(h));
    RoundedBelow(IdealHeight(h, width), height - RealBaseHeight(h));
  }

  lemma TooWide(h: Hints, width: int, height: int)
    requires ChecksAspect(h, width, height) && Ratio(h, width, height) > MaxRatio(h)
    ensures 0 <= Rounded(IdealWidth(h, height)) <= width - RealBaseWidth(h)
    ensures WithinHalf(Rounded(IdealWidth(h, height)), IdealWidth(h, height))
  {
    var dx, dy := (width - RealBaseWidth(h)) as real, (height - RealBaseHeight(h)) as real;
    CrossOver(dx, dy, MaxRatio(h));
    RoundedBelow(IdealWidth(h, height), width - RealBaseWidth(h));
  }

  lemma Cross(dx: real, dy: real, m: real)
    requires dx > 0.0 && dy > 0.0 && m > 0.0 && dx / dy < m
    ensures 0.0 < dx / m < dy
  {
    var q, p := dx / dy, dx / m;
    assert dx == q * dy && dx == p * m;
    Less(q, m, dy);
    Cancelled(p, dy, m);
    Cancelled(0.0, p, m);
  }

  lemma Less(a: real, b: real, c: real)
    requires a < b && c > 0.0
    ensures a * c < b * c
  {
  }

  lemma Cancelled(a: real, b: real, c: real)
    requires a * c < b * c && c > 0.0
    ensures a < b
  {
  }

  lemma CrossOver(dx: real, dy: real, m: real)
    requires dx > 0.0 && dy > 0.0 && m > 0.0 && dx / dy > m
    ensures 0.0 < dy * m < dx
  {
    var q := dx / dy;
    assert dx == q * dy;
    Less(m, q, dy);
  }

  /** Rounding what lies between 0 and a whole number gives neither less nor more than those. */
  lemma RoundedBelow(x: real, n: int)
    requires 0.0 < x < n as real
    ensures 0 <= Rounded(x) <= n
    ensures WithinHalf(Rounded(x), x)
  {
  }

  // ----- all of it

  function AtLeast(n: int, l: Limits): int {
    U16(if n < l.min then l.min else n)
  }

  function AtMost(n: int, l: Limits): int {
    if l.max == 0 then n else U16(if l.max < n then l.max else n)
  }

  /** What is left of a size above the base, with unsigned subtraction. */
  function Excess(n: int, base: int, inc: int): int
    requires inc != 0
  {
    (if base > n then 0 else U16(n - base)) % Magnitude(inc)
  }

  function Clamped(n: int, l: Limits): int {
    AtMost(AtLeast(n, l), l)
  }

  /** One dimension, with the 16-bit field in which the intermediate results are kept. */
  function AppliedTo(n: int, l: Limits): int {
    var b := Clamped(n, l);
    if l.inc == 0 then b else U16(b - Excess(b, l.base, l.inc))
  }

  /** The geometry of the frame for the one asked for. */
  function Applied(h: Hints, bars: Bars, a: Area): Area {
    var g := Inside(a, bars);
    var (w, t) := Aspect(h, g.width, g.height);
    Around(Area(g.x, g.y, AppliedTo(U16(w), WidthLimits(h)), AppliedTo(U16(t), HeightLimits(h))), bars)
  }

  lemma AppliedIsSnapped(n: int, l: Limits)
    requires SaneLimits(l) && IsU16(n)
    ensures AppliedTo(n, l) == Snapped(Clamp(n, l), l) && IsU16(AppliedTo(n, l))
  {
    assert l.inc == 0 ==> Snapped(Clamp(n, l), l) == Clamp(n, l);
    var a := if n < l.min then l.min else n;
    var b := Clamp(n, l);
    InU16(a);
    InU16(b);
    if l.inc != 0 {
      CutFits(b, l);
    }
    hide U16, Excess, Snapped;
    assert Clamped(n, l) == b;
  }

  lemma CutFits(b: int, l: Limits)
    requires IsU16(b) && l.inc != 0 && l.base >= 0
    ensures U16(b - Excess(b, l.base, l.inc)) == Snapped(b, l)
  {
    var t := if l.base > b then 0 else b - l.base;
    InU16(t);
    Remainder(t, Magnitude(l.inc));
    InU16(b - t % Magnitude(l.inc));
    hide U16;
  }

  lemma Remainder(t: nat, m: nat)
    requires m > 0
    ensures 0 <= t % m <= t
    ensures t == 0 ==> t % m == 0
  {
  }

  /**
   The minimum is kept, whatever is asked for, if and only if a window can have it, the maximum allows it, and the
   increments cannot take a size below it: it is not above the base or lies on the grid.
   */
  lemma MinimumKept(l: Limits)
    requires Grounded(l) && l.max >= 0
    ensures (forall n | IsU16(n) :: l.min <= AppliedTo(n, l)) <==>
      l.min < 0x1_0000 && (l.max == 0 || l.min <= l.max) && (l.inc == 0 || l.min <= l.base || OnGrid(l.min, l))
  {
    var good := (l.max == 0 || l.min <= l.max) && (l.inc == 0 || l.min <= l.base || OnGrid(l.min, l));
    if l.min >= 0x1_0000 {
      HugeMinimumWraps(0, l);
    } else if good {
      forall n | IsU16(n) ensures l.min <= AppliedTo(n, l) {
        AppliedToMeets(n, l);
        AboveMinimum(AppliedTo(n, l), n, l);
      }
    } else {
      MinimumLost(l);
    }
  }

  lemma MinimumLost(l: Limits)
    requires SaneLimits(l)
    requires !((l.max == 0 || l.min <= l.max) && (l.inc == 0 || l.min <= l.base || OnGrid(l.min, l)))
    ensures exists n :: IsU16(n) && AppliedTo(n, l) < l.min
  {
    var n := if l.min < 0 then 0 else l.min;
    if l.min >= 0 {
      var r := BelowMinimum(l);
      AppliedToMeets(n, l);
      MeetsUnique(AppliedTo(n, l), r, n, l);
      assert IsU16(n) && AppliedTo(n, l) < l.min;
    }
  }

  /** A minimum that no window can have wraps: every request gets the same size, below the minimum. */
  lemma HugeMinimumWraps(n: int, l: Limits)
    requires IsU16(n) && l.min >= 0x1_0000
    ensures AppliedTo(n, l) == AppliedTo(0, l) < l.min
    ensures l == Limits(0, 0x1_0000, 0, 0) ==> AppliedTo(n, l) == 0
  {
    AppliedFits(n, l);
  }

  /** So does a negative maximum. */
  lemma NegativeMaximumWraps(n: int, l: Limits)
    requires IsU16(n) && l.max < 0
    ensures AppliedTo(n, l) == AppliedTo(0, l)
  {
    assert U16(n) == n;
  }

  lemma AppliedFits(n: int, l: Limits)
    requires IsU16(n)
    ensures IsU16(AppliedTo(n, l))
  {
    hide U16;
  }

  lemma AppliedToMeets(n: int, l: Limits)
    requires SaneLimits(l) && IsU16(n)
    ensures Meets(AppliedTo(n, l), n, l)
  {
    AppliedIsSnapped(n, l);
    SnappedMeets(n, l);
  }

  // ----- a grid from a negative base on

  /** The distance of a size from the base, as the field holds it. */
  function Above(b: int, l: Limits): int {
    U16(b - l.base)
  }

  /** The place on the grid, counted from a negative base. */
  function Cell(b: int, l: Limits): int
    requires l.inc != 0
  {
    Above(b, l) / Magnitude(l.inc)
  }

  /** Cutting to the grid gives the number of the cell, also where the result wraps. */
  lemma CutIsCell(b: int, l: Limits)
    requires !Grounded(l) && IsU16(b)
    ensures Excess(b, l.base, l.inc) == Above(b, l) % Magnitude(l.inc)
    ensures Above(U16(b - Excess(b, l.base, l.inc)), l) == Cell(b, l) * Magnitude(l.inc)
  {
    var v, m := Above(b, l), Magnitude(l.inc);
    var rest := v % m;
    assert v == v / m * m + rest;
    Remainder(v, m);
    WrapSum(-l.base, b - rest);
    WrapSum(-rest, b - l.base);
    InU16(v - rest);
    hide U16;
  }

  /** Two sizes come out the same just if they lie in one cell. */
  lemma CellDecides(b: int, c: int, l: Limits)
    requires !Grounded(l) && IsU16(b) && IsU16(c)
    ensures U16(b - Excess(b, l.base, l.inc)) == U16(c - Excess(c, l.base, l.inc)) <==> Cell(b, l) == Cell(c, l)
  {
    var r, s := U16(b - Excess(b, l.base, l.inc)), U16(c - Excess(c, l.base, l.inc));
    CutIsCell(b, l);
    CutIsCell(c, l);
    UnwrapU16(r, -l.base);
    UnwrapU16(s, -l.base);
    SameProduct(Cell(b, l), Cell(c, l), Magnitude(l.inc));
    hide U16, Excess, Cell;
  }

  lemma SameProduct(a: int, b: int, m: int)
    requires m > 0
    ensures a * m == b * m <==> a == b
  {
  }

  lemma ClampedFits(n: int, l: Limits)
    requires IsU16(n)
    ensures IsU16(Clamped(n, l))
  {
    hide U16;
  }

  /** The size that came out lies in the cell from which it was cut. */
  lemma CellOfResult(n: int, l: Limits)
    requires !Grounded(l) && IsU16(n)
    ensures IsU16(AppliedTo(n, l)) && Cell(AppliedTo(n, l), l) == Cell(Clamped(n, l), l)
  {
    ClampedFits(n, l);
    CutIsCell(Clamped(n, l), l);
    var k, m := Cell(Clamped(n, l), l), Magnitude(l.inc);
    WholeCells(k, m);
    hide U16, Clamped, Excess;
  }

  lemma WholeCells(k: int, m: int)
    requires m > 0
    ensures k * m / m == k
  {
    QuotientIs(k * m, k, 0, m);
  }

  /** Two requests come out the same just if their clamps lie in one cell. */
  lemma SameCell(n: int, k: int, l: Limits)
    requires !Grounded(l) && IsU16(n) && IsU16(k)
    ensures AppliedTo(n, l) == AppliedTo(k, l) <==> Cell(Clamped(n, l), l) == Cell(Clamped(k, l), l)
  {
    ClampedFits(n, l);
    ClampedFits(k, l);
    CellDecides(Clamped(n, l), Clamped(k, l), l);
    hide U16, Clamped, Excess, Cell;
  }

  // ----- asking for what was given

  /**
   What is given for n is given again. That can only fail on a grid from a negative base: when the cut goes below
   0, wraps beyond the maximum, and the maximum lies in another cell.
   */
  predicate Repeats(n: int, l: Limits) {
    || Grounded(l) || l.max <= 0 || l.min >= 0x1_0000
    || (var b := Clamped(n, l);
        var e := Excess(b, l.base, l.inc);
        e <= b || b - e + 0x1_0000 <= l.max || Cell(l.max, l) == Cell(b, l))
  }

  lemma AppliedTwice(n: int, l: Limits)
    requires IsU16(n)
    ensures IsU16(AppliedTo(n, l))
    ensures AppliedTo(AppliedTo(n, l), l) == AppliedTo(n, l) <==> Repeats(n, l)
  {
    AppliedFits(n, l);
    if Grounded(l) {
      GroundedTwice(n, l);
    } else if l.min >= 0x1_0000 {
      HugeMinimumWraps(n, l);
      HugeMinimumWraps(AppliedTo(n, l), l);
    } else if l.max < 0 {
      NegativeMaximumWraps(n, l);
      NegativeMaximumWraps(AppliedTo(n, l), l);
    } else {
      SameCell(AppliedTo(n, l), n, l);
      CellOfResult(n, l);
      ClampedAgain(n, l);
      hide AppliedTo, Cell, Clamped, Excess;
    }
  }

  lemma GroundedTwice(n: int, l: Limits)
    requires Grounded(l) && IsU16(n)
    ensures AppliedTo(AppliedTo(n, l), l) == AppliedTo(n, l)
  {
    AppliedFits(n, l);
    MeetsOrConstant(n, l);
    MeetsOrConstant(AppliedTo(n, l), l);
    hide AppliedTo, Meets;
    if SaneLimits(l) {
      MeetsAgain(AppliedTo(n, l), AppliedTo(AppliedTo(n, l), l), n, l);
    }
  }

  /** Where the clamp of the result lies. */
  lemma ClampedAgain(n: int, l: Limits)
    requires !Grounded(l) && IsU16(n) && l.min < 0x1_0000 && l.max >= 0
    ensures var (b, r) := (Clamped(n, l), AppliedTo(n, l));
      Cell(Clamped(r, l), l) == Cell(b, l) <==> Repeats(n, l)
  {
    var b, r := Clamped(n, l), AppliedTo(n, l);
    var e := Excess(b, l.base, l.inc);
    assert r == U16(b - e);
    hide Cell, Excess, U16, AppliedTo, Clamped;
    ClampedFits(n, l);
    ExcessFits(b, l);
    CellOfResult(n, l);
    SaneClamp(n, l);
    SaneClamp(r, l);
    CutOrWrapped(b, e);
    if e <= b && Clamped(r, l) != r {
      BetweenCells(b, Clamped(r, l), l);
    }
  }

  lemma SaneClamp(n: int, l: Limits)
    requires IsU16(n) && l.min < 0x1_0000 && l.max >= 0
    ensures Clamped(n, l) == Clamp(n, l)
  {
    var a := if n < l.min then l.min else n;
    InU16(a);
    InU16(Clamp(n, l));
    hide U16;
  }

  lemma CutOrWrapped(b: int, e: int)
    requires IsU16(b) && IsU16(e)
    ensures U16(b - e) == if e <= b then b - e else b - e + 0x1_0000
  {
  }

  /** Between a size and what it is cut to there is no other cell. */
  lemma BetweenCells(b: int, c: int, l: Limits)
    requires !Grounded(l) && IsU16(b) && b - Excess(b, l.base, l.inc) <= c <= b && 0 <= c
    ensures Cell(c, l) == Cell(b, l) && Excess(c, l.base, l.inc) == Excess(b, l.base, l.inc) - (b - c)
  {
    CutIsCell(b, l);
    CutIsCell(c, l);
    var v, m := Above(b, l), Magnitude(l.inc);
    WrapSum(-(b - c), b - l.base);
    Remainder(v, m);
    InU16(v - (b - c));
    assert Above(c, l) == v - (b - c);
    SameQuotient(v, b - c, m);
    hide U16, Excess;
  }

  lemma SameQuotient(v: nat, d: nat, m: nat)
    requires m > 0 && d <= v % m
    ensures v - d >= 0 && (v - d) / m == v / m && (v - d) % m == v % m - d
  {
    assert v == v / m * m + v % m;
    Quotient(v, m);
    QuotientIs(v - d, v / m, v % m - d, m);
  }

  lemma QuotientIs(v: int, q: int, rest: int, m: int)
    requires m > 0 && 0 <= rest < m && v == q * m + rest
    ensures v / m == q && v % m == rest
  {
    var p, s := v / m, v % m;
    assert v == p * m + s && 0 <= s < m;
    assert (q - p) * m == q * m - p * m;
    Multiples(q - p, m);
  }

  lemma Multiples(d: int, m: int)
    requires m > 0
    ensures d >= 1 ==> d * m >= m
    ensures d <= -1 ==> d * m <= -m
  {
    if d >= 1 {
      assert (d - 1) * m >= 0 && d * m == (d - 1) * m + m;
    } else if d <= -1 {
      assert (-d - 1) * m >= 0 && d * m == -((-d - 1) * m) - m;
    }
  }

  /** With a negative base the size that was given need not be given again. */
  lemma NegativeBaseDrifts(l: Limits)
    requires l == Limits(-3, 0, 150, 100)
    ensures AppliedTo(5, l) == 65533 && AppliedTo(65533, l) == 97 && !Repeats(5, l)
  {
  }

  /**
   The minimum is kept for all requests if and only if it is kept when it is asked for, whatever the hints are: a
   minimum that is not positive is always kept, and one that is too large for the field never.
   */
  lemma MinimumDecides(l: Limits)
    ensures (forall n | IsU16(n) :: l.min <= AppliedTo(n, l)) <==>
      l.min <= 0 || (l.min < 0x1_0000 && l.min <= AppliedTo(l.min, l))
  {
    if l.min >= 0x1_0000 {
      HugeMinimumWraps(0, l);
    } else if 0 < l.min <= AppliedTo(l.min, l) {
      forall n | IsU16(n) ensures l.min <= AppliedTo(n, l) {
        MinimumKeptFor(n, l);
      }
    } else if l.min <= 0 {
      forall n | IsU16(n) ensures l.min <= AppliedTo(n, l) {
        AppliedFits(n, l);
      }
    } else {
      assert IsU16(l.min);
    }
  }

  lemma MinimumKeptFor(n: int, l: Limits)
    requires IsU16(n) && 0 < l.min < 0x1_0000 && l.min <= AppliedTo(l.min, l)
    ensures l.min <= AppliedTo(n, l)
  {
    if l.max < 0 {
      NegativeMaximumWraps(n, l);
      NegativeMaximumWraps(l.min, l);
    } else if Grounded(l) {
      MinimumKept(l);
      if !(forall k | IsU16(k) :: l.min <= AppliedTo(k, l)) {
        MinimumLostAtOnce(l);
      }
    } else {
      MinimumCutFor(n, l);
    }
  }

  lemma MinimumCutFor(n: int, l: Limits)
    requires IsU16(n) && 0 < l.min < 0x1_0000 && l.min <= AppliedTo(l.min, l) && !Grounded(l) && l.max >= 0
    ensures l.min <= AppliedTo(n, l)
  {
    hide Excess, U16, Clamped;
    SaneClamp(n, l);
    SaneClamp(l.min, l);
    ClampedFits(n, l);
    if Clamp(n, l) != Clamp(l.min, l) {
      KeptAbove(Clamp(n, l), l);
    }
  }

  lemma MinimumLostAtOnce(l: Limits)
    requires SaneLimits(l) && 0 < l.min
    requires !((l.max == 0 || l.min <= l.max) && (l.inc == 0 || l.min <= l.base || OnGrid(l.min, l)))
    ensures AppliedTo(l.min, l) < l.min
  {
    var r := BelowMinimum(l);
    AppliedToMeets(l.min, l);
    MeetsUnique(AppliedTo(l.min, l), r, l.min, l);
  }

  /** A clamp above the minimum: if it were cut below, so would be the minimum. */
  lemma KeptAbove(b: int, l: Limits)
    requires !Grounded(l) && IsU16(b) && 0 < l.min < b
    requires l.min <= U16(l.min - Excess(l.min, l.base, l.inc))
    ensures l.min <= U16(b - Excess(b, l.base, l.inc))
  {
    var e, d := Excess(b, l.base, l.inc), Excess(l.min, l.base, l.inc);
    ExcessFits(b, l);
    ExcessFits(l.min, l);
    CutOrWrapped(b, e);
    CutOrWrapped(l.min, d);
    if b - e < l.min {
      BetweenCells(b, l.min, l);
    }
    hide U16, Excess;
  }

  lemma ExcessFits(b: int, l: Limits)
    requires l.inc != 0
    ensures IsU16(Excess(b, l.base, l.inc))
  {
    var v := if l.base > b then 0 else U16(b - l.base);
    Remainder(v, Magnitude(l.inc));
  }

  // ----- the frame

  predicate NoNegativeBase(h: Hints) {
    WidthLimits(h).base >= 0 && HeightLimits(h).base >= 0
  }

  /** What the aspect ratio leaves still fits the fields. */
  lemma AspectFits(h: Hints, width: int, height: int)
    requires NoNegativeBase(h) && IsU16(width) && IsU16(height)
    ensures var (w, t) := Aspect(h, width, height); IsU16(w) && IsU16(t) && U16(w) == w && U16(t) == t
  {
    if ChecksAspect(h, width, height) {
      AspectShrinks(h, width, height);
    }
    var (w, t) := Aspect(h, width, height);
    assert IsU16(w) && IsU16(t) by {
      hide MinRatio, MaxRatio, ChecksAspect;
    }
    InU16(w);
    InU16(t);
  }

  /** The inside of the frame that is the answer: each dimension for itself, and the place as it was. */
  lemma AppliedInside(h: Hints, bars: Bars, a: Area)
    requires Ranged(a)
    ensures var g := Inside(a, bars);
      var (w, t) := Aspect(h, g.width, g.height);
      Inside(Applied(h, bars, a), bars)
        == Area(g.x, g.y, AppliedTo(U16(w), WidthLimits(h)), AppliedTo(U16(t), HeightLimits(h)))
  {
    var g := Inside(a, bars);
    var (w, t) := Aspect(h, g.width, g.height);
    AppliedFits(U16(w), WidthLimits(h));
    AppliedFits(U16(t), HeightLimits(h));
    assert Ranged(g);
    hide U16, S16, Aspect, AppliedTo, WidthLimits, HeightLimits, ChecksAspect, Inside, Around;
    InsideAround(Area(g.x, g.y, AppliedTo(U16(w), WidthLimits(h)), AppliedTo(U16(t), HeightLimits(h))), bars);
  }

  /**
   What a dimension becomes: the largest size that the hints allow, or the clamp; on a grid from a negative base
   what lies at the start of the cell of the clamp, counted around the field; and one size for all requests where
   the minimum is one that no window can have, or the maximum is negative.
   */
  ghost predicate Answers(r: int, n: int, l: Limits) {
    if !Grounded(l) then IsU16(r) && Above(r, l) == Cell(Clamped(n, l), l) * Magnitude(l.inc)
    else if SaneLimits(l) then Meets(r, n, l)
    else r == AppliedTo(0, l)
  }

  /** So does each dimension of the inside, for what the aspect ratio left of it; its place does not change. */
  lemma AppliedMeets(h: Hints, bars: Bars, a: Area)
    requires Ranged(a)
    ensures var g, r := Inside(a, bars), Inside(Applied(h, bars, a), bars);
      var (w, t) := Aspect(h, g.width, g.height);
      && r.x == g.x && r.y == g.y
      && Answers(r.width, U16(w), WidthLimits(h)) && Answers(r.height, U16(t), HeightLimits(h))
      && (NoNegativeBase(h) ==> U16(w) == w && U16(t) == t)
  {
    var g := Inside(a, bars);
    var (w, t) := Aspect(h, g.width, g.height);
    AppliedInside(h, bars, a);
    if NoNegativeBase(h) {
      AspectFits(h, g.width, g.height);
    }
    hide U16, Aspect, AppliedTo, Answers, WidthLimits, HeightLimits, ChecksAspect, Inside, Around, Applied;
    AppliedAnswers(U16(w), WidthLimits(h));
    AppliedAnswers(U16(t), HeightLimits(h));
  }

  lemma AppliedAnswers(n: int, l: Limits)
    requires IsU16(n)
    ensures Answers(AppliedTo(n, l), n, l)
  {
    if Grounded(l) {
      MeetsOrConstant(n, l);
    } else {
      AppliedFits(n, l);
      ClampedFits(n, l);
      CutIsCell(Clamped(n, l), l);
    }
    hide Meets, Clamped, Excess;
  }

  lemma MeetsOrConstant(n: int, l: Limits)
    requires Grounded(l) && IsU16(n)
    ensures if SaneLimits(l) then Meets(AppliedTo(n, l), n, l) else AppliedTo(n, l) == AppliedTo(0, l)
  {
    if SaneLimits(l) {
      AppliedToMeets(n, l);
    } else if l.max < 0 {
      NegativeMaximumWraps(n, l);
    } else {
      HugeMinimumWraps(n, l);
    }
  }

  /** Without an aspect ratio, asking again for what was given changes nothing just if each dimension repeats. */
  lemma AppliedAgain(h: Hints, bars: Bars, a: Area)
    requires Ranged(a) && !h.hasAspect
    ensures var g := Inside(a, bars);
      Applied(h, bars, Applied(h, bars, a)) == Applied(h, bars, a) <==>
        Repeats(g.width, WidthLimits(h)) && Repeats(g.height, HeightLimits(h))
  {
    var g, r := Inside(a, bars), Inside(Applied(h, bars, a), bars);
    assert Aspect(h, g.width, g.height) == (g.width, g.height) && Aspect(h, r.width, r.height) == (r.width, r.height);
    hide *;
    SameInside(h, bars, a);
    InU16(g.width);
    InU16(g.height);
    InU16(r.width);
    InU16(r.height);
    AppliedTwice(g.width, WidthLimits(h));
    AppliedTwice(g.height, HeightLimits(h));
  }

  // ----- asking again with an aspect ratio

  /** Cutting to the aspect ratio would leave a size as it is: it is within half a pixel of the ideal one. */
  predicate AspectStays(h: Hints, width: int, height: int) {
    ChecksAspect(h, width, height) ==>
      if Ratio(h, width, height) < MinRatio(h) then Rounded(IdealHeight(h, width)) == height - RealBaseHeight(h)
      else Ratio(h, width, height) > MaxRatio(h) ==> Rounded(IdealWidth(h, height)) == width - RealBaseWidth(h)
  }

  /** A size to which the hints have been applied comes out again unless its too large dimension is cut, and
      neither the minimum nor a negative maximum holds it. */
  predicate Stable(h: Hints, width: int, height: int) {
    || AspectStays(h, width, height)
    || (if Ratio(h, width, height) < MinRatio(h) then Held(height, HeightLimits(h)) else Held(width, WidthLimits(h)))
  }

  predicate Held(n: int, l: Limits) {
    n <= l.min || l.max < 0
  }

  /** Asking for less than what was given gives the same just if the minimum holds it. */
  lemma LessAgain(r: int, n: int, m: int, l: Limits)
    requires Meets(r, n, l) && m < r
    ensures Meets(r, m, l) <==> r <= l.min
  {
    var c, d := Clamp(n, l), Clamp(m, l);
    if l.inc != 0 && c >= l.base {
      GridIsAbove(r, l);
      if r <= l.min {
        assert r <= d <= c;
      }
    }
  }

  lemma GridIsAbove(n: int, l: Limits)
    requires OnGrid(n, l)
    ensures l.base <= n
  {
    var k: nat :| n == GridSize(l, k);
    if k > 0 {
      StepUp(0, k, l);
    }
  }

  /** Asking for m gives the size r that was given before. */
  predicate Again(m: int, r: int, l: Limits) {
    if !Grounded(l) then Cell(Clamped(m, l), l) == Cell(r, l)
    else if m > r then Clamped(m, l) == r
    else m == r || Held(r, l)
  }

  lemma AgainIs(n: int, m: int, l: Limits)
    requires IsU16(n) && IsU16(m) && (m <= AppliedTo(n, l) || l.inc == 0 || l.base < 0)
    ensures AppliedTo(m, l) == AppliedTo(n, l) <==> Again(m, AppliedTo(n, l), l)
  {
    if !Grounded(l) {
      SameCell(m, n, l);
      CellOfResult(n, l);
    } else if m < AppliedTo(n, l) {
      LessApplied(n, m, l);
    } else if m == AppliedTo(n, l) {
      GroundedTwice(n, l);
    }
    hide Cell, Excess;
  }

  /** Asking for less than was given gives the same just if the minimum holds it, or all requests get the same. */
  lemma LessApplied(n: int, m: int, l: Limits)
    requires Grounded(l) && IsU16(n) && IsU16(m) && m < AppliedTo(n, l)
    ensures AppliedTo(m, l) == AppliedTo(n, l) <==> Held(AppliedTo(n, l), l)
  {
    MeetsOrConstant(n, l);
    MeetsOrConstant(m, l);
    if SaneLimits(l) {
      LessMeets(AppliedTo(n, l), AppliedTo(m, l), n, m, l);
    } else {
      AppliedFits(n, l);
    }
  }

  /**
   Asking again for what was given, also with an aspect ratio: nothing changes exactly if what the ratio leaves of
   each dimension gives that dimension again; without a negative base, exactly for a stable size.
   */
  lemma AppliedAgainExactly(h: Hints, bars: Bars, a: Area)
    requires Ranged(a)
    ensures var r := Applied(h, bars, a);
      var g := Inside(r, bars);
      var (w, t) := Aspect(h, g.width, g.height);
      && (Applied(h, bars, r) == r <==>
            Again(U16(w), g.width, WidthLimits(h)) && Again(U16(t), g.height, HeightLimits(h)))
      && (NoNegativeBase(h) ==> (Applied(h, bars, r) == r <==> Stable(h, g.width, g.height)))
  {
    var o, g := Inside(a, bars), Inside(Applied(h, bars, a), bars);
    assert Ranged(o) && Ranged(g);
    hide *;
    SameInside(h, bars, a);
    SecondSize(h, U16(Aspect(h, o.width, o.height).0), U16(Aspect(h, o.width, o.height).1), g);
    if NoNegativeBase(h) {
      AspectFits(h, g.width, g.height);
      StableMeans(h, g.width, g.height);
    }
  }

  /** The answer to what was given is the same just if its inside is. */
  lemma SameInside(h: Hints, bars: Bars, a: Area)
    requires Ranged(a)
    ensures var g, r := Inside(a, bars), Inside(Applied(h, bars, a), bars);
      var ((w, t), (w2, t2)) := (Aspect(h, g.width, g.height), Aspect(h, r.width, r.height));
      && IsU16(g.width) && IsU16(g.height) && IsU16(r.width) && IsU16(r.height)
      && IsU16(U16(w)) && IsU16(U16(t))
      && r.width == AppliedTo(U16(w), WidthLimits(h)) && r.height == AppliedTo(U16(t), HeightLimits(h))
      && (Applied(h, bars, Applied(h, bars, a)) == Applied(h, bars, a) <==>
            AppliedTo(U16(w2), WidthLimits(h)) == r.width && AppliedTo(U16(t2), HeightLimits(h)) == r.height)
  {
    var b := Applied(h, bars, a);
    assert Ranged(b) && Ranged(Inside(a, bars)) && Ranged(Inside(b, bars)) && Ranged(Applied(h, bars, b));
    hide *;
    AppliedInside(h, bars, a);
    AppliedInside(h, bars, b);
    AroundInside(b, bars);
    AroundInside(Applied(h, bars, b), bars);
  }

  /** g came out for w and t, and is asked for again. */
  lemma SecondSize(h: Hints, w: int, t: int, g: Area)
    requires IsU16(w) && IsU16(t) && IsU16(g.width) && IsU16(g.height)
    requires g.width == AppliedTo(w, WidthLimits(h)) && g.height == AppliedTo(t, HeightLimits(h))
    ensures var (w2, t2) := Aspect(h, g.width, g.height);
      var (wl, tl) := (WidthLimits(h), HeightLimits(h));
      && (AppliedTo(U16(w2), wl) == g.width <==> Again(U16(w2), g.width, wl))
      && (AppliedTo(U16(t2), tl) == g.height <==> Again(U16(t2), g.height, tl))
  {
    var (w2, t2) := Aspect(h, g.width, g.height);
    AspectBelow(h, g.width, g.height);
    hide Aspect, AppliedTo, U16, WidthLimits, HeightLimits, Again;
    AgainIs(w, U16(w2), WidthLimits(h));
    AgainIs(t, U16(t2), HeightLimits(h));
  }

  /** A dimension without a negative base is not made larger. */
  lemma AspectBelow(h: Hints, width: int, height: int)
    requires IsU16(width) && IsU16(height)
    ensures var (w, t) := Aspect(h, width, height);
      (WidthLimits(h).base >= 0 ==> U16(w) <= width) && (HeightLimits(h).base >= 0 ==> U16(t) <= height)
  {
    var (w, t) := Aspect(h, width, height);
    if ChecksAspect(h, width, height) {
      AspectShrinks(h, width, height);
    }
    assert WidthLimits(h).base >= 0 ==> IsU16(w) by {
      hide MinRatio, MaxRatio, ChecksAspect;
    }
    assert HeightLimits(h).base >= 0 ==> IsU16(t) by {
      hide MinRatio, MaxRatio, ChecksAspect;
    }
    assert w <= width && t <= height;
    hide Aspect;
    if IsU16(w) {
      InU16(w);
    }
    if IsU16(t) {
      InU16(t);
    }
  }

  lemma StableMeans(h: Hints, width: int, height: int)
    requires NoNegativeBase(h)
    ensures var (w, t) := Aspect(h, width, height);
      Stable(h, width, height) <==> Again(w, width, WidthLimits(h)) && Again(t, height, HeightLimits(h))
  {
    AspectMoves(h, width, height);
    hide Aspect, WidthLimits, HeightLimits, ChecksAspect, AspectStays, Ratio, MinRatio, Clamped;
  }

  lemma LessMeets(r: int, s: int, n: int, m: int, l: Limits)
    requires Meets(r, n, l) && Meets(s, m, l) && m < r
    ensures s == r <==> r <= l.min
  {
    LessAgain(r, n, m, l);
    hide Meets;
    if Meets(r, m, l) {
      MeetsUnique(r, s, m, l);
    }
  }

  /** Which dimension the aspect ratio cuts, if any. */
  lemma AspectMoves(h: Hints, width: int, height: int)
    ensures var (w, t) := Aspect(h, width, height);
      && w <= width && t <= height
      && (AspectStays(h, width, height) <==> w == width && t == height)
      && (!AspectStays(h, width, height) ==>
        if Ratio(h, width, height) < MinRatio(h) then w == width && t < height else w < width && t == height)
  {
    if ChecksAspect(h, width, height) {
      AspectShrinks(h, width, height);
    }
    hide Rounded, IdealHeight, IdealWidth, WithinHalf, MinRatio, MaxRatio, RealBaseWidth, RealBaseHeight;
  }

  /** With an aspect ratio of 3 to 10 a request for 10 x 4 gives 1 x 4, and asking for that gives 1 x 3. */
  lemma SecondCut(h: Hints)
    requires h == Hints(false, false, false, true, false, 0, 0, 0, 0, 0, 0, 3, 10, 3, 10, 0, 0)
    ensures NoNegativeBase(h)
    ensures Applied(h, Bars(0, 0, 0, 0), Area(0, 0, 10, 4)) == Area(0, 0, 1, 4)
    ensures Applied(h, Bars(0, 0, 0, 0), Area(0, 0, 1, 4)) == Area(0, 0, 1, 3)
  {
    CutTooWide(h);
    CutTooNarrow(h);
    hide Aspect;
    OnlyAspect(h, 10, 4);
    OnlyAspect(h, 1, 4);
  }

  lemma CutTooWide(h: Hints)
    requires h.hasAspect && !h.hasBase
    requires h.minAspectNum == h.maxAspectNum == 3 && h.minAspectDen == h.maxAspectDen == 10
    ensures Aspect(h, 10, 4) == (1, 4)
  {
    assert MinRatio(h) == MaxRatio(h) == 0.3 && Ratio(h, 10, 4) == 2.5;
    assert IdealWidth(h, 4) == 1.2;
  }

  lemma CutTooNarrow(h: Hints)
    requires h.hasAspect && !h.hasBase
    requires h.minAspectNum == h.maxAspectNum == 3 && h.minAspectDen == h.maxAspectDen == 10
    ensures Aspect(h, 1, 4) == (1, 3)
  {
    assert MinRatio(h) == MaxRatio(h) == 0.3 && Ratio(h, 1, 4) == 0.25;
    assert IdealHeight(h, 1) == 10.0 / 3.0;
  }

  /** Without other hints and titlebars the aspect ratio decides alone. */
  lemma OnlyAspect(h: Hints, width: int, height: int)
    requires !h.hasMin && !h.hasMax && !h.hasBase && !h.hasInc && IsU16(width) && IsU16(height)
    requires IsU16(Aspect(h, width, height).0) && IsU16(Aspect(h, width, height).1)
    ensures Applied(h, Bars(0, 0, 0, 0), Area(0, 0, width, height))
         == Area(0, 0, Aspect(h, width, height).0, Aspect(h, width, height).1)
  {
    InU16(width);
    InU16(height);
    InU16(Aspect(h, width, height).0);
    InU16(Aspect(h, width, height).1);
    InS16(0);
    hide U16, S16, Aspect;
  }
}
