/**
 Where a window moves when its decoration changes size, by its gravity (ICCCM section 4.1.2.3 and 4.1.5).
 */
module Gravity {
  import opened Geometry

  datatype Gravity =
    | Unmap | NorthWest | North | NorthEast | West | Center | East
    | SouthWest | South | SouthEast | Static | Unknown

  /** The point that stays where it is in one dimension. */
  datatype Anchor = Near | Middle | Far | Inner

  function Horizontal(g: Gravity): Anchor {
    match g
    case North | Center | South => Middle
    case NorthEast | East | SouthEast => Far
    case Static => Inner
    case _ => Near
  }

  function Vertical(g: Gravity): Anchor {
    match g
    case West | Center | East => Middle
    case SouthWest | South | SouthEast => Far
    case Static => Inner
    case _ => Near
  }

  /** Division by 2 in C cuts the fraction off. */
  function Half(n: int): int {
    if n >= 0 then n / 2 else -(-n / 2)
  }

  /** The move of a window that gains the given sizes before and after its inside. */
  function Shift(a: Anchor, before: int, after: int): int {
    ShiftBy(a, before, before + after)
  }

  /** The same by the size gained before and the size gained altogether. */
  function ShiftBy(a: Anchor, before: int, change: int): int {
    match a
    case Near => 0
    case Middle => Half(-change)
    case Far => -change
    case Inner => -before
  }

  /**
   xwindow_translate_for_gravity: the move by gravity, for the sizes gained as the 16-bit fields hold them. The
   fields only cost something in a middle, where half of a wrapped sum is not a wrapped half.
   */
  method TranslateForGravity(gravity: Gravity, widthBefore: int, heightBefore: int, widthAfter: int, heightAfter: int,
      dx: int, dy: int) returns (rx: int, ry: int)
    requires IsS16(widthBefore) && IsS16(heightBefore) && IsS16(widthAfter) && IsS16(heightAfter)
    requires IsS16(dx) && IsS16(dy)
    ensures MovedFrom(dx, dy, gravity, widthBefore, S16(widthBefore + widthAfter), heightBefore,
      S16(heightBefore + heightAfter), rx, ry)
    ensures rx == S16(dx + ShiftBy(Horizontal(gravity), widthBefore, S16(widthBefore + widthAfter)))
    ensures ry == S16(dy + ShiftBy(Vertical(gravity), heightBefore, S16(heightBefore + heightAfter)))
  {
    GravityMoves(dx, dy, gravity, widthBefore, S16(widthBefore + widthAfter), heightBefore,
      S16(heightBefore + heightAfter));
    var changeHeight := S16(heightBefore + heightAfter);
    var changeWidth := S16(widthBefore + widthAfter);
    WrapSum(dx, ShiftBy(Horizontal(gravity), widthBefore, changeWidth));
    WrapSum(dy, ShiftBy(Vertical(gravity), heightBefore, changeHeight));
    hide S16, ShiftBy, MovedFrom;
    var x, y := MoveFor(gravity, widthBefore, heightBefore, changeWidth, changeHeight);
    rx := S16(dx + x);
    ry := S16(dy + y);
  }

  /** The move itself, which is kept in 16-bit fields. */
  method MoveFor(gravity: Gravity, widthBefore: int, heightBefore: int, changeWidth: int, changeHeight: int)
    returns (x: int, y: int)
    ensures x == S16(ShiftBy(Horizontal(gravity), widthBefore, changeWidth))
    ensures y == S16(ShiftBy(Vertical(gravity), heightBefore, changeHeight))
  {
    x, y := 0, 0;
    InS16(0);
    hide S16, Half;
    match gravity {
      case North => {
        x := S16(Half(-changeWidth));
      }
      case NorthEast => {
        x := S16(-changeWidth);
      }
      case West => {
        y := S16(Half(-changeHeight));
      }
      case Center => {
        x := S16(Half(-changeWidth));
        y := S16(Half(-changeHeight));
      }
      case East => {
        x := S16(-changeWidth);
        y := S16(Half(-changeHeight));
      }
      case SouthWest => {
        y := S16(-changeHeight);
      }
      case South => {
        x := S16(Half(-changeWidth));
        y := S16(-changeHeight);
      }
      case SouthEast => {
        x := S16(-changeWidth);
        y := S16(-changeHeight);
      }
      case Static => {
        x := S16(-widthBefore);
        y := S16(-heightBefore);
      }
      case _ => {
      }
    }
  }

  // ----- one titlebar changes its size

  datatype Frame = Frame(area: Area, bars: Bars)

  datatype Hint = NoGravity | WinGravity(gravity: Gravity)

  function Gained(b: Bars, bar: Bar, size: int, which: Bar): int {
    if bar == which then size - Size(b, bar) else 0
  }

  /** The frame grows with the bar; without the hint its corner stays. */
  function BarResized(f: Frame, hint: Hint, bar: Bar, size: int): Frame {
    var (top, right) := (Gained(f.bars, bar, size, Top), Gained(f.bars, bar, size, Right));
    var (bottom, left) := (Gained(f.bars, bar, size, Bottom), Gained(f.bars, bar, size, Left));
    var g := if hint.WinGravity? then hint.gravity else Unknown;
    Frame(
      Area(f.area.x + Shift(Horizontal(g), left, right), f.area.y + Shift(Vertical(g), top, bottom),
        f.area.width + left + right, f.area.height + top + bottom),
      WithSize(f.bars, bar, size))
  }

  /** The same as the fields hold it: the change is cut to 16 bits before it is used. */
  function BarStored(f: Frame, hint: Hint, bar: Bar, size: int): Frame {
    var r := BarResized(f, hint, bar, Size(f.bars, bar) + S16(size - Size(f.bars, bar)));
    Frame(Stored(r.area), WithSize(f.bars, bar, size))
  }

  /** The resize stays within the 16-bit fields. */
  predicate NoOverflow(f: Frame, hint: Hint, bar: Bar, size: int) {
    IsS16(size - Size(f.bars, bar)) && Ranged(BarResized(f, hint, bar, size).area)
  }

  /** While nothing overflows the fields hold the frame that was meant. */
  lemma StoredAsMeant(f: Frame, hint: Hint, bar: Bar, size: int)
    requires NoOverflow(f, hint, bar, size)
    ensures BarStored(f, hint, bar, size) == BarResized(f, hint, bar, size)
  {
    InS16(size - Size(f.bars, bar));
    StoredRanged(BarResized(f, hint, bar, size).area);
    hide S16, U16, Shift;
  }

  function InnerWidth(f: Frame): int {
    f.area.width - f.bars.left - f.bars.right
  }

  function InnerHeight(f: Frame): int {
    f.area.height - f.bars.top - f.bars.bottom
  }

  /** Twice the place of the point that a gravity keeps, in one dimension. */
  function Twice(a: Anchor, pos: int, len: int, before: int): int {
    match a
    case Near => 2 * pos
    case Middle => 2 * pos + len
    case Far => 2 * (pos + len)
    case Inner => 2 * (pos + before)
  }

  function TwiceX(f: Frame, g: Gravity): int {
    Twice(Horizontal(g), f.area.x, f.area.width, f.bars.left)
  }

  function TwiceY(f: Frame, g: Gravity): int {
    Twice(Vertical(g), f.area.y, f.area.height, f.bars.top)
  }

  function Abs(n: int): nat {
    if n < 0 then -n else n
  }

  /** Twice a middle is the same to one, the middle to half a pixel. */
  predicate Close(m: int, n: int) {
    -1 <= m - n <= 1
  }

  /** What stays where it is on the root window when the frame f becomes r: a corner, the middle of a side to half a
      pixel, or the corner of the inside. */
  ghost predicate Stays(g: Gravity, f: Frame, r: Frame) {
    var (a, b) := (f.area, r.area);
    match g
    case North => Close(2 * b.x + b.width, 2 * a.x + a.width) && b.y == a.y
    case NorthEast => b.x + b.width == a.x + a.width && b.y == a.y
    case West => b.x == a.x && Close(2 * b.y + b.height, 2 * a.y + a.height)
    case Center => Close(2 * b.x + b.width, 2 * a.x + a.width) && Close(2 * b.y + b.height, 2 * a.y + a.height)
    case East => b.x + b.width == a.x + a.width && Close(2 * b.y + b.height, 2 * a.y + a.height)
    case SouthWest => b.x == a.x && b.y + b.height == a.y + a.height
    case South => Close(2 * b.x + b.width, 2 * a.x + a.width) && b.y + b.height == a.y + a.height
    case SouthEast => b.x + b.width == a.x + a.width && b.y + b.height == a.y + a.height
    case Static => b.x + r.bars.left == a.x + f.bars.left && b.y + r.bars.top == a.y + f.bars.top
    case _ => b.x == a.x && b.y == a.y
  }

  /** Each gravity keeps what it names; without one the corner stays. */
  lemma GravityStays(f: Frame, hint: Hint, bar: Bar, size: int)
    ensures Stays(if hint.WinGravity? then hint.gravity else NorthWest, f, BarResized(f, hint, bar, size))
  {
    hide Half;
    HalfOf(Size(f.bars, bar) - size);
  }

  lemma HalfOf(n: int)
    ensures Close(2 * Half(n), n) && Half(0) == 0
  {
  }

  /** The moves for the sizes gained before and altogether, by gravity. */
  ghost predicate Moves(g: Gravity, wb: int, dw: int, hb: int, dh: int, x: int, y: int) {
    match g
    case North => Close(2 * x, -dw) && y == 0
    case NorthEast => x == -dw && y == 0
    case West => x == 0 && Close(2 * y, -dh)
    case Center => Close(2 * x, -dw) && Close(2 * y, -dh)
    case East => x == -dw && Close(2 * y, -dh)
    case SouthWest => x == 0 && y == -dh
    case South => Close(2 * x, -dw) && y == -dh
    case SouthEast => x == -dw && y == -dh
    case Static => x == -wb && y == -hb
    case _ => x == 0 && y == 0
  }

  /** The place from (x0, y0) by such a move, as 16-bit fields hold it. */
  ghost predicate MovedFrom(x0: int, y0: int, g: Gravity, wb: int, dw: int, hb: int, dh: int, x: int, y: int) {
    exists dx, dy :: Moves(g, wb, dw, hb, dh, dx, dy) && x == S16(x0 + dx) && y == S16(y0 + dy)
  }

  lemma GravityMoves(x0: int, y0: int, g: Gravity, wb: int, dw: int, hb: int, dh: int)
    ensures MovedFrom(x0, y0, g, wb, dw, hb, dh,
      S16(x0 + ShiftBy(Horizontal(g), wb, dw)), S16(y0 + ShiftBy(Vertical(g), hb, dh)))
  {
    assert Moves(g, wb, dw, hb, dh, ShiftBy(Horizontal(g), wb, dw), ShiftBy(Vertical(g), hb, dh)) by {
      MoveIs(g, wb, dw, hb, dh);
    }
    hide S16, Moves, ShiftBy;
  }

  lemma MoveIs(g: Gravity, wb: int, dw: int, hb: int, dh: int)
    ensures Moves(g, wb, dw, hb, dh, ShiftBy(Horizontal(g), wb, dw), ShiftBy(Vertical(g), hb, dh))
  {
    HalfOf(-dw);
    HalfOf(-dh);
    hide Half;
  }

  /** The inside keeps its size, and the reference point its place: exactly at a corner or an inner corner. */
  lemma ReferencePointStays(f: Frame, g: Gravity, bar: Bar, size: int)
    ensures var r := BarResized(f, WinGravity(g), bar, size);
      && InnerWidth(r) == InnerWidth(f) && InnerHeight(r) == InnerHeight(f)
      && Abs(TwiceX(r, g) - TwiceX(f, g)) <= (if Horizontal(g).Middle? then 1 else 0)
      && Abs(TwiceY(r, g) - TwiceY(f, g)) <= (if Vertical(g).Middle? then 1 else 0)
  {
  }

  /** Resizing a bar and back restores everything, because halves are cut off towards zero both ways. */
  lemma ThereAndBack(f: Frame, hint: Hint, bar: Bar, size: int)
    ensures BarResized(BarResized(f, hint, bar, size), hint, bar, Size(f.bars, bar)) == f
  {
    HalfIsOdd(size - Size(f.bars, bar));
  }

  lemma HalfIsOdd(n: int)
    ensures Half(-n) == -Half(n)
  {
  }

  /** The frame after a number of bar resizes. */
  function AllResized(f: Frame, hint: Hint, steps: seq<(Bar, int)>): Frame {
    if steps == [] then f
    else
      var last := steps[|steps| - 1];
      BarResized(AllResized(f, hint, steps[..|steps| - 1]), hint, last.0, last.1)
  }

  /** The same as the fields hold it. */
  function AllStored(f: Frame, hint: Hint, steps: seq<(Bar, int)>): Frame {
    if steps == [] then f
    else
      var last := steps[|steps| - 1];
      BarStored(AllStored(f, hint, steps[..|steps| - 1]), hint, last.0, last.1)
  }

  /** None of the resizes overflows. */
  ghost predicate AllFit(f: Frame, hint: Hint, steps: seq<(Bar, int)>) {
    forall i | 0 <= i < |steps| :: NoOverflow(AllResized(f, hint, steps[..i]), hint, steps[i].0, steps[i].1)
  }

  lemma {:induction false} AllStoredAsMeant(f: Frame, hint: Hint, steps: seq<(Bar, int)>)
    requires AllFit(f, hint, steps)
    ensures AllStored(f, hint, steps) == AllResized(f, hint, steps)
  {
    if steps != [] {
      var n := |steps| - 1;
      forall i | 0 <= i < n
        ensures NoOverflow(AllResized(f, hint, steps[..n][..i]), hint, steps[..n][i].0, steps[..n][i].1)
      {
        assert steps[..n][..i] == steps[..i];
      }
      hide BarStored, BarResized, NoOverflow;
      AllStoredAsMeant(f, hint, steps[..n]);
      StoredAsMeant(AllResized(f, hint, steps[..n]), hint, steps[n].0, steps[n].1);
    }
  }

  lemma StoredNext(f: Frame, hint: Hint, steps: seq<(Bar, int)>, i: nat)
    requires i < |steps|
    ensures AllStored(f, hint, steps[..i + 1])
         == BarStored(AllStored(f, hint, steps[..i]), hint, steps[i].0, steps[i].1)
  {
    assert steps[..i + 1][..i] == steps[..i];
    hide BarStored;
  }

  lemma {:induction false} DriftIsBounded(f: Frame, g: Gravity, steps: seq<(Bar, int)>)
    ensures var r := AllResized(f, WinGravity(g), steps);
      && InnerWidth(r) == InnerWidth(f) && InnerHeight(r) == InnerHeight(f)
      && Abs(TwiceX(r, g) - TwiceX(f, g)) <= (if Horizontal(g).Middle? then |steps| else 0)
      && Abs(TwiceY(r, g) - TwiceY(f, g)) <= (if Vertical(g).Middle? then |steps| else 0)
  {
    if steps != [] {
      var n := |steps| - 1;
      DriftIsBounded(f, g, steps[..n]);
      var m := AllResized(f, WinGravity(g), steps[..n]);
      ReferencePointStays(m, g, steps[n].0, steps[n].1);
      hide BarResized, TwiceX, TwiceY, InnerWidth, InnerHeight;
    }
  }

  /**
   After n bar resizes that bring all bars back to their sizes the frame has its old size, and it has moved by
   at most n / 2 pixels; not at all in a dimension without a middle.
   */
  lemma RoundTripDrift(f: Frame, g: Gravity, steps: seq<(Bar, int)>)
    requires AllResized(f, WinGravity(g), steps).bars == f.bars
    ensures var r := AllResized(f, WinGravity(g), steps);
      && r.area.width == f.area.width && r.area.height == f.area.height
      && 2 * Abs(r.area.x - f.area.x) <= |steps| && 2 * Abs(r.area.y - f.area.y) <= |steps|
      && (!Horizontal(g).Middle? ==> r.area.x == f.area.x) && (!Vertical(g).Middle? ==> r.area.y == f.area.y)
  {
    DriftIsBounded(f, g, steps);
  }

  /** The bound is reached: two half pixels lost on the way out are not found on the way back. */
  lemma DriftHappens()
    ensures var f := Frame(Area(10, 10, 100, 100), Bars(0, 0, 0, 0));
      var r := AllResized(f, WinGravity(North), [(Left, 1), (Left, 2), (Left, 0)]);
      r.bars == f.bars && r.area.x == f.area.x + 1
  {
    var f := Frame(Area(10, 10, 100, 100), Bars(0, 0, 0, 0));
    var s := [(Left, 1), (Left, 2), (Left, 0)];
    assert s[..2] == [(Left, 1), (Left, 2)] && s[..2][..1] == [(Left, 1)];
    assert AllResized(f, WinGravity(North), s[..2][..1][..0]) == f;
    var a := AllResized(f, WinGravity(North), s[..2][..1]);
    assert a == BarResized(f, WinGravity(North), Left, 1);
    var b := AllResized(f, WinGravity(North), s[..2]);
    assert b == BarResized(a, WinGravity(North), Left, 2);
  }
}
