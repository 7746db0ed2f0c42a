/**
 The frame of a client: titlebars at its four sides, the window of the client inside, and the two ways in
 which the frame changes its size.
 */
module Titlebars {
  import opened Geometry
  import opened Gravity
  import opened SizeHints
  import opened HintFields

  const BARS: seq<Bar> := [Top, Right, Bottom, Left]

  predicate InArea(a: Area, x: int, y: int) {
    a.x <= x < a.x + a.width && a.y <= y < a.y + a.height
  }

  /** Where a titlebar lies in the frame: the top and bottom bars have the full width. */
  function BarArea(a: Area, b: Bars, bar: Bar): Area {
    match bar
    case Top => Area(0, 0, a.width, b.top)
    case Bottom => Area(0, a.height - b.bottom, a.width, b.bottom)
    case Left => Area(0, b.top, b.left, a.height - b.top - b.bottom)
    case Right => Area(a.width - b.right, b.top, b.right, a.height - b.top - b.bottom)
  }

  /** Where the window of the client lies in the frame; a fullscreen window covers it all. */
  function ClientArea(a: Area, b: Bars, fullscreen: bool): Area {
    if fullscreen then Area(0, 0, a.width, a.height)
    else Area(b.left, b.top, a.width - b.left - b.right, a.height - b.top - b.bottom)
  }

  /** The places in the frame can be told in signed 16-bit fields. */
  predicate Narrow(a: Area, b: Bars) {
    IsS16(a.width - b.right) && IsS16(a.height - b.bottom) && IsS16(b.left) && IsS16(b.top)
  }

  lemma NarrowIsStored(a: Area, b: Bars, bar: Bar)
    requires Ranged(a) && RangedBars(b) && Fits(a, b) && Narrow(a, b)
    ensures Stored(BarArea(a, b, bar)) == BarArea(a, b, bar)
    ensures Stored(ClientArea(a, b, false)) == ClientArea(a, b, false)
  {
    StoredRanged(BarArea(a, b, bar));
    StoredRanged(ClientArea(a, b, false));
  }

  /** Every point of the frame lies in exactly one bar or in the window, and nothing else lies in any. */
  lemma FrameIsTiled(a: Area, b: Bars, x: int, y: int)
    requires RangedBars(b) && Fits(a, b)
    ensures InArea(Area(0, 0, a.width, a.height), x, y) <==>
      InArea(ClientArea(a, b, false), x, y) || exists bar :: InArea(BarArea(a, b, bar), x, y)
    ensures forall bar | InArea(BarArea(a, b, bar), x, y) :: !InArea(ClientArea(a, b, false), x, y)
    ensures forall bar, other | InArea(BarArea(a, b, bar), x, y) && InArea(BarArea(a, b, other), x, y) :: bar == other
  {
    if InArea(Area(0, 0, a.width, a.height), x, y) && !InArea(ClientArea(a, b, false), x, y) {
      var bar :=
        if y < b.top then Top
        else if y >= a.height - b.bottom then Bottom
        else if x < b.left then Left
        else Right;
      assert InArea(BarArea(a, b, bar), x, y);
    }
  }

  /** Where the bars lie: the top and the bottom bar reach over the whole width, the other two between them. */
  lemma BarPoints(a: Area, b: Bars, x: int, y: int)
    ensures InArea(BarArea(a, b, Top), x, y) <==> 0 <= x < a.width && 0 <= y < b.top
    ensures InArea(BarArea(a, b, Bottom), x, y) <==> 0 <= x < a.width && a.height - b.bottom <= y < a.height
    ensures InArea(BarArea(a, b, Left), x, y) <==> 0 <= x < b.left && b.top <= y < a.height - b.bottom
    ensures InArea(BarArea(a, b, Right), x, y) <==>
      a.width - b.right <= x < a.width && b.top <= y < a.height - b.bottom
    ensures InArea(ClientArea(a, b, false), x, y) <==>
      b.left <= x < a.width - b.right && b.top <= y < a.height - b.bottom
    ensures InArea(ClientArea(a, b, true), x, y) <==> 0 <= x < a.width && 0 <= y < a.height
  {
  }

  class Client {
    var geometry: Area
    var titlebar: Bars
    var fullscreen: bool
    var hints: Hints
    var winGravity: Hint

    /** The fields hold 16-bit numbers. */
    ghost predicate InFields()
      reads this
    {
      Ranged(geometry) && RangedBars(titlebar)
    }

    /** The titlebars fit in the frame as well. */
    ghost predicate Valid()
      reads this
    {
      InFields() && Fits(geometry, titlebar)
    }

    /** A client is managed without titlebars. */
    constructor (geometry: Area, hints: Hints, winGravity: Hint)
      requires Ranged(geometry)
      ensures Valid()
    {
      this.geometry, this.hints, this.winGravity := geometry, hints, winGravity;
      titlebar, fullscreen := Bars(0, 0, 0, 0), false;
    }

    method TitlebarGetArea(bar: Bar) returns (result: Area)
      requires InFields()
      ensures result == Stored(BarArea(geometry, titlebar, bar))
      ensures Valid() && Narrow(geometry, titlebar) ==> result == BarArea(geometry, titlebar, bar)
    {
      hide S16, U16, Narrow, Fits;
      WrapSum(-titlebar.bottom, geometry.height - titlebar.top);
      InS16(0);
      InU16(geometry.width);
      InU16(Size(titlebar, bar));
      if Valid() && Narrow(geometry, titlebar) {
        NarrowIsStored(geometry, titlebar, bar);
      }
      result := geometry.(x := 0, y := 0);
      if bar == Bottom || bar == Top {
        if bar == Bottom {
          result := result.(y := S16(geometry.height - titlebar.bottom));
        }
        result := result.(height := Size(titlebar, bar));
      } else {
        if bar == Right {
          result := result.(x := S16(geometry.width - titlebar.right));
        }
        result := result.(y := S16(titlebar.top), width := Size(titlebar, bar));
        result := result.(height := U16(result.height - titlebar.top));
        result := result.(height := U16(result.height - titlebar.bottom));
      }
    }

    /** A point of the frame lies in a titlebar. */
    ghost predicate PointInBar(bar: Bar, x: int, y: int)
      reads this
    {
      match bar
      case Top => 0 <= x < geometry.width && 0 <= y < titlebar.top
      case Bottom => 0 <= x < geometry.width && geometry.height - titlebar.bottom <= y < geometry.height
      case Left => 0 <= x < titlebar.left && titlebar.top <= y < geometry.height - titlebar.bottom
      case Right =>
        geometry.width - titlebar.right <= x < geometry.width && titlebar.top <= y < geometry.height - titlebar.bottom
    }

    lemma PlacesOfBars(x: int, y: int)
      requires Valid() && Narrow(geometry, titlebar)
      ensures forall bar :: InArea(Stored(BarArea(geometry, titlebar, bar)), x, y) <==> PointInBar(bar, x, y)
    {
      forall bar ensures InArea(Stored(BarArea(geometry, titlebar, bar)), x, y) <==> PointInBar(bar, x, y) {
        NarrowIsStored(geometry, titlebar, bar);
        BarPoints(geometry, titlebar, x, y);
      }
    }

    /** Finds the titlebar in which a point of the frame lies, and its place there. */
    method GetDrawableOffset(x: int, y: int) returns (found: bool, bar: Bar, localX: int, localY: int)
      requires InFields()
      ensures found <==> exists b :: InArea(Stored(BarArea(geometry, titlebar, b)), x, y)
      ensures found ==> exists i ::
        && 0 <= i < |BARS| && BARS[i] == bar && InArea(Stored(BarArea(geometry, titlebar, bar)), x, y)
        && forall j | 0 <= j < i :: !InArea(Stored(BarArea(geometry, titlebar, BARS[j])), x, y)
      ensures found ==>
        var area := Stored(BarArea(geometry, titlebar, bar));
        localX == x - area.x && localY == y - area.y && 0 <= localX < area.width && 0 <= localY < area.height
      ensures !found ==> localX == x && localY == y
      ensures Valid() && Narrow(geometry, titlebar) ==> found == PointInBar(bar, x, y)
    {
      if Valid() && Narrow(geometry, titlebar) {
        PlacesOfBars(x, y);
      }
      hide PointInBar;
      var i := 0;
      while i < |BARS|
        invariant 0 <= i <= |BARS|
        invariant forall j | 0 <= j < i :: !InArea(Stored(BarArea(geometry, titlebar, BARS[j])), x, y)
      {
        var area := TitlebarGetArea(BARS[i]);
        if !(area.x > x || area.x + area.width <= x) {
          if !(area.y > y || area.y + area.height <= y) {
            return true, BARS[i], x - area.x, y - area.y;
          }
        }
        i := i + 1;
      }
      forall b ensures !InArea(Stored(BarArea(geometry, titlebar, b)), x, y) {
        assert BARS[0] == Top && BARS[1] == Right && BARS[2] == Bottom && BARS[3] == Left;
      }
      found, bar, localX, localY := false, Top, x, y;
    }

    /** In a frame that the fields can tell, a point belongs to a titlebar unless the window has it. */
    lemma OffsetTellsBars(x: int, y: int)
      requires Valid() && Narrow(geometry, titlebar)
      requires InArea(Area(0, 0, geometry.width, geometry.height), x, y)
      ensures (exists b :: InArea(Stored(BarArea(geometry, titlebar, b)), x, y)) <==>
        !InArea(ClientArea(geometry, titlebar, false), x, y)
    {
      FrameIsTiled(geometry, titlebar, x, y);
      forall b ensures Stored(BarArea(geometry, titlebar, b)) == BarArea(geometry, titlebar, b) {
        NarrowIsStored(geometry, titlebar, b);
      }
      hide *;
    }

    /** The geometry that client_geometry_refresh gives the window inside the frame. */
    method RealGeometry() returns (r: Area)
      requires InFields()
      ensures r == Stored(ClientArea(geometry, titlebar, fullscreen))
      ensures Valid() && (fullscreen || Narrow(geometry, titlebar)) ==> r == ClientArea(geometry, titlebar, fullscreen)
      ensures r.x == if fullscreen then 0 else S16(titlebar.left)
      ensures r.y == if fullscreen then 0 else S16(titlebar.top)
      ensures r.width == if fullscreen then geometry.width
                         else (geometry.width - titlebar.left - titlebar.right) % 0x1_0000
      ensures r.height == if fullscreen then geometry.height
                          else (geometry.height - titlebar.top - titlebar.bottom) % 0x1_0000
    {
      WrapSum(-titlebar.bottom, geometry.height - titlebar.top);
      WrapSum(-titlebar.right, geometry.width - titlebar.left);
      if Valid() && (fullscreen || Narrow(geometry, titlebar)) {
        StoredRanged(ClientArea(geometry, titlebar, fullscreen));
      }
      InS16(0);
      StoredRanged(geometry);
      hide S16, U16, Narrow, Fits;
      r := geometry;
      if !fullscreen {
        r := r.(x := S16(titlebar.left), y := S16(titlebar.top));
        r := r.(width := U16(r.width - titlebar.left));
        r := r.(width := U16(r.width - titlebar.right));
        r := r.(height := U16(r.height - titlebar.top));
        r := r.(height := U16(r.height - titlebar.bottom));
      } else {
        r := r.(x := 0, y := 0);
      }
    }

    /** The base size and the minimum size, each standing in for the other. */
    method BaseAndMinimum() returns (basew: int, baseh: int, minw: int, minh: int)
      ensures basew == WidthLimits(hints).base && minw == WidthLimits(hints).min
      ensures baseh == HeightLimits(hints).base && minh == HeightLimits(hints).min
    {
      basew, baseh, minw, minh := 0, 0, 0, 0;
      if hints.hasBase {
        basew, baseh := hints.baseWidth, hints.baseHeight;
      } else if hints.hasMin {
        basew, baseh := hints.minWidth, hints.minHeight;
      }
      if hints.hasMin {
        minw, minh := hints.minWidth, hints.minHeight;
      } else if hints.hasBase {
        minw, minh := hints.baseWidth, hints.baseHeight;
      }
    }

    /** The minimum, then the maximum. */
    method MinimumAndMaximum(g: Area, minw: int, minh: int) returns (r: Area)
      requires minw == WidthLimits(hints).min && minh == HeightLimits(hints).min
      ensures r == Area(g.x, g.y, AtMost(AtLeast(g.width, WidthLimits(hints)), WidthLimits(hints)),
        AtMost(AtLeast(g.height, HeightLimits(hints)), HeightLimits(hints)))
    {
      hide U16;
      r := g;
      r := r.(width := U16(if r.width < minw then minw else r.width));
      r := r.(height := U16(if r.height < minh then minh else r.height));
      if hints.hasMax {
        if hints.maxWidth != 0 {
          r := r.(width := U16(if hints.maxWidth < r.width then hints.maxWidth else r.width));
        }
        if hints.maxHeight != 0 {
          r := r.(height := U16(if hints.maxHeight < r.height then hints.maxHeight else r.height));
        }
      }
    }

    /** The geometry with the size hints applied: aspect ratio, minimum, maximum, increments. */
    method ApplySizeHints(asked: Area) returns (geometry: Area)
      requires Ranged(asked)
      ensures geometry == if fullscreen then asked else Applied(hints, titlebar, asked)
      ensures !fullscreen ==> HintsApplied(hints, titlebar, asked, geometry)
    {
      if fullscreen {
        return asked;
      }
      AppliedFields(hints, titlebar, asked);
      hide U16, S16, Inside, Around, Aspect, Excess, AtLeast, AtMost, HintsApplied;
      geometry := Inside(asked, titlebar);
      var basew, baseh, minw, minh := BaseAndMinimum();
      var (w, t) := Aspect(hints, geometry.width, geometry.height);
      geometry := geometry.(width := U16(w), height := U16(t));
      geometry := MinimumAndMaximum(geometry, minw, minh);
      if (hints.hasInc || hints.hasBase) && hints.widthInc != 0 && hints.heightInc != 0 {
        geometry := geometry.(width := U16(geometry.width - Excess(geometry.width, basew, hints.widthInc)));
        geometry := geometry.(height := U16(geometry.height - Excess(geometry.height, baseh, hints.heightInc)));
      }
      geometry := Around(geometry, titlebar);
    }

    /** Resizes the client, unless that would leave no room for the titlebars or give an empty window. */
    method Resize(asked: Area, honorHints: bool) returns (resized: bool)
      requires InFields() && Ranged(asked)
      modifies this`geometry
      ensures InFields() && (resized || old(Valid()) ==> Valid())
      ensures var wanted := if honorHints && !fullscreen then Applied(hints, titlebar, asked) else asked;
        && (resized <==> ((honorHints ==> Fits(asked, titlebar)) && Fits(wanted, titlebar)
          && wanted.width != 0 && wanted.height != 0 && wanted != old(geometry)))
        && geometry == if resized then wanted else old(geometry)
      ensures resized && honorHints && !fullscreen ==> HintsApplied(hints, titlebar, asked, geometry)
    {
      var wanted := asked;
      hide HintsApplied;
      if honorHints {
        if wanted.width < titlebar.left + titlebar.right {
          return false;
        }
        if wanted.height < titlebar.top + titlebar.bottom {
          return false;
        }
        wanted := ApplySizeHints(wanted);
      }
      if wanted.width < titlebar.left + titlebar.right {
        return false;
      }
      if wanted.height < titlebar.top + titlebar.bottom {
        return false;
      }
      if wanted.width == 0 || wanted.height == 0 {
        return false;
      }
      if wanted != geometry {
        geometry := wanted;
        return true;
      }
      resized := false;
    }

    /**
     Gives a titlebar another size; the frame changes with it. While nothing overflows the frame is the one that
     was meant, in which the window inside keeps its size.
     */
    method TitlebarResize(bar: Bar, size: int)
      requires InFields() && size < 0x1_0000
      modifies this`geometry, this`titlebar
      ensures InFields()
      ensures Frame(geometry, titlebar) == if size < 0 then Frame(old(geometry), old(titlebar))
        else BarStored(Frame(old(geometry), old(titlebar)), winGravity, bar, size)
      ensures 0 <= size && old(Valid()) && NoOverflow(Frame(old(geometry), old(titlebar)), winGravity, bar, size) ==>
        && Valid()
        && Frame(geometry, titlebar) == BarResized(Frame(old(geometry), old(titlebar)), winGravity, bar, size)
        && Stays(if winGravity.WinGravity? then winGravity.gravity else NorthWest, Frame(old(geometry), old(titlebar)),
             Frame(geometry, titlebar))
    {
      GravityStays(Frame(geometry, titlebar), winGravity, bar, size);
      hide Stays;
      ghost var f := Frame(geometry, titlebar);
      if size < 0 {
        return;
      }
      if size == Size(titlebar, bar) {
        SameSize(f, winGravity, bar);
        return;
      }
      if NoOverflow(f, winGravity, bar, size) {
        StoredAsMeant(f, winGravity, bar, size);
      }
      var g := ResizedArea(bar, size);
      titlebar := WithSize(titlebar, bar, size);
      geometry := g;
      hide BarStored, S16, U16, Shift;
    }

    /**
     Any number of resizes. While nothing overflows the titlebars fit, and when they have their sizes again at the
     end, so has the frame, which has moved by at most half a pixel for each resize.
     */
    method ResizeBars(steps: seq<(Bar, int)>)
      requires InFields() && forall s | s in steps :: 0 <= s.1 < 0x1_0000
      modifies this`geometry, this`titlebar
      ensures InFields()
      ensures var f := Frame(old(geometry), old(titlebar));
        && Frame(geometry, titlebar) == AllStored(f, winGravity, steps)
        && (AllFit(f, winGravity, steps) ==> Frame(geometry, titlebar) == AllResized(f, winGravity, steps))
        && (AllFit(f, winGravity, steps) && old(Valid()) ==> Valid())
        && (AllFit(f, winGravity, steps) && winGravity.WinGravity? && titlebar == old(titlebar) ==>
              && geometry.width == old(geometry).width && geometry.height == old(geometry).height
              && 2 * Abs(geometry.x - old(geometry).x) <= |steps| && 2 * Abs(geometry.y - old(geometry).y) <= |steps|)
    {
      ResizesFit(Frame(geometry, titlebar), winGravity, steps);
      hide AllStored, AllResized, AllFit, Ranged, RangedBars, Fits, Abs;
      ResizeEach(steps);
    }

    method ResizeEach(steps: seq<(Bar, int)>)
      requires InFields() && forall s | s in steps :: 0 <= s.1 < 0x1_0000
      modifies this`geometry, this`titlebar
      ensures InFields()
      ensures Frame(geometry, titlebar) == AllStored(Frame(old(geometry), old(titlebar)), winGravity, steps)
    {
      ghost var f := Frame(geometry, titlebar);
      assert steps[..0] == [] && AllStored(f, winGravity, []) == f;
      hide *;
      var i := 0;
      while i < |steps|
        invariant 0 <= i <= |steps| && InFields() && Frame(geometry, titlebar) == AllStored(f, winGravity, steps[..i])
      {
        StoredNext(f, winGravity, steps, i);
        TitlebarResize(steps[i].0, steps[i].1);
        i := i + 1;
      }
      assert steps[..i] == steps;
    }

    /** The area of the frame once the bar has its size. */
    method ResizedArea(bar: Bar, size: int) returns (g: Area)
      requires InFields() && 0 <= size < 0x1_0000
      ensures Ranged(g) && g == BarStored(Frame(geometry, titlebar), winGravity, bar, size).area
    {
      StoredSize(Frame(geometry, titlebar), winGravity, bar, size);
      StoredPlace(Frame(geometry, titlebar), winGravity, bar, size);
      InS16(S16(size - Size(titlebar, bar)));
      InS16(0);
      hide U16, S16, BarStored, Horizontal, Vertical;
      g := geometry;
      var change := size - Size(titlebar, bar);
      var diffTop, diffBottom, diffRight, diffLeft := 0, 0, 0, 0;
      match bar {
        case Top => {
          g := g.(height := U16(g.height + change));
          diffTop := S16(change);
        }
        case Bottom => {
          g := g.(height := U16(g.height + change));
          diffBottom := S16(change);
        }
        case Right => {
          g := g.(width := U16(g.width + change));
          diffRight := S16(change);
        }
        case Left => {
          g := g.(width := U16(g.width + change));
          diffLeft := S16(change);
        }
      }
      g := MovedByGravity(g, diffLeft, diffTop, diffRight, diffBottom);
      hide ShiftBy;
    }

    /** Without the hint the corner of the frame stays. */
    method MovedByGravity(g: Area, left: int, top: int, right: int, bottom: int) returns (r: Area)
      requires Ranged(g) && IsS16(left) && IsS16(top) && IsS16(right) && IsS16(bottom)
      ensures var gravity := if winGravity.WinGravity? then winGravity.gravity else Unknown;
        && Ranged(r) && r.width == g.width && r.height == g.height
        && r.x == S16(g.x + ShiftBy(Horizontal(gravity), left, S16(left + right)))
        && r.y == S16(g.y + ShiftBy(Vertical(gravity), top, S16(top + bottom)))
    {
      r := g;
      StoredRanged(g);
      hide S16;
      if winGravity.WinGravity? {
        var x, y := TranslateForGravity(winGravity.gravity, left, top, right, bottom, r.x, r.y);
        r := r.(x := x, y := y);
      }
    }
  }

  /** The size of the stored frame. */
  lemma StoredSize(f: Frame, hint: Hint, bar: Bar, size: int)
    requires Ranged(f.area)
    ensures var change := size - Size(f.bars, bar);
      var r := BarStored(f, hint, bar, size).area;
      && Ranged(r)
      && r.width == (if bar.Left? || bar.Right? then U16(f.area.width + change) else f.area.width)
      && r.height == (if bar.Top? || bar.Bottom? then U16(f.area.height + change) else f.area.height)
  {
    WrapSum(f.area.width, size - Size(f.bars, bar));
    WrapSum(f.area.height, size - Size(f.bars, bar));
    StoredRanged(f.area);
    hide U16, S16, ShiftBy, Horizontal, Vertical;
  }

  /** Its place, from the changes at the four sides. */
  lemma StoredPlace(f: Frame, hint: Hint, bar: Bar, size: int)
    requires Ranged(f.area)
    ensures var change := S16(size - Size(f.bars, bar));
      var g := if hint.WinGravity? then hint.gravity else Unknown;
      var (left, top) := (if bar.Left? then change else 0, if bar.Top? then change else 0);
      var r := BarStored(f, hint, bar, size).area;
      && r.x == S16(f.area.x + ShiftBy(Horizontal(g), left, if bar.Left? || bar.Right? then change else 0))
      && r.y == S16(f.area.y + ShiftBy(Vertical(g), top, if bar.Top? || bar.Bottom? then change else 0))
  {
    hide U16, S16, ShiftBy, Horizontal, Vertical;
  }

  /** What a run of resizes without overflow comes to. */
  lemma ResizesFit(f: Frame, hint: Hint, steps: seq<(Bar, int)>)
    ensures var r := AllResized(f, hint, steps);
      AllFit(f, hint, steps) ==>
        && AllStored(f, hint, steps) == r && (Fits(r.area, r.bars) <==> Fits(f.area, f.bars))
        && (hint.WinGravity? && r.bars == f.bars ==>
              && r.area.width == f.area.width && r.area.height == f.area.height
              && 2 * Abs(r.area.x - f.area.x) <= |steps| && 2 * Abs(r.area.y - f.area.y) <= |steps|)
  {
    hide AllFit, AllStored, AllResized, Fits;
    if AllFit(f, hint, steps) {
      AllStoredAsMeant(f, hint, steps);
      StillFits(f, hint, steps);
      if hint.WinGravity? && AllResized(f, hint, steps).bars == f.bars {
        RoundTripDrift(f, hint.gravity, steps);
      }
    }
  }

  /** The inside keeps its size, so the titlebars go on fitting. */
  lemma {:induction false} StillFits(f: Frame, hint: Hint, steps: seq<(Bar, int)>)
    ensures Fits(AllResized(f, hint, steps).area, AllResized(f, hint, steps).bars) <==> Fits(f.area, f.bars)
  {
    if steps != [] {
      StillFits(f, hint, steps[..|steps| - 1]);
      hide Shift;
    }
  }

  lemma SameSize(f: Frame, hint: Hint, bar: Bar)
    requires Ranged(f.area)
    ensures BarStored(f, hint, bar, Size(f.bars, bar)) == f
  {
    InS16(0);
    StoredRanged(f.area);
    hide S16, U16;
  }
}
