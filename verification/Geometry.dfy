/**
 Areas and titlebar sizes with the 16-bit fields of the X protocol.
 */
module Geometry {
  /** Assignment to a uint16_t. */
  function U16(n: int): (r: int)
    ensures IsU16(r)
  {
    n % 0x1_0000
  }

  lemma InU16(n: int)
    requires IsU16(n)
    ensures U16(n) == n
  {
  }

  /** Assignment to an int16_t. */
  function S16(n: int): (r: int)
    ensures IsS16(r)
  {
    if n % 0x1_0000 < 0x8000 then n % 0x1_0000 else n % 0x1_0000 - 0x1_0000
  }

  lemma InS16(n: int)
    requires IsS16(n)
    ensures S16(n) == n
  {
  }

  predicate IsU16(n: int) {
    0 <= n < 0x1_0000
  }

  predicate IsS16(n: int) {
    -0x8000 <= n < 0x8000
  }

  datatype Area = Area(x: int, y: int, width: int, height: int)

  predicate Ranged(a: Area) {
    IsS16(a.x) && IsS16(a.y) && IsU16(a.width) && IsU16(a.height)
  }

  datatype Bar = Top | Right | Bottom | Left

  datatype Bars = Bars(top: int, right: int, bottom: int, left: int)

  function Size(b: Bars, bar: Bar): int {
    match bar
    case Top => b.top
    case Right => b.right
    case Bottom => b.bottom
    case Left => b.left
  }

  function WithSize(b: Bars, bar: Bar, size: int): Bars {
    match bar
    case Top => b.(top := size)
    case Right => b.(right := size)
    case Bottom => b.(bottom := size)
    case Left => b.(left := size)
  }

  /** What the fields hold of an area. */
  function Stored(a: Area): Area {
    Area(S16(a.x), S16(a.y), U16(a.width), U16(a.height))
  }

  lemma StoredRanged(a: Area)
    requires Ranged(a)
    ensures Stored(a) == a
  {
  }

  predicate RangedBars(b: Bars) {
    IsU16(b.top) && IsU16(b.right) && IsU16(b.bottom) && IsU16(b.left)
  }

  /** The titlebars fit in the frame. */
  predicate Fits(a: Area, b: Bars) {
    b.left + b.right <= a.width && b.top + b.bottom <= a.height
  }

  /** client_remove_titlebar_geometry: the inside of the frame. */
  function Inside(a: Area, b: Bars): Area {
    Area(S16(a.x + b.left), S16(a.y + b.top), U16(a.width - b.left - b.right), U16(a.height - b.top - b.bottom))
  }

  /** client_add_titlebar_geometry: the frame around an inside. */
  function Around(a: Area, b: Bars): Area {
    Area(S16(a.x - b.left), S16(a.y - b.top), U16(a.width + b.left + b.right), U16(a.height + b.top + b.bottom))
  }

  /** The two undo each other, even where the fields wrap. */
  lemma AroundInside(a: Area, b: Bars)
    requires Ranged(a)
    ensures Around(Inside(a, b), b) == a
  {
    UnwrapS16(a.x, b.left);
    UnwrapS16(a.y, b.top);
    UnwrapU16(a.width, -b.left - b.right);
    UnwrapU16(a.height, -b.top - b.bottom);
  }

  lemma InsideAround(a: Area, b: Bars)
    requires Ranged(a)
    ensures Inside(Around(a, b), b) == a
  {
    UnwrapS16(a.x, -b.left);
    UnwrapS16(a.y, -b.top);
    UnwrapU16(a.width, b.left + b.right);
    UnwrapU16(a.height, b.top + b.bottom);
  }

  lemma UnwrapS16(n: int, d: int)
    requires IsS16(n)
    ensures S16(S16(n + d) - d) == n
  {
    Wraps(n + d);
    Wraps(S16(n + d) - d);
  }

  lemma UnwrapU16(n: int, d: int)
    requires IsU16(n)
    ensures U16(U16(n + d) - d) == n
  {
  }

  /** Wrapping a part of a sum first makes no difference. */
  lemma WrapSum(n: int, d: int)
    ensures S16(n + S16(d)) == S16(n + d) && U16(n + S16(d)) == U16(n + d) && U16(n + U16(d)) == U16(n + d)
    ensures S16(-S16(d)) == S16(-d)
  {
    Wraps(d);
    SameRest(n + S16(d), n + d, (d - S16(d)) / 0x1_0000);
    SameRest(-d, -S16(d), (d - S16(d)) / 0x1_0000);
    SameRest(n + U16(d), n + d, d / 0x1_0000);
  }

  lemma SameRest(a: int, b: int, k: int)
    requires b - a == 0x1_0000 * k
    ensures U16(a) == U16(b) && S16(a) == S16(b)
  {
  }

  /** A wrapped value differs by a multiple of 2^16. */
  lemma Wraps(n: int)
    ensures IsS16(S16(n)) && n - S16(n) == 0x1_0000 * ((n - S16(n)) / 0x1_0000)
  {
  }
}
