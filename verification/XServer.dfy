/**
 The stacking order of the children of the root window, bottom first, and what a ConfigureWindow
 request does to it (X Window System Protocol, request ConfigureWindow).
 */
module XServer {
  import opened Sequences

  type Window = nat

  const NONE: Window := 0

  /** The two forms of ConfigureWindow that change the order: just above a sibling, or to the bottom. */
  datatype Request = StackAbove(w: Window, sibling: Window) | StackBottom(w: Window)

  datatype ErrorCode = BadWindow | BadMatch | BadValue | OtherError

  datatype MajorCode = SetInputFocus | KillClient | ConfigureWindow | OtherRequest

  datatype Outcome = Done(order: seq<Window>) | Failed(code: ErrorCode)

  function InsertAbove(order: seq<Window>, w: Window, sibling: Window): seq<Window> {
    if order == [] then []
    else if order[0] == sibling then [sibling, w] + order[1..]
    else [order[0]] + InsertAbove(order[1..], w, sibling)
  }

  function Configure(order: seq<Window>, r: Request): Outcome {
    if r.w !in order then Failed(BadWindow)
    else match r
      case StackBottom(w) => Done([w] + Minus(order, {w}))
      case StackAbove(w, sibling) =>
        if sibling == w then Failed(BadMatch)
        else if sibling !in order then Failed(BadWindow)
        else Done(InsertAbove(Minus(order, {w}), w, sibling))
  }

  /** The errors the window manager drops without a message. */
  predicate IgnoredError(code: ErrorCode, major: MajorCode) {
    || code == BadWindow
    || (code == BadMatch && major == SetInputFocus)
    || (code == BadValue && major == KillClient)
    || (code == BadMatch && major == ConfigureWindow)
  }

  /** The errors that are told. */
  lemma ReportedErrors(code: ErrorCode, major: MajorCode)
    ensures !IgnoredError(code, major) <==>
      match code
      case BadWindow => false
      case BadMatch => major == KillClient || major == OtherRequest
      case BadValue => major != KillClient
      case OtherError => true
  {
  }

  /** Whatever a stacking request fails with, nobody hears of it. */
  lemma StackingErrorsAreIgnored(order: seq<Window>, r: Request)
    requires Configure(order, r).Failed?
    ensures IgnoredError(Configure(order, r).code, ConfigureWindow)
  {
  }

  /** The order after a request, which a failing request leaves alone. */
  function Apply(order: seq<Window>, r: Request): seq<Window> {
    match Configure(order, r)
    case Done(o) => o
    case Failed(_) => order
  }

  function ApplyAll(order: seq<Window>, rs: seq<Request>): seq<Window>
    decreases |rs|
  {
    if rs == [] then order else ApplyAll(Apply(order, rs[0]), rs[1..])
  }

  lemma {:induction false} ApplyAllAppend(order: seq<Window>, a: seq<Request>, b: seq<Request>)
    ensures ApplyAll(order, a + b) == ApplyAll(ApplyAll(order, a), b)
    decreases |a|
  {
    if a == [] {
      assert a + b == b;
    } else {
      assert (a + b)[1..] == a[1..] + b;
      ApplyAllAppend(Apply(order, a[0]), a[1..], b);
    }
  }

  /** The requests that put each of ws just above the one before it, the first above previous. */
  function Requests(previous: Window, ws: seq<Window>): seq<Request>
    decreases |ws|
  {
    if ws == [] then []
    else (if previous == NONE then [] else [StackAbove(ws[0], previous)]) + Requests(ws[0], ws[1..])
  }

  function LastOr(previous: Window, ws: seq<Window>): Window {
    if ws == [] then previous else Last(ws)
  }

  lemma {:induction false} RequestsAppend(previous: Window, a: seq<Window>, b: seq<Window>)
    ensures Requests(previous, a + b) == Requests(previous, a) + Requests(LastOr(previous, a), b)
    decreases |a|
  {
    if a == [] {
      assert a + b == b;
    } else {
      assert (a + b)[1..] == a[1..] + b && (a + b)[0] == a[0];
      RequestsAppend(a[0], a[1..], b);
      var head := if previous == NONE then [] else [StackAbove(a[0], previous)];
      assert Requests(previous, a + b) == head + Requests(a[0], a[1..] + b);
      assert LastOr(previous, a) == LastOr(a[0], a[1..]);
      Assoc(head, Requests(a[0], a[1..]), Requests(LastOr(previous, a), b));
      hide LastOr;
    }
  }

  lemma LastOrAppend(previous: Window, a: seq<Window>, b: seq<Window>)
    ensures LastOr(previous, a + b) == LastOr(LastOr(previous, a), b)
  {
  }

  /** Four lists in a row, each continued from the last window of those before it. */
  lemma RequestsFour(r: seq<Request>, a: seq<Window>, b: seq<Window>, c: seq<Window>, d: seq<Window>)
    ensures var i := LastOr(NONE, a); var j := LastOr(i, b); var k := LastOr(j, c);
      r + Requests(NONE, a + b + c + d) == r + Requests(NONE, a) + Requests(i, b) + Requests(j, c) + Requests(k, d)
  {
    hide Requests, LastOr;
    RequestsAppend(NONE, a, b);
    RequestsAppend(NONE, a + b, c);
    RequestsAppend(NONE, a + b + c, d);
    LastOrAppend(NONE, a, b);
    LastOrAppend(NONE, a + b, c);
    Assoc(r, Requests(NONE, a + b + c), Requests(LastOr(NONE, a + b + c), d));
    Assoc(r, Requests(NONE, a + b), Requests(LastOr(NONE, a + b), c));
    Assoc(r, Requests(NONE, a), Requests(LastOr(NONE, a), b));
  }

  lemma LastOrNothing(previous: Window)
    ensures LastOr(previous, []) == previous
  {
  }

  lemma RequestsNothing(previous: Window)
    ensures Requests(previous, []) == []
  {
  }

  lemma {:induction false} InsertAboveSplit(a: seq<Window>, sibling: Window, b: seq<Window>, w: Window)
    requires sibling !in a
    ensures InsertAbove(a + [sibling] + b, w, sibling) == a + [sibling, w] + b
  {
    if a == [] {
      assert a + [sibling] + b == [sibling] + b;
    } else {
      assert (a + [sibling] + b)[1..] == a[1..] + [sibling] + b;
      InsertAboveSplit(a[1..], sibling, b, w);
    }
  }

  /** A request next to a window that the order holds once. */
  lemma ApplyAbove(x: seq<Window>, top: Window, b: seq<Window>, w: Window)
    requires NoDup(x + [top] + b)
    requires w in x + [top] + b
    ensures Apply(x + [top] + b, StackAbove(w, top))
         == if w == top then x + [top] + b else Minus(x, {w}) + [top, w] + Minus(b, {w})
  {
    var order := x + [top] + b;
    UniqueMiddle(x, top, b);
    if w != top {
      MinusAppend(x + [top], b, {w});
      MinusAppend(x, [top], {w});
      assert Minus([top], {w}) == [top];
      MinusMember(x, {w}, top);
      InsertAboveSplit(Minus(x, {w}), top, Minus(b, {w}), w);
    }
  }

  /** One more window above the top of a block that has just been built. */
  lemma ApplyOnBlock(a: seq<Window>, block: seq<Window>, b: seq<Window>, w: Window)
    requires block != [] && NoDup(a + block + b)
    requires w in a + block + b
    ensures Apply(a + block + b, StackAbove(w, Last(block)))
         == Minus(a, {w}) + (Minus(block, {w}) + [w]) + Minus(b, {w})
  {
    var top, p := Last(block), block[..|block| - 1];
    assert block == p + [top];
    Regroup(a, p, [top], b);
    ApplyAbove(a + p, top, b, w);
    BlockTop(p, top, w);
    if w == top {
      UniqueMiddle(a + p, top, b);
      MinusNothing(a, {w});
      MinusNothing(p, {w});
      MinusNothing(b, {w});
      Regroup(a, p, [top], b);
    } else {
      MinusAppend(a, p, {w});
      Regroup(Minus(a, {w}), Minus(p, {w}), [top, w], Minus(b, {w}));
    }
  }

  lemma Regroup(a: seq<Window>, p: seq<Window>, q: seq<Window>, b: seq<Window>)
    ensures (a + p) + q + b == a + (p + q) + b
  {
  }

  lemma BlockTop(p: seq<Window>, top: Window, w: Window)
    ensures Minus(p + [top], {w}) + [w]
         == if w == top then Minus(p, {w}) + [top] else Minus(p, {w}) + [top, w]
  {
    MinusAppend(p, [top], {w});
    assert Minus([top], {w}) == if w == top then [] else [top];
  }

  lemma UniqueMiddle(x: seq<Window>, top: Window, b: seq<Window>)
    requires NoDup(x + [top] + b)
    ensures top !in x && top !in b
  {
    var order := x + [top] + b;
    assert order[|x|] == top;
    assert forall i | 0 <= i < |x| :: order[i] == x[i];
    assert forall i | 0 <= i < |b| :: order[|x| + 1 + i] == b[i];
  }

  /** What compiling a list of windows to "just above the previous one" requests does to the order.
      The block of listed windows grows upwards from the first one, in the order in which each was
      listed last; every other window keeps its side of the block and its place among the others. */
  lemma {:induction false} RequestsBuildBlock(a: seq<Window>, ws: seq<Window>, b: seq<Window>)
    requires ws != [] && NONE !in ws
    requires NoDup(a + [ws[0]] + b)
    requires forall w | w in ws :: w in a + [ws[0]] + b
    ensures ApplyAll(a + [ws[0]] + b, Requests(NONE, ws))
         == Minus(a, ToSet(ws)) + KeepLast(ws) + Minus(b, ToSet(ws))
    decreases |ws|
  {
    var order := a + [ws[0]] + b;
    if |ws| == 1 {
      UniqueMiddle(a, ws[0], b);
      assert ws == [ws[0]] && ToSet(ws) == {ws[0]};
      MinusNothing(a, {ws[0]});
      MinusNothing(b, {ws[0]});
      assert KeepLast(ws) == ws;
      assert Requests(NONE, ws) == [];
    } else {
      var f, w := ws[..|ws| - 1], Last(ws);
      assert ws == f + [w] && ToSet(ws) == ToSet(f) + {w};
      RequestsBuildBlock(a, f, b);
      RequestsAppend(NONE, f, [w]);
      var r := StackAbove(w, Last(f));
      assert Last(f) in ws;
      assert Requests(Last(f), [w]) == [r];
      ApplyAllAppend(order, Requests(NONE, f), [r]);
      var xs := ToSet(f);
      var built := Minus(a, xs) + KeepLast(f) + Minus(b, xs);
      assert ApplyAll(built, [r]) == Apply(built, r);
      BlockNoDup(a, f, b, w);
      ApplyOnBlock(Minus(a, xs), KeepLast(f), Minus(b, xs), w);
      KeepLastSnoc(f, w);
      MinusTwice(a, xs, {w});
      MinusTwice(b, xs, {w});
    }
  }

  /** The intermediate orders repeat nothing and lose nothing. */
  lemma BlockNoDup(a: seq<Window>, f: seq<Window>, b: seq<Window>, w: Window)
    requires f != [] && NoDup(a + [f[0]] + b)
    requires w in a + [f[0]] + b
    ensures NoDup(Minus(a, ToSet(f)) + KeepLast(f) + Minus(b, ToSet(f)))
    ensures w in Minus(a, ToSet(f)) + KeepLast(f) + Minus(b, ToSet(f))
  {
    var xs := ToSet(f);
    var order := a + [f[0]] + b;
    assert forall i | 0 <= i < |a| :: order[i] == a[i];
    assert forall i | 0 <= i < |b| :: order[|a| + 1 + i] == b[i];
    KeepLastNoDup(f);
    MinusKeepsNoDup(a, xs);
    MinusKeepsNoDup(b, xs);
    MinusMember(a, xs, w);
    MinusMember(b, xs, w);
    forall x ensures x in Minus(a, xs) <==> x in a && x !in xs {
      MinusMember(a, xs, x);
    }
    forall x ensures x in Minus(b, xs) <==> x in b && x !in xs {
      MinusMember(b, xs, x);
    }
    assert f[0] in xs;
    JoinNoDup(Minus(a, xs), KeepLast(f));
    JoinNoDup(Minus(a, xs) + KeepLast(f), Minus(b, xs));
  }

  lemma JoinNoDup(u: seq<Window>, v: seq<Window>)
    requires NoDup(u) && NoDup(v)
    requires forall x | x in u :: x !in v
    ensures NoDup(u + v)
  {
    forall i, j | 0 <= i < j < |u + v| ensures (u + v)[i] != (u + v)[j] {
      if i < |u| <= j {
        assert u[i] !in v && v[j - |u|] in v;
      }
    }
  }

  /** The block theorem for an order given whole: a window listed last before another one ends up
      below it, and the windows that were not listed keep their order. */
  lemma RequestsSortOrder(order: seq<Window>, ws: seq<Window>)
    requires ws != [] && NONE !in ws && NoDup(order)
    requires forall w | w in ws :: w in order
    ensures var final := ApplyAll(order, Requests(NONE, ws));
      && NoDup(final)
      && (forall x, y | Under(ws, x, y) :: Precedes(final, x, y))
      && Minus(final, ToSet(ws)) == Minus(order, ToSet(ws))
  {
    assert ws[0] in order;
    var k :| 0 <= k < |order| && order[k] == ws[0];
    var a, b := order[..k], order[k + 1..];
    assert order == a + [ws[0]] + b;
    RequestsBuildBlock(a, ws, b);
    BlockNoDup(a, ws, b, ws[0]);
    var xs := ToSet(ws);
    forall x, y | Under(ws, x, y)
      ensures Precedes(Minus(a, xs) + KeepLast(ws) + Minus(b, xs), x, y)
    {
      UnderKeepLast(ws, x, y);
      PrecedesWithin(Minus(a, xs), KeepLast(ws), Minus(b, xs), x, y);
    }
    MinusAppend(Minus(a, xs) + KeepLast(ws), Minus(b, xs), xs);
    MinusAppend(Minus(a, xs), KeepLast(ws), xs);
    MinusTwice(a, xs, xs);
    MinusTwice(b, xs, xs);
    assert xs + xs == xs;
    MinusAll(KeepLast(ws), xs);
    MinusAppend(a + [ws[0]], b, xs);
    MinusAppend(a, [ws[0]], xs);
    MinusAll([ws[0]], xs);
  }

  lemma {:induction false} MinusAll(s: seq<Window>, xs: set<Window>)
    requires forall x | x in s :: x in xs
    ensures Minus(s, xs) == []
  {
    if s != [] {
      assert s[0] in s;
      MinusAll(s[1..], xs);
    }
  }
}
