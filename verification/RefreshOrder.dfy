/**
 What a stack refresh lists, and the order of the windows on the X server after the listed windows
 have been put each just above the one before it.
 */
module RefreshOrder {
  import opened Sequences
  import opened TransientGraph
  import opened Stacking
  import opened XServer
  import opened ClientLinks
  import opened ClientState

  /** The layer a client asks for by its own attributes; IGNORE leaves the choice to its parent. */
  function LayerOf(a: Attributes, hasFocus: bool, hasParent: bool): Layer {
    if a.ontop then ONTOP
    else if a.fullscreen && hasFocus then FULLSCREEN
    else if a.above then ABOVE
    else if a.below then BELOW
    else if hasParent then IGNORE
    else if a.kind == DesktopType then DESKTOP
    else NORMAL
  }

  ghost function LayerMap(attributes: map<Client, Attributes>, focus: Client,
      g: map<Client, Client>): map<Client, Layer> {
    map c | c in attributes :: LayerOf(attributes[c], focus == c, c in g)
  }

  ghost function Layers(s: State): map<Client, Layer> {
    LayerMap(s.attributes, s.focus, s.transientFor)
  }

  /** The drawins from the k-th on whose ontop flag is the given one. */
  ghost function DrawinList(ds: seq<Drawin>, flags: map<Drawin, bool>, ontop: bool, k: nat): seq<Window>
    requires k <= |ds| && ToSet(ds) <= flags.Keys
    decreases |ds| - k
  {
    if k == |ds| then []
    else if flags[ds[k]] == ontop then [ds[k]] + DrawinList(ds, flags, ontop, k + 1)
    else DrawinList(ds, flags, ontop, k + 1)
  }

  ghost function DesktopPart(s: State): seq<Window>
    requires Consistent(s)
  {
    Passes(s.transientFor, s.stack, Layers(s), DESKTOP, BELOW)
  }

  ghost function ClientPart(s: State): seq<Window>
    requires Consistent(s)
  {
    Passes(s.transientFor, s.stack, Layers(s), BELOW, LAYER_COUNT)
  }

  ghost function DrawinPart(s: State, ontop: bool): seq<Window>
    requires Consistent(s)
  {
    DrawinList(s.drawins, s.drawinOntop, ontop, 0)
  }

  /** Desktop clients, drawins that are not ontop, the other clients, ontop drawins. */
  ghost function Emission(s: State): seq<Window>
    requires Consistent(s)
  {
    DesktopPart(s) + DrawinPart(s, false) + ClientPart(s) + DrawinPart(s, true)
  }

  ghost function Effective(s: State, c: Client): Layer
    requires Consistent(s) && c in s.clients
  {
    ClosedState(s);
    assert c in ToSet(s.clients);
    EffectiveLayer(s.transientFor, Layers(s), c)
  }

  lemma ClosedState(s: State)
    requires Consistent(s)
    ensures Closed(s.transientFor, s.stack, Layers(s))
  {
    hide Acyclic, Once, NoDup, OneToOne;
    OnceIsNoDup(s.stack);
    forall x {:trigger s.transientFor[x]} | x in s.transientFor
      ensures x in s.stack && s.transientFor[x] in s.stack
    {
      assert x in ToSet(s.clients) && s.transientFor[x] in ToSet(s.clients);
    }
    forall x | x in s.stack
      ensures x in s.attributes
    {
      assert x in ToSet(s.stack);
    }
  }

  // ----- which part lists whom

  lemma {:induction false} DrawinListed(ds: seq<Drawin>, flags: map<Drawin, bool>, ontop: bool, k: nat, d: Drawin)
    requires k <= |ds| && ToSet(ds) <= flags.Keys
    ensures d in DrawinList(ds, flags, ontop, k) <==> d in ds[k..] && flags[d] == ontop
    decreases |ds| - k
  {
    if k < |ds| {
      assert ds[k..] == [ds[k]] + ds[k + 1..];
      DrawinListed(ds, flags, ontop, k + 1, d);
    }
  }

  lemma {:induction false} FamilyInStack(g: map<Client, Client>, stack: seq<Client>, c: Client, x: Client)
    requires Acyclic(g) && c in stack && x in Family(g, stack, c)
    ensures x in stack
    decreases Room(g, c), |stack| + 1
  {
    if x != c {
      ChildrenInStack(g, stack, c, 0, x);
    }
  }

  lemma {:induction false} ChildrenInStack(g: map<Client, Client>, stack: seq<Client>, c: Client, k: nat, x: Client)
    requires Acyclic(g) && k <= |stack| && x in Children(g, stack, c, k)
    ensures x in stack
    decreases Room(g, c), |stack| - k
  {
    if IsChild(g, stack[k], c) && x in Family(g, stack, stack[k]) {
      ChildHasLessRoom(g, stack[k], c);
      FamilyInStack(g, stack, stack[k], x);
    } else {
      ChildrenInStack(g, stack, c, k + 1, x);
    }
  }

  lemma {:induction false} PassInStack(g: map<Client, Client>, stack: seq<Client>, layer: map<Client, Layer>, l: Layer,
      k: nat, x: Client)
    requires Acyclic(g) && k <= |stack| && ToSet(stack) <= layer.Keys && x in Pass(g, stack, layer, l, k)
    ensures x in stack
    decreases |stack| - k
  {
    if layer[stack[k]] == l && x in Family(g, stack, stack[k]) {
      FamilyInStack(g, stack, stack[k], x);
    } else {
      PassInStack(g, stack, layer, l, k + 1, x);
    }
  }

  lemma {:induction false} PassesInStack(g: map<Client, Client>, stack: seq<Client>, layer: map<Client, Layer>,
      lo: Layer, hi: Layer, x: Client)
    requires Acyclic(g) && ToSet(stack) <= layer.Keys && lo <= hi && x in Passes(g, stack, layer, lo, hi)
    ensures x in stack
    decreases hi - lo
  {
    if x in Pass(g, stack, layer, lo, 0) {
      PassInStack(g, stack, layer, lo, 0, x);
    } else {
      PassesInStack(g, stack, layer, lo + 1, hi, x);
    }
  }

  /** Which parts of the emission list a window. */
  lemma PartsOf(s: State, x: Window)
    requires Consistent(s)
    ensures x in DesktopPart(s) || x in ClientPart(s) ==> x in s.clients
    ensures forall b :: x in DrawinPart(s, b) <==> x in s.drawins && s.drawinOntop[x] == b
    ensures x in s.clients ==> x !in s.drawins
    ensures x in s.clients && Effective(s, x) == DESKTOP ==> x in DesktopPart(s) && x !in ClientPart(s)
    ensures x in s.clients && Effective(s, x) > DESKTOP ==> x in ClientPart(s)
    ensures x in s.clients ==> Effective(s, x) >= DESKTOP
  {
    ClosedState(s);
    var g, st, layer := s.transientFor, s.stack, Layers(s);
    forall b {
      DrawinListed(s.drawins, s.drawinOntop, b, 0, x);
    }
    assert s.drawins[0..] == s.drawins;
    assert x in s.clients <==> x in ToSet(s.clients);
    assert x in st <==> x in ToSet(st);
    assert x in s.drawins <==> x in ToSet(s.drawins);
    if x in DesktopPart(s) {
      PassesInStack(g, st, layer, DESKTOP, BELOW, x);
    }
    if x in ClientPart(s) {
      PassesInStack(g, st, layer, BELOW, LAYER_COUNT, x);
    }
    if x in s.clients {
      EffectiveBounds(g, st, layer, x);
      LastPass(g, st, layer, x, DESKTOP, BELOW);
      LastPass(g, st, layer, x, BELOW, LAYER_COUNT);
    }
  }

  // ----- the order of last emission

  /** A transient is listed after its parent. */
  lemma EmissionParent(s: State, x: Client, p: Client)
    requires Consistent(s) && ParentIs(s, x, p)
    ensures Under(Emission(s), p, x)
  {
    ClosedState(s);
    assert x in s.stack && p in s.stack;
    assert p in ToSet(s.clients);
    PartsOf(s, p);
    PassesFollow(s.transientFor, s.stack, Layers(s), DESKTOP, BELOW, p, x);
    PassesFollow(s.transientFor, s.stack, Layers(s), BELOW, LAYER_COUNT, p, x);
    var a, d, b, e := DesktopPart(s), DrawinPart(s, false), ClientPart(s), DrawinPart(s, true);
    hide Consistent, DesktopPart, ClientPart, DrawinPart, Under;
    FollowsAppend(a, d, p, x);
    FollowsAppend(a + d, b, p, x);
    FollowsAppend(a + d + b, e, p, x);
    assert p in a + d + b + e;
  }

  /** A client of a lower effective layer is listed before one of a higher. */
  lemma EmissionLayers(s: State, x: Client, y: Client)
    requires Consistent(s) && x in s.clients && y in s.clients && Effective(s, x) < Effective(s, y)
    ensures Under(Emission(s), x, y)
  {
    ClosedState(s);
    PartsOf(s, x);
    PartsOf(s, y);
    assert x in ToSet(s.stack) && y in ToSet(s.stack);
    EffectiveBounds(s.transientFor, s.stack, Layers(s), y);
    var a, d, b, e := DesktopPart(s), DrawinPart(s, false), ClientPart(s), DrawinPart(s, true);
    if Effective(s, x) == DESKTOP {
      hide Consistent, DesktopPart, ClientPart, DrawinPart, Under, Effective;
      UnderAcross(a + d, b, x, y);
    } else {
      LayersInOrder(s.transientFor, s.stack, Layers(s), BELOW, LAYER_COUNT, x, y);
      hide Consistent, DesktopPart, ClientPart, DrawinPart, Under, Effective;
      UnderInRight(a + d, b, x, y);
    }
    UnderInLeft(a + d + b, e, x, y);
  }

  /** Drawins that are not ontop are listed after the clients of the desktop layer and before the others. */
  lemma EmissionDrawin(s: State, x: Client, d: Drawin)
    requires Consistent(s) && x in s.clients && d in s.drawins && !s.drawinOntop[d]
    ensures if Effective(s, x) == DESKTOP then Under(Emission(s), x, d) else Under(Emission(s), d, x)
  {
    PartsOf(s, x);
    PartsOf(s, d);
    var u, v, w, e := DesktopPart(s), DrawinPart(s, false), ClientPart(s), DrawinPart(s, true);
    hide Consistent, DesktopPart, ClientPart, DrawinPart, Under;
    if Effective(s, x) == DESKTOP {
      UnderAcross(u, v, x, d);
      UnderInLeft(u + v, w, x, d);
      UnderInLeft(u + v + w, e, x, d);
    } else {
      UnderAcross(u + v, w, d, x);
      UnderInLeft(u + v + w, e, d, x);
    }
  }

  /** Ontop drawins are listed after everything else. */
  lemma EmissionOntop(s: State, x: Window, d: Drawin)
    requires Consistent(s) && d in s.drawins && s.drawinOntop[d]
    requires x in s.clients || (x in s.drawins && !s.drawinOntop[x])
    ensures Under(Emission(s), x, d)
  {
    PartsOf(s, x);
    PartsOf(s, d);
    UnderAcross(DesktopPart(s) + DrawinPart(s, false) + ClientPart(s), DrawinPart(s, true), x, d);
  }

  // ----- the order on the server

  /** The order of the server's windows after a refresh in state s. */
  ghost function Refreshed(s: State, order: seq<Window>): seq<Window>
    requires Consistent(s)
  {
    ApplyAll(order, Requests(NONE, Emission(s)))
  }

  /** The windows of all clients and drawins are on the server. */
  ghost predicate OnServer(s: State, order: seq<Window>) {
    && NoDup(order)
    && (forall c | c in s.clients :: c in order)
    && (forall d | d in s.drawins :: d in order)
  }

  /** The order of last emission becomes the order on the server, and the windows a refresh does not list
      keep their order. */
  lemma RefreshOrders(s: State, order: seq<Window>)
    requires Consistent(s) && OnServer(s, order)
    ensures var final, listed := Refreshed(s, order), ToSet(s.clients) + ToSet(s.drawins);
      && NoDup(final)
      && (forall x, y | Under(Emission(s), x, y) :: Precedes(final, x, y))
      && Minus(final, listed) == Minus(order, listed)
  {
    hide Consistent, Emission;
    ListedWindows(s);
    forall w | w in Emission(s) ensures w in order {
      assert w in ToSet(Emission(s));
    }
    if Emission(s) != [] {
      RequestsSortOrder(order, Emission(s));
    }
  }

  /** The listed windows lie on the server in the order of last emission. */
  ghost predicate InOrder(s: State, order: seq<Window>)
    requires Consistent(s)
  {
    forall x, y | Under(Emission(s), x, y) :: Precedes(order, x, y)
  }

  /** All that a refresh lists, each window at the place of its last mention. */
  ghost function Wanted(s: State): seq<Window>
    requires Consistent(s)
  {
    KeepLast(Emission(s))
  }

  /** An order is right just if it agrees with that one. */
  lemma InOrderIsWanted(s: State, order: seq<Window>)
    requires Consistent(s)
    ensures InOrder(s, order) <==> forall x, y | Precedes(Wanted(s), x, y) :: Precedes(order, x, y)
  {
    forall x, y ensures Precedes(Wanted(s), x, y) <==> Under(Emission(s), x, y) {
      if Under(Emission(s), x, y) {
        UnderKeepLast(Emission(s), x, y);
      }
      if Precedes(Wanted(s), x, y) {
        KeepLastUnder(Emission(s), x, y);
      }
    }
    hide Consistent, Emission, Under, Precedes, Wanted;
  }

  lemma WantedIsRight(s: State)
    requires Consistent(s)
    ensures OnServer(s, Wanted(s)) && InOrder(s, Wanted(s)) && NoDup(Wanted(s))
    ensures ToSet(Wanted(s)) == ToSet(s.clients) + ToSet(s.drawins)
  {
    hide Consistent, Emission, Under, Precedes, NoDup, InOrder, KeepLast, Minus;
    KeepLastNoDup(Emission(s));
    InOrderIsWanted(s, Wanted(s));
    forall w ensures w in Wanted(s) <==> w in s.clients || w in s.drawins {
      EmissionHas(s, w);
    }
    MembersOfBoth(Wanted(s), s.clients, s.drawins);
  }

  /**
   Where the same windows are listed, each order that is right for s is right for t as well if and only if both
   want the same order.
   */
  lemma RightOrdersAgree(s: State, t: State)
    requires Consistent(s) && Consistent(t)
    requires ToSet(s.clients) + ToSet(s.drawins) == ToSet(t.clients) + ToSet(t.drawins)
    ensures (forall order | OnServer(s, order) && InOrder(s, order) :: InOrder(t, order)) <==> Wanted(s) == Wanted(t)
  {
    WantedIsRight(s);
    WantedIsRight(t);
    hide Consistent, Emission, Under, Precedes, Wanted, NoDup, InOrder, OnServer;
    if Wanted(s) == Wanted(t) {
      forall order | InOrder(s, order) ensures InOrder(t, order) {
        InOrderIsWanted(s, order);
        InOrderIsWanted(t, order);
      }
    }
    if forall order | OnServer(s, order) && InOrder(s, order) :: InOrder(t, order) {
      InOrderIsWanted(t, Wanted(s));
      SameOrderIsSame(Wanted(t), Wanted(s));
    }
  }

  /** Every client lies above its transient_for parent, clients lie by their effective layers, drawins that
      are not ontop between the desktop layer and the other clients, and ontop drawins over all of these. */
  ghost predicate Sorted(s: State, order: seq<Window>)
    requires Consistent(s)
  {
    && (forall x, p | ParentIs(s, x, p) :: Precedes(order, p, x))
    && (forall x, y | x in s.clients && y in s.clients && Effective(s, x) < Effective(s, y) :: Precedes(order, x, y))
    && (forall x, d | x in s.clients && d in s.drawins && !s.drawinOntop[d] ::
          if Effective(s, x) == DESKTOP then Precedes(order, x, d) else Precedes(order, d, x))
    && (forall x, d | d in s.drawins && s.drawinOntop[d] && (x in s.clients || (x in s.drawins && !s.drawinOntop[x])) ::
          Precedes(order, x, d))
  }

  lemma InOrderSorts(s: State, order: seq<Window>)
    requires Consistent(s) && InOrder(s, order)
    ensures Sorted(s, order)
  {
    hide Emission, Effective, Under, Precedes, Linked;
    forall x, p | ParentIs(s, x, p) ensures Precedes(order, p, x) {
      EmissionParent(s, x, p);
    }
    forall x, y | x in s.clients && y in s.clients && Effective(s, x) < Effective(s, y) ensures Precedes(order, x, y) {
      EmissionLayers(s, x, y);
    }
    forall x, d | x in s.clients && d in s.drawins && !s.drawinOntop[d]
      ensures if Effective(s, x) == DESKTOP then Precedes(order, x, d) else Precedes(order, d, x)
    {
      EmissionDrawin(s, x, d);
    }
    forall x, d | d in s.drawins && s.drawinOntop[d] && (x in s.clients || (x in s.drawins && !s.drawinOntop[x]))
      ensures Precedes(order, x, d)
    {
      EmissionOntop(s, x, d);
    }
  }

  /** After a refresh the server has such an order. */
  lemma RefreshSorts(s: State, order: seq<Window>)
    requires Consistent(s) && OnServer(s, order)
    ensures InOrder(s, Refreshed(s, order)) && Sorted(s, Refreshed(s, order)) && OnServer(s, Refreshed(s, order))
  {
    RefreshOrders(s, order);
    RefreshKeepsWindows(order, Requests(NONE, Emission(s)));
    hide Consistent, Emission, Under, Precedes, Sorted;
    InOrderSorts(s, Refreshed(s, order));
  }

  /** No stacking request adds or removes a window. */
  lemma {:induction false} RefreshKeepsWindows(order: seq<Window>, rs: seq<Request>)
    ensures ToSet(ApplyAll(order, rs)) == ToSet(order)
    ensures forall w :: w in ApplyAll(order, rs) <==> w in order
    decreases |rs|
  {
    if rs != [] {
      ConfigureKeepsWindows(order, rs[0]);
      RefreshKeepsWindows(Apply(order, rs[0]), rs[1..]);
    }
    forall w ensures w in ApplyAll(order, rs) <==> w in order {
      assert w in ToSet(ApplyAll(order, rs)) <==> w in ToSet(order);
    }
  }

  lemma ConfigureKeepsWindows(order: seq<Window>, r: Request)
    ensures ToSet(Apply(order, r)) == ToSet(order)
  {
    var rest := Minus(order, {r.w});
    MinusSet(order, {r.w});
    assert r.w in order ==> {r.w} + ToSet(rest) == ToSet(order);
    match r {
      case StackBottom(w) => {
        SetOfAppend([w], rest);
        assert ToSet([w]) == {w};
      }
      case StackAbove(w, sibling) => {
        if sibling in order && sibling != w {
          MinusMember(order, {w}, sibling);
          InsertedSet(rest, w, sibling);
        }
      }
    }
  }

  lemma {:induction false} InsertedSet(order: seq<Window>, w: Window, sibling: Window)
    requires sibling in order
    ensures ToSet(InsertAbove(order, w, sibling)) == ToSet(order) + {w}
  {
    var head, rest := order[0], order[1..];
    assert order == [head] + rest;
    SetOfAppend([head], rest);
    assert ToSet([head]) == {head};
    if head == sibling {
      SetOfAppend([sibling, w], rest);
      assert ToSet([sibling, w]) == {sibling, w};
    } else {
      InsertedSet(rest, w, sibling);
      SetOfAppend([head], InsertAbove(rest, w, sibling));
    }
  }

  /** A refresh lists exactly the clients and the drawins. */
  lemma ListedWindows(s: State)
    requires Consistent(s)
    ensures ToSet(Emission(s)) == ToSet(s.clients) + ToSet(s.drawins) && NONE !in Emission(s)
  {
    forall x ensures x in Emission(s) <==> x in s.clients || x in s.drawins {
      EmissionHas(s, x);
    }
    EmissionHas(s, NONE);
    assert NONE !in ToSet(s.clients) && NONE !in ToSet(s.drawins);
    hide Consistent, Emission;
    MembersOfBoth(Emission(s), s.clients, s.drawins);
  }

  lemma MembersOfBoth(e: seq<Window>, a: seq<Window>, b: seq<Window>)
    requires forall x :: x in e <==> x in a || x in b
    ensures ToSet(e) == ToSet(a) + ToSet(b)
  {
  }

  lemma EmissionHas(s: State, x: Window)
    requires Consistent(s)
    ensures x in Emission(s) <==> x in s.clients || x in s.drawins
  {
    PartsOf(s, x);
    hide Consistent, DesktopPart, DrawinPart, ClientPart, Effective;
  }

  /** Raising a client and refreshing puts it above every client of its effective layer that is not, directly
      or not, transient for it. */
  lemma RaiseThenRefresh(s: State, order: seq<Window>, c: Client, d: Client)
    requires Consistent(s) && OnServer(s, order) && c in s.clients && d in s.clients
    requires Effective(s, c) == Effective(s, d) && c !in ChainOf(s, d)
    ensures Consistent(RaisedState(s, c))
    ensures Precedes(Refreshed(RaisedState(s, c), order), d, c)
  {
    hide Consistent, Emission, Under, Precedes, Refreshed, ChainOf;
    RaisedConsistent(s, c);
    RaisedEmission(s, c, d);
    RefreshOrders(RaisedState(s, c), order);
  }

  lemma RaisedEmission(s: State, c: Client, d: Client)
    requires Consistent(s) && Consistent(RaisedState(s, c)) && c in s.clients && d in s.clients
    requires Effective(s, c) == Effective(s, d) && c !in ChainOf(s, d)
    ensures Under(Emission(RaisedState(s, c)), d, c)
  {
    var r := RaisedState(s, c);
    var g, st, layer := r.transientFor, r.stack, Layers(r);
    assert layer == Layers(s);
    ClosedState(s);
    ClosedState(r);
    RaisedIsOnTop(g, s.stack, c);
    PartsOf(r, d);
    assert c in ToSet(r.stack) && d in ToSet(r.stack);
    EffectiveBounds(g, st, layer, c);
    var a, v, b, e := DesktopPart(r), DrawinPart(r, false), ClientPart(r), DrawinPart(r, true);
    if Effective(s, c) == DESKTOP {
      TopOfItsLayer(g, st, layer, DESKTOP, BELOW, c, d);
      UnderInLeft(a, v, d, c);
      UnderInLeft(a + v, b, d, c);
    } else {
      TopOfItsLayer(g, st, layer, BELOW, LAYER_COUNT, c, d);
      UnderInRight(a + v, b, d, c);
    }
    UnderInLeft(a + v + b, e, d, c);
  }
}
