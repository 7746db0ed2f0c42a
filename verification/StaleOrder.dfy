/**
 How an order goes stale: two clients for which a change of the focus, or of the parent, makes the order on the
 server wrong while no refresh is asked for.
 */
module StaleOrder {
  import opened Options
  import opened Sequences
  import opened TransientGraph
  import opened XServer
  import opened ClientState
  import opened RefreshOrder
  import opened ClientRuns
  import opened StableOrder
  import opened ServerRuns

  const FULLSCREEN_CLIENT: Attributes := Properties(false, true, false, false, NormalType, false)
  const ABOVE_CLIENT: Attributes := Properties(false, false, true, false, NormalType, false)
  const BELOW_CLIENT: Attributes := Properties(false, false, false, true, NormalType, false)

  /** Two clients, 1 with window 10 and then 2 with window 20, neither of them transient. */
  ghost function TwoClients(a: Attributes, b: Attributes): State {
    Managed(Managed(START, 1, 10, NONE, a), 2, 20, NONE, b)
  }

  lemma TwoClientsAre(a: Attributes, b: Attributes)
    ensures Legal(START, Manage(1, 10, NONE, a, true))
    ensures Legal(Managed(START, 1, 10, NONE, a), Manage(2, 20, NONE, b, true))
    ensures var s := TwoClients(a, b);
      && Consistent(s) && s.clients == [2, 1] && s.stack == [2, 1] && s.drawins == [] && s.focus == NONE
      && s.attributes == map[1 := a, 2 := b] && s.transientFor == map[]
      && s.window == map[1 := 10, 2 := 20] && s.transientForWindow == map[1 := NONE, 2 := NONE]
  {
    FirstClient(1, 10, NONE, a);
    assert TwoClients(a, b) == Managed(Managed(START, 1, 10, NONE, a), 2, 20, NONE, b);
    hide *;
    SecondClient(Managed(START, 1, 10, NONE, a), a, b);
  }

  lemma SecondClient(one: State, a: Attributes, b: Attributes)
    requires Alone(one, 1, 10, NONE, a)
    ensures Legal(one, Manage(2, 20, NONE, b, true))
    ensures var s := Managed(one, 2, 20, NONE, b);
      && Consistent(s) && s.clients == [2, 1] && s.stack == [2, 1] && s.drawins == [] && s.focus == NONE
      && s.attributes == map[1 := a, 2 := b] && s.transientFor == map[]
      && s.window == map[1 := 10, 2 := 20] && s.transientForWindow == map[1 := NONE, 2 := NONE]
  {
    SecondIsLegal(one, a, b);
    hide Consistent, Managed, Without, Legal;
    ManagedConsistent(one, 2, 20, NONE, b);
    ManagedFields(one, 2, 20, NONE, b);
    NoLinks(one, a, b);
    assert 2 !in one.stack;
  }

  lemma SecondIsLegal(one: State, a: Attributes, b: Attributes)
    requires Alone(one, 1, 10, NONE, a)
    ensures Legal(one, Manage(2, 20, NONE, b, true)) && 20 !in one.window.Values
  {
    hide Consistent;
  }

  lemma NoLinks(one: State, a: Attributes, b: Attributes)
    requires Alone(one, 1, 10, NONE, a)
    ensures Managed(one, 2, 20, NONE, b).transientFor == map[]
  {
    var two := Managed(one, 2, 20, NONE, b);
    ManagedConsistent(one, 2, 20, NONE, b);
    ManagedFields(one, 2, 20, NONE, b);
    ManagedLinks(one, 2, 20, NONE, b);
    LinksAmong(one);
    LinksAmong(two);
    hide Consistent, Managed, Chain, Without;
    forall x, p ensures ParentIs(two, x, p) <==> ParentIs(START, x, p) {
    }
    SameLinks(two, START);
  }

  /** Both windows on the server, in the order of a refresh. */
  ghost function TwoOnServer(a: Attributes, b: Attributes): Session
    requires Consistent(TwoClients(a, b))
  {
    Session(TwoClients(a, b), false, Refreshed(TwoClients(a, b), [2, 1]))
  }

  /** This is a session that occurs: manage both, refresh. */
  lemma TwoAreReached(a: Attributes, b: Attributes)
    ensures Consistent(TwoClients(a, b)) && Served(TwoOnServer(a, b)) && Settled(TwoOnServer(a, b))
    ensures Leads(Session(START, false, []),
      [Do(Manage(1, 10, NONE, a, true)), Do(Manage(2, 20, NONE, b, true)), Refresh], TwoOnServer(a, b))
  {
    var one, two := Managed(START, 1, 10, NONE, a), TwoClients(a, b);
    TwoClientsAre(a, b);
    FirstClient(1, 10, NONE, a);
    StartConsistent();
    assert two == Managed(one, 2, 20, NONE, b) && TwoOnServer(a, b) == Session(two, false, Refreshed(two, [2, 1]));
    hide *;
    TwoAreManaged(Session(START, false, []), one, two, a, b);
    TwoAreServed(two, TwoOnServer(a, b));
  }

  lemma TwoAreServed(two: State, x: Session)
    requires Consistent(two) && two.clients == [2, 1] && two.drawins == []
    requires x == Session(two, false, Refreshed(two, [2, 1]))
    ensures Served(x) && Settled(x)
  {
    hide Consistent, InOrder, Sorted, Refreshed;
    assert OnServer(two, [2, 1]);
    hide OnServer;
    RefreshSorts(two, [2, 1]);
  }

  lemma TwoAreManaged(x: Session, one: State, two: State, a: Attributes, b: Attributes)
    requires x == Session(START, false, []) && Consistent(x.state)
    requires Legal(x.state, Manage(1, 10, NONE, a, true)) && one == Managed(x.state, 1, 10, NONE, a) && Consistent(one)
    requires Legal(one, Manage(2, 20, NONE, b, true)) && two == Managed(one, 2, 20, NONE, b) && Consistent(two)
    ensures Leads(x, [Do(Manage(1, 10, NONE, a, true)), Do(Manage(2, 20, NONE, b, true)), Refresh],
      Session(two, false, Refreshed(two, [2, 1])))
  {
    hide Consistent, Managed, Refreshed, Legal, After, Leads;
    var y, z := Session(one, true, [1]), Session(two, true, [2, 1]);
    AfterManage(x, Manage(1, 10, NONE, a, true));
    AfterManage(y, Manage(2, 20, NONE, b, true));
    AfterRefresh(z);
    ThreeSteps(x, Do(Manage(1, 10, NONE, a, true)), y, Do(Manage(2, 20, NONE, b, true)), z, Refresh);
  }

  lemma ThreeSteps(x: Session, e: Event, y: Session, f: Event, z: Session, g: Event)
    requires Consistent(x.state) && Allowed(x, e) && After(x, e) == y
    requires Consistent(y.state) && Allowed(y, f) && After(y, f) == z
    requires Consistent(z.state) && Allowed(z, g)
    ensures Leads(x, [e, f, g], After(z, g))
  {
    hide Consistent, Allowed, After;
    LeadsOn(z, g, [], After(z, g));
    LeadsOn(y, f, [g], After(z, g));
    LeadsOn(x, e, [f, g], After(z, g));
    assert [e] + [f, g] == [e, f, g] && [f] + [g] == [f, g] && [g] + [] == [g];
  }

  lemma AfterManage(x: Session, op: Op)
    requires Consistent(x.state) && op.Manage? && op.reparented && Allowed(x, Do(op)) && NoDup(x.order)
    ensures After(x, Do(op)) == Session(Managed(x.state, op.c, op.w, op.trans, op.a), true, [op.c] + x.order)
  {
    FrameAtBottom(x.order, op.c);
    hide Consistent, Managed, ApplyAll, NoDup;
  }

  lemma AfterRefresh(x: Session)
    requires Consistent(x.state) && x.pending
    ensures After(x, Refresh) == Session(x.state, false, Refreshed(x.state, x.order))
  {
    hide Consistent, ApplyAll, Emission;
  }

  lemma LeadsOn(x: Session, e: Event, es: seq<Event>, y: Session)
    requires Consistent(x.state) && Allowed(x, e) && Leads(After(x, e), es, y)
    ensures Leads(x, [e] + es, y)
  {
    assert ([e] + es)[1..] == es;
  }

  /** Where two clients have no parents their own layers decide. */
  lemma OwnLayers(s: State)
    requires Consistent(s) && s.transientFor == map[]
    ensures forall x, y | x in s.clients && y in s.clients && Layers(s)[x] < Layers(s)[y] :: Under(Emission(s), x, y)
  {
    forall x, y | x in s.clients && y in s.clients && Layers(s)[x] < Layers(s)[y] ensures Under(Emission(s), x, y) {
      hide Consistent, Emission, Under;
      EmissionLayers(s, x, y);
    }
  }

  /** An order is not right for two states that want it the other way round. */
  lemma TurnedAround(s: State, t: State, order: seq<Window>, a: Window, b: Window)
    requires Consistent(s) && Consistent(t) && NoDup(order) && InOrder(s, order)
    requires Under(Emission(s), a, b) && Under(Emission(t), b, a)
    ensures !InOrder(t, order)
  {
    hide Consistent, Emission, Under;
    assert Precedes(order, a, b);
    NotBothWays(order, a, b);
  }

  /** A fullscreen client under one that is above gets the focus: the order is stale, and no refresh comes. */
  lemma FocusMakesStale(a: Attributes, b: Attributes)
    requires a == FULLSCREEN_CLIENT && b == ABOVE_CLIENT
    ensures Consistent(TwoClients(a, b))
    ensures var x := TwoOnServer(a, b);
      Served(x) && Settled(x) && Allowed(x, Do(Focus(1))) && !Harmless(x.state, Focus(1))
      && Served(After(x, Do(Focus(1)))) && !Settled(After(x, Do(Focus(1))))
  {
    TwoClientsAre(a, b);
    TwoAreReached(a, b);
    assert TwoOnServer(a, b).state == TwoClients(a, b) && !TwoOnServer(a, b).pending;
    hide *;
    FocusGoesStale(TwoOnServer(a, b), a, b);
  }

  lemma FocusGoesStale(x: Session, a: Attributes, b: Attributes)
    requires Served(x) && Settled(x) && !x.pending && a == FULLSCREEN_CLIENT && b == ABOVE_CLIENT
    requires x.state.clients == [2, 1] && x.state.transientFor == map[] && x.state.focus == NONE
    requires x.state.attributes == map[1 := a, 2 := b]
    ensures Allowed(x, Do(Focus(1))) && !Harmless(x.state, Focus(1))
    ensures Served(After(x, Do(Focus(1)))) && !Settled(After(x, Do(Focus(1))))
  {
    hide Consistent, InOrder, NoDup;
    AfterServed(x, Do(Focus(1)));
    FocusTurnsAround(x.state, x.order);
    NotHarmless(x.state, Focus(1), x.order);
  }

  lemma FocusTurnsAround(s: State, order: seq<Window>)
    requires Consistent(s) && s.clients == [2, 1] && s.transientFor == map[] && s.focus == NONE
    requires s.attributes == map[1 := FULLSCREEN_CLIENT, 2 := ABOVE_CLIENT] && NoDup(order) && InOrder(s, order)
    ensures Consistent(s.(focus := 1)) && !InOrder(s.(focus := 1), order)
  {
    FocusConsistent(s, 1);
    assert Layers(s)[1] < Layers(s)[2] && Layers(s.(focus := 1))[2] < Layers(s.(focus := 1))[1];
    hide Consistent, Emission, Under, Precedes, NoDup, Layers, InOrder;
    OwnLayers(s);
    OwnLayers(s.(focus := 1));
    TurnedAround(s, s.(focus := 1), order, 1, 2);
  }

  /** A client in the layer below becomes transient for one that lies over it: the same. */
  lemma TransientMakesStale(a: Attributes, b: Attributes)
    requires a == BELOW_CLIENT && b == PLAIN
    ensures Consistent(TwoClients(a, b))
    ensures var x, op := TwoOnServer(a, b), TransientFor(1, Some(20));
      Served(x) && Settled(x) && Allowed(x, Do(op)) && !Harmless(x.state, op)
      && Served(After(x, Do(op))) && !Settled(After(x, Do(op)))
  {
    TwoClientsAre(a, b);
    TwoAreReached(a, b);
    assert TwoOnServer(a, b).state == TwoClients(a, b) && !TwoOnServer(a, b).pending;
    hide *;
    TransientGoesStale(TwoOnServer(a, b), a, b);
  }

  lemma TransientGoesStale(x: Session, a: Attributes, b: Attributes)
    requires Served(x) && Settled(x) && !x.pending && a == BELOW_CLIENT && b == PLAIN
    requires x.state.clients == [2, 1] && x.state.transientFor == map[] && x.state.focus == NONE
    requires x.state.window == map[1 := 10, 2 := 20] && x.state.attributes == map[1 := a, 2 := b]
    ensures Allowed(x, Do(TransientFor(1, Some(20)))) && !Harmless(x.state, TransientFor(1, Some(20)))
    ensures Served(After(x, Do(TransientFor(1, Some(20))))) && !Settled(After(x, Do(TransientFor(1, Some(20)))))
  {
    hide Consistent, InOrder, NoDup, PropertyRead, SameParent;
    AfterServed(x, Do(TransientFor(1, Some(20))));
    TransientTurnsAround(x.state, x.order);
    NotHarmless(x.state, TransientFor(1, Some(20)), x.order);
  }

  lemma TransientTurnsAround(s: State, order: seq<Window>)
    requires Consistent(s) && s.clients == [2, 1] && s.transientFor == map[] && s.focus == NONE
    requires s.window == map[1 := 10, 2 := 20]
    requires s.attributes == map[1 := BELOW_CLIENT, 2 := PLAIN] && NoDup(order) && InOrder(s, order)
    ensures Consistent(PropertyRead(s, 1, Some(20))) && !InOrder(PropertyRead(s, 1, Some(20)), order)
    ensures !SameParent(s, 1, 20)
  {
    PropertyConsistent(s, 1, Some(20));
    BecomesTransient(s);
    assert Layers(s)[1] < Layers(s)[2];
    hide Consistent, Emission, Under, Precedes, NoDup, Layers, InOrder, PropertyRead, SameParent;
    OwnLayers(s);
    TurnedAround(s, PropertyRead(s, 1, Some(20)), order, 1, 2);
  }

  lemma HintBecomesLink(s: State)
    requires Consistent(s) && s.clients == [2, 1] && s.transientFor == map[] && s.window == map[1 := 10, 2 := 20]
    ensures Hinted(s, 1, 20).transientFor == map[1 := 2] && !SameParent(s, 1, 20)
  {
    assert WindowIs(s, 2, 20);
    assert ChainOf(s, 2) == [2];
    hide Consistent, Hinted, Chain, ChainOf, WindowIs;
    HintedIs(s, 1, 20, 2);
  }

  lemma BecomesTransient(s: State)
    requires Consistent(s) && s.clients == [2, 1] && s.transientFor == map[] && s.window == map[1 := 10, 2 := 20]
    requires 1 in s.attributes && Consistent(PropertyRead(s, 1, Some(20)))
    ensures Under(Emission(PropertyRead(s, 1, Some(20))), 2, 1) && !SameParent(s, 1, 20)
  {
    var t := PropertyRead(s, 1, Some(20));
    HintBecomesLink(s);
    hide Consistent, Emission, Under, PropertyRead, Hinted, SameParent;
    PropertyFields(s, 1, Some(20));
    assert t.transientFor == map[1 := 2];
    EmissionParent(t, 1, 2);
  }

  // ----- changes that matter and do no harm

  /** A single fullscreen client gets the focus: its layer changes, the order that is wanted does not. */
  lemma LoneFocusIsHarmless(a: Attributes)
    requires a == FULLSCREEN_CLIENT
    ensures var s := Managed(START, 1, 10, NONE, a);
      && Consistent(s) && Legal(s, Focus(1)) && FocusMatters(s, 1)
      && Layers(s.(focus := 1)) != Layers(s) && Harmless(s, Focus(1))
  {
    FirstClient(1, 10, NONE, a);
    var s := Managed(START, 1, 10, NONE, a);
    assert Alone(s, 1, 10, NONE, a);
    hide *;
    LoneFocus(s, a);
  }

  lemma LoneFocus(s: State, a: Attributes)
    requires a == FULLSCREEN_CLIENT && Alone(s, 1, 10, NONE, a)
    ensures Legal(s, Focus(1)) && FocusMatters(s, 1) && Layers(s.(focus := 1)) != Layers(s) && Harmless(s, Focus(1))
  {
    FocusConsistent(s, 1);
    FocusKeepsLayers(s, 1);
    hide Consistent, Layers, Wanted;
    OneWanted(s, s.(focus := 1));
  }

  lemma OneWanted(s: State, t: State)
    requires Consistent(s) && Consistent(t) && s.clients == t.clients == [1] && s.drawins == t.drawins == []
    ensures Wanted(s) == Wanted(t)
  {
    hide Consistent, Wanted, OnServer, InOrder;
    WantedIsRight(s);
    WantedIsRight(t);
    assert ToSet(s.clients) + ToSet(s.drawins) == {1};
    NothingPrecedes(Wanted(s));
    SameOrderIsSame(Wanted(s), Wanted(t));
  }

  lemma NothingPrecedes(s: seq<Window>)
    requires NoDup(s) && ToSet(s) == {1}
    ensures forall x, y :: !Precedes(s, x, y)
  {
    forall x, y ensures !Precedes(s, x, y) {
      assert forall i | 0 <= i < |s| :: s[i] in ToSet(s);
    }
  }

  /** A client that lies over another one becomes transient for it: a new link, and the same order is wanted. */
  lemma NewParentIsHarmless(a: Attributes, b: Attributes)
    requires a == PLAIN && b == BELOW_CLIENT
    ensures var s, op := TwoClients(a, b), TransientFor(1, Some(20));
      && Consistent(s) && Legal(s, op) && !Asks(s, op) && !SameParent(s, 1, 20) && Harmless(s, op)
      && Step(s, op).transientFor != s.transientFor
  {
    TwoClientsAre(a, b);
    var s := TwoClients(a, b);
    hide *;
    NewParent(s, a, b);
  }

  lemma NewParent(s: State, a: Attributes, b: Attributes)
    requires a == PLAIN && b == BELOW_CLIENT
    requires Consistent(s) && s.clients == [2, 1] && s.transientFor == map[] && s.focus == NONE && s.drawins == []
    requires s.window == map[1 := 10, 2 := 20] && s.attributes == map[1 := a, 2 := b]
    ensures var op := TransientFor(1, Some(20));
      && Legal(s, op) && !Asks(s, op) && !SameParent(s, 1, 20) && Harmless(s, op)
      && Step(s, op).transientFor != s.transientFor
  {
    hide Consistent, PropertyRead, SameParent, Wanted;
    NewParentWanted(s, a, b);
  }

  lemma NewParentWanted(s: State, a: Attributes, b: Attributes)
    requires a == PLAIN && b == BELOW_CLIENT
    requires Consistent(s) && s.clients == [2, 1] && s.transientFor == map[] && s.focus == NONE && s.drawins == []
    requires s.window == map[1 := 10, 2 := 20] && s.attributes == map[1 := a, 2 := b]
    ensures var t := PropertyRead(s, 1, Some(20));
      Consistent(t) && Wanted(t) == Wanted(s) && 1 in t.transientFor && !SameParent(s, 1, 20)
  {
    assert Layers(s)[2] < Layers(s)[1];
    hide *;
    PropertyConsistent(s, 1, Some(20));
    PropertyFields(s, 1, Some(20));
    BecomesTransient(s);
    HintBecomesLink(s);
    OwnLayers(s);
    TwoWanted(s, PropertyRead(s, 1, Some(20)));
  }

  lemma TwoWanted(s: State, t: State)
    requires Consistent(s) && Consistent(t) && s.clients == t.clients == [2, 1] && s.drawins == t.drawins == []
    requires Under(Emission(s), 2, 1) && Under(Emission(t), 2, 1)
    ensures Wanted(s) == Wanted(t)
  {
    hide *;
    WantedOfTwo(s);
    WantedOfTwo(t);
    OnlyPrecedes(Wanted(s));
    SameOrderIsSame(Wanted(s), Wanted(t));
  }

  lemma WantedOfTwo(s: State)
    requires Consistent(s) && s.clients == [2, 1] && s.drawins == [] && Under(Emission(s), 2, 1)
    ensures NoDup(Wanted(s)) && ToSet(Wanted(s)) == {2, 1} && Precedes(Wanted(s), 2, 1)
  {
    hide Consistent, OnServer, InOrder, Emission, Under, Precedes, NoDup, KeepLast;
    WantedIsRight(s);
    UnderKeepLast(Emission(s), 2, 1);
    assert ToSet([2, 1]) + ToSet([]) == {2, 1};
  }

  lemma OnlyPrecedes(s: seq<Window>)
    requires NoDup(s) && ToSet(s) == {2, 1} && Precedes(s, 2, 1)
    ensures forall x, y | Precedes(s, x, y) :: x == 2 && y == 1
  {
    NotBothWays(s, 2, 1);
    forall x, y | Precedes(s, x, y) ensures x == 2 && y == 1 {
      assert forall i | 0 <= i < |s| :: s[i] in ToSet(s);
      assert x in {2, 1} && y in {2, 1} && x != y;
    }
  }
}
