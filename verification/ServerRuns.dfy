/**
 Runs of the window manager together with the order of the windows on the X server: when a refresh establishes
 the order that belongs to the state, and how long it lasts.
 */
module ServerRuns {
  import opened Sequences
  import opened Stacking
  import opened XServer
  import opened ClientLinks
  import opened ClientState
  import opened RefreshOrder
  import opened ClientRuns
  import opened StableOrder

  // ----- sessions

  /** The state, whether a refresh has been asked for, and the windows on the server from the bottom up. */
  datatype Session = Session(state: State, pending: bool, order: seq<Window>)

  /** An operation, the refresh at the end of a round of the main loop, or what others do to the windows. */
  datatype Event = Do(op: Op) | Refresh | Others(order: seq<Window>)

  /** Nobody else destroys or reorders the frames of the clients and the visible drawins. */
  ghost predicate Respects(s: State, order: seq<Window>, other: seq<Window>) {
    && OnServer(s, other)
    && forall x, y |
        Precedes(order, x, y) && (x in s.clients || x in s.drawins) && (y in s.clients || y in s.drawins) ::
        Precedes(other, x, y)
  }

  /** A frame is a new window, and a drawin has its window before it is shown. */
  ghost predicate Allowed(x: Session, e: Event) {
    match e
    case Do(op) => Legal(x.state, op) && (op.Manage? ==> op.c !in x.order) && (op.Show? ==> op.d in x.order)
    case Refresh => true
    case Others(order) => Respects(x.state, x.order, order)
  }

  /** The requests that are sent to the server. */
  ghost function Sent(x: Session, e: Event): seq<Request>
    requires Consistent(x.state)
  {
    match e
    case Do(Manage(c, _, _, _, _)) => [StackBottom(c)]
    case Refresh => if x.pending then Requests(NONE, Emission(x.state)) else []
    case _ => []
  }

  /** A new window is created on top of all others. */
  ghost function Created(order: seq<Window>, e: Event): seq<Window> {
    match e
    case Do(Manage(c, _, _, _, _)) => order + [c]
    case Others(other) => other
    case _ => order
  }

  ghost function After(x: Session, e: Event): Session
    requires Consistent(x.state) && Allowed(x, e)
  {
    var order := ApplyAll(Created(x.order, e), Sent(x, e));
    match e
    case Do(op) => Session(Step(x.state, op), x.pending || Asks(x.state, op), order)
    case Refresh => Session(x.state, false, order)
    case Others(_) => x.(order := order)
  }

  ghost predicate Served(x: Session) {
    Consistent(x.state) && OnServer(x.state, x.order)
  }

  /** The windows have the order that a refresh would give them, or a refresh is on its way. */
  ghost predicate Settled(x: Session)
    requires Consistent(x.state)
  {
    x.pending || InOrder(x.state, x.order)
  }

  lemma AfterServed(x: Session, e: Event)
    requires Served(x) && Allowed(x, e)
    ensures Served(After(x, e))
  {
    match e {
      case Do(op) => {
        StepConsistent(x.state, op);
        StepLists(x.state, op);
        if op.Manage? {
          FrameAtBottom(x.order, op.c);
        }
        assert !op.Manage? ==> After(x, e).order == x.order;
        hide Consistent, Step, Asks, Emission, NoDup, ApplyAll;
      }
      case Refresh => {
        RefreshSorts(x.state, x.order);
        hide Consistent, Emission, NoDup, InOrder, Sorted;
      }
      case Others(_) => {
        hide Consistent, Emission, NoDup;
      }
    }
  }

  /** No other windows than these are listed after a step. */
  lemma StepLists(s: State, op: Op)
    requires Consistent(s) && Legal(s, op)
    ensures forall w | w in Step(s, op).clients :: w in s.clients || (op.Manage? && w == op.c)
    ensures forall w | w in Step(s, op).drawins :: w in s.drawins || (op.Show? && w == op.d)
  {
    match op {
      case Manage(c, w, trans, a, reparented) => {
        ManagedFields(s, c, w, trans, a);
        hide Consistent, Managed;
      }
      case Unmanage(c) => {
        hide Consistent, Forget;
        WithoutMembers(s.clients, c);
      }
      case Show(d, v, ontop) => {
        hide Consistent;
        WithoutMembers(s.drawins, d);
      }
      case _ => {
        hide Consistent, Relinked, Raised, Lowered;
      }
    }
  }

  lemma {:induction false} WithoutMembers(s: seq<Window>, x: Window)
    ensures forall w | w in Without(s, x) :: w in s
  {
    if s != [] {
      assert s == [s[0]] + s[1..];
      WithoutMembers(s[1..], x);
    }
  }

  lemma FrameAtBottom(order: seq<Window>, c: Window)
    requires c !in order && NoDup(order)
    ensures ApplyAll(order + [c], [StackBottom(c)]) == [c] + order && NoDup([c] + order)
  {
    MinusAppend(order, [c], {c});
    MinusNothing(order, {c});
    assert Minus([c], {c}) == [];
    assert [StackBottom(c)][1..] == [];
    assert c in order + [c] && order + [] == order;
  }

  // ----- how long an order lasts

  /** After a refresh that was asked for the windows lie as they should, for any order before it. */
  lemma RefreshSettles(x: Session)
    requires Served(x) && x.pending
    ensures var y := After(x, Refresh);
      !y.pending && y.state == x.state && Served(y) && InOrder(y.state, y.order) && Sorted(y.state, y.order)
  {
    RefreshSorts(x.state, x.order);
    hide Consistent, OnServer, InOrder, Sorted, Emission;
  }

  lemma HarmlessSettled(x: Session, op: Op)
    requires Served(x) && Allowed(x, Do(op)) && Settled(x) && Harmless(x.state, op)
    ensures Served(After(x, Do(op))) && Settled(After(x, Do(op)))
  {
    AfterServed(x, Do(op));
    if !x.pending && !Asks(x.state, op) {
      hide Consistent, InOrder, Harmless, Step;
      HarmlessInOrder(x.state, op, x.order);
    }
  }

  lemma OthersSettled(x: Session, order: seq<Window>)
    requires Served(x) && Allowed(x, Others(order)) && Settled(x)
    ensures Served(After(x, Others(order))) && Settled(After(x, Others(order)))
  {
    AfterServed(x, Others(order));
    assert After(x, Others(order)) == x.(order := order);
    hide Consistent, Under, Precedes, Emission, NoDup, After, OnServer;
    if !x.pending {
      forall a, b | Under(Emission(x.state), a, b) ensures Precedes(order, a, b) {
        UnderListed(x.state, a, b);
      }
    }
  }

  lemma UnderListed(s: State, a: Window, b: Window)
    requires Consistent(s) && Under(Emission(s), a, b)
    ensures (a in s.clients || a in s.drawins) && (b in s.clients || b in s.drawins)
  {
    hide Consistent, Emission;
    EmissionHas(s, a);
    EmissionHas(s, b);
  }

  // ----- runs

  ghost predicate Leads(x: Session, es: seq<Event>, y: Session)
    decreases |es|
  {
    if es == [] then x == y
    else Consistent(x.state) && Allowed(x, es[0]) && Leads(After(x, es[0]), es[1..], y)
  }

  /** The same where no operation changes the order without asking for a refresh. */
  ghost predicate LeadsHarmlessly(x: Session, es: seq<Event>, y: Session)
    decreases |es|
  {
    if es == [] then x == y
    else
      && Consistent(x.state) && Allowed(x, es[0]) && (es[0].Do? ==> Harmless(x.state, es[0].op))
      && LeadsHarmlessly(After(x, es[0]), es[1..], y)
  }

  lemma {:induction false} RunServed(x: Session, es: seq<Event>, y: Session)
    requires Served(x) && Leads(x, es, y)
    ensures Served(y)
    decreases |es|
  {
    if es != [] {
      AfterServed(x, es[0]);
      hide Consistent, After, OnServer;
      RunServed(After(x, es[0]), es[1..], y);
    }
  }

  /**
   Over every run from the start: the windows of the clients and of the visible drawins are on the server, and
   whenever a refresh that was asked for comes, it sorts them.
   */
  lemma EveryRefreshSorts(order: seq<Window>, es: seq<Event>, y: Session)
    requires NoDup(order) && Leads(Session(START, false, order), es, y)
    ensures Served(y)
    ensures y.pending ==> InOrder(y.state, After(y, Refresh).order) && Sorted(y.state, After(y, Refresh).order)
  {
    StartConsistent();
    RunServed(Session(START, false, order), es, y);
    hide Consistent, After, OnServer, InOrder, Sorted, Leads;
    if y.pending {
      RefreshSettles(y);
    }
  }

  lemma {:induction false} RunSettled(x: Session, es: seq<Event>, y: Session)
    requires Served(x) && Settled(x) && LeadsHarmlessly(x, es, y)
    ensures Served(y) && Settled(y)
    decreases |es|
  {
    if es != [] {
      match es[0] {
        case Do(op) => {
          HarmlessSettled(x, op);
        }
        case Refresh => {
          RefreshKeepsSettled(x);
        }
        case Others(order) => {
          OthersSettled(x, order);
        }
      }
      hide Consistent, After, OnServer, InOrder, Harmless;
      RunSettled(After(x, es[0]), es[1..], y);
    }
  }

  lemma RefreshKeepsSettled(x: Session)
    requires Served(x) && Settled(x)
    ensures Served(After(x, Refresh)) && Settled(After(x, Refresh))
  {
    if x.pending {
      RefreshSettles(x);
    } else {
      assert After(x, Refresh) == x;
    }
  }

  /**
   Over every run from the start in which no focus and no parent changes harmfully: as long as no refresh is
   asked for, the windows lie as the state says they should.
   */
  lemma EveryHarmlessRunIsSorted(order: seq<Window>, es: seq<Event>, y: Session)
    requires NoDup(order) && LeadsHarmlessly(Session(START, false, order), es, y)
    ensures Served(y) && (y.pending || (InOrder(y.state, y.order) && Sorted(y.state, y.order)))
  {
    StartConsistent();
    NothingToSort(order);
    RunSettled(Session(START, false, order), es, y);
    hide Consistent, OnServer, InOrder, Sorted, LeadsHarmlessly;
    if !y.pending {
      InOrderSorts(y.state, y.order);
    }
  }

  lemma NothingToSort(order: seq<Window>)
    requires Consistent(START)
    ensures InOrder(START, order)
  {
    forall x, y ensures !Under(Emission(START), x, y) {
      if Under(Emission(START), x, y) {
        UnderListed(START, x, y);
      }
    }
  }
}
