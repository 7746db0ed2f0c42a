/**
 The operations as the window manager performs them, one after the other, with a refresh at the end of each
 round of the main loop: what they do is a run of the sessions in ServerRuns.
 */
module MainLoop {
  import opened Options
  import opened Sequences
  import opened XServer
  import opened ClientState
  import opened RefreshOrder
  import opened WindowManager
  import opened ClientRuns
  import opened ServerRuns

  method Perform(g: Globalconf, op: Op)
    requires Consistent(g.Now()) && Legal(g.Now(), op)
    modifies g
    ensures g.Now() == Step(old(g.Now()), op)
    ensures g.needStackRefresh == (old(g.needStackRefresh) || Asks(old(g.Now()), op))
    ensures g.requests == old(g.requests) + if op.Manage? then [StackBottom(op.c)] else []
  {
    hide Consistent, Managed, Unmanaged, RaisedState, LoweredState, PropertyRead, Shown, OntopSet, OnTop, Flagged;
    match op {
      case Manage(c, w, trans, a, reparented) => {
        g.ClientManage(c, w, Some(trans), a, reparented);
      }
      case Unmanage(c) => {
        g.ClientUnmanage(c);
      }
      case Raise(c) => {
        g.LuaClientRaise(c);
      }
      case Lower(c) => {
        StackNotEmpty(g.Now(), c);
        g.LuaClientLower(c);
      }
      case Swap(i, j) => {
        Exchange(g, i, j);
      }
      case Focus(c) => {
        var focusedNew := g.ClientFocusUpdate(c);
      }
      case Unfocus => {
        g.ClientUnfocus();
      }
      case TransientFor(c, reply) => {
        StateLinked(g.Now());
        g.PropertyUpdateTransientFor(c, reply);
      }
      case SetFlag(c, f, v) => {
        ClientSet(g, c, f, v);
      }
      case Restack => {
        g.StackWindows();
      }
      case Show(d, v, ontop) => {
        g.DrawinSetVisible(d, v, ontop);
      }
      case SetOntop(d, was, ontop) => {
        g.DrawinSetOntop(d, was, ontop);
      }
    }
  }

  lemma StackNotEmpty(s: State, c: Client)
    requires Consistent(s) && c in s.clients
    ensures s.stack != []
  {
    assert c in ToSet(s.stack);
  }

  lemma StateLinked(s: State)
    requires Consistent(s)
    ensures Linked(s)
  {
  }

  method Exchange(g: Globalconf, i: nat, j: nat)
    requires Consistent(g.Now()) && i < |g.clients| && j < |g.clients|
    modifies g`clients
    ensures g.clients == old(g.clients)[i := old(g.clients)[j]][j := old(g.clients)[i]]
  {
    OnceIsNoDup(g.clients);
    hide Consistent, Once;
    ghost var m, n := g.LuaClientSwap(g.clients[i], g.clients[j]);
  }

  method ClientSet(g: Globalconf, c: Client, f: Flag, v: bool)
    requires c in g.attributes
    modifies g`attributes, g`needStackRefresh
    ensures g.attributes == old(g.attributes)[c := Flagged(old(g.attributes)[c], f, v)]
    ensures g.needStackRefresh == (old(g.needStackRefresh) || Has(old(g.attributes)[c], f) != v)
  {
    hide Flagged;
    match f {
      case Ontop => g.ClientSetOntop(c, v);
      case Fullscreen => g.ClientSetFullscreen(c, v);
      case Above => g.ClientSetAbove(c, v);
      case Below => g.ClientSetBelow(c, v);
    }
  }

  /** One event: afterwards state, pending refresh and requests are those of the session. */
  method Handle(g: Globalconf, e: Event, ghost x: Session)
    requires Served(x) && Allowed(x, e) && x.state == g.Now() && x.pending == g.needStackRefresh
    modifies g
    ensures Served(After(x, e)) && After(x, e).state == g.Now() && After(x, e).pending == g.needStackRefresh
    ensures g.requests == old(g.requests) + Sent(x, e)
  {
    AfterServed(x, e);
    hide Consistent, Legal, Step, Asks, OnServer, Emission, Requests, ApplyAll, Respects;
    match e {
      case Do(op) => {
        Perform(g, op);
      }
      case Refresh => {
        g.StackRefresh();
      }
      case Others(_) => {
      }
    }
  }

  /** All requests of a run. */
  ghost function AllSent(x: Session, es: seq<Event>): seq<Request>
    requires Consistent(x.state)
    decreases |es|
  {
    if es == [] || !Allowed(x, es[0]) || !Consistent(After(x, es[0]).state) then []
    else Sent(x, es[0]) + AllSent(After(x, es[0]), es[1..])
  }

  lemma NextEvent(x: Session, es: seq<Event>, i: nat, y: Session)
    requires i < |es| && Served(x) && Leads(x, es[i..], y)
    ensures Consistent(x.state) && Allowed(x, es[i]) && Served(After(x, es[i])) && Consistent(After(x, es[i]).state)
    ensures Leads(After(x, es[i]), es[i + 1..], y)
    ensures AllSent(x, es[i..]) == Sent(x, es[i]) + AllSent(After(x, es[i]), es[i + 1..])
  {
    assert es[i..][0] == es[i] && es[i..][1..] == es[i + 1..];
    assert Allowed(x, es[i]);
    AfterServed(x, es[i]);
    hide Allowed, After, Sent, Consistent, OnServer;
  }

  /** Any number of events: the window manager ends in the state of the run, and has sent its requests. */
  method Run(g: Globalconf, es: seq<Event>, ghost start: Session, ghost y: Session)
    requires Served(start) && start.state == g.Now() && start.pending == g.needStackRefresh && Leads(start, es, y)
    modifies g
    ensures g.Now() == y.state && g.needStackRefresh == y.pending && Served(y)
    ensures g.requests == old(g.requests) + AllSent(start, es)
  {
    ghost var x, all := start, g.requests + AllSent(start, es);
    assert es[0..] == es;
    assert Consistent(x.state);
    hide *;
    var i := 0;
    while i < |es|
      invariant 0 <= i <= |es| && Served(x) && x.state == g.Now() && x.pending == g.needStackRefresh
      invariant Consistent(x.state) && Leads(x, es[i..], y)
      invariant g.requests + AllSent(x, es[i..]) == all
    {
      NextEvent(x, es, i, y);
      Assoc(g.requests, Sent(x, es[i]), AllSent(After(x, es[i]), es[i + 1..]));
      Handle(g, es[i], x);
      x := After(x, es[i]);
      i := i + 1;
    }
    NoEvents(x, es[i..], y);
  }

  lemma NoEvents(x: Session, es: seq<Event>, y: Session)
    requires es == [] && Served(x) && Leads(x, es, y)
    ensures x == y && AllSent(x, es) == []
  {
  }

  /**
   From the start: whatever the events, the window manager ends in the state that the run leads to; when it asks
   for no refresh, and nothing on the way went stale, the windows lie on the server as that state says.
   */
  method FromStart(es: seq<Event>, ghost order: seq<Window>, ghost y: Session) returns (g: Globalconf)
    requires NoDup(order) && Leads(Session(START, false, order), es, y)
    ensures g.Now() == y.state && g.needStackRefresh == y.pending && Served(y)
    ensures Consistent(START) && g.requests == AllSent(Session(START, false, order), es)
    ensures LeadsHarmlessly(Session(START, false, order), es, y) && !g.needStackRefresh ==> Sorted(g.Now(), y.order)
  {
    ghost var start := Session(START, false, order);
    StartServed(order);
    if LeadsHarmlessly(start, es, y) {
      EveryHarmlessRunIsSorted(order, es, y);
    }
    hide *;
    g := new Globalconf();
    Run(g, es, start, y);
  }

  lemma StartServed(order: seq<Window>)
    requires NoDup(order)
    ensures Consistent(START) && Served(Session(START, false, order))
  {
  }
}
