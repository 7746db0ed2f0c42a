/**
 Runs of the window manager: any number of operations, in any order that their callers allow.
 */
module ClientRuns {
  import opened Options
  import opened Sequences
  import opened TransientGraph
  import opened Stacking
  import opened XServer
  import opened ClientLinks
  import opened ClientState

  datatype Op =
    | Manage(c: Client, w: Window, trans: Window, a: Attributes, reparented: bool)
    | Unmanage(c: Client)
    | Raise(c: Client)
    | Lower(c: Client)
    | Swap(i: nat, j: nat)
    | Focus(c: Client)
    | Unfocus
    | TransientFor(c: Client, reply: Option<Window>)
    | SetFlag(c: Client, f: Flag, v: bool)
    | Restack
    | Show(d: Drawin, v: bool, ontop: bool)
    | SetOntop(d: Drawin, was: bool, ontop: bool)

  const START := State([], [], NONE, map[], map[], map[], map[], [], map[])

  /** A window is managed once, in a frame of its own; the other operations are for what is managed. */
  ghost predicate Legal(s: State, op: Op) {
    match op
    case Manage(c, w, _, _, _) => c != NONE && c !in s.clients && c !in s.drawins && w != NONE && w !in s.window.Values
    case Swap(i, j) => i < |s.clients| && j < |s.clients|
    case Unfocus => true
    case Show(d, _, _) => d != NONE && d !in s.clients
    case SetOntop(d, was, _) => d in s.drawins && d in s.drawinOntop ==> was == s.drawinOntop[d]
    case TransientFor(c, _) => c in s.clients && c in s.attributes
    case SetFlag(c, _, _) => c in s.clients && c in s.attributes
    case Restack => true
    case _ => op.c in s.clients
  }

  ghost function Step(s: State, op: Op): State
    requires Legal(s, op)
  {
    match op
    case Manage(c, w, trans, a, reparented) => if reparented then Managed(s, c, w, trans, a) else s
    case Unmanage(c) => Unmanaged(s, c)
    case Raise(c) => RaisedState(s, c)
    case Lower(c) => if Lowest(s, c) then s else LoweredState(s, c)
    case Swap(i, j) => s.(clients := s.clients[i := s.clients[j]][j := s.clients[i]])
    case Focus(c) => s.(focus := c)
    case Unfocus => s.(focus := NONE)
    case TransientFor(c, reply) => PropertyRead(s, c, reply)
    case SetFlag(c, f, v) => s.(attributes := s.attributes[c := Flagged(s.attributes[c], f, v)])
    case Restack => s
    case Show(d, v, ontop) => Shown(s, d, v, ontop)
    case SetOntop(d, _, ontop) => OntopSet(s, d, ontop)
  }

  predicate Lowest(s: State, c: Client) {
    s.stack != [] && s.stack[0] == c
  }

  /** The operations that ask for a refresh of the stacking order, and when. */
  ghost predicate Asks(s: State, op: Op)
    requires Legal(s, op)
  {
    match op
    case Manage(_, _, _, _, _) => true
    case Unmanage(_) => true
    case Raise(c) => !OnTop(s, c)
    case Lower(c) => !Lowest(s, c)
    case TransientFor(c, reply) => reply.Some? && s.attributes[c].above
    case SetFlag(c, f, v) => Has(s.attributes[c], f) != v
    case Restack => true
    case Show(d, v, _) => v && d !in s.drawins
    case SetOntop(_, was, ontop) => was != ontop
    case _ => false
  }

  ghost predicate Reaches(s: State, ops: seq<Op>, t: State)
    decreases |ops|
  {
    if ops == [] then s == t
    else Legal(s, ops[0]) && Reaches(Step(s, ops[0]), ops[1..], t)
  }

  lemma StepConsistent(s: State, op: Op)
    requires Consistent(s) && Legal(s, op)
    ensures Consistent(Step(s, op))
  {
    hide Consistent, Managed, Unmanaged, Raised, Lowered, PropertyRead, Shown, RaisedState, LoweredState;
    match op {
      case Manage(c, w, trans, a, reparented) => {
        ManagedConsistent(s, c, w, trans, a);
      }
      case Unmanage(c) => {
        UnmanagedConsistent(s, c);
      }
      case Raise(c) => {
        RaisedConsistent(s, c);
      }
      case Lower(c) => {
        RaisedConsistent(s, c);
      }
      case Swap(i, j) => {
        SwappedConsistent(s, i, j);
      }
      case TransientFor(c, reply) => {
        PropertyConsistent(s, c, reply);
      }
      case Show(d, v, ontop) => {
        ShownConsistent(s, d, v, ontop);
      }
      case Focus(c) => {
        FocusConsistent(s, c);
      }
      case Unfocus => {
        FocusConsistent(s, NONE);
      }
      case SetFlag(c, f, v) => {
        AttributesConsistent(s, c, Flagged(s.attributes[c], f, v));
      }
      case Restack => {
      }
      case SetOntop(d, _, ontop) => {
        OntopConsistent(s, d, ontop);
      }
    }
  }

  lemma FocusConsistent(s: State, c: Client)
    requires Consistent(s) && (c == NONE || c in s.clients)
    ensures Consistent(s.(focus := c))
  {
    hide WellLinked, Once;
    assert c in s.clients ==> c in ToSet(s.clients);
  }

  lemma {:induction false} RunConsistent(s: State, ops: seq<Op>, t: State)
    requires Consistent(s) && Reaches(s, ops, t)
    ensures Consistent(t)
    decreases |ops|
  {
    if ops != [] {
      StepConsistent(s, ops[0]);
      hide Consistent, Legal, Step;
      RunConsistent(Step(s, ops[0]), ops[1..], t);
    }
  }

  ghost predicate OneLayerEach(s: State) {
    forall c | c in s.attributes :: OneLayer(s.attributes[c])
  }

  lemma StepOneLayer(s: State, op: Op)
    requires Consistent(s) && Legal(s, op) && OneLayerEach(s) && (op.Manage? ==> OneLayer(op.a))
    ensures OneLayerEach(Step(s, op))
  {
    hide Consistent, OneLayer;
    match op {
      case Manage(c, w, trans, a, reparented) => {
        ManagedFields(s, c, w, trans, a);
        hide Managed;
      }
      case SetFlag(c, f, v) => {
        FlaggedOneLayer(s.attributes[c], f, v);
        hide Flagged;
      }
      case TransientFor(c, reply) => {
        FlaggedOneLayer(s.attributes[c], Above, false);
        ReadOneLayer(s, c, reply);
        hide PropertyRead;
      }
      case _ => {
        hide RaisedState, LoweredState;
      }
    }
  }

  lemma ReadOneLayer(s: State, c: Client, reply: Option<Window>)
    requires OneLayerEach(s) && c in s.attributes
    ensures OneLayerEach(PropertyRead(s, c, reply))
  {
    hide Relinked;
    if reply.Some? {
      var a, b := s.attributes[c], TransientRead(s.attributes[c], reply.value);
      forall f, g | Has(b, f) && Has(b, g) ensures f == g {
        assert Has(a, f) && Has(a, g);
      }
      hide OneLayer;
    }
  }

  /** Over every run: nobody is in two special layers, if the hints read while managing say so. */
  lemma {:induction false} RunOneLayer(s: State, ops: seq<Op>, t: State)
    requires Consistent(s) && Reaches(s, ops, t) && OneLayerEach(s)
    requires forall op | op in ops && op.Manage? :: OneLayer(op.a)
    ensures OneLayerEach(t)
    decreases |ops|
  {
    if ops != [] {
      assert ops[0] in ops && forall op | op in ops[1..] :: op in ops;
      StepConsistent(s, ops[0]);
      StepOneLayer(s, ops[0]);
      hide Consistent, Legal, Step, OneLayer, OneLayerEach;
      RunOneLayer(Step(s, ops[0]), ops[1..], t);
    }
  }

  lemma NobodyInTwoLayers(ops: seq<Op>, t: State)
    requires Reaches(START, ops, t) && forall op | op in ops && op.Manage? :: OneLayer(op.a)
    ensures OneLayerEach(t)
  {
    StartConsistent();
    assert OneLayerEach(START);
    hide *;
    RunOneLayer(START, ops, t);
  }

  /** The window that c names is the window of p. */
  ghost predicate Names(s: State, c: Client, p: Client) {
    c in s.transientForWindow && WindowIs(s, p, s.transientForWindow[c])
  }

  /**
   In every state that is reached from the start, the client list and the stack hold the same clients, each
   once; a client is transient only for another managed client, whose window it names, and following these
   links never leads back to where one started; the focused client is managed.
   */
  lemma EveryReachableState(ops: seq<Op>, t: State)
    requires Reaches(START, ops, t)
    ensures NoDup(t.clients) && NoDup(t.stack) && ToSet(t.clients) == ToSet(t.stack)
    ensures forall c, p | ParentIs(t, c, p) :: c in t.clients && p in t.clients && Names(t, c, p)
    ensures forall c, n: nat | c in t.transientFor && n > 0 :: NthParent(t.transientFor, c, n) != [c]
    ensures t.focus == NONE || t.focus in t.clients
  {
    RunConsistent(START, ops, t);
    OnceIsNoDup(t.clients);
    OnceIsNoDup(t.stack);
    AcyclicMeansNoLoop(t.transientFor);
    Spelled(t);
    hide *;
  }

  lemma Spelled(t: State)
    requires Consistent(t)
    ensures Acyclic(t.transientFor) && Once(t.clients) && Once(t.stack) && ToSet(t.clients) == ToSet(t.stack)
    ensures forall c, p | ParentIs(t, c, p) :: c in t.clients && p in t.clients && Names(t, c, p)
    ensures t.focus == NONE || t.focus in t.clients
  {
    hide Acyclic, Once, OneToOne;
    assert t.focus != NONE ==> t.focus in ToSet(t.clients);
    forall c, p | ParentIs(t, c, p)
      ensures c in t.clients && p in t.clients && Names(t, c, p)
    {
      assert c in ToSet(t.clients) && p in ToSet(t.clients);
    }
  }

  lemma StartConsistent()
    ensures Consistent(START)
  {
  }

  /** A state with the single client c. */
  ghost predicate Alone(s: State, c: Client, w: Window, trans: Window, a: Attributes) {
    && Consistent(s) && s.clients == [c] && s.stack == [c] && s.drawins == [] && s.focus == NONE
    && s.window == map[c := w] && s.transientForWindow == map[c := trans] && s.attributes == map[c := a]
  }

  lemma FirstClient(c: Client, w: Window, trans: Window, a: Attributes)
    requires c != NONE && w != NONE
    ensures Legal(START, Manage(c, w, trans, a, true)) && Alone(Managed(START, c, w, trans, a), c, w, trans, a)
  {
    StartConsistent();
    ManagedConsistent(START, c, w, trans, a);
    ManagedFields(START, c, w, trans, a);
    hide Consistent, Managed;
  }

  /** It does not matter which of a window and its dialog is managed first: in the end they are linked. */
  lemma EitherOrderLinks(c: Client, w: Window, d: Client, v: Window, a: Attributes, b: Attributes)
    requires c != NONE && d != NONE && c != d && w != NONE && v != NONE && w != v
    ensures var s := Managed(START, c, w, NONE, a);
      Legal(s, Manage(d, v, w, b, true)) && ParentIs(Managed(s, d, v, w, b), d, c)
    ensures var s := Managed(START, d, v, w, b);
      Legal(s, Manage(c, w, NONE, a, true)) && ParentIs(Managed(s, c, w, NONE, a), d, c)
  {
    FirstClient(c, w, NONE, a);
    FirstClient(d, v, w, b);
    ParentFirst(Managed(START, c, w, NONE, a), c, w, d, v, a, b);
    DialogFirst(Managed(START, d, v, w, b), c, w, d, v, a, b);
  }

  lemma ParentFirst(s: State, c: Client, w: Window, d: Client, v: Window, a: Attributes, b: Attributes)
    requires Alone(s, c, w, NONE, a) && d != NONE && c != d && v != NONE && w != v
    ensures Legal(s, Manage(d, v, w, b, true)) && ParentIs(Managed(s, d, v, w, b), d, c)
  {
    hide Consistent, Managed;
    ManagedLinks(s, d, v, w, b);
    assert c in s.clients && WindowIs(s, c, w);
  }

  lemma DialogFirst(s: State, c: Client, w: Window, d: Client, v: Window, a: Attributes, b: Attributes)
    requires Alone(s, d, v, w, b) && c != NONE && c != d && w != NONE && v != NONE && w != v
    ensures Legal(s, Manage(c, w, NONE, a, true)) && ParentIs(Managed(s, c, w, NONE, a), d, c)
  {
    hide Consistent, Managed, Chain;
    ManagedConsistent(s, c, w, NONE, a);
    ManagedLinks(s, c, w, NONE, a);
    ManagedFields(s, c, w, NONE, a);
    assert d in s.clients && HintIs(s, d, w) && !WindowIs(s, d, NONE);
    ChainOfRoot(Managed(s, c, w, NONE, a), c, d);
  }

  lemma ChainOfRoot(m: State, c: Client, d: Client)
    requires Consistent(m) && m.clients == [c, d] && c != d && !ParentIs(m, c, d)
    ensures ChainOf(m, c) == [c]
  {
    var g := m.transientFor;
    assert forall x | x in g :: g[x] in ToSet(m.clients);
    hide OneToOne, Once, Acyclic;
    if c in g {
      NotOwnParent(g, c);
      assert false;
    }
  }

  lemma NotOwnParent(g: map<Client, Client>, c: Client)
    requires Acyclic(g) && c in g
    ensures g[c] != c
  {
    AcyclicMeansNoLoop(g);
    assert NthParent(g, c, 1) == NthParent(g, g[c], 0);
  }

  /** A dialog that has just been managed is lowest, and its window lies over it; lowering the dialog should
      take both to the bottom, the window first, but the shortcut leaves them as they are. */
  lemma LoweringMissesTheParent(a: Attributes, b: Attributes)
    ensures var one := Managed(START, 1, 10, NONE, a);
      var s := Managed(one, 2, 20, 10, b);
      && Consistent(s) && s.stack == [2, 1] && Lowest(s, 2) && ParentIs(s, 2, 1)
      && LoweredState(s, 2) != s && LoweredState(s, 2).stack[0] == 1
  {
    FirstClient(1, 10, NONE, a);
    hide *;
    DialogIsLowest(Managed(START, 1, 10, NONE, a), a, b);
  }

  lemma DialogIsLowest(one: State, a: Attributes, b: Attributes)
    requires Alone(one, 1, 10, NONE, a)
    ensures var s := Managed(one, 2, 20, 10, b);
      && Consistent(s) && s.stack == [2, 1] && Lowest(s, 2) && ParentIs(s, 2, 1)
      && LoweredState(s, 2) != s && LoweredState(s, 2).stack != [] && LoweredState(s, 2).stack[0] == 1
  {
    var s := Managed(one, 2, 20, 10, b);
    DialogOfOne(one, a, b);
    hide Consistent, Managed, LoweredState;
    LowerShortcut(s, 2);
    RootBelow(s);
  }

  lemma DialogOfOne(one: State, a: Attributes, b: Attributes)
    requires Alone(one, 1, 10, NONE, a)
    ensures var s := Managed(one, 2, 20, 10, b);
      Consistent(s) && s.clients == [2, 1] && s.stack == [2, 1] && ParentIs(s, 2, 1) && 1 !in s.transientFor
  {
    hide Consistent, Managed, Without, Chain;
    ParentFirst(one, 1, 10, 2, 20, a, b);
    LinksAmong(one);
    ManagedConsistent(one, 2, 20, 10, b);
    ManagedFields(one, 2, 20, 10, b);
    ManagedLinks(one, 2, 20, 10, b);
    var s := Managed(one, 2, 20, 10, b);
    assert 2 !in one.stack && 1 in one.clients && !HintIs(one, 1, 20);
    assert 1 in s.transientFor ==> ParentIs(s, 1, s.transientFor[1]);
  }

  lemma RootBelow(s: State)
    requires ParentIs(s, 2, 1) && 1 !in s.transientFor
    ensures LoweredState(s, 2).stack != [] && LoweredState(s, 2).stack[0] == 1
  {
    assert Chain(s.transientFor - {2}, 1) == [1];
    assert ChainOf(s, 2) == [2, 1];
    hide Chain;
    LowestIsRoot(s.stack, [2, 1]);
  }

  lemma LinksAmong(s: State)
    requires Consistent(s)
    ensures forall x, p | ParentIs(s, x, p) :: x in s.clients && p in s.clients && x != p
  {
    hide OneToOne, Once;
    forall x, p | ParentIs(s, x, p) ensures x in s.clients && p in s.clients && x != p {
      assert x in ToSet(s.clients) && p in ToSet(s.clients);
      NotOwnParent(s.transientFor, x);
    }
  }
}
