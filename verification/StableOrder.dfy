/**
 Which operations leave the order of the windows right without a refresh.
 */
module StableOrder {
  import opened Options
  import opened Sequences
  import opened TransientGraph
  import opened Stacking
  import opened XServer
  import opened ClientLinks
  import opened ClientState
  import opened RefreshOrder
  import opened ClientRuns

  // ----- which changes leave the order alone

  /** A client in its own layer just while it has the focus. */
  predicate FocusMatters(s: State, c: Client) {
    c in s.attributes && s.attributes[c].fullscreen && !s.attributes[c].ontop
  }

  /** A change of the focus moves nobody to another layer exactly when it matters to neither of the two. */
  lemma FocusKeepsLayers(s: State, c: Client)
    requires Consistent(s) && c != s.focus
    ensures Layers(s.(focus := c)) == Layers(s) <==> !FocusMatters(s, s.focus) && !FocusMatters(s, c)
  {
    hide Consistent;
    var before, after := Layers(s), Layers(s.(focus := c));
    forall x | x in s.attributes ensures before[x] == after[x] <==> !FocusMatters(s, x) || (x != c && x != s.focus) {
      LayerWithFocus(s.attributes[x], x in s.transientFor);
      hide LayerOf;
    }
    SameOnKeys(before, after);
  }

  lemma LayerWithFocus(a: Attributes, hasParent: bool)
    ensures LayerOf(a, true, hasParent) == LayerOf(a, false, hasParent) <==> !(a.fullscreen && !a.ontop)
  {
  }

  lemma SameOnKeys<K, V>(m: map<K, V>, n: map<K, V>)
    requires m.Keys == n.Keys
    ensures m == n <==> forall k | k in m :: m[k] == n[k]
  {
  }

  /** The window named by c belongs to the parent that c has, or to nobody who could become its parent. */
  ghost predicate SameParent(s: State, c: Client, trans: Window)
    requires Consistent(s)
  {
    if c in s.transientFor then WindowIs(s, s.transientFor[c], trans)
    else forall p | p in s.clients && WindowIs(s, p, trans) :: c in ChainOf(s, p)
  }

  /** Naming another window leaves the links alone exactly then. */
  lemma SameParentKeepsLinks(s: State, c: Client, trans: Window)
    requires Consistent(s) && c in s.clients
    ensures Hinted(s, c, trans).transientFor == s.transientFor <==> SameParent(s, c, trans)
  {
    var g := s.transientFor;
    var own := OwnerOf(s, trans);
    HintedIs(s, c, trans, own);
    SameParentIs(s, c, trans, own);
    if c in g {
      LinkedBelow(s, c);
    }
    hide *;
    SameWithParent(g, c, if own != NONE && c !in ChainOf(s, own) then own else NONE);
  }

  lemma SameParentIs(s: State, c: Client, trans: Window, own: Client)
    requires Consistent(s) && c in s.clients
    requires own == NONE ==> forall p | p in s.clients :: !WindowIs(s, p, trans)
    requires own != NONE ==> own in s.clients && forall p | p in s.clients :: WindowIs(s, p, trans) <==> p == own
    ensures SameParent(s, c, trans) <==>
      if c in s.transientFor then s.transientFor[c] == own else own == NONE || c in ChainOf(s, own)
  {
    if c in s.transientFor {
      LinkedBelow(s, c);
    }
    hide Consistent, ChainOf, WindowIs;
  }

  lemma LinkedBelow(s: State, c: Client)
    requires Consistent(s) && c in s.transientFor
    ensures s.transientFor[c] != NONE && s.transientFor[c] in s.clients && c !in ChainOf(s, s.transientFor[c])
  {
    ChainStep(s.transientFor, c);
    assert s.transientFor[c] in ToSet(s.clients);
    hide Acyclic, Chain, Once;
  }

  /** The client that owns a window, or NONE. */
  lemma OwnerOf(s: State, w: Window) returns (own: Client)
    requires Consistent(s)
    ensures own == NONE ==> forall p | p in s.clients :: !WindowIs(s, p, w)
    ensures own != NONE ==> own in s.clients && forall p | p in s.clients :: WindowIs(s, p, w) <==> p == own
  {
    hide Acyclic, Once;
    assert forall p :: p in s.clients <==> p in ToSet(s.clients);
    if p :| p in s.clients && WindowIs(s, p, w) {
      own := p;
      forall q | q in s.clients && WindowIs(s, q, w) ensures q == p {
        SameValue(s.window, q, p);
      }
    } else {
      own := NONE;
    }
  }

  lemma HintedIs(s: State, c: Client, trans: Window, own: Client)
    requires Consistent(s) && c in s.clients
    requires own == NONE ==> forall p | p in s.clients :: !WindowIs(s, p, trans)
    requires own != NONE ==> own in s.clients && WindowIs(s, own, trans)
    ensures Hinted(s, c, trans).transientFor
         == WithParent(s.transientFor, c, if own != NONE && c !in ChainOf(s, own) then own else NONE)
  {
    HintedLinked(s, c, trans);
    var cs := ToSet(s.clients);
    assert NONE !in cs && s.window.Keys == cs;
    hide Consistent, WellLinked, Relinked, WithParent, Chain;
    assert forall p :: p in s.clients <==> p in cs;
    RelinkedIs(cs, s.transientFor, s.window, s.transientForWindow[c := trans], c, own);
  }

  lemma SameWithParent(g: map<Client, Client>, c: Client, p: Client)
    requires c in g ==> g[c] != NONE
    ensures WithParent(g, c, p) == g <==> if c in g then p == g[c] else p == NONE
  {
  }

  // ----- states with the same order

  lemma SameEmission(s: State, t: State)
    requires Consistent(s) && Consistent(t)
    requires s.stack == t.stack && s.transientFor == t.transientFor && Layers(s) == Layers(t)
    requires s.drawins == t.drawins && s.drawinOntop == t.drawinOntop
    ensures Emission(s) == Emission(t)
  {
    hide Consistent, Layers, Passes;
  }

  /** The drawins with one flag are all but those with the other. */
  lemma {:induction false} DrawinListIsMinus(ds: seq<Drawin>, flags: map<Drawin, bool>, ontop: bool, k: nat)
    requires k <= |ds| && ToSet(ds) <= flags.Keys
    ensures DrawinList(ds, flags, ontop, k) == Minus(ds[k..], Unlike(flags, ontop))
    decreases |ds| - k
  {
    if k < |ds| {
      assert ds[k] in ToSet(ds);
      assert ds[k..] == [ds[k]] + ds[k + 1..];
      DrawinListIsMinus(ds, flags, ontop, k + 1);
    }
  }

  ghost function Unlike(flags: map<Drawin, bool>, ontop: bool): set<Drawin> {
    set d | d in flags && flags[d] != ontop
  }

  lemma UnlikeWithout(flags: map<Drawin, bool>, ontop: bool, d: Drawin)
    ensures {d} + Unlike(flags - {d}, ontop) == Unlike(flags, ontop) + {d}
  {
  }

  lemma StillFlagged(ds: seq<Drawin>, flags: map<Drawin, bool>, d: Drawin)
    requires Once(ds) && ToSet(ds) <= flags.Keys
    ensures ToSet(Without(ds, d)) <= (flags - {d}).Keys
  {
    WithoutOnce(ds, d);
  }

  lemma HiddenList(ds: seq<Drawin>, flags: map<Drawin, bool>, d: Drawin, ontop: bool)
    requires Once(ds) && ToSet(ds) <= flags.Keys && ToSet(Without(ds, d)) <= (flags - {d}).Keys
    ensures DrawinList(Without(ds, d), flags - {d}, ontop, 0) == Minus(DrawinList(ds, flags, ontop, 0), {d})
  {
    var rest := Without(ds, d);
    assert ds[0..] == ds && rest[0..] == rest;
    hide *;
    OnceIsNoDup(ds);
    WithoutIsMinus(ds, d);
    DrawinListIsMinus(ds, flags, ontop, 0);
    DrawinListIsMinus(rest, flags - {d}, ontop, 0);
    MinusTwice(ds, {d}, Unlike(flags - {d}, ontop));
    MinusTwice(ds, Unlike(flags, ontop), {d});
    UnlikeWithout(flags, ontop, d);
  }

  /** Hiding a drawin takes it out of its part. */
  lemma HiddenPart(s: State, d: Drawin, ontop: bool)
    requires Consistent(s) && d in s.drawins && Consistent(Shown(s, d, false, false))
    ensures DrawinPart(Shown(s, d, false, false), ontop) == Minus(DrawinPart(s, ontop), {d})
  {
    assert Once(s.drawins) && ToSet(s.drawins) <= s.drawinOntop.Keys;
    hide Consistent, Once, Without, ToSet, DrawinList, Minus;
    StillFlagged(s.drawins, s.drawinOntop, d);
    HiddenList(s.drawins, s.drawinOntop, d, ontop);
  }

  lemma HiddenEmission(s: State, d: Drawin)
    requires Consistent(s) && d in s.drawins && Consistent(Shown(s, d, false, false))
    ensures Emission(Shown(s, d, false, false)) == Minus(Emission(s), {d})
  {
    var t := Shown(s, d, false, false);
    assert DesktopPart(t) == DesktopPart(s) && ClientPart(t) == ClientPart(s);
    PartsOf(s, d);
    HiddenPart(s, d, false);
    HiddenPart(s, d, true);
    hide Consistent, Shown, DesktopPart, ClientPart, DrawinPart;
    MinusNothing(DesktopPart(s), {d});
    MinusNothing(ClientPart(s), {d});
    MinusAppend(DesktopPart(s), DrawinPart(s, false), {d});
    MinusAppend(DesktopPart(s) + DrawinPart(s, false), ClientPart(s), {d});
    MinusAppend(DesktopPart(s) + DrawinPart(s, false) + ClientPart(s), DrawinPart(s, true), {d});
  }

  /** What lies under something without some elements lies under it with them. */
  lemma {:induction false} UnderMinus<T>(s: seq<T>, xs: set<T>, a: T, b: T)
    requires Under(Minus(s, xs), a, b)
    ensures Under(s, a, b)
  {
    var t := s[1..];
    assert s == [s[0]] + t;
    MinusMember(t, xs, a);
    MinusMember(t, xs, b);
    if s[0] in xs {
      UnderMinus(t, xs, a, b);
      UnderInRight([s[0]], t, a, b);
    } else {
      assert Minus(s, xs)[1..] == Minus(t, xs);
      UnderTail(Minus(s, xs), a, b);
      if a in t {
        UnderMinus(t, xs, a, b);
        UnderInRight([s[0]], t, a, b);
      } else {
        UnderAcross([s[0]], t, a, b);
      }
    }
  }

  lemma HiddenInOrder(s: State, d: Drawin, order: seq<Window>)
    requires Consistent(s) && InOrder(s, order) && d in s.drawins && Consistent(Shown(s, d, false, false))
    ensures InOrder(Shown(s, d, false, false), order)
  {
    HiddenEmission(s, d);
    hide Consistent, Emission, Under, Precedes, Shown, Minus;
    forall x, y | Under(Minus(Emission(s), {d}), x, y) ensures Precedes(order, x, y) {
      UnderMinus(Emission(s), {d}, x, y);
    }
  }

  // ----- operations that need no refresh

  /** An operation that asks for a refresh, or after which the same order is wanted. */
  ghost predicate Harmless(s: State, op: Op)
    requires Consistent(s) && Legal(s, op)
  {
    StepConsistent(s, op);
    match op
    case Focus(_) => Wanted(Step(s, op)) == Wanted(s)
    case Unfocus => Wanted(Step(s, op)) == Wanted(s)
    case TransientFor(_, _) => Asks(s, op) || Wanted(Step(s, op)) == Wanted(s)
    case _ => true
  }

  /**
   An operation that asks for no refresh leaves every right order right if and only if it is harmless: if the
   same order is wanted afterwards, or nothing else than a drawin has gone.
   */
  lemma HarmlessExactly(s: State, op: Op)
    requires Consistent(s) && Legal(s, op) && !Asks(s, op)
    ensures Consistent(Step(s, op))
    ensures Harmless(s, op) <==> forall order | OnServer(s, order) && InOrder(s, order) :: InOrder(Step(s, op), order)
  {
    StepConsistent(s, op);
    if op.Focus? || op.Unfocus? || op.TransientFor? {
      SameListed(s, op);
      assert Harmless(s, op) <==> Wanted(Step(s, op)) == Wanted(s);
      hide *;
      RightOrdersAgree(s, Step(s, op));
    } else {
      hide Consistent, InOrder, OnServer, Legal, Step, Asks;
      forall order | InOrder(s, order) ensures InOrder(Step(s, op), order) {
        HarmlessInOrder(s, op, order);
      }
    }
  }

  lemma SameListed(s: State, op: Op)
    requires Legal(s, op) && (op.Focus? || op.Unfocus? || op.TransientFor?)
    ensures Step(s, op).clients == s.clients && Step(s, op).drawins == s.drawins
  {
    hide Relinked;
  }

  /** A focus change that matters to neither client is harmless, but not only such a one. */
  lemma FocusIsHarmless(s: State, c: Client)
    requires Consistent(s) && c in s.clients && (c == s.focus || (!FocusMatters(s, s.focus) && !FocusMatters(s, c)))
    ensures Harmless(s, Focus(c))
  {
    FocusConsistent(s, c);
    FocusWanted(s, c);
    hide Consistent, Wanted, FocusMatters;
  }

  lemma UnfocusIsHarmless(s: State)
    requires Consistent(s) && !FocusMatters(s, s.focus)
    ensures Harmless(s, Unfocus)
  {
    NobodyMatters(s);
    FocusConsistent(s, NONE);
    FocusWanted(s, NONE);
    hide Consistent, Wanted, FocusMatters;
  }

  /** Nor is naming another window harmless only while the links stay. */
  lemma SameParentIsHarmless(s: State, c: Client, reply: Option<Window>)
    requires Consistent(s) && Legal(s, TransientFor(c, reply)) && SameParent(s, c, Named(reply))
    ensures Harmless(s, TransientFor(c, reply))
  {
    hide Consistent, Wanted, SameParent, PropertyRead;
    PropertyConsistent(s, c, reply);
    if !Asks(s, TransientFor(c, reply)) {
      PropertyWanted(s, c, reply);
    }
  }

  /** An operation that neither asks for a refresh nor makes a difference leaves an order that is right. */
  lemma HarmlessInOrder(s: State, op: Op, order: seq<Window>)
    requires Consistent(s) && Legal(s, op) && InOrder(s, order)
    requires Harmless(s, op) && !Asks(s, op)
    ensures Consistent(Step(s, op)) && InOrder(Step(s, op), order)
  {
    StepConsistent(s, op);
    hide Consistent, InOrder, Layers, Managed, Unmanaged, RaisedState, LoweredState, PropertyRead, Shown, Wanted;
    if op.Raise? || op.Lower? || op.SetFlag? || op.SetOntop? {
      NothingHappens(s, op);
      hide *;
    } else if op.Swap? {
      SwapInOrder(s, op, order);
    } else if op.Show? {
      ShowInOrder(s, op.d, op.v, op.ontop, order);
    } else {
      assert Wanted(Step(s, op)) == Wanted(s);
      hide *;
      SameWanted(s, Step(s, op), order);
    }
  }

  lemma NotHarmless(s: State, op: Op, order: seq<Window>)
    requires Consistent(s) && Legal(s, op) && InOrder(s, order) && !Asks(s, op)
    requires Consistent(Step(s, op)) && !InOrder(Step(s, op), order)
    ensures !Harmless(s, op)
  {
    hide *;
    if Harmless(s, op) {
      HarmlessInOrder(s, op, order);
    }
  }

  lemma SameWanted(s: State, t: State, order: seq<Window>)
    requires Consistent(s) && Consistent(t) && Wanted(s) == Wanted(t) && InOrder(s, order)
    ensures InOrder(t, order)
  {
    InOrderIsWanted(s, order);
    InOrderIsWanted(t, order);
    hide *;
  }

  lemma NothingHappens(s: State, op: Op)
    requires Consistent(s) && Legal(s, op) && !Asks(s, op)
    requires op.Raise? || op.Lower? || op.SetFlag? || op.SetOntop?
    ensures Step(s, op) == s
  {
    hide Consistent, RaisedState, LoweredState, OnTop;
    match op {
      case Raise(c) => {
        RaiseShortcut(s, c);
      }
      case SetFlag(c, f, v) => {
        assert Flagged(s.attributes[c], f, v) == s.attributes[c];
        assert s.attributes[c := s.attributes[c]] == s.attributes;
      }
      case SetOntop(d, was, ontop) => {
        OntopConsistent(s, d, ontop);
        if d in s.drawins {
          assert s.drawinOntop[d := ontop] == s.drawinOntop;
        }
      }
      case _ => {
      }
    }
  }

  lemma NobodyMatters(s: State)
    requires Consistent(s)
    ensures !FocusMatters(s, NONE)
  {
  }

  lemma ShowInOrder(s: State, d: Drawin, v: bool, ontop: bool, order: seq<Window>)
    requires Consistent(s) && InOrder(s, order) && Consistent(Shown(s, d, v, ontop)) && !(v && d !in s.drawins)
    ensures InOrder(Shown(s, d, v, ontop), order)
  {
    if !v && d in s.drawins {
      assert Shown(s, d, v, ontop) == Shown(s, d, false, false);
      hide Consistent, InOrder, Shown;
      HiddenInOrder(s, d, order);
    }
  }

  lemma SwapInOrder(s: State, op: Op, order: seq<Window>)
    requires Consistent(s) && op.Swap? && Legal(s, op) && Consistent(Step(s, op)) && InOrder(s, order)
    ensures InOrder(Step(s, op), order)
  {
    hide Consistent, InOrder, Emission;
    assert Layers(s) == Layers(Step(s, op));
    SameEmission(s, Step(s, op));
    SameWanted(s, Step(s, op), order);
  }

  lemma FocusWanted(s: State, c: Client)
    requires Consistent(s) && Consistent(s.(focus := c))
    requires c == s.focus || (!FocusMatters(s, s.focus) && !FocusMatters(s, c))
    ensures Wanted(s.(focus := c)) == Wanted(s)
  {
    hide Consistent, Emission, Layers;
    if c == s.focus {
      assert s.(focus := c) == s;
    } else {
      FocusKeepsLayers(s, c);
      SameEmission(s, s.(focus := c));
    }
  }

  lemma PropertyWanted(s: State, c: Client, reply: Option<Window>)
    requires Consistent(s) && c in s.clients && c in s.attributes && Consistent(PropertyRead(s, c, reply))
    requires SameParent(s, c, Named(reply)) && !(reply.Some? && s.attributes[c].above)
    ensures Wanted(PropertyRead(s, c, reply)) == Wanted(s)
  {
    SameParentKeepsLinks(s, c, Named(reply));
    PropertyFields(s, c, reply);
    hide Consistent, Emission, SameParent, Hinted, PropertyRead, LayerOf;
    PropertyLayers(s, PropertyRead(s, c, reply), c, reply);
    hide Layers;
    SameEmission(s, PropertyRead(s, c, reply));
  }

  lemma PropertyFields(s: State, c: Client, reply: Option<Window>)
    requires c in s.attributes
    ensures var t := PropertyRead(s, c, reply);
      && t.transientFor == Hinted(s, c, Named(reply)).transientFor
      && t.clients == s.clients && t.stack == s.stack && t.focus == s.focus
      && t.drawins == s.drawins && t.drawinOntop == s.drawinOntop
      && t.attributes ==
        if reply.Some? then s.attributes[c := TransientRead(s.attributes[c], reply.value)] else s.attributes
  {
    hide Relinked;
  }

  lemma PropertyLayers(s: State, t: State, c: Client, reply: Option<Window>)
    requires c in s.attributes && t.transientFor == s.transientFor && t.focus == s.focus
    requires t.attributes ==
      if reply.Some? then s.attributes[c := TransientRead(s.attributes[c], reply.value)] else s.attributes
    requires !(reply.Some? && s.attributes[c].above)
    ensures Layers(t) == Layers(s)
  {
    if reply.Some? {
      LayerAfterReading(s.attributes[c], reply.value, s.focus == c, c in s.transientFor);
    }
    hide LayerOf, TransientRead;
    SameOnKeys(Layers(s), Layers(t));
  }

  lemma LayerAfterReading(a: Attributes, trans: Window, hasFocus: bool, hasParent: bool)
    requires !a.above
    ensures LayerOf(TransientRead(a, trans), hasFocus, hasParent) == LayerOf(a, hasFocus, hasParent)
  {
  }
}
