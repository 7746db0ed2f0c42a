/**
 Which window lies over which after a refresh, told from the attributes of the clients, the focus and the
 transient_for links alone.
 */
module LayerOrder {
  import opened Sequences
  import opened TransientGraph
  import opened Stacking
  import opened XServer
  import opened ClientLinks
  import opened ClientState
  import opened RefreshOrder

  // ----- what the chain of a client holds

  ghost predicate AnyOntop(s: State, c: Client) {
    exists x :: x in ChainOf(s, c) && x in s.attributes && s.attributes[x].ontop
  }

  ghost predicate AnyFocusedFullscreen(s: State, c: Client) {
    exists x :: x in ChainOf(s, c) && x in s.attributes && s.attributes[x].fullscreen && s.focus == x
  }

  ghost predicate AnyAbove(s: State, c: Client) {
    exists x :: x in ChainOf(s, c) && x in s.attributes && s.attributes[x].above
  }

  ghost predicate AnyBelow(s: State, c: Client) {
    exists x :: x in ChainOf(s, c) && x in s.attributes && s.attributes[x].below
  }

  /** The client that the chain ends at is neither below nor a desktop window. */
  ghost predicate OnOrdinaryRoot(s: State, c: Client) {
    var root := Last(ChainOf(s, c));
    root in s.attributes && !s.attributes[root].below && s.attributes[root].kind != DesktopType
  }

  /** No flag puts the client itself over the ordinary ones. */
  ghost predicate NothingHigher(s: State, c: Client) {
    c in s.attributes && var a := s.attributes[c];
      !a.ontop && !(a.fullscreen && s.focus == c) && !a.above
  }

  ghost predicate Unflagged(s: State, c: Client) {
    NothingHigher(s, c) && !s.attributes[c].below
  }

  ghost predicate Parentless(s: State, c: Client) {
    c in s.clients && c !in s.transientFor
  }

  /** What decides over the place of a client: the first of these that its chain has. */
  ghost function Rank(s: State, c: Client): nat {
    if AnyOntop(s, c) then 5
    else if AnyFocusedFullscreen(s, c) then 4
    else if AnyAbove(s, c) then 3
    else if OnOrdinaryRoot(s, c) then 2
    else if AnyBelow(s, c) then 1
    else 0
  }

  /** Clients lie by their ranks. */
  ghost predicate RankedClients(s: State, order: seq<Window>) {
    forall x, y | x in s.clients && y in s.clients && Rank(s, x) < Rank(s, y) :: Precedes(order, x, y)
  }

  ghost predicate PlainDrawin(s: State, d: Drawin) {
    d in s.drawins && d in s.drawinOntop && !s.drawinOntop[d]
  }

  ghost predicate OntopDrawin(s: State, d: Drawin) {
    d in s.drawins && d in s.drawinOntop && s.drawinOntop[d]
  }

  /** Drawins that are not ontop lie over the clients of the lowest rank and under the others. */
  ghost predicate RankedDrawins(s: State, order: seq<Window>) {
    forall x, d | x in s.clients && PlainDrawin(s, d) ::
      if Rank(s, x) == 0 then Precedes(order, x, d) else Precedes(order, d, x)
  }

  // ----- ranks are the layers that the code computes

  /** Members of a chain are clients, and all but the last have a parent. */
  lemma ChainMembers(s: State, c: Client)
    requires Consistent(s) && c in s.clients
    ensures forall x | x in ChainOf(s, c) :: x in s.attributes && (x in s.transientFor <==> x != Last(ChainOf(s, c)))
  {
    var g, chain := s.transientFor, ChainOf(s, c);
    assert c in s.attributes.Keys by {
      assert c in ToSet(s.clients);
    }
    ChainWithin(g, c, s.attributes.Keys);
    ChainEndsAtRoot(g, c);
    forall x | x in chain ensures x in g <==> x != Last(chain) {
      var k :| 0 <= k < |chain| && chain[k] == x;
      ChainSuffix(g, c, k);
    }
  }

  /** The effective layer is that of some member of the chain, and no member has a higher one. */
  lemma EffectiveFound(s: State, c: Client) returns (w: Client)
    requires Consistent(s) && c in s.clients
    ensures w in ChainOf(s, c) && w in Layers(s) && Layers(s)[w] == Effective(s, c)
    ensures forall x | x in ChainOf(s, c) :: x in Layers(s) && Layers(s)[x] <= Effective(s, c)
  {
    ClosedState(s);
    assert c in ToSet(s.clients);
    EffectiveIsMaximum(s.transientFor, Layers(s), c);
    w :| w in ChainOf(s, c) && w in Layers(s) && Layers(s)[w] == EffectiveLayer(s.transientFor, Layers(s), c);
  }

  /** What the members of a chain ask for, where e is the highest. */
  ghost predicate Highest(s: State, chain: seq<Client>, e: Layer) {
    && chain != []
    && (forall x | x in chain :: x in s.attributes && Asked(s, x) <= e)
    && (exists x :: x in chain && x in s.attributes && Asked(s, x) == e)
    && (forall x | x in chain :: x in s.transientFor <==> x != Last(chain))
  }

  ghost function Asked(s: State, x: Client): Layer
    requires x in s.attributes
  {
    LayerOf(s.attributes[x], s.focus == x, x in s.transientFor)
  }

  lemma LayersAsked(s: State)
    ensures forall x | x in s.attributes :: x in Layers(s) && Layers(s)[x] == Asked(s, x)
  {
    hide LayerOf;
  }

  lemma EffectiveIsHighest(s: State, c: Client)
    requires Consistent(s) && c in s.clients
    ensures Highest(s, ChainOf(s, c), Effective(s, c))
  {
    hide Consistent, Effective, ChainOf, Layers, Asked;
    ChainMembers(s, c);
    LayersAsked(s);
    var w := EffectiveFound(s, c);
  }

  lemma SpecialRanks(s: State, c: Client, e: Layer)
    requires Highest(s, ChainOf(s, c), e)
    ensures AnyOntop(s, c) <==> e == ONTOP
    ensures AnyFocusedFullscreen(s, c) && !AnyOntop(s, c) <==> e == FULLSCREEN
    ensures AnyAbove(s, c) && !AnyOntop(s, c) && !AnyFocusedFullscreen(s, c) <==> e == ABOVE
  {
    var chain := ChainOf(s, c);
    hide ChainOf;
    var w :| w in chain && w in s.attributes && Asked(s, w) == e;
  }

  lemma OtherRanks(s: State, c: Client, e: Layer)
    requires Highest(s, ChainOf(s, c), e)
    requires e < ABOVE && !AnyOntop(s, c) && !AnyFocusedFullscreen(s, c) && !AnyAbove(s, c)
    ensures OnOrdinaryRoot(s, c) <==> e == NORMAL
    ensures AnyBelow(s, c) && !OnOrdinaryRoot(s, c) <==> e == BELOW
    ensures e >= DESKTOP
  {
    var chain := ChainOf(s, c);
    hide ChainOf;
    var w :| w in chain && w in s.attributes && Asked(s, w) == e;
    assert Last(chain) in chain;
  }

  lemma RankIsLayer(s: State, c: Client)
    requires Consistent(s) && c in s.clients
    ensures Rank(s, c) + DESKTOP == Effective(s, c)
  {
    EffectiveIsHighest(s, c);
    var e := Effective(s, c);
    ChainMembers(s, c);
    EffectiveRange(s, c);
    hide Consistent, Effective, ChainOf, Highest, AnyOntop, AnyFocusedFullscreen, AnyAbove, AnyBelow, OnOrdinaryRoot;
    SpecialRanks(s, c, e);
    if e < ABOVE {
      OtherRanks(s, c, e);
    }
  }

  lemma EffectiveRange(s: State, c: Client)
    requires Consistent(s) && c in s.clients
    ensures DESKTOP <= Effective(s, c) <= ONTOP
  {
    ClosedState(s);
    assert c in ToSet(s.clients) && c in s.stack by {
      assert c in ToSet(s.stack);
    }
    EffectiveBounds(s.transientFor, s.stack, Layers(s), c);
  }

  /** After a refresh the windows lie by the ranks. */
  lemma RefreshRanks(s: State, order: seq<Window>)
    requires Consistent(s) && OnServer(s, order)
    ensures RankedClients(s, Refreshed(s, order)) && RankedDrawins(s, Refreshed(s, order))
  {
    RefreshSorts(s, order);
    hide Consistent, Rank, Effective, Precedes, Refreshed, RankedClients, RankedDrawins, Sorted;
    SortedClients(s, Refreshed(s, order));
    SortedDrawins(s, Refreshed(s, order));
  }

  /** What a refresh makes of an order of the windows: clients lie by their ranks and over their parents, drawins that
      are not ontop over the lowest rank and under the others, ontop drawins over all of these. */
  ghost predicate Layered(s: State, order: seq<Window>) {
    && RankedClients(s, order) && RankedDrawins(s, order)
    && (forall x, p | ParentIs(s, x, p) :: Precedes(order, p, x))
    && (forall x, d | OntopDrawin(s, d) && (x in s.clients || PlainDrawin(s, x)) :: Precedes(order, x, d))
  }

  lemma RefreshLayers(s: State)
    requires Consistent(s)
    ensures forall order | OnServer(s, order) :: Layered(s, Refreshed(s, order))
  {
    hide *;
    forall order | OnServer(s, order) ensures Layered(s, Refreshed(s, order)) {
      RefreshRanks(s, order);
      RefreshSorts(s, order);
      SortedIsLayered(s, Refreshed(s, order));
    }
  }

  lemma SortedIsLayered(s: State, order: seq<Window>)
    requires Consistent(s) && Sorted(s, order) && RankedClients(s, order) && RankedDrawins(s, order)
    ensures Layered(s, order)
  {
    hide Consistent, RankedClients, RankedDrawins, Precedes, Effective;
  }

  lemma SortedClients(s: State, order: seq<Window>)
    requires Consistent(s) && Sorted(s, order)
    ensures RankedClients(s, order)
  {
    hide Consistent, Rank, Effective, Precedes;
    forall x | x in s.clients ensures Rank(s, x) + DESKTOP == Effective(s, x) {
      RankIsLayer(s, x);
    }
  }

  lemma SortedDrawins(s: State, order: seq<Window>)
    requires Consistent(s) && Sorted(s, order)
    ensures RankedDrawins(s, order)
  {
    hide Consistent, Rank, Effective, Precedes;
    forall x | x in s.clients ensures Rank(s, x) + DESKTOP == Effective(s, x) {
      RankIsLayer(s, x);
    }
  }

  // ----- what this means for the flags

  lemma LiesByRank(s: State, order: seq<Window>, x: Client, y: Client)
    requires Consistent(s) && OnServer(s, order) && x in s.clients && y in s.clients && Rank(s, x) < Rank(s, y)
    ensures Precedes(Refreshed(s, order), x, y)
  {
    RefreshRanks(s, order);
    hide Consistent, OnServer, Rank, Refreshed, Precedes;
  }

  /** A client that is ontop, or transient for one that is, directly or not, lies over all clients for which this is
      not so. */
  lemma OntopLiesHighest(s: State, order: seq<Window>, x: Client, y: Client)
    requires Consistent(s) && OnServer(s, order) && x in s.clients && y in s.clients
    requires AnyOntop(s, x) && !AnyOntop(s, y)
    ensures Precedes(Refreshed(s, order), y, x)
  {
    hide Consistent, OnServer, AnyOntop, AnyFocusedFullscreen, AnyAbove, OnOrdinaryRoot, AnyBelow, Refreshed, Precedes;
    LiesByRank(s, order, y, x);
  }

  /** Then come the fullscreen client that has the focus and its transients; without the focus the flag means
      nothing. */
  lemma FullscreenLiesNext(s: State, order: seq<Window>, x: Client, y: Client)
    requires Consistent(s) && OnServer(s, order) && x in s.clients && y in s.clients
    requires AnyFocusedFullscreen(s, x) && !AnyOntop(s, y) && !AnyFocusedFullscreen(s, y)
    ensures Precedes(Refreshed(s, order), y, x)
  {
    hide Consistent, OnServer, AnyOntop, AnyFocusedFullscreen, AnyAbove, OnOrdinaryRoot, AnyBelow, Refreshed, Precedes;
    LiesByRank(s, order, y, x);
  }

  /** Then those that are above. */
  lemma AboveLiesThird(s: State, order: seq<Window>, x: Client, y: Client)
    requires Consistent(s) && OnServer(s, order) && x in s.clients && y in s.clients
    requires AnyAbove(s, x) && !AnyOntop(s, y) && !AnyFocusedFullscreen(s, y) && !AnyAbove(s, y)
    ensures Precedes(Refreshed(s, order), y, x)
  {
    hide Consistent, OnServer, AnyOntop, AnyFocusedFullscreen, AnyAbove, OnOrdinaryRoot, AnyBelow, Refreshed, Precedes;
    LiesByRank(s, order, y, x);
  }

  /** What the ranks are for a client without a parent. */
  lemma ParentlessRank(s: State, c: Client)
    requires Consistent(s) && Parentless(s, c)
    ensures c in s.attributes
    ensures var a := s.attributes[c];
      Rank(s, c) == if a.ontop then 5 else if a.fullscreen && s.focus == c then 4 else if a.above then 3
                    else if a.below then 1 else if a.kind == DesktopType then 0 else 2
  {
    assert c in ToSet(s.clients);
    assert ChainOf(s, c) == [c];
    hide Consistent, ChainOf;
  }

  /** Of two clients without a parent, one that is below and nothing else lies under one without a flag that is not a
      desktop window. */
  lemma BelowLiesUnder(s: State, order: seq<Window>, x: Client, y: Client)
    requires Consistent(s) && OnServer(s, order) && Parentless(s, x) && Parentless(s, y)
    requires NothingHigher(s, x) && s.attributes[x].below
    requires Unflagged(s, y) && s.attributes[y].kind != DesktopType
    ensures Precedes(Refreshed(s, order), x, y)
  {
    hide Consistent, OnServer, Rank, Refreshed, Precedes;
    ParentlessRank(s, x);
    ParentlessRank(s, y);
    LiesByRank(s, order, x, y);
  }

  /** A desktop window without a parent and without a flag lies under every client without a parent that is not
      another such window. */
  lemma DesktopLiesLowest(s: State, order: seq<Window>, x: Client, y: Client)
    requires Consistent(s) && OnServer(s, order) && Parentless(s, x) && Parentless(s, y)
    requires Unflagged(s, x) && s.attributes[x].kind == DesktopType
    requires !(Unflagged(s, y) && s.attributes[y].kind == DesktopType)
    ensures Precedes(Refreshed(s, order), x, y)
  {
    hide Consistent, OnServer, Rank, Refreshed, Precedes;
    ParentlessRank(s, x);
    ParentlessRank(s, y);
    LiesByRank(s, order, x, y);
  }

  /** A client without a parent lies under the drawins that are not ontop just if it is such a desktop window, and a
      client with a flag in its chain over all of them. */
  lemma DrawinsLieBetween(s: State, order: seq<Window>, x: Client, d: Drawin)
    requires Consistent(s) && OnServer(s, order) && x in s.clients && PlainDrawin(s, d)
    ensures var over := Precedes(Refreshed(s, order), d, x);
      var under := Precedes(Refreshed(s, order), x, d);
      && (AnyOntop(s, x) || AnyFocusedFullscreen(s, x) || AnyAbove(s, x) || AnyBelow(s, x) ==> over)
      && (Parentless(s, x) && x in s.attributes ==>
            if Unflagged(s, x) && s.attributes[x].kind == DesktopType then under else over)
  {
    hide Consistent, OnServer, AnyOntop, AnyFocusedFullscreen, AnyAbove, OnOrdinaryRoot, AnyBelow, Refreshed, Precedes;
    hide PlainDrawin, RankedClients;
    RefreshRanks(s, order);
    if Parentless(s, x) {
      ParentlessRank(s, x);
    }
  }

  /** A transient without a flag of its own has the rank of its parent, whatever its type. */
  lemma TransientHasParentsRank(s: State, x: Client, p: Client)
    requires Consistent(s) && ParentIs(s, x, p) && Unflagged(s, x)
    ensures Rank(s, x) == Rank(s, p)
  {
    hide Consistent, ChainOf, AnyOntop, AnyFocusedFullscreen, AnyAbove, AnyBelow, Last;
    ParentsChain(s, x, p);
    UnflaggedAddsNothing(s, x, p);
  }

  lemma ParentsChain(s: State, x: Client, p: Client)
    requires Consistent(s) && ParentIs(s, x, p)
    ensures ChainOf(s, x) == [x] + ChainOf(s, p) && Last(ChainOf(s, x)) == Last(ChainOf(s, p))
  {
    hide Once;
    ChainStep(s.transientFor, x);
  }

  lemma UnflaggedAddsNothing(s: State, x: Client, p: Client)
    requires ChainOf(s, x) == [x] + ChainOf(s, p) && Unflagged(s, x)
    ensures AnyOntop(s, x) <==> AnyOntop(s, p)
    ensures AnyFocusedFullscreen(s, x) <==> AnyFocusedFullscreen(s, p)
    ensures AnyAbove(s, x) <==> AnyAbove(s, p)
    ensures AnyBelow(s, x) <==> AnyBelow(s, p)
  {
    var c, d := ChainOf(s, x), ChainOf(s, p);
    hide ChainOf;
    assert forall y :: y in c <==> y == x || y in d;
  }
}
