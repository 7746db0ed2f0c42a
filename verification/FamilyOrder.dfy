/**
 Transients that no flag puts in a layer of their own are listed with their parent and nowhere else, so that after a
 refresh they lie directly over it: nothing that is not itself transient for the parent comes between.
 */
module FamilyOrder {
  import opened Sequences
  import opened TransientGraph
  import opened Stacking
  import opened XServer
  import opened ClientLinks
  import opened ClientState
  import opened RefreshOrder
  import opened LayerOrder

  // ----- the list

  /** p is at place i, and from there to place j all have p for an ancestor. */
  ghost predicate BackTo<T>(g: map<T, T>, s: seq<T>, p: T, i: nat, j: nat) {
    i < j <= |s| && s[i] == p && forall k | i <= k < j :: p in Chain(g, s[k])
  }

  /** Wherever x is listed, it is listed along with p. */
  ghost predicate Attached<T>(g: map<T, T>, s: seq<T>, p: T, x: T) {
    forall j | 0 <= j < |s| && s[j] == x :: exists i :: BackTo(g, s, p, i, j)
  }

  lemma AttachedAppend<T>(g: map<T, T>, u: seq<T>, v: seq<T>, p: T, x: T)
    requires Attached(g, u, p, x) && Attached(g, v, p, x)
    ensures Attached(g, u + v, p, x)
  {
    hide Chain;
    var s := u + v;
    forall j | 0 <= j < |s| && s[j] == x ensures exists i :: BackTo(g, s, p, i, j) {
      if j < |u| {
        var i: nat :| BackTo(g, u, p, i, j);
        assert BackTo(g, s, p, i, j);
      } else {
        assert v[j - |u|] == x;
        var i: nat :| BackTo(g, v, p, i, j - |u|);
        forall k | |u| + i <= k < j ensures p in Chain(g, s[k]) {
          assert s[k] == v[k - |u|];
        }
        assert BackTo(g, s, p, |u| + i, j);
      }
    }
  }

  lemma {:induction false} FamilyAttached<T>(g: map<T, T>, stack: seq<T>, c: T, p: T, x: T)
    requires Acyclic(g) && IsChild(g, x, p) && c != x
    ensures Attached(g, Family(g, stack, c), p, x)
    decreases Room(g, c), |stack| + 1
  {
    var s := Family(g, stack, c);
    if c == p {
      forall j | 0 <= j < |s| && s[j] == x ensures exists i :: BackTo(g, s, p, i, j) {
        forall k | 0 <= k < j ensures p in Chain(g, s[k]) {
          FamilyMembers(g, stack, c, s[k]);
        }
        assert s[0] == p && BackTo(g, s, p, 0, j);
      }
    } else {
      ChildrenAttached(g, stack, c, 0, p, x);
      AttachedAppend(g, [c], Children(g, stack, c, 0), p, x);
    }
  }

  lemma {:induction false} ChildrenAttached<T>(g: map<T, T>, stack: seq<T>, c: T, k: nat, p: T, x: T)
    requires Acyclic(g) && k <= |stack| && IsChild(g, x, p) && c != p
    ensures Attached(g, Children(g, stack, c, k), p, x)
    decreases Room(g, c), |stack| - k
  {
    if k < |stack| {
      ChildrenAttached(g, stack, c, k + 1, p, x);
      if IsChild(g, stack[k], c) {
        ChildHasLessRoom(g, stack[k], c);
        FamilyAttached(g, stack, stack[k], p, x);
        hide Attached, Family, Chain;
        AttachedAppend(g, Family(g, stack, stack[k]), Children(g, stack, c, k + 1), p, x);
      }
    }
  }

  lemma {:induction false} PassAttached<T>(g: map<T, T>, stack: seq<T>, layer: map<T, Layer>, l: Layer, k: nat, p: T,
      x: T)
    requires Acyclic(g) && k <= |stack| && ToSet(stack) <= layer.Keys
    requires IsChild(g, x, p) && x in layer && layer[x] != l
    ensures Attached(g, Pass(g, stack, layer, l, k), p, x)
    decreases |stack| - k
  {
    if k < |stack| {
      PassAttached(g, stack, layer, l, k + 1, p, x);
      if layer[stack[k]] == l {
        FamilyAttached(g, stack, stack[k], p, x);
        hide Attached, Family, Chain;
        AttachedAppend(g, Family(g, stack, stack[k]), Pass(g, stack, layer, l, k + 1), p, x);
      }
    }
  }

  lemma {:induction false} PassesAttached<T>(g: map<T, T>, stack: seq<T>, layer: map<T, Layer>, lo: Layer, hi: Layer,
      p: T, x: T)
    requires Acyclic(g) && ToSet(stack) <= layer.Keys && lo <= hi
    requires IsChild(g, x, p) && x in layer && layer[x] < lo
    ensures Attached(g, Passes(g, stack, layer, lo, hi), p, x)
    decreases hi - lo
  {
    if lo < hi {
      PassAttached(g, stack, layer, lo, 0, p, x);
      PassesAttached(g, stack, layer, lo + 1, hi, p, x);
      hide Attached, Pass, Chain;
      AttachedAppend(g, Pass(g, stack, layer, lo, 0), Passes(g, stack, layer, lo + 1, hi), p, x);
    }
  }

  /** What is listed before x, after all of y, has p before it as well. */
  lemma UnderParentToo<T>(g: map<T, T>, s: seq<T>, p: T, x: T, y: T)
    requires Attached(g, s, p, x) && Under(s, y, x) && p !in Chain(g, y)
    ensures Under(s, y, p)
  {
    hide Chain;
    var j :| 0 <= j < |s| && s[j] == x && y !in s[j..];
    var i: nat :| BackTo(g, s, p, i, j);
    forall k | i <= k < |s| ensures s[k] != y {
      assert k >= j ==> s[j..][k - j] == s[k];
    }
  }

  // ----- the order

  lemma EmissionAttached(s: State, x: Client, p: Client)
    requires Consistent(s) && ParentIs(s, x, p) && Unflagged(s, x)
    ensures Attached(s.transientFor, Emission(s), p, x)
  {
    var g, st, layer := s.transientFor, s.stack, Layers(s);
    ClosedState(s);
    assert x in ToSet(s.clients);
    PassesAttached(g, st, layer, DESKTOP, BELOW, p, x);
    PassesAttached(g, st, layer, BELOW, LAYER_COUNT, p, x);
    PartsOf(s, x);
    var a, d, b, e := DesktopPart(s), DrawinPart(s, false), ClientPart(s), DrawinPart(s, true);
    assert Attached(g, d, p, x) && Attached(g, e, p, x);
    hide Consistent, DesktopPart, ClientPart, DrawinPart, Attached;
    AttachedAppend(g, a, d, p, x);
    AttachedAppend(g, a + d, b, p, x);
    AttachedAppend(g, a + d + b, e, p, x);
  }

  /** After a refresh an unflagged transient lies under everything that lies over its parent, apart from what is
      transient for the parent itself. */
  lemma TransientsLieOnParents(s: State, order: seq<Window>, x: Client, p: Client, y: Window)
    requires Consistent(s) && OnServer(s, order) && ParentIs(s, x, p) && Unflagged(s, x)
    requires (y in s.clients || y in s.drawins) && p !in ChainOf(s, y)
    requires Precedes(Refreshed(s, order), p, y)
    ensures Precedes(Refreshed(s, order), x, y) && Precedes(Refreshed(s, order), p, x)
  {
    var final, e := Refreshed(s, order), Emission(s);
    RefreshOrders(s, order);
    EmissionParent(s, x, p);
    EmissionAttached(s, x, p);
    ListedBoth(s, x, y);
    assert x != y by {
      ParentsChain(s, x, p);
    }
    EitherUnder(e, x, y);
    if Under(e, y, x) {
      UnderParentToo(s.transientFor, e, p, x, y);
      OneWay(final, p, y);
    }
  }

  lemma ListedBoth(s: State, x: Client, y: Window)
    requires Consistent(s) && x in s.transientFor && (y in s.clients || y in s.drawins)
    ensures x in Emission(s) && y in Emission(s)
  {
    assert x in ToSet(s.clients);
    EmissionHas(s, x);
    EmissionHas(s, y);
  }

  lemma OneWay<T>(s: seq<T>, a: T, b: T)
    requires NoDup(s) && Precedes(s, a, b)
    ensures !Precedes(s, b, a)
  {
  }

  // ----- the stack decides

  /** Two clients without parents that ask for the same layer are listed in the order of the stack. */
  lemma {:induction false} PassInOrder<T>(g: map<T, T>, stack: seq<T>, layer: map<T, Layer>, l: Layer, k: nat, i: nat,
      j: nat)
    requires Closed(g, stack, layer) && k <= i < j < |stack|
    requires stack[i] !in g && stack[j] !in g && layer[stack[i]] == layer[stack[j]] == l
    ensures Under(Pass(g, stack, layer, l, k), stack[i], stack[j])
    decreases i - k
  {
    var x, y := stack[i], stack[j];
    if k < i {
      PassInOrder(g, stack, layer, l, k + 1, i, j);
      if layer[stack[k]] == l {
        UnderInRight(Family(g, stack, stack[k]), Pass(g, stack, layer, l, k + 1), x, y);
      }
    } else {
      OneHeadOnly(g, stack, layer, l, i, j);
      UnderAcross(Family(g, stack, x), Pass(g, stack, layer, l, i + 1), x, y);
    }
  }

  /** A client without a parent is listed once, in its place. */
  lemma OneHeadOnly<T>(g: map<T, T>, stack: seq<T>, layer: map<T, Layer>, l: Layer, i: nat, j: nat)
    requires Closed(g, stack, layer) && i < j < |stack| && layer[stack[j]] == l
    requires stack[i] !in g && stack[j] !in g
    ensures stack[i] in Family(g, stack, stack[i]) && stack[i] !in Pass(g, stack, layer, l, i + 1)
    ensures stack[j] in Pass(g, stack, layer, l, i + 1)
  {
    var x, y := stack[i], stack[j];
    assert Chain(g, x) == [x] && Chain(g, y) == [y];
    assert Family(g, stack, x)[0] == x;
    PassMembers(g, stack, layer, l, i + 1, x);
    PassMembers(g, stack, layer, l, i + 1, y);
    hide Chain, Pass, Family;
    assert layer[stack[j]] == l && stack[j] in Chain(g, y);
    forall k | i + 1 <= k < |stack| ensures stack[k] != x {
    }
  }

  lemma {:induction false} PassesInOrder<T>(g: map<T, T>, stack: seq<T>, layer: map<T, Layer>, lo: Layer, hi: Layer,
      i: nat, j: nat)
    requires Closed(g, stack, layer) && i < j < |stack|
    requires stack[i] !in g && stack[j] !in g && layer[stack[i]] == layer[stack[j]]
    requires lo <= layer[stack[i]] < hi
    ensures Under(Passes(g, stack, layer, lo, hi), stack[i], stack[j])
    decreases hi - lo
  {
    var x, y := stack[i], stack[j];
    if lo < layer[x] {
      PassesInOrder(g, stack, layer, lo + 1, hi, i, j);
      UnderInRight(Pass(g, stack, layer, lo, 0), Passes(g, stack, layer, lo + 1, hi), x, y);
    } else {
      PassInOrder(g, stack, layer, lo, 0, i, j);
      LastPass(g, stack, layer, x, lo + 1, hi);
      UnderInLeft(Pass(g, stack, layer, lo, 0), Passes(g, stack, layer, lo + 1, hi), x, y);
    }
  }

  lemma EmissionInOrder(s: State, i: nat, j: nat)
    requires Consistent(s) && i < j < |s.stack| && s.stack[i] in s.attributes && s.stack[j] in s.attributes
    requires s.stack[i] !in s.transientFor && s.stack[j] !in s.transientFor
    requires Layers(s)[s.stack[i]] == Layers(s)[s.stack[j]]
    ensures Under(Emission(s), s.stack[i], s.stack[j])
  {
    var g, st, layer := s.transientFor, s.stack, Layers(s);
    var x, y := st[i], st[j];
    ClosedState(s);
    assert x in ToSet(s.clients) && y in ToSet(s.clients) by {
      assert x in ToSet(st) && y in ToSet(st);
    }
    PartsOf(s, x);
    var a, d, b, e := DesktopPart(s), DrawinPart(s, false), ClientPart(s), DrawinPart(s, true);
    if layer[x] == DESKTOP {
      PassesInOrder(g, st, layer, DESKTOP, BELOW, i, j);
      UnderInLeft(a, d, x, y);
      UnderInLeft(a + d, b, x, y);
    } else {
      PassesInOrder(g, st, layer, BELOW, LAYER_COUNT, i, j);
      UnderInRight(a + d, b, x, y);
    }
    UnderInLeft(a + d + b, e, x, y);
  }

  /** After a refresh two clients without parents that are of the same rank lie in the order of the stack. */
  lemma StackDecides(s: State, order: seq<Window>, i: nat, j: nat)
    requires Consistent(s) && OnServer(s, order) && i < j < |s.stack|
    requires Parentless(s, s.stack[i]) && Parentless(s, s.stack[j])
    requires Rank(s, s.stack[i]) == Rank(s, s.stack[j])
    ensures Precedes(Refreshed(s, order), s.stack[i], s.stack[j])
  {
    var x, y := s.stack[i], s.stack[j];
    assert x in s.attributes && y in s.attributes by {
      assert x in ToSet(s.clients) && y in ToSet(s.clients);
    }
    RankIsLayer(s, x);
    RankIsLayer(s, y);
    assert Layers(s)[x] == Effective(s, x) && Layers(s)[y] == Effective(s, y);
    hide Consistent, Rank, Effective, OnServer, Refreshed, Precedes, Emission, Layers, Under;
    EmissionInOrder(s, i, j);
    RefreshOrders(s, order);
  }

  lemma {:induction false} DrawinListInOrder(ds: seq<Drawin>, flags: map<Drawin, bool>, b: bool, k: nat, i: nat, j: nat)
    requires k <= i < j < |ds| && ToSet(ds) <= flags.Keys && NoDup(ds) && flags[ds[i]] == flags[ds[j]] == b
    ensures Under(DrawinList(ds, flags, b, k), ds[i], ds[j])
    decreases i - k
  {
    var rest := DrawinList(ds, flags, b, k + 1);
    DrawinListed(ds, flags, b, i + 1, ds[i]);
    DrawinListed(ds, flags, b, i + 1, ds[j]);
    if k == i {
      assert ds[j] == ds[i + 1..][j - i - 1] && ds[i] !in ds[i + 1..];
      UnderAcross([ds[i]], rest, ds[i], ds[j]);
    } else {
      DrawinListInOrder(ds, flags, b, k + 1, i, j);
      if flags[ds[k]] == b {
        UnderInRight([ds[k]], rest, ds[i], ds[j]);
      }
    }
  }

  lemma EmissionDrawins(s: State, i: nat, j: nat)
    requires Consistent(s) && i < j < |s.drawins|
    requires s.drawins[i] in s.drawinOntop && s.drawins[j] in s.drawinOntop
    requires s.drawinOntop[s.drawins[i]] == s.drawinOntop[s.drawins[j]]
    ensures Under(Emission(s), s.drawins[i], s.drawins[j])
  {
    var x, y := s.drawins[i], s.drawins[j];
    OnceIsNoDup(s.drawins);
    DrawinListInOrder(s.drawins, s.drawinOntop, s.drawinOntop[x], 0, i, j);
    PartsOf(s, x);
    var a, d, b, e := DesktopPart(s), DrawinPart(s, false), ClientPart(s), DrawinPart(s, true);
    assert x !in a && x !in b by {
      assert x in s.drawins;
    }
    var ontop := s.drawinOntop[x];
    assert Under(if ontop then e else d, x, y) && (!ontop ==> x !in e);
    hide Consistent, DesktopPart, ClientPart, DrawinPart, Under;
    if ontop {
      UnderInRight(a + d + b, e, x, y);
    } else {
      UnderInRight(a, d, x, y);
      UnderInLeft(a + d, b, x, y);
      UnderInLeft(a + d + b, e, x, y);
    }
  }

  /** Drawins with the same flag lie in the order of their list, in which the one shown last comes last. */
  lemma DrawinsInOrder(s: State, order: seq<Window>, i: nat, j: nat)
    requires Consistent(s) && OnServer(s, order) && i < j < |s.drawins|
    requires s.drawins[i] in s.drawinOntop && s.drawins[j] in s.drawinOntop
    requires s.drawinOntop[s.drawins[i]] == s.drawinOntop[s.drawins[j]]
    ensures Precedes(Refreshed(s, order), s.drawins[i], s.drawins[j])
  {
    hide Consistent, OnServer, Refreshed, Precedes, Emission, Under;
    EmissionDrawins(s, i, j);
    RefreshOrders(s, order);
  }
}
