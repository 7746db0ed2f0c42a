/**
 The list of clients that a stack refresh walks over, and the order it encodes.  A client may be
 listed several times; the last time counts (see XServer.RequestsBuildBlock).
 */
module Stacking {
  import opened Sequences
  import opened TransientGraph

  /** Stacking layers; the numbers are the order in which the layers are walked. */
  type Layer = nat

  const IGNORE: Layer := 0
  const DESKTOP: Layer := 1
  const BELOW: Layer := 2
  const NORMAL: Layer := 3
  const ABOVE: Layer := 4
  const FULLSCREEN: Layer := 5
  const ONTOP: Layer := 6
  const LAYER_COUNT: Layer := 7

  /** How many clients can still be below c in the transient tree. */
  function Room<T(==)>(g: map<T, T>, c: T): nat {
    |g| + 1 - |Chain(g, c)|
  }

  predicate IsChild<T(==)>(g: map<T, T>, x: T, c: T) {
    x in g && g[x] == c
  }

  lemma ChildHasLessRoom<T>(g: map<T, T>, x: T, c: T)
    requires Acyclic(g) && IsChild(g, x, c)
    ensures Room(g, x) < Room(g, c)
  {
    ChainStep(g, x);
  }

  /** A client followed by its transients, each with its own transients. */
  ghost function Family<T>(g: map<T, T>, stack: seq<T>, c: T): (r: seq<T>)
    requires Acyclic(g)
    ensures r != []
    decreases Room(g, c), |stack| + 1
  {
    [c] + Children(g, stack, c, 0)
  }

  ghost function Children<T>(g: map<T, T>, stack: seq<T>, c: T, k: nat): seq<T>
    requires Acyclic(g) && k <= |stack|
    decreases Room(g, c), |stack| - k
  {
    if k == |stack| then []
    else if IsChild(g, stack[k], c) then
      ChildHasLessRoom(g, stack[k], c);
      Family(g, stack, stack[k]) + Children(g, stack, c, k + 1)
    else Children(g, stack, c, k + 1)
  }

  /** The families of the clients of one layer, from the k-th stack entry on. */
  ghost function Pass<T>(g: map<T, T>, stack: seq<T>, layer: map<T, Layer>, l: Layer, k: nat): seq<T>
    requires Acyclic(g) && k <= |stack| && ToSet(stack) <= layer.Keys
    decreases |stack| - k
  {
    if k == |stack| then []
    else if layer[stack[k]] == l then Family(g, stack, stack[k]) + Pass(g, stack, layer, l, k + 1)
    else Pass(g, stack, layer, l, k + 1)
  }

  /** The passes for the layers lo, ..., hi - 1. */
  ghost function Passes<T>(g: map<T, T>, stack: seq<T>, layer: map<T, Layer>, lo: Layer, hi: Layer): seq<T>
    requires Acyclic(g) && ToSet(stack) <= layer.Keys && lo <= hi
    decreases hi - lo
  {
    if lo == hi then [] else Pass(g, stack, layer, lo, 0) + Passes(g, stack, layer, lo + 1, hi)
  }

  /** The highest layer among a client and its transient ancestors. */
  ghost function EffectiveLayer<T>(g: map<T, T>, layer: map<T, Layer>, c: T): Layer
    requires Acyclic(g) && c in layer && (forall x | x in g :: g[x] in layer)
    decreases |Chain(g, c)|
  {
    if c in g then
      ChainStep(g, c);
      var up := EffectiveLayer(g, layer, g[c]);
      if layer[c] > up then layer[c] else up
    else layer[c]
  }

  /** What is known of the stack of a window manager state outside client_manage. */
  ghost predicate Closed<T>(g: map<T, T>, stack: seq<T>, layer: map<T, Layer>) {
    && Acyclic(g)
    && NoDup(stack)
    && layer.Keys == ToSet(stack)
    && (forall x {:trigger g[x]} | x in g :: x in stack && g[x] in stack)
    && (forall x | x in stack :: layer[x] < LAYER_COUNT)
    && (forall x | x in stack :: layer[x] == IGNORE ==> x in g)
  }

  // ----- what a family holds

  lemma {:induction false} FamilyMembers<T>(g: map<T, T>, stack: seq<T>, c: T, x: T)
    requires Acyclic(g) && x in Family(g, stack, c)
    ensures c in Chain(g, x)
    decreases Room(g, c), |stack| + 1
  {
    if x != c {
      ChildrenMembers(g, stack, c, 0, x);
    }
  }

  lemma {:induction false} ChildrenMembers<T>(g: map<T, T>, stack: seq<T>, c: T, k: nat, x: T)
    requires Acyclic(g) && k <= |stack| && x in Children(g, stack, c, k)
    ensures c in Chain(g, x) && x != c
    ensures exists j :: k <= j < |stack| && IsChild(g, stack[j], c) && stack[j] in Chain(g, x)
    decreases Room(g, c), |stack| - k
  {
    if IsChild(g, stack[k], c) {
      ChildHasLessRoom(g, stack[k], c);
      if x in Family(g, stack, stack[k]) {
        FamilyMembers(g, stack, stack[k], x);
        AncestorsOfMember(g, x, stack[k]);
        ChainStep(g, stack[k]);
        assert stack[k] in Chain(g, x) && c in Chain(g, stack[k]);
        if x == c {
          assert false;
        }
        return;
      }
    }
    ChildrenMembers(g, stack, c, k + 1, x);
  }

  /** Whenever p is listed, its transient x is listed after the last p. */
  ghost predicate Follows<T>(s: seq<T>, p: T, x: T) {
    p in s ==> Under(s, p, x)
  }

  lemma FollowsAppend<T>(u: seq<T>, v: seq<T>, p: T, x: T)
    requires Follows(u, p, x) && Follows(v, p, x)
    ensures Follows(u + v, p, x)
  {
    if p in v {
      UnderInRight(u, v, p, x);
    } else if p in u {
      UnderInLeft(u, v, p, x);
    }
  }

  lemma {:induction false} FamilyFollows<T>(g: map<T, T>, stack: seq<T>, c: T, p: T, x: T)
    requires Acyclic(g) && x in stack && IsChild(g, x, p)
    ensures Follows(Family(g, stack, c), p, x)
    decreases Room(g, c), |stack| + 1
  {
    ChildrenFollow(g, stack, c, 0, p, x);
    var kids := Children(g, stack, c, 0);
    if p == c {
      var j :| 0 <= j < |stack| && stack[j] == x;
      ChildListed(g, stack, c, 0, j);
      if p in kids {
        UnderInRight([c], kids, p, x);
      } else {
        UnderAcross([c], kids, p, x);
      }
    } else {
      FollowsAppend([c], kids, p, x);
    }
  }

  lemma {:induction false} ChildListed<T>(g: map<T, T>, stack: seq<T>, c: T, k: nat, j: nat)
    requires Acyclic(g) && k <= j < |stack| && IsChild(g, stack[j], c)
    ensures stack[j] in Children(g, stack, c, k)
    decreases |stack| - k
  {
    if k == j {
      assert Family(g, stack, stack[j])[0] == stack[j];
    } else {
      ChildListed(g, stack, c, k + 1, j);
    }
  }

  lemma {:induction false} ChildrenFollow<T>(g: map<T, T>, stack: seq<T>, c: T, k: nat, p: T, x: T)
    requires Acyclic(g) && k <= |stack| && x in stack && IsChild(g, x, p)
    ensures Follows(Children(g, stack, c, k), p, x)
    decreases Room(g, c), |stack| - k
  {
    if k < |stack| {
      ChildrenFollow(g, stack, c, k + 1, p, x);
      if IsChild(g, stack[k], c) {
        ChildHasLessRoom(g, stack[k], c);
        FamilyFollows(g, stack, stack[k], p, x);
        FollowsAppend(Family(g, stack, stack[k]), Children(g, stack, c, k + 1), p, x);
      }
    }
  }

  /** A family holds exactly the clients with c among themselves and their ancestors. */
  lemma {:induction false} FamilyComplete<T>(g: map<T, T>, stack: seq<T>, c: T, x: T)
    requires Acyclic(g) && (forall y | y in g :: y in stack)
    requires c in Chain(g, x)
    ensures x in Family(g, stack, c)
    decreases |Chain(g, x)|
  {
    if x != c {
      ChainStep(g, x);
      FamilyComplete(g, stack, c, g[x]);
      FamilyFollows(g, stack, c, g[x], x);
    }
  }

  // ----- what a pass holds

  lemma {:induction false} PassMembers<T>(g: map<T, T>, stack: seq<T>, layer: map<T, Layer>, l: Layer, k: nat, x: T)
    requires Acyclic(g) && k <= |stack| && ToSet(stack) <= layer.Keys
    requires forall y | y in g :: y in stack
    ensures x in Pass(g, stack, layer, l, k)
       <==> exists j :: k <= j < |stack| && layer[stack[j]] == l && stack[j] in Chain(g, x)
    decreases |stack| - k
  {
    if k < |stack| {
      PassMembers(g, stack, layer, l, k + 1, x);
      if layer[stack[k]] == l {
        if x in Family(g, stack, stack[k]) {
          FamilyMembers(g, stack, stack[k], x);
        } else if stack[k] in Chain(g, x) {
          FamilyComplete(g, stack, stack[k], x);
        }
      }
    }
  }

  lemma {:induction false} PassFollows<T>(g: map<T, T>, stack: seq<T>, layer: map<T, Layer>, l: Layer, k: nat, p: T,
      x: T)
    requires Acyclic(g) && k <= |stack| && ToSet(stack) <= layer.Keys
    requires x in stack && IsChild(g, x, p)
    ensures Follows(Pass(g, stack, layer, l, k), p, x)
    decreases |stack| - k
  {
    if k < |stack| {
      PassFollows(g, stack, layer, l, k + 1, p, x);
      if layer[stack[k]] == l {
        FamilyFollows(g, stack, stack[k], p, x);
        FollowsAppend(Family(g, stack, stack[k]), Pass(g, stack, layer, l, k + 1), p, x);
      }
    }
  }

  lemma {:induction false} PassesFollow<T>(g: map<T, T>, stack: seq<T>, layer: map<T, Layer>, lo: Layer, hi: Layer,
      p: T, x: T)
    requires Acyclic(g) && ToSet(stack) <= layer.Keys && lo <= hi
    requires x in stack && IsChild(g, x, p)
    ensures Follows(Passes(g, stack, layer, lo, hi), p, x)
    decreases hi - lo
  {
    if lo < hi {
      PassFollows(g, stack, layer, lo, 0, p, x);
      PassesFollow(g, stack, layer, lo + 1, hi, p, x);
      FollowsAppend(Pass(g, stack, layer, lo, 0), Passes(g, stack, layer, lo + 1, hi), p, x);
    }
  }

  lemma {:induction false} PassesMembers<T>(g: map<T, T>, stack: seq<T>, layer: map<T, Layer>, lo: Layer, hi: Layer,
      x: T)
    requires Acyclic(g) && ToSet(stack) <= layer.Keys && lo <= hi
    requires forall y | y in g :: y in stack
    ensures x in Passes(g, stack, layer, lo, hi)
       <==> exists j :: 0 <= j < |stack| && lo <= layer[stack[j]] < hi && stack[j] in Chain(g, x)
    decreases hi - lo
  {
    if lo < hi {
      PassMembers(g, stack, layer, lo, 0, x);
      PassesMembers(g, stack, layer, lo + 1, hi, x);
    }
  }

  lemma PassesStep<T>(g: map<T, T>, stack: seq<T>, layer: map<T, Layer>, lo: Layer, hi: Layer)
    requires Acyclic(g) && ToSet(stack) <= layer.Keys && lo <= hi
    ensures Passes(g, stack, layer, lo, hi)
         == if lo == hi then [] else Pass(g, stack, layer, lo, 0) + Passes(g, stack, layer, lo + 1, hi)
  {
  }

  lemma {:induction false} PassesSplit<T>(g: map<T, T>, stack: seq<T>, layer: map<T, Layer>, lo: Layer, mid: Layer,
      hi: Layer)
    requires Acyclic(g) && ToSet(stack) <= layer.Keys && lo <= mid <= hi
    ensures Passes(g, stack, layer, lo, hi) == Passes(g, stack, layer, lo, mid) + Passes(g, stack, layer, mid, hi)
    decreases mid - lo
  {
    if lo < mid {
      PassesSplit(g, stack, layer, lo + 1, mid, hi);
    }
  }

  // ----- effective layers

  /** The effective layer is reached by some ancestor, and none is higher. */
  lemma {:induction false} EffectiveIsMaximum<T>(g: map<T, T>, layer: map<T, Layer>, c: T)
    requires Acyclic(g) && c in layer && (forall x | x in g :: g[x] in layer)
    ensures forall x | x in Chain(g, c) :: x in layer && layer[x] <= EffectiveLayer(g, layer, c)
    ensures exists x :: x in Chain(g, c) && x in layer && layer[x] == EffectiveLayer(g, layer, c)
    decreases |Chain(g, c)|
  {
    if c in g {
      ChainStep(g, c);
      EffectiveIsMaximum(g, layer, g[c]);
      if layer[c] > EffectiveLayer(g, layer, g[c]) {
        assert c in Chain(g, c);
      } else {
        var x :| x in Chain(g, g[c]) && x in layer && layer[x] == EffectiveLayer(g, layer, g[c]);
        assert x in Chain(g, c);
      }
    } else {
      assert Chain(g, c) == [c];
      assert c in Chain(g, c);
    }
  }

  lemma EffectiveBounds<T>(g: map<T, T>, stack: seq<T>, layer: map<T, Layer>, c: T)
    requires Closed(g, stack, layer) && c in stack
    ensures DESKTOP <= EffectiveLayer(g, layer, c) < LAYER_COUNT
  {
    EffectiveIsMaximum(g, layer, c);
    ChainEndsAtRoot(g, c);
    assert Last(Chain(g, c)) in Chain(g, c);
  }

  /** A client is listed in the pass of its effective layer and in none above it. */
  lemma LastPass<T>(g: map<T, T>, stack: seq<T>, layer: map<T, Layer>, c: T, lo: Layer, hi: Layer)
    requires Closed(g, stack, layer) && c in stack && lo <= hi
    ensures lo <= EffectiveLayer(g, layer, c) < hi ==> c in Passes(g, stack, layer, lo, hi)
    ensures EffectiveLayer(g, layer, c) < lo ==> c !in Passes(g, stack, layer, lo, hi)
  {
    PassesMembers(g, stack, layer, lo, hi, c);
    EffectiveIsMaximum(g, layer, c);
    var e := EffectiveLayer(g, layer, c);
    var x :| x in Chain(g, c) && x in layer && layer[x] == e;
    var j :| 0 <= j < |stack| && stack[j] == x;
    if lo <= e < hi {
      assert lo <= layer[stack[j]] < hi && stack[j] in Chain(g, c);
    }
  }

  /** Lower effective layers are listed, for the last time, before higher ones. */
  lemma LayersInOrder<T>(g: map<T, T>, stack: seq<T>, layer: map<T, Layer>, lo: Layer, hi: Layer, a: T, b: T)
    requires Closed(g, stack, layer) && a in stack && b in stack
    requires lo <= EffectiveLayer(g, layer, a) < EffectiveLayer(g, layer, b) < hi
    ensures Under(Passes(g, stack, layer, lo, hi), a, b)
  {
    var e := EffectiveLayer(g, layer, b);
    PassesSplit(g, stack, layer, lo, e, hi);
    LastPass(g, stack, layer, a, lo, e);
    LastPass(g, stack, layer, a, e, hi);
    LastPass(g, stack, layer, b, e, hi);
    UnderAcross(Passes(g, stack, layer, lo, e), Passes(g, stack, layer, e, hi), a, b);
  }

  // ----- the client on top of the stack

  /** The stack ends with the root ancestor of c, ..., its parent, c. */
  ghost predicate ChainOnTop<T>(g: map<T, T>, stack: seq<T>, c: T) {
    && |Chain(g, c)| <= |stack|
    && forall i | 0 <= i < |Chain(g, c)| :: stack[|stack| - 1 - i] == Chain(g, c)[i]
  }

  /** From a member h of c's chain on, the families listed after another one do not matter: the child
      of h that leads to c comes last among the children of h. */
  lemma {:induction false} LeadsLast<T>(g: map<T, T>, stack: seq<T>, c: T, i: nat)
    requires Acyclic(g) && (forall y | y in g :: y in stack) && ChainOnTop(g, stack, c)
    requires i + 1 < |Chain(g, c)|
    ensures var h, m, k := Chain(g, c)[i + 1], Chain(g, c)[i], |stack| - 1 - i;
      Children(g, stack, h, k) == Family(g, stack, m)
  {
    var h, m, k := Chain(g, c)[i + 1], Chain(g, c)[i], |stack| - 1 - i;
    ChainSuffix(g, c, i);
    assert IsChild(g, m, h) && stack[k] == m;
    NoLaterChild(g, stack, c, i + 1, k + 1);
  }

  lemma {:induction false} NoLaterChild<T>(g: map<T, T>, stack: seq<T>, c: T, i: nat, k: nat)
    requires Acyclic(g) && ChainOnTop(g, stack, c) && 0 < i < |Chain(g, c)|
    requires |stack| - i < k <= |stack|
    ensures Children(g, stack, Chain(g, c)[i], k) == []
    decreases |stack| - k
  {
    if k < |stack| {
      var j := |stack| - 1 - k;
      ChainSuffix(g, c, j);
      ChainNoDup(g, c);
      assert stack[k] == Chain(g, c)[j] && g[stack[k]] == Chain(g, c)[j + 1];
      NoLaterChild(g, stack, c, i, k + 1);
    }
  }

  lemma {:induction false} ChildrenSplit<T>(g: map<T, T>, stack: seq<T>, h: T, j: nat, k: nat) returns (front: seq<T>)
    requires Acyclic(g) && j <= k <= |stack|
    ensures Children(g, stack, h, j) == front + Children(g, stack, h, k)
    decreases k - j
  {
    if j == k {
      front := [];
    } else {
      front := ChildrenSplit(g, stack, h, j + 1, k);
      if IsChild(g, stack[j], h) {
        ChildHasLessRoom(g, stack[j], h);
        front := Family(g, stack, stack[j]) + front;
      }
    }
  }

  /** The family of a member of c's chain ends with the family of the next member towards c. */
  lemma FamilyEndsTowards<T>(g: map<T, T>, stack: seq<T>, c: T, i: nat) returns (front: seq<T>)
    requires Acyclic(g) && (forall y | y in g :: y in stack) && ChainOnTop(g, stack, c)
    requires 0 < i < |Chain(g, c)|
    ensures Family(g, stack, Chain(g, c)[i]) == front + Family(g, stack, Chain(g, c)[i - 1])
    ensures c in Family(g, stack, Chain(g, c)[i - 1])
  {
    var h, m := Chain(g, c)[i], Chain(g, c)[i - 1];
    LeadsLast(g, stack, c, i - 1);
    front := ChildrenSplit(g, stack, h, 0, |stack| - i);
    front := [h] + front;
    assert m in Chain(g, c);
    FamilyComplete(g, stack, m, c);
  }

  /** Within the family of an ancestor of c, every client that is not below c is listed before c. */
  lemma {:induction false} LastInFamily<T>(g: map<T, T>, stack: seq<T>, c: T, i: nat, d: T)
    requires Acyclic(g) && (forall y | y in g :: y in stack) && ChainOnTop(g, stack, c)
    requires i < |Chain(g, c)| && Chain(g, c)[i] in Chain(g, d) && c !in Chain(g, d)
    ensures Under(Family(g, stack, Chain(g, c)[i]), d, c)
    decreases i
  {
    var front := FamilyEndsTowards(g, stack, c, i);
    FamilyComplete(g, stack, Chain(g, c)[i], d);
    var m := Chain(g, c)[i - 1];
    var last := Family(g, stack, m);
    if d in last {
      FamilyMembers(g, stack, m, d);
      LastInFamily(g, stack, c, i - 1, d);
      UnderInRight(front, last, d, c);
    } else {
      UnderAcross(front, last, d, c);
    }
  }

  lemma {:induction false} PassSplit<T>(g: map<T, T>, stack: seq<T>, layer: map<T, Layer>, l: Layer, j: nat, k: nat)
    returns (front: seq<T>)
    requires Acyclic(g) && ToSet(stack) <= layer.Keys && j <= k <= |stack|
    ensures Pass(g, stack, layer, l, j) == front + Pass(g, stack, layer, l, k)
    decreases k - j
  {
    if j == k {
      front := [];
    } else {
      front := PassSplit(g, stack, layer, l, j + 1, k);
      if layer[stack[j]] == l {
        front := Family(g, stack, stack[j]) + front;
      }
    }
  }

  /** Past the member of c's chain that is nearest to c among those of layer l, the pass is over. */
  lemma {:induction false} PassOver<T>(g: map<T, T>, stack: seq<T>, layer: map<T, Layer>, c: T, i: nat, l: Layer,
      k: nat)
    requires Acyclic(g) && ToSet(stack) <= layer.Keys && ChainOnTop(g, stack, c) && i < |Chain(g, c)|
    requires forall j | 0 <= j < i :: Chain(g, c)[j] in layer && layer[Chain(g, c)[j]] != l
    requires |stack| - i <= k <= |stack|
    ensures Pass(g, stack, layer, l, k) == []
    decreases |stack| - k
  {
    if k < |stack| {
      assert stack[k] == Chain(g, c)[|stack| - 1 - k];
      PassOver(g, stack, layer, c, i, l, k + 1);
    }
  }

  lemma PassEndsWith<T>(g: map<T, T>, stack: seq<T>, layer: map<T, Layer>, c: T, i: nat,
      l: Layer) returns (front: seq<T>)
    requires Acyclic(g) && ToSet(stack) <= layer.Keys && ChainOnTop(g, stack, c) && i < |Chain(g, c)|
    requires forall j | 0 <= j <= i :: Chain(g, c)[j] in layer && (layer[Chain(g, c)[j]] == l <==> j == i)
    ensures Pass(g, stack, layer, l, 0) == front + Family(g, stack, Chain(g, c)[i])
  {
    var k := |stack| - 1 - i;
    assert stack[k] == Chain(g, c)[i];
    assert stack[k] in ToSet(stack);
    PassStarts(g, stack, layer, l, k);
    hide *;
    front := PassSplit(g, stack, layer, l, 0, k);
    PassOver(g, stack, layer, c, i, l, k + 1);
    Emptied(front, Family(g, stack, Chain(g, c)[i]));
  }

  lemma PassStarts<T>(g: map<T, T>, stack: seq<T>, layer: map<T, Layer>, l: Layer, k: nat)
    requires Acyclic(g) && ToSet(stack) <= layer.Keys && k < |stack| && layer[stack[k]] == l
    ensures Pass(g, stack, layer, l, k) == Family(g, stack, stack[k]) + Pass(g, stack, layer, l, k + 1)
  {
  }

  lemma Emptied<T>(a: seq<T>, b: seq<T>)
    ensures a + (b + []) == a + b
  {
  }

  /** The member nearest to c among those of c's effective layer. */
  lemma NearestOfLayer<T>(g: map<T, T>, stack: seq<T>, layer: map<T, Layer>, c: T) returns (i: nat)
    requires Closed(g, stack, layer) && c in stack
    ensures i < |Chain(g, c)|
    ensures forall j | 0 <= j <= i ::
      Chain(g, c)[j] in layer && (layer[Chain(g, c)[j]] == EffectiveLayer(g, layer, c) <==> j == i)
  {
    EffectiveIsMaximum(g, layer, c);
    i := FirstOfLayer(Chain(g, c), layer, EffectiveLayer(g, layer, c));
  }

  lemma {:induction false} FirstOfLayer<T>(r: seq<T>, layer: map<T, Layer>, e: Layer) returns (i: nat)
    requires (forall x | x in r :: x in layer) && exists x :: x in r && layer[x] == e
    ensures i < |r| && forall j | 0 <= j <= i :: r[j] in layer && (layer[r[j]] == e <==> j == i)
  {
    if layer[r[0]] == e {
      i := 0;
    } else {
      assert r == [r[0]] + r[1..];
      i := FirstOfLayer(r[1..], layer, e);
      i := i + 1;
      assert forall j | 0 < j <= i :: r[j] == r[1..][j - 1];
    }
  }

  /** A client whose chain has just been put on top of the stack is listed after every client of its
      effective layer that is not transient, directly or not, for it. */
  lemma TopOfItsLayer<T>(g: map<T, T>, stack: seq<T>, layer: map<T, Layer>, lo: Layer, hi: Layer, c: T, d: T)
    requires Closed(g, stack, layer) && c in stack && d in stack && ChainOnTop(g, stack, c)
    requires lo <= EffectiveLayer(g, layer, c) == EffectiveLayer(g, layer, d) < hi
    requires c !in Chain(g, d)
    ensures Under(Passes(g, stack, layer, lo, hi), d, c)
  {
    var e := EffectiveLayer(g, layer, c);
    PassesSplit(g, stack, layer, lo, e, hi);
    TopFromLayer(g, stack, layer, e, hi, c, d);
    UnderInRight(Passes(g, stack, layer, lo, e), Passes(g, stack, layer, e, hi), d, c);
  }

  lemma TopFromLayer<T>(g: map<T, T>, stack: seq<T>, layer: map<T, Layer>, e: Layer, hi: Layer, c: T, d: T)
    requires Closed(g, stack, layer) && c in stack && d in stack && ChainOnTop(g, stack, c)
    requires e == EffectiveLayer(g, layer, c) == EffectiveLayer(g, layer, d) < hi
    requires c !in Chain(g, d)
    ensures Under(Passes(g, stack, layer, e, hi), d, c)
  {
    var p, rest := Pass(g, stack, layer, e, 0), Passes(g, stack, layer, e + 1, hi);
    LastPass(g, stack, layer, d, e + 1, hi);
    OnTopInPass(g, stack, layer, c, d);
    PassesStep(g, stack, layer, e, hi);
    hide *;
    UnderInLeft(p, rest, d, c);
  }

  lemma OnTopInPass<T>(g: map<T, T>, stack: seq<T>, layer: map<T, Layer>, c: T, d: T)
    requires Closed(g, stack, layer) && c in stack && d in stack && ChainOnTop(g, stack, c)
    requires EffectiveLayer(g, layer, c) == EffectiveLayer(g, layer, d)
    requires c !in Chain(g, d)
    ensures Under(Pass(g, stack, layer, EffectiveLayer(g, layer, c), 0), d, c)
  {
    var e := EffectiveLayer(g, layer, c);
    var i := NearestOfLayer(g, stack, layer, c);
    var h := Chain(g, c)[i];
    var front := PassEndsWith(g, stack, layer, c, i, e);
    assert h in Chain(g, c);
    FamilyComplete(g, stack, h, c);
    ListedInOwnPass(g, stack, layer, d);
    if d in Family(g, stack, h) {
      FamilyMembers(g, stack, h, d);
      LastInFamily(g, stack, c, i, d);
      UnderInRight(front, Family(g, stack, h), d, c);
    } else {
      UnderAcross(front, Family(g, stack, h), d, c);
    }
  }

  lemma ListedInOwnPass<T>(g: map<T, T>, stack: seq<T>, layer: map<T, Layer>, d: T)
    requires Closed(g, stack, layer) && d in stack
    ensures d in Pass(g, stack, layer, EffectiveLayer(g, layer, d), 0)
  {
    EffectiveIsMaximum(g, layer, d);
    var e := EffectiveLayer(g, layer, d);
    var x :| x in Chain(g, d) && x in layer && layer[x] == e;
    var j :| 0 <= j < |stack| && stack[j] == x;
    PassMembers(g, stack, layer, e, 0, d);
  }

  // ----- raising and lowering on the stack list

  /** The stack after the chain of a client is raised: root ancestor, ..., parent, client come last,
      everybody else keeps the old order. */
  function Raised<T(==)>(stack: seq<T>, chain: seq<T>): seq<T> {
    Minus(stack, ToSet(chain)) + Reverse(chain)
  }

  /** The stack after the chain of a client is lowered. */
  function Lowered<T(==)>(stack: seq<T>, chain: seq<T>): seq<T> {
    Reverse(chain) + Minus(stack, ToSet(chain))
  }

  /** Appending x once more raises it above the part of the chain already raised. */
  lemma RaiseOneMore<T>(stack: seq<T>, x: T, chain: seq<T>)
    requires NoDup(stack) && NoDup([x] + chain) && x in stack
    ensures Without(Raised(stack, chain), x) + [x] == Raised(stack, [x] + chain)
  {
    var xs := ToSet(chain);
    TailNoDup(x, chain);
    RaisedNoDup(stack, chain);
    WithoutIsMinus(Raised(stack, chain), x);
    MinusAppend(Minus(stack, xs), Reverse(chain), {x});
    MinusTwice(stack, xs, {x});
    HeadFresh(x, chain);
    MinusNothing(Reverse(chain), {x});
    assert ToSet([x] + chain) == xs + {x};
    assert ([x] + chain)[1..] == chain;
  }

  lemma HeadFresh<T>(x: T, chain: seq<T>)
    requires NoDup([x] + chain)
    ensures x !in chain && forall y | y in Reverse(chain) :: y != x
  {
    forall i | 0 <= i < |chain| ensures chain[i] != x {
      assert ([x] + chain)[0] == x && ([x] + chain)[i + 1] == chain[i];
    }
  }

  lemma TailNoDup<T>(x: T, chain: seq<T>)
    requires NoDup([x] + chain)
    ensures NoDup(chain)
  {
    assert ([x] + chain)[1..] == chain;
  }

  lemma RaisedNoDup<T>(stack: seq<T>, chain: seq<T>)
    requires NoDup(stack) && NoDup(chain)
    ensures NoDup(Raised(stack, chain)) && NoDup(Lowered(stack, chain))
  {
    var rest := Minus(stack, ToSet(chain));
    MinusKeepsNoDup(stack, ToSet(chain));
    forall i | 0 <= i < |rest| ensures rest[i] !in chain {
      MinusMember(stack, ToSet(chain), rest[i]);
    }
  }

  lemma RaisedMembers<T>(stack: seq<T>, chain: seq<T>)
    requires ToSet(chain) <= ToSet(stack)
    ensures ToSet(Raised(stack, chain)) == ToSet(stack) == ToSet(Lowered(stack, chain))
  {
    MinusSet(stack, ToSet(chain));
    ReverseSet(chain);
    SetOfAppend(Minus(stack, ToSet(chain)), Reverse(chain));
    SetOfAppend(Reverse(chain), Minus(stack, ToSet(chain)));
  }

  lemma SetOfAppend<T>(a: seq<T>, b: seq<T>)
    ensures ToSet(a + b) == ToSet(a) + ToSet(b)
  {
  }

  lemma LowerOneMore<T>(stack: seq<T>, chain: seq<T>, x: T)
    requires NoDup(stack) && NoDup(chain + [x]) && x in stack
    ensures [x] + Without(Lowered(stack, chain), x) == Lowered(stack, chain + [x])
  {
    var xs := ToSet(chain);
    LastFresh(chain, x);
    RaisedNoDup(stack, chain);
    WithoutIsMinus(Lowered(stack, chain), x);
    MinusAppend(Reverse(chain), Minus(stack, xs), {x});
    MinusNothing(Reverse(chain), {x});
    assert Without(Lowered(stack, chain), x) == Reverse(chain) + Minus(stack, xs + {x}) by {
      MinusTwice(stack, xs, {x});
    }
    ReverseSnoc(chain, x);
    assert ToSet(chain + [x]) == xs + {x};
    ConsAppend(x, Reverse(chain), Minus(stack, xs + {x}));
  }

  lemma ConsAppend<T>(x: T, a: seq<T>, b: seq<T>)
    ensures [x] + (a + b) == ([x] + a) + b
  {
  }

  lemma LastFresh<T>(chain: seq<T>, x: T)
    requires NoDup(chain + [x])
    ensures NoDup(chain) && x !in chain && forall y | y in Reverse(chain) :: y != x
  {
    assert chain == (chain + [x])[..|chain|];
    forall i | 0 <= i < |chain| ensures chain[i] != x {
      assert (chain + [x])[i] == chain[i] && (chain + [x])[|chain|] == x;
    }
  }

  /** A chain of distinct windows of a stack of distinct windows. */
  ghost predicate Fits(stack: seq<nat>, chain: seq<nat>) {
    NoDup(stack) && NoDup(chain) && 0 !in chain && forall x | x in chain :: x in stack
  }

  lemma RaiseNothing<T>(stack: seq<T>)
    ensures Raised(stack, []) == stack && Lowered(stack, []) == stack
  {
    MinusNothing(stack, {});
    assert ToSet<T>([]) == {};
  }

  /** The chain is raised one client at a time, from the root. */
  lemma RaiseNext(stack: seq<nat>, chain: seq<nat>, k: nat)
    requires Fits(stack, chain) && k < |chain|
    ensures Without(Raised(stack, chain[k + 1..]), chain[k]) + [chain[k]] == Raised(stack, chain[k..])
  {
    assert [chain[k]] + chain[k + 1..] == chain[k..];
    RaiseOneMore(stack, chain[k], chain[k + 1..]);
  }

  /** The chain is lowered one client at a time, from the other end. */
  lemma LowerNext(stack: seq<nat>, chain: seq<nat>, k: nat)
    requires Fits(stack, chain) && k < |chain|
    ensures [chain[k]] + Without(Lowered(stack, chain[..k]), chain[k]) == Lowered(stack, chain[..k + 1])
  {
    TakeNext(chain, k);
    LowerOneMore(stack, chain[..k], chain[k]);
  }

  /** After a raise the chain is on top of the stack. */
  lemma RaisedIsOnTop<T>(g: map<T, T>, stack: seq<T>, c: T)
    ensures ChainOnTop(g, Raised(stack, Chain(g, c)), c)
  {
  }
}
