/**
 The transient_for relation as a finite partial map from a client to its parent.
 Everything here is stated for an arbitrary type of clients.
 */
module TransientGraph {
  import opened Sequences

  /** A client followed by its successive transient_for ancestors.  Each visited edge is removed,
      so that the walk ends on a cyclic graph too. */
  function Chain<T(==)>(g: map<T, T>, c: T): (r: seq<T>)
    ensures r != [] && r[0] == c
    ensures |r| <= |g| + 1
    decreases |g|
  {
    if c in g then
      assert (g - {c}).Keys == g.Keys - {c};
      [c] + Chain(g - {c}, g[c])
    else [c]
  }

  /** No walk comes back to a client it has already left: every chain ends at a client without a parent. */
  ghost predicate Acyclic<T>(g: map<T, T>) {
    forall c {:trigger Chain(g, c)} | c in g :: Last(Chain(g, c)) !in g
  }

  /** A chain depends only on the edges that leave its members. */
  lemma {:induction false} ChainFrame<T>(g: map<T, T>, h: map<T, T>, c: T)
    requires forall x | x in Chain(g, c) :: (x in g <==> x in h) && (x in g ==> g[x] == h[x])
    ensures Chain(h, c) == Chain(g, c)
    decreases |g|
  {
    assert c in Chain(g, c);
    if c in g {
      assert (g - {c}).Keys == g.Keys - {c};
      var rest := Chain(g - {c}, g[c]);
      assert Chain(g, c) == [c] + rest;
      assert forall x | x in rest :: x in Chain(g, c);
      ChainFrame(g - {c}, h - {c}, g[c]);
    }
  }

  /** On an acyclic graph the chain is the plain walk to the root. */
  lemma {:induction false} ChainStep<T>(g: map<T, T>, c: T)
    requires Acyclic(g) && c in g
    ensures Chain(g, c) == [c] + Chain(g, g[c])
    ensures c !in Chain(g, g[c])
  {
    var rest := Chain(g - {c}, g[c]);
    assert Chain(g, c) == [c] + rest;
    if c in rest {
      StopsOutside(g - {c}, g[c], c);
      assert false;
    }
    ChainFrame(g - {c}, g, g[c]);
  }

  lemma {:induction false} ChainCons<T>(g: map<T, T>, c: T)
    requires c in g && c !in Chain(g, g[c])
    ensures Chain(g, c) == [c] + Chain(g, g[c])
  {
    ChainFrame(g, g - {c}, g[c]);
  }

  /** A client without a parent can only be the last member of a chain. */
  lemma {:induction false} StopsOutside<T>(g: map<T, T>, c: T, x: T)
    requires x in Chain(g, c) && x !in g
    ensures Last(Chain(g, c)) == x
    decreases |g|
  {
    if c in g {
      assert (g - {c}).Keys == g.Keys - {c};
      assert Chain(g, c) == [c] + Chain(g - {c}, g[c]);
      StopsOutside(g - {c}, g[c], x);
    }
  }

  lemma {:induction false} ChainEndsAtRoot<T>(g: map<T, T>, c: T)
    requires Acyclic(g)
    ensures Last(Chain(g, c)) !in g
  {
  }

  /** Each member of a chain is followed by its own chain. */
  lemma {:induction false} ChainSuffix<T>(g: map<T, T>, c: T, k: nat)
    requires Acyclic(g) && k < |Chain(g, c)|
    ensures Chain(g, c)[k..] == Chain(g, Chain(g, c)[k])
    ensures k + 1 < |Chain(g, c)| <==> Chain(g, c)[k] in g
    ensures k + 1 < |Chain(g, c)| ==> g[Chain(g, c)[k]] == Chain(g, c)[k + 1]
    decreases k
  {
    if c in g {
      ChainStep(g, c);
      var rest := Chain(g, g[c]);
      if k > 0 {
        ChainSuffix(g, g[c], k - 1);
        assert Chain(g, c)[k..] == rest[k - 1..];
      }
    }
  }

  /** No client occurs twice in a chain. */
  lemma {:induction false} ChainNoDup<T>(g: map<T, T>, c: T)
    requires Acyclic(g)
    ensures NoDup(Chain(g, c))
    decreases |Chain(g, c)|
  {
    if c in g {
      ChainStep(g, c);
      ChainNoDup(g, g[c]);
    }
  }

  /** A chain stays among the clients the graph mentions. */
  lemma {:induction false} ChainWithin<T>(g: map<T, T>, c: T, s: set<T>)
    requires c in s
    requires forall x | x in g :: g[x] in s
    ensures forall x | x in Chain(g, c) :: x in s
    decreases |g|
  {
    if c in g {
      assert (g - {c}).Keys == g.Keys - {c};
      ChainWithin(g - {c}, g[c], s);
    }
  }

  /** A client with c among its ancestors is not an ancestor of a client without. */
  lemma NotAbove<T>(g: map<T, T>, c: T, p: T, x: T)
    requires Acyclic(g) && c !in Chain(g, p) && c in Chain(g, x)
    ensures x !in Chain(g, p)
  {
    if x in Chain(g, p) {
      AncestorsOfMember(g, p, x);
    }
  }

  /** The chain after c got the new parent p, for a client x below or at c. */
  lemma {:induction false} ChainAfterLink<T>(g: map<T, T>, c: T, p: T, x: T)
    requires Acyclic(g) && c !in Chain(g, p) && c in Chain(g, x)
    ensures Last(Chain(g[c := p], x)) == Last(Chain(g, p))
    ensures forall y | y in Chain(g[c := p], x) :: y in Chain(g, x) || y in Chain(g, p)
    decreases |Chain(g, x)|
  {
    var h := g[c := p];
    if x == c {
      ChainFrame(g, h, p);
      ChainCons(h, c);
    } else {
      ChainStep(g, x);
      ChainAfterLink(g, c, p, g[x]);
      NotAbove(g, c, p, x);
      ChainCons(h, x);
    }
  }

  /** The ancestors of a member of a chain are members of it. */
  lemma {:induction false} AncestorsOfMember<T>(g: map<T, T>, c: T, x: T)
    requires Acyclic(g) && x in Chain(g, c)
    ensures forall y | y in Chain(g, x) :: y in Chain(g, c)
  {
    var k :| 0 <= k < |Chain(g, c)| && Chain(g, c)[k] == x;
    ChainSuffix(g, c, k);
    assert forall y | y in Chain(g, x) :: y in Chain(g, c)[k..];
  }

  /** Linking c below p keeps the graph acyclic exactly when c is not among p and its ancestors. */
  lemma {:induction false} LinkAcyclic<T>(g: map<T, T>, c: T, p: T)
    requires Acyclic(g)
    ensures Acyclic(g[c := p]) <==> c !in Chain(g, p)
  {
    var h := g[c := p];
    if c !in Chain(g, p) {
      forall x | x in h ensures Last(Chain(h, x)) !in h {
        if c in Chain(g, x) {
          ChainAfterLink(g, c, p, x);
          ChainEndsAtRoot(g, p);
          assert Last(Chain(g, p)) in Chain(g, p);
        } else {
          ChainFrame(g, h, x);
          ChainEndsAtRoot(g, x);
          assert Last(Chain(g, x)) in Chain(g, x);
        }
      }
    } else if Acyclic(h) {
      // follow the chain of p to c, which comes before the changed edge
      ReachAlong(g, h, p, c);
      ChainStep(h, c);
      assert false;
    }
  }

  /** Changing only the edge that leaves c does not change the walk as far as c. */
  lemma {:induction false} ReachAlong<T>(g: map<T, T>, h: map<T, T>, x: T, c: T)
    requires Acyclic(g) && Acyclic(h) && c in Chain(g, x)
    requires g - {c} == h - {c}
    ensures c in Chain(h, x)
    decreases |Chain(g, x)|
  {
    if x != c && x in g {
      assert x in g - {c} && (g - {c})[x] == g[x] && (h - {c})[x] == h[x];
      ChainStep(g, x);
      ChainStep(h, x);
      ReachAlong(g, h, g[x], c);
    }
  }

  /** Dropping edges keeps the graph acyclic. */
  lemma {:induction false} UnlinkAcyclic<T>(g: map<T, T>, h: map<T, T>)
    requires Acyclic(g)
    requires forall x | x in h :: x in g && h[x] == g[x]
    ensures Acyclic(h)
  {
    forall x | x in h ensures Last(Chain(h, x)) !in h {
      ShorterChain(g, h, x);
    }
  }

  lemma {:induction false} ShorterChain<T>(g: map<T, T>, h: map<T, T>, x: T)
    requires Acyclic(g)
    requires forall y | y in h :: y in g && h[y] == g[y]
    ensures Last(Chain(h, x)) !in h
    ensures forall y | y in Chain(h, x) :: y in Chain(g, x)
    decreases |Chain(g, x)|
  {
    if x in h {
      ChainStep(g, x);
      ShorterChain(g, h, h[x]);
      ChainCons(h, x);
    }
  }

  /** The graph with the clients of xs linked to c. */
  ghost function Adopt<T>(g: map<T, T>, c: T, xs: set<T>): map<T, T> {
    map x | x in g.Keys + xs :: if x in xs then c else g[x]
  }

  /** Linking clients that are not ancestors of c to c does not change the chain of c. */
  lemma AdoptKeepsChain<T>(g: map<T, T>, c: T, xs: set<T>)
    requires forall x | x in xs :: x !in Chain(g, c)
    ensures Chain(Adopt(g, c, xs), c) == Chain(g, c)
  {
    ChainFrame(g, Adopt(g, c, xs), c);
  }

  /** The n-th ancestor, when there is one. */
  function NthParent<T(==)>(g: map<T, T>, c: T, n: nat): seq<T>
    decreases n
  {
    if n == 0 then [c]
    else if c in g then NthParent(g, g[c], n - 1)
    else []
  }

  /** Acyclic says what its name says: no client is its own proper ancestor, at any distance. */
  lemma {:induction false} AcyclicMeansNoLoop<T>(g: map<T, T>)
    ensures Acyclic(g) <==> forall c, n: nat | c in g && n > 0 :: NthParent(g, c, n) != [c]
  {
    if Acyclic(g) {
      forall c, n: nat | c in g && n > 0 ensures NthParent(g, c, n) != [c] {
        ChainStep(g, c);
        NthInChain(g, g[c], n - 1);
      }
    } else {
      var c :| c in g && Last(Chain(g, c)) in g;
      var n := LoopLength(g, c);
    }
  }

  /** A chain that stops at a client with a parent has run into a loop through that client. */
  lemma LoopLength<T>(g: map<T, T>, c: T) returns (n: nat)
    requires Last(Chain(g, c)) in g
    ensures n > 0 && NthParent(g, Last(Chain(g, c)), n) == [Last(Chain(g, c))]
  {
    var r := Chain(g, c);
    var k := WalkRevisits(g, g, {}, c);
    n := |r| - 1 - k;
    WalkIsNth(g, g, c, k);
    WalkIsNth(g, g, c, |r| - 1);
    NthAdds(g, c, k, n);
  }

  /** A walk that stops at a client with a parent has met that client before. */
  lemma {:induction false} WalkRevisits<T>(g: map<T, T>, h: map<T, T>, seen: set<T>, c: T) returns (k: nat)
    requires h == g - seen
    ensures var r := Chain(h, c);
      Last(r) !in g || Last(r) in seen || (k < |r| - 1 && r[k] == Last(r))
    decreases |h|
  {
    k := 0;
    if c in h {
      assert h - {c} == g - (seen + {c});
      assert (h - {c}).Keys == h.Keys - {c};
      k := WalkRevisits(g, h - {c}, seen + {c}, g[c]);
      k := if Last(Chain(h, c)) == c then 0 else k + 1;
    }
  }

  lemma {:induction false} WalkIsNth<T>(g: map<T, T>, h: map<T, T>, c: T, k: nat)
    requires forall x | x in h :: x in g && h[x] == g[x]
    requires k < |Chain(h, c)|
    ensures NthParent(g, c, k) == [Chain(h, c)[k]]
    decreases k
  {
    if k > 0 {
      WalkIsNth(g, h - {c}, h[c], k - 1);
    }
  }

  lemma {:induction false} NthAdds<T>(g: map<T, T>, c: T, m: nat, n: nat)
    requires NthParent(g, c, m) != []
    ensures NthParent(g, c, m + n) == NthParent(g, NthParent(g, c, m)[0], n)
    decreases m
  {
    if m > 0 {
      NthAdds(g, g[c], m - 1, n);
    }
  }

  lemma {:induction false} NthInChain<T>(g: map<T, T>, c: T, n: nat)
    requires Acyclic(g)
    ensures NthParent(g, c, n) != [] ==> NthParent(g, c, n)[0] in Chain(g, c)
    decreases n
  {
    if n > 0 && c in g {
      ChainStep(g, c);
      NthInChain(g, g[c], n - 1);
    }
  }
}
