/**
 The transient_for links of a set of managed clients together with the windows that justify them:
 win gives the window of a client, hint the window its WM_TRANSIENT_FOR property names.
 */
module ClientLinks {
  import opened Sequences
  import opened TransientGraph
  import opened XServer

  /** No value is taken twice, by counting. */
  ghost predicate OneToOne<T>(m: map<T, Window>) {
    |m.Values| == |m|
  }

  lemma {:induction false} ValuesAtMost<T>(m: map<T, Window>)
    ensures |m.Values| <= |m|
    decreases |m|
  {
    if m != map[] {
      var c :| c in m;
      assert (m - {c}).Keys == m.Keys - {c};
      ValuesAtMost(m - {c});
      ValuesWithout(m, c);
    }
  }

  lemma ValuesWithout<T>(m: map<T, Window>, c: T)
    requires c in m
    ensures m.Values == (m - {c}).Values + {m[c]}
  {
    forall w | w in m.Values ensures w in (m - {c}).Values + {m[c]} {
      var x :| x in m && m[x] == w;
      assert x != c ==> (m - {c})[x] == w;
    }
    forall w | w in (m - {c}).Values ensures w in m.Values {
      var x :| x in m - {c} && (m - {c})[x] == w;
      assert m[x] == w;
    }
  }

  /** Counting does say that no value is taken twice. */
  lemma OneToOneIsInjective<T>(m: map<T, Window>)
    ensures OneToOne(m) <==> forall c, d {:trigger m[c], m[d]} | c in m && d in m && m[c] == m[d] :: c == d
  {
    if OneToOne(m) {
      forall c, d | c in m && d in m && m[c] == m[d] ensures c == d {
        SameValue(m, c, d);
      }
    } else {
      Collision(m);
    }
  }

  lemma SameValue<T>(m: map<T, Window>, c: T, d: T)
    requires OneToOne(m) && c in m && d in m && m[c] == m[d]
    ensures c == d
  {
    if c != d {
      TooFewValues(m, c, d);
    }
  }

  lemma TooFewValues<T>(m: map<T, Window>, c: T, d: T)
    requires c in m && d in m && m[c] == m[d] && c != d
    ensures !OneToOne(m)
  {
    assert m.Values == (m - {c}).Values by {
      forall w | w in m.Values ensures w in (m - {c}).Values {
        var x :| x in m && m[x] == w;
        assert (m - {c})[if x == c then d else x] == w;
      }
    }
    assert (m - {c}).Keys == m.Keys - {c};
    ValuesAtMost(m - {c});
  }

  lemma {:induction false} Collision<T>(m: map<T, Window>)
    requires !OneToOne(m)
    ensures exists c, d :: c in m && d in m && c != d && m[c] == m[d]
    decreases |m|
  {
    if m != map[] {
      var c :| c in m;
      var n := m - {c};
      assert n.Keys == m.Keys - {c};
      if !OneToOne(n) {
        Collision(n);
        var x, y :| x in n && y in n && x != y && n[x] == n[y];
        assert m[x] == m[y];
      } else {
        ValuesWithout(m, c);
        assert m[c] in n.Values;
        var d :| d in n && n[d] == m[c];
        assert m[d] == m[c];
      }
    }
  }

  /** Windows are distinct, links stay among the managed clients and follow the hints (the exempt
      clients aside), and no client is its own ancestor. */
  ghost predicate WellLinked<T>(cs: set<T>, g: map<T, T>, win: map<T, Window>, hint: map<T, Window>, exempt: set<T>) {
    && win.Keys == cs && hint.Keys == cs
    && (forall c {:trigger win[c]} | c in cs :: win[c] != NONE)
    && OneToOne(win)
    && (forall c {:trigger g[c]} | c in g :: c in cs && g[c] in cs && (c !in exempt ==> win[g[c]] == hint[c]))
    && Acyclic(g)
  }

  /** p owns the window that c names, and c is neither p nor an ancestor of p. */
  ghost predicate MayLink<T>(cs: set<T>, g: map<T, T>, win: map<T, Window>, hint: map<T, Window>, c: T, p: T) {
    p in cs && p in win && c in hint && win[p] == hint[c] && c !in Chain(g, p)
  }

  /** The links with p, or nobody when p is NONE, as the parent of c. */
  ghost function WithParent(g: map<Window, Window>, c: Window, p: Window): map<Window, Window> {
    if p == NONE then g - {c} else g[c := p]
  }

  /** The links once c has been looked at: c is linked to the client it may link to, if there is one. */
  ghost function Relinked(cs: set<Window>, g: map<Window, Window>, win: map<Window, Window>, hint: map<Window, Window>,
      c: Window)
    : map<Window, Window>
  {
    if exists p :: MayLink(cs, g, win, hint, c, p) then
      var p :| MayLink(cs, g, win, hint, c, p);
      g[c := p]
    else g - {c}
  }

  /** The only candidate is the owner of the window that c names. */
  lemma RelinkedIs(cs: set<Window>, g: map<Window, Window>, win: map<Window, Window>, hint: map<Window, Window>,
      c: Window, own: Window)
    requires WellLinked(cs, g, win, hint, {c}) && c in cs && NONE !in cs
    requires if own == NONE then forall p | p in cs :: win[p] != hint[c] else own in cs && win[own] == hint[c]
    ensures Relinked(cs, g, win, hint, c)
         == WithParent(g, c, if own != NONE && c !in Chain(g, own) then own else NONE)
  {
    if p :| MayLink(cs, g, win, hint, c, p) {
      SameValue(win, p, own);
    }
    if own != NONE && c !in Chain(g, own) {
      assert MayLink(cs, g, win, hint, c, own);
      forall p | MayLink(cs, g, win, hint, c, p) ensures p == own {
        SameValue(win, p, own);
      }
    }
  }

  /** The links once c has been looked at: its only possible parent is the client it may link to. */
  lemma RelinkKeeps<T>(cs: set<T>, g: map<T, T>, win: map<T, Window>, hint: map<T, Window>, c: T, p: T)
    requires WellLinked(cs, g, win, hint, {c}) && c in cs && MayLink(cs, g, win, hint, c, p)
    ensures WellLinked(cs, g[c := p], win, hint, {})
    ensures forall q | q in cs && MayLink(cs, g, win, hint, c, q) :: q == p
  {
    LinkAcyclic(g, c, p);
    OneToOneIsInjective(win);
  }

  lemma UnlinkKeeps<T>(cs: set<T>, g: map<T, T>, win: map<T, Window>, hint: map<T, Window>, c: T)
    requires WellLinked(cs, g, win, hint, {c})
    ensures WellLinked(cs, g - {c}, win, hint, {})
  {
    UnlinkAcyclic(g, g - {c});
  }

  /** The parent that c gets is just the client it may link to; nobody else gets another. */
  lemma RelinkedParents(cs: set<Window>, g: map<Window, Window>, win: map<Window, Window>, hint: map<Window, Window>,
      c: Window)
    requires WellLinked(cs, g, win, hint, {c}) && c in cs
    ensures var r := Relinked(cs, g, win, hint, c);
      && r - {c} == g - {c} && forall p :: c in r && r[c] == p <==> MayLink(cs, g, win, hint, c, p)
  {
    forall p | MayLink(cs, g, win, hint, c, p) {
      RelinkKeeps(cs, g, win, hint, c, p);
    }
    hide WellLinked, MayLink;
  }

  /** Looking at c again keeps the links well formed, whatever c was linked to. */
  lemma RelinkedKeeps(cs: set<Window>, g: map<Window, Window>, win: map<Window, Window>, hint: map<Window, Window>,
      c: Window)
    requires WellLinked(cs, g, win, hint, {c}) && c in cs
    ensures WellLinked(cs, Relinked(cs, g, win, hint, c), win, hint, {})
  {
    if p :| MayLink(cs, g, win, hint, c, p) {
      forall q | MayLink(cs, g, win, hint, c, q) {
        RelinkKeeps(cs, g, win, hint, c, q);
      }
    } else {
      UnlinkKeeps(cs, g, win, hint, c);
    }
  }

  /** A chain of managed clients stays among them; one that avoids a managed client is shorter than
      the list of all. */
  lemma ChainManaged<T>(cs: set<T>, g: map<T, T>, win: map<T, Window>, hint: map<T, Window>, exempt: set<T>, c: T)
    requires WellLinked(cs, g, win, hint, exempt) && c in cs
    ensures NoDup(Chain(g, c)) && ToSet(Chain(g, c)) <= cs
    ensures forall x | x in cs && x !in Chain(g, c) :: |Chain(g, c)| < |cs|
  {
    ChainNoDup(g, c);
    ChainWithin(g, c, cs);
    forall x | x in cs && x !in Chain(g, c) ensures |Chain(g, c)| < |cs| {
      NoDupFits(Chain(g, c), cs - {x});
    }
  }

  /** The clients among the first n of xs that wait for window w and are not in the chain. */
  ghost function Waiting<T>(xs: seq<T>, n: nat, hint: map<T, Window>, w: Window, chain: seq<T>): set<T>
    requires n <= |xs|
  {
    set x | x in xs[..n] && x in hint && hint[x] == w && x !in chain
  }

  /** Nobody is linked to c. */
  ghost predicate Unparented<T>(g: map<T, T>, c: T) {
    forall x {:trigger g[x]} | x in g :: g[x] != c
  }

  /** No client is linked to one that has just arrived, whatever it waits for. */
  lemma WaitingIsUnlinked<T>(cs: set<T>, g: map<T, T>, win: map<T, Window>, hint: map<T, Window>, c: T, x: T)
    requires WellLinked(cs, g, win, hint, {}) && c in cs && x in cs && hint[x] == win[c]
    requires Unparented(g, c)
    ensures x !in g
  {
    if x in g {
      assert win[g[x]] == win[c];
      SameValue(win, g[x], c);
    }
  }

  /** One more client considered: either it waits and is linked, or the links stay as they are. */
  lemma AdoptNext<T>(g: map<T, T>, c: T, xs: seq<T>, n: nat, hint: map<T, Window>, w: Window, chain: seq<T>)
    requires n < |xs| && xs[n] in hint && (hint[xs[n]] == w ==> xs[n] !in g)
    ensures var x := xs[n];
      var (now, next) :=
        (Adopt(g, c, Waiting(xs, n, hint, w, chain)), Adopt(g, c, Waiting(xs, n + 1, hint, w, chain)));
      next == if hint[x] != w then now else if x in chain then now - {x} else now[x := c]
  {
    TakeNext(xs, n);
    var x, before := xs[n], Waiting(xs, n, hint, w, chain);
    assert Waiting(xs, n + 1, hint, w, chain) == if hint[x] == w && x !in chain then before + {x} else before;
  }

  /** One round of the loop that links the clients waiting for the window of c. */
  lemma AdoptRound(cs: set<Window>, g: map<Window, Window>, now: map<Window, Window>, win: map<Window, Window>,
                   hint: map<Window, Window>, c: Window, xs: seq<Window>, n: nat)
    requires WellLinked(cs, g, win, hint, {}) && Unparented(g, c) && c in cs && NONE !in cs
    requires n < |xs| && xs[n] in cs
    requires now == Adopt(g, c, Waiting(xs, n, hint, win[c], Chain(g, c))) && WellLinked(cs, now, win, hint, {})
    ensures Adopt(g, c, Waiting(xs, n + 1, hint, win[c], Chain(g, c)))
         == if hint[xs[n]] == win[c] then Relinked(cs, now, win, hint, xs[n]) else now
  {
    if hint[xs[n]] == win[c] {
      WaitingIsUnlinked(cs, g, win, hint, c, xs[n]);
    }
    AdoptNext(g, c, xs, n, hint, win[c], Chain(g, c));
    if hint[xs[n]] == win[c] {
      AdoptKeepsChain(g, c, Waiting(xs, n, hint, win[c], Chain(g, c)));
      RelinkedIs(cs, now, win, hint, xs[n], c);
    }
  }

  /** Linking the waiting clients keeps the links well formed. */
  lemma {:induction false} AdoptKeepsLinks(cs: set<Window>, g: map<Window, Window>, win: map<Window, Window>,
                                           hint: map<Window, Window>, c: Window, xs: seq<Window>, n: nat)
    requires WellLinked(cs, g, win, hint, {}) && Unparented(g, c) && c in cs && NONE !in cs
    requires n <= |xs| && ToSet(xs) <= cs
    ensures WellLinked(cs, Adopt(g, c, Waiting(xs, n, hint, win[c], Chain(g, c))), win, hint, {})
    decreases n
  {
    assert c in win;
    hide *;
    if n == 0 {
      AdoptNobody(g, c, xs, hint, win[c], Chain(g, c));
    } else {
      AdoptKeepsLinks(cs, g, win, hint, c, xs, n - 1);
      var now := Adopt(g, c, Waiting(xs, n - 1, hint, win[c], Chain(g, c)));
      Listed(xs, n - 1);
      AdoptRound(cs, g, now, win, hint, c, xs, n - 1);
      ExemptKeeps(cs, now, win, hint, xs[n - 1]);
      RelinkedKeeps(cs, now, win, hint, xs[n - 1]);
    }
  }

  lemma AdoptNobody<T>(g: map<T, T>, c: T, xs: seq<T>, hint: map<T, Window>, w: Window, chain: seq<T>)
    ensures Adopt(g, c, Waiting(xs, 0, hint, w, chain)) == g
  {
  }

  lemma Listed<T>(xs: seq<T>, i: nat)
    requires i < |xs|
    ensures xs[i] in ToSet(xs)
  {
  }

  lemma ExemptKeeps<T>(cs: set<T>, g: map<T, T>, win: map<T, Window>, hint: map<T, Window>, c: T)
    requires WellLinked(cs, g, win, hint, {})
    ensures WellLinked(cs, g, win, hint, {c})
  {
  }

  /** The links without those that lead to c or leave it. */
  ghost function Forget<T>(g: map<T, T>, c: T): map<T, T> {
    map x | x in g && x != c && g[x] != c :: g[x]
  }

  lemma ForgetKeeps<T>(cs: set<T>, g: map<T, T>, win: map<T, Window>, hint: map<T, Window>, c: T)
    requires WellLinked(cs, g, win, hint, {}) && c in cs
    ensures WellLinked(cs - {c}, Forget(g, c), win - {c}, hint - {c}, {})
  {
    UnlinkAcyclic(g, Forget(g, c));
    OneToOneIsInjective(win);
    OneToOneIsInjective(win - {c});
  }

  /** A client with a window of its own joins without links. */
  lemma AddKeeps<T>(cs: set<T>, g: map<T, T>, win: map<T, Window>, hint: map<T, Window>, c: T, w: Window, h: Window)
    requires WellLinked(cs, g, win, hint, {}) && c !in cs && w != NONE && w !in win.Values
    ensures WellLinked(cs + {c}, g, win[c := w], hint[c := h], {}) && Unparented(g, c) && c !in g
  {
    AddValue(win, c, w);
  }

  lemma AddValue<T>(m: map<T, Window>, c: T, w: Window)
    requires OneToOne(m) && c !in m && w !in m.Values
    ensures OneToOne(m[c := w]) && m[c := w].Keys == m.Keys + {c}
  {
    ValuesWith(m, c, w);
    OneMore(m.Values, w);
    OneMore(m.Keys, c);
    SizeOfKeys(m);
    SizeOfKeys(m[c := w]);
  }

  lemma ValuesWith<T>(m: map<T, Window>, c: T, w: Window)
    requires c !in m
    ensures m[c := w].Keys == m.Keys + {c} && m[c := w].Values == m.Values + {w}
  {
    assert m[c := w] - {c} == m;
    ValuesWithout(m[c := w], c);
  }

  lemma SizeOfKeys<T>(m: map<T, Window>)
    ensures |m| == |m.Keys|
  {
  }

  lemma OneMore<T>(xs: set<T>, x: T)
    requires x !in xs
    ensures |xs + {x}| == |xs| + 1
  {
  }

  /** For a newcomer no loop is possible: any managed client whose window it names will do. */
  lemma NewcomerMayLink<T>(cs: set<T>, g: map<T, T>, win: map<T, Window>, hint: map<T, Window>, c: T, p: T)
    requires WellLinked(cs, g, win, hint, {c}) && c in cs && c !in g && Unparented(g, c) && p in cs
    ensures MayLink(cs, g, win, hint, c, p) <==> p != c && win[p] == hint[c]
  {
    if p != c && c in Chain(g, p) {
      var k :| 0 <= k < |Chain(g, p)| && Chain(g, p)[k] == c;
      ChainSuffix(g, p, k - 1);
    }
  }

  /** What a newcomer is linked to: the client, itself excepted, whose window it names. */
  lemma NewcomerLinks(cs: set<Window>, g: map<Window, Window>, win: map<Window, Window>, hint: map<Window, Window>,
      c: Window)
    requires WellLinked(cs, g, win, hint, {c}) && c in cs && c !in g && Unparented(g, c) && NONE !in cs
    ensures Unparented(Relinked(cs, g, win, hint, c), c)
    ensures forall p | p in cs :: (c in Relinked(cs, g, win, hint, c) && Relinked(cs, g, win, hint, c)[c] == p)
                             <==> p != c && win[p] == hint[c]
    ensures Relinked(cs, g, win, hint, c) - {c} == g
  {
    forall p | p in cs ensures MayLink(cs, g, win, hint, c, p) <==> p != c && win[p] == hint[c] {
      NewcomerMayLink(cs, g, win, hint, c, p);
    }
    var own := if p :| p in cs && win[p] == hint[c] then p else NONE;
    forall p | p in cs && win[p] == hint[c] ensures p == own {
      SameValue(win, p, own);
    }
    RelinkedIs(cs, g, win, hint, c, own);
  }

  /** The links without those of the first n clients of xs that lead to c. */
  ghost function Cut<T>(g: map<T, T>, c: T, xs: seq<T>, n: nat): map<T, T>
    requires n <= |xs|
  {
    map x | x in g && !(x in xs[..n] && g[x] == c) :: g[x]
  }

  lemma CutNext<T>(g: map<T, T>, c: T, xs: seq<T>, n: nat)
    requires n < |xs|
    ensures Cut(g, c, xs, n + 1) == if xs[n] in g && g[xs[n]] == c then Cut(g, c, xs, n) - {xs[n]} else Cut(g, c, xs, n)
    ensures xs[n] in g && g[xs[n]] != c ==> xs[n] in Cut(g, c, xs, n)
    ensures xs[n] in Cut(g, c, xs, n) ==> Cut(g, c, xs, n)[xs[n]] == g[xs[n]]
  {
    TakeNext(xs, n);
  }

  lemma CutAll<T>(cs: set<T>, g: map<T, T>, win: map<T, Window>, hint: map<T, Window>, c: T, xs: seq<T>)
    requires WellLinked(cs, g, win, hint, {}) && ToSet(xs) == cs
    ensures Cut(g, c, xs, |xs|) - {c} == Forget(g, c)
  {
    assert xs[..|xs|] == xs;
  }
}
