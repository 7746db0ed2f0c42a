/**
 The order of the client list across a restart: it is saved as a list of windows and restored by
 swapping the clients of those windows to the front of the list, in place.
 */
module ClientOrder {
  import opened Sequences
  import opened XServer

  /** The saved windows that still have a client, in saved order. */
  ghost function Present(saved: seq<Window>, tab: seq<Window>): seq<Window> {
    if saved == [] then []
    else if Sequences.Last(saved) in tab then Present(saved[..|saved| - 1], tab) + [Sequences.Last(saved)]
    else Present(saved[..|saved| - 1], tab)
  }

  /** No client is named twice. */
  ghost predicate NamedOnce(saved: seq<Window>, tab: seq<Window>) {
    forall i, j | 0 <= i < j < |saved| && saved[i] == saved[j] :: saved[i] !in tab
  }

  method Swap(tab: array<Window>, i: nat, j: nat)
    requires i < tab.Length && j < tab.Length
    modifies tab
    ensures tab[i] == old(tab[j]) && tab[j] == old(tab[i])
    ensures forall k | 0 <= k < tab.Length && k != i && k != j :: tab[k] == old(tab[k])
    ensures multiset(tab[..]) == multiset(old(tab[..]))
  {
    tab[i], tab[j] := tab[j], tab[i];
  }

  ghost predicate Distinct(tab: array<Window>)
    reads tab
  {
    forall i, j | 0 <= i < j < tab.Length :: tab[i] != tab[j]
  }

  /** Looks for window w and moves its client to place idx.  The search goes on after a hit.  It steps out
      of the list, which ok == false stands for, exactly when the client has been placed before. */
  method PlaceWindow(tab: array<Window>, w: Window, idx: nat) returns (next: nat, ok: bool)
    requires Distinct(tab) && idx <= tab.Length
    modifies tab
    ensures Distinct(tab) && multiset(tab[..]) == multiset(old(tab[..]))
    ensures ok <==> forall k | 0 <= k < idx :: old(tab[k]) != w
    ensures ok ==> forall k | 0 <= k < idx :: tab[k] == old(tab[k])
    ensures ok ==> next == if w in old(tab[..]) then idx + 1 else idx
    ensures ok && w in old(tab[..]) ==> idx < tab.Length && tab[idx] == w
  {
    ghost var p := if w in tab[..] then Place(tab, w) else tab.Length;
    next, ok := idx, true;
    var k := 0;
    while k < tab.Length
      invariant 0 <= k <= tab.Length && idx <= next <= tab.Length
      invariant Distinct(tab) && multiset(tab[..]) == multiset(old(tab[..]))
      invariant k <= p ==> next == idx && forall m | 0 <= m < tab.Length :: tab[m] == old(tab[m])
      invariant p < k && idx <= p ==>
        next == idx + 1 && tab[idx] == w && forall m | 0 <= m < idx :: tab[m] == old(tab[m])
      invariant p < k && p < idx ==> idx < next && k < next && tab[next - 1] == w
    {
      if tab[k] == w {
        if next >= tab.Length {
          ok := false;
          return;
        }
        Swap(tab, k, next);
        next := next + 1;
      }
      k := k + 1;
    }
  }

  ghost function Place(tab: array<Window>, w: Window): (p: nat)
    requires w in tab[..]
    reads tab
    ensures p < tab.Length && tab[p] == w
  {
    var p :| 0 <= p < tab.Length && tab[p] == w;
    p
  }

  /** Restores a saved order.  The clients that were saved come first, in saved order, and the list still
      holds the same clients.  The indices stay inside the list exactly when no client is saved twice. */
  method RestoreClientOrder(tab: array<Window>, saved: seq<Window>) returns (ok: bool)
    requires Distinct(tab)
    modifies tab
    ensures Distinct(tab) && multiset(tab[..]) == multiset(old(tab[..]))
    ensures ok <==> NamedOnce(saved, old(tab[..]))
    ensures ok ==> Present(saved, old(tab[..])) <= tab[..]
  {
    ghost var before := tab[..];
    var clientIdx := 0;
    ok := true;
    var i := 0;
    while i < |saved|
      invariant 0 <= i <= |saved| && 0 <= clientIdx <= tab.Length
      invariant Distinct(tab) && multiset(tab[..]) == multiset(before)
      invariant tab[..clientIdx] == Present(saved[..i], before)
      invariant NamedOnce(saved[..i], before)
    {
      ghost var front := tab[..clientIdx];
      SameMembers(tab[..], before, saved[i]);
      PresentMembers(saved[..i], before, saved[i]);
      TakeNext(saved, i);
      NamedOnceNext(saved, i, before);
      clientIdx, ok := PlaceWindow(tab, saved[i], clientIdx);
      if !ok {
        NamedTwiceStays(saved, i + 1, before);
        return;
      }
      PresentNext(saved, i, before);
      assert tab[..|front|] == front;
      i := i + 1;
    }
    assert saved[..i] == saved;
  }

  lemma SameMembers(a: seq<Window>, b: seq<Window>, w: Window)
    requires multiset(a) == multiset(b)
    ensures w in a <==> w in b
  {
    assert w in a <==> w in multiset(a);
    assert w in b <==> w in multiset(b);
  }

  lemma {:induction false} PresentMembers(saved: seq<Window>, tab: seq<Window>, w: Window)
    ensures w in Present(saved, tab) <==> w in saved && w in tab
  {
    if saved != [] {
      assert saved == saved[..|saved| - 1] + [Sequences.Last(saved)];
      PresentMembers(saved[..|saved| - 1], tab, w);
    }
  }

  lemma PresentNext(saved: seq<Window>, i: nat, tab: seq<Window>)
    requires i < |saved|
    ensures Present(saved[..i + 1], tab) == Present(saved[..i], tab) + if saved[i] in tab then [saved[i]] else []
  {
    assert saved[..i + 1][..i] == saved[..i];
  }

  lemma NamedOnceNext(saved: seq<Window>, i: nat, tab: seq<Window>)
    requires i < |saved| && NamedOnce(saved[..i], tab)
    ensures NamedOnce(saved[..i + 1], tab) <==> saved[i] !in saved[..i] || saved[i] !in tab
  {
    var s := saved[..i + 1];
    if saved[i] in saved[..i] {
      var k :| 0 <= k < i && saved[..i][k] == saved[i];
      assert s[k] == s[i];
    } else {
      forall k, j | 0 <= k < j < |s| && s[k] == s[j] ensures s[k] !in tab {
        assert k < i && saved[..i][k] == s[k];
      }
    }
  }

  lemma NamedTwiceStays(saved: seq<Window>, n: nat, tab: seq<Window>)
    requires n <= |saved| && !NamedOnce(saved[..n], tab)
    ensures !NamedOnce(saved, tab)
  {
    var i, j :| 0 <= i < j < n && saved[..n][i] == saved[..n][j] && saved[..n][i] in tab;
    assert saved[i] == saved[j];
  }

  // ----- saving and restoring

  /** When the saved windows are those of the clients, all of them are present. */
  lemma {:induction false} AllPresent(saved: seq<Window>, tab: seq<Window>)
    requires forall w | w in saved :: w in tab
    ensures Present(saved, tab) == saved
  {
    if saved != [] {
      var f := saved[..|saved| - 1];
      assert saved == f + [Sequences.Last(saved)];
      AllPresent(f, tab);
    }
  }

  /** The windows of the clients, in list order: what is saved at exit. */
  method SaveClientOrder(tab: array<Window>) returns (saved: seq<Window>)
    ensures saved == tab[..]
  {
    saved := [];
    var n := 0;
    while n < tab.Length
      invariant 0 <= n <= tab.Length && saved == tab[..n]
    {
      saved := saved + [tab[n]];
      n := n + 1;
    }
  }

  /** An order that was saved comes back from any other order of the same clients. */
  method SaveAndRestore(tab: array<Window>, shuffled: array<Window>) returns (ok: bool)
    requires Distinct(tab) && Distinct(shuffled) && tab != shuffled
    requires multiset(tab[..]) == multiset(shuffled[..])
    modifies shuffled
    ensures ok && shuffled[..] == tab[..]
  {
    var saved := SaveClientOrder(tab);
    forall w | w in saved ensures w in shuffled[..] {
      SameMembers(saved, shuffled[..], w);
    }
    AllPresent(saved, shuffled[..]);
    assert |saved| == |multiset(saved)| == |multiset(shuffled[..])| == |shuffled[..]|;
    ok := RestoreClientOrder(shuffled, saved);
  }

  /** A saved list that names a managed window twice leads out of the client list. */
  method RestoreNamedTwice(tab: array<Window>, w: Window) returns (ok: bool)
    requires Distinct(tab) && w in tab[..]
    modifies tab
    ensures !ok
  {
    ghost var before, saved := tab[..], [w, w];
    assert saved[0] == saved[1] && saved[0] in before;
    assert !NamedOnce(saved, before);
    ok := RestoreClientOrder(tab, [w, w]);
  }
}
