/**
 The operations of the window manager on its global configuration, each proved to make of the state
 what ClientState says it makes of it.
 */
module WindowManager {
  import opened Options
  import opened Sequences
  import opened TransientGraph
  import opened Stacking
  import opened XServer
  import opened ClientLinks
  import opened ClientState
  import opened RefreshOrder
  import opened LayerOrder

  class Globalconf {
    var clients: seq<Client>
    var stack: seq<Client>
    /** The focused client, or NONE. */
    var focus: Client
    var transientFor: map<Client, Client>
    var window: map<Client, Window>
    var transientForWindow: map<Client, Window>
    var attributes: map<Client, Attributes>
    /** The visible drawins, and whether each is ontop. */
    var drawins: seq<Drawin>
    var drawinOntop: map<Drawin, bool>
    var needStackRefresh: bool
    /** The stacking requests sent to the X server so far. */
    var requests: seq<Request>

    ghost function Now(): State
      reads this
    {
      State(clients, stack, focus, transientFor, window, transientForWindow, attributes, drawins, drawinOntop)
    }

    constructor ()
      ensures Consistent(Now()) && Now() == State([], [], NONE, map[], map[], map[], map[], [], map[])
      ensures requests == [] && !needStackRefresh
    {
      clients, stack, focus, drawins, drawinOntop := [], [], NONE, [], map[];
      transientFor, window, transientForWindow, attributes := map[], map[], map[], map[];
      needStackRefresh, requests := false, [];
    }

    // ----- the client stack

    method StackClientRemove(c: Client)
      modifies this`stack, this`needStackRefresh
      ensures stack == Without(old(stack), c) && needStackRefresh
    {
      var i := 0;
      while i < |stack|
        invariant 0 <= i <= |stack| && stack == old(stack) && c !in stack[..i]
      {
        if stack[i] == c {
          WithoutSplit(stack[..i], c, stack[i + 1..]);
          assert stack == stack[..i] + [c] + stack[i + 1..];
          stack := stack[..i] + stack[i + 1..];
          break;
        }
        i := i + 1;
      }
      needStackRefresh := true;
    }

    method StackClientPush(c: Client)
      modifies this`stack, this`needStackRefresh
      ensures stack == [c] + Without(old(stack), c) && needStackRefresh
    {
      StackClientRemove(c);
      stack := [c] + stack;
      needStackRefresh := true;
    }

    method StackClientAppend(c: Client)
      modifies this`stack, this`needStackRefresh
      ensures stack == Without(old(stack), c) + [c] && needStackRefresh
    {
      StackClientRemove(c);
      stack := stack + [c];
      needStackRefresh := true;
    }

    // ----- transient_for

    method ClientGetByWin(w: Window) returns (r: Client)
      requires window.Keys == ToSet(clients) && NONE !in clients
      ensures r != NONE ==> r in clients && window[r] == w
      ensures r == NONE ==> forall c | c in clients :: window[c] != w
    {
      var i := 0;
      while i < |clients|
        invariant 0 <= i <= |clients| && forall j | 0 <= j < i :: window[clients[j]] != w
      {
        if window[clients[i]] == w {
          return clients[i];
        }
        i := i + 1;
      }
      r := NONE;
    }

    /** The loop check: walks up from tc and counts.  The count exceeds the length of the stack exactly
        when c is met, even while one client is missing from the stack. */
    method CountParents(c: Client, tc: Client) returns (counter: nat)
      requires WellLinked(ToSet(clients), transientFor, window, transientForWindow, {c})
      requires c in clients && tc in clients && NONE !in clients && Once(clients) && |clients| <= |stack| + 1
      ensures counter > |stack| <==> c in Chain(transientFor, tc)
    {
      ghost var chain := Chain(transientFor, tc);
      ChainManaged(ToSet(clients), transientFor, window, transientForWindow, {c}, tc);
      assert forall x | x in chain :: x in ToSet(chain);
      assert NONE !in chain;
      var tmp := tc;
      counter := 0;
      while tmp != NONE && counter <= |stack|
        invariant counter == |stack| + 2 ==> c in chain
        invariant counter <= |stack| + 1 ==> counter <= |chain| && forall k | 0 <= k < counter :: chain[k] != c
        invariant counter <= |stack| + 1 ==> tmp == if counter < |chain| then chain[counter] else NONE
        invariant counter <= |stack| + 2
        decreases |stack| + 2 - counter
      {
        ChainSuffix(transientFor, tc, counter);
        if tmp == c {
          counter := |stack| + 1;
        }
        tmp := if tmp in transientFor then transientFor[tmp] else NONE;
        counter := counter + 1;
      }
      assert c !in chain ==> |chain| < |ToSet(clients)|;
    }

    /** Links c to the client that owns its transient_for_window, unless that would close a loop. */
    method ClientFindTransientFor(c: Client)
      requires WellLinked(ToSet(clients), transientFor, window, transientForWindow, {c})
      requires c in clients && NONE !in clients && Once(clients) && |clients| <= |stack| + 1
      modifies this`transientFor
      ensures transientFor == Relinked(ToSet(clients), old(transientFor), window, transientForWindow, c)
    {
      var tc := ClientGetByWin(transientForWindow[c]);
      RelinkedIs(ToSet(clients), transientFor, window, transientForWindow, c, tc);
      if tc != NONE {
        var counter := CountParents(c, tc);
        if counter > |stack| {
          tc := NONE;
        }
      }
      ClientSetTransientFor(c, tc);
    }

    method ClientSetTransientFor(c: Client, parent: Client)
      modifies this`transientFor
      ensures transientFor == WithParent(old(transientFor), c, parent)
    {
      if parent == NONE {
        transientFor := transientFor - {c};
      } else if c !in transientFor || transientFor[c] != parent {
        transientFor := transientFor[c := parent];
      }
    }

    // ----- the special layers

    /** stack_windows: asks for a refresh of the stacking order. */
    method StackWindows()
      modifies this`needStackRefresh
      ensures needStackRefresh
    {
      needStackRefresh := true;
    }

    method ClientSetFullscreen(c: Client, s: bool)
      requires c in attributes
      modifies this`attributes, this`needStackRefresh
      ensures attributes == old(attributes)[c := Flagged(old(attributes)[c], Fullscreen, s)]
      ensures needStackRefresh == (old(needStackRefresh) || old(attributes)[c].fullscreen != s)
      decreases s
    {
      FlaggedInSteps(attributes[c], Fullscreen, Below, Above, Ontop);
      hide Flagged;
      if attributes[c].fullscreen != s {
        if s {
          ClientSetBelow(c, false);
          ClientSetAbove(c, false);
          ClientSetOntop(c, false);
        }
        attributes := attributes[c := attributes[c].(fullscreen := s)];
        StackWindows();
      }
    }

    method ClientSetAbove(c: Client, s: bool)
      requires c in attributes
      modifies this`attributes, this`needStackRefresh
      ensures attributes == old(attributes)[c := Flagged(old(attributes)[c], Above, s)]
      ensures needStackRefresh == (old(needStackRefresh) || old(attributes)[c].above != s)
      decreases s
    {
      FlaggedInSteps(attributes[c], Above, Below, Ontop, Fullscreen);
      hide Flagged;
      if attributes[c].above != s {
        if s {
          ClientSetBelow(c, false);
          ClientSetOntop(c, false);
          ClientSetFullscreen(c, false);
        }
        attributes := attributes[c := attributes[c].(above := s)];
        StackWindows();
      }
    }

    method ClientSetBelow(c: Client, s: bool)
      requires c in attributes
      modifies this`attributes, this`needStackRefresh
      ensures attributes == old(attributes)[c := Flagged(old(attributes)[c], Below, s)]
      ensures needStackRefresh == (old(needStackRefresh) || old(attributes)[c].below != s)
      decreases s
    {
      FlaggedInSteps(attributes[c], Below, Above, Ontop, Fullscreen);
      hide Flagged;
      if attributes[c].below != s {
        if s {
          ClientSetAbove(c, false);
          ClientSetOntop(c, false);
          ClientSetFullscreen(c, false);
        }
        attributes := attributes[c := attributes[c].(below := s)];
        StackWindows();
      }
    }

    method ClientSetOntop(c: Client, s: bool)
      requires c in attributes
      modifies this`attributes, this`needStackRefresh
      ensures attributes == old(attributes)[c := Flagged(old(attributes)[c], Ontop, s)]
      ensures needStackRefresh == (old(needStackRefresh) || old(attributes)[c].ontop != s)
      decreases s
    {
      FlaggedInSteps(attributes[c], Ontop, Above, Below, Fullscreen);
      hide Flagged;
      if attributes[c].ontop != s {
        if s {
          ClientSetAbove(c, false);
          ClientSetBelow(c, false);
          ClientSetFullscreen(c, false);
        }
        attributes := attributes[c := attributes[c].(ontop := s)];
        StackWindows();
      }
    }

    // ----- WM_TRANSIENT_FOR

    /**
     Reads the WM_TRANSIENT_FOR property of a client. When it is there, the client loses its place above the
     others, which asks for a refresh, and without a type of its own it becomes a dialog or a normal window.
     */
    method PropertyUpdateTransientFor(c: Client, reply: Option<Window>)
      requires Linked(Now()) && c in clients && c in attributes
      modifies this`transientFor, this`transientForWindow, this`attributes, this`needStackRefresh
      ensures Now() == PropertyRead(old(Now()), c, reply) && Linked(Now())
      ensures needStackRefresh == (old(needStackRefresh) || (reply.Some? && old(attributes)[c].above))
      ensures ReadsHint(old(Now()), Now(), c, reply)
    {
      hide Linked, PropertyRead, ReadsHint;
      PropertyReadsHint(Now(), c, reply);
      ReadProperty(c, reply);
    }

    method ReadProperty(c: Client, reply: Option<Window>)
      requires Linked(Now()) && c in clients && c in attributes
      modifies this`transientFor, this`transientForWindow, this`attributes, this`needStackRefresh
      ensures Now() == PropertyRead(old(Now()), c, reply) && Linked(Now())
      ensures needStackRefresh == (old(needStackRefresh) || (reply.Some? && old(attributes)[c].above))
    {
      hide Linked, Hinted;
      match reply {
        case None => {
          RelinkTo(c, NONE);
        }
        case Some(trans) => {
          AttributesLinked(Now(), c, TransientRead(attributes[c], trans));
          ReadTransient(c, trans);
          RelinkTo(c, trans);
        }
      }
    }

    /** The part of reading the property that concerns the attributes. */
    method ReadTransient(c: Client, trans: Window)
      requires c in attributes
      modifies this`attributes, this`needStackRefresh
      ensures attributes == old(attributes)[c := TransientRead(old(attributes)[c], trans)]
      ensures needStackRefresh == (old(needStackRefresh) || old(attributes)[c].above)
    {
      if !attributes[c].typed {
        attributes := attributes[c := attributes[c].(kind := if trans == NONE then NormalType else DialogType)];
      }
      ClientSetAbove(c, false);
    }

    /** The part that concerns the links. */
    method RelinkTo(c: Client, trans: Window)
      requires Linked(Now()) && c in clients
      modifies this`transientFor, this`transientForWindow
      ensures Now() == Hinted(old(Now()), c, trans) && Linked(Now())
    {
      HintedLinked(Now(), c, trans);
      assert NONE !in clients by { assert NONE !in ToSet(clients); }
      transientForWindow := transientForWindow[c := trans];
      ClientFindTransientFor(c);
    }

    // ----- manage and unmanage

    /** The links once the first n clients have been looked at because of the new client c. */
    ghost predicate AdoptedUpTo(c: Client, n: nat, g: map<Client, Client>)
      reads this
    {
      && n <= |clients| && c in window
      && transientFor == Adopt(g, c, Waiting(clients, n, transientForWindow, window[c], Chain(g, c)))
      && WellLinked(ToSet(clients), transientFor, window, transientForWindow, {})
    }

    /** Links to the new client c the clients that were waiting for its window. */
    method AdoptTransients(c: Client)
      requires Linked(Now()) && c in clients && Unparented(transientFor, c)
      modifies this`transientFor
      ensures Now() == Adopted(old(Now()), c)
    {
      ghost var g := transientFor;
      hide Linked, AdoptedUpTo, Unparented, Adopted, Adopt, Waiting, Chain, WellLinked;
      AdoptedNone(c);
      var i := 0;
      while i < |clients|
        invariant 0 <= i <= |clients| && AdoptedUpTo(c, i, g)
      {
        RelinkWaiting(c, i, g);
        i := i + 1;
      }
      AdoptedAll(c, g);
    }

    lemma AdoptedNone(c: Client)
      requires Linked(Now()) && c in clients
      ensures AdoptedUpTo(c, 0, transientFor)
    {
      assert c in ToSet(clients);
      hide Adopt, Waiting, Chain, Once, ToSet;
      AdoptNobody(transientFor, c, clients, transientForWindow, window[c], Chain(transientFor, c));
    }

    lemma AdoptedAll(c: Client, g: map<Client, Client>)
      requires AdoptedUpTo(c, |clients|, g)
      ensures Now() == Adopted(Now().(transientFor := g), c)
    {
      hide Adopt, Waiting, Chain, WellLinked;
    }

    /** One round of the loop: a client that waits for the window of c is linked anew. */
    method RelinkWaiting(c: Client, i: nat, ghost g: map<Client, Client>)
      requires i < |clients| && AdoptedUpTo(c, i, g)
      requires Linked(Now().(transientFor := g)) && c in clients && Unparented(g, c)
      modifies this`transientFor
      ensures AdoptedUpTo(c, i + 1, g)
    {
      ghost var cs := ToSet(clients);
      assert c in cs && NONE !in cs && Once(clients) && |clients| <= |stack| + 1 && cs <= transientForWindow.Keys;
      assert NONE !in clients by { assert NONE !in cs; }
      assert transientFor == Adopt(g, c, Waiting(clients, i, transientForWindow, window[c], Chain(g, c)));
      hide WellLinked, Once, Adopt, Waiting, Chain, Relinked, Unparented, ToSet;
      var oc := clients[i];
      Listed(clients, i);
      AdoptRound(cs, g, transientFor, window, transientForWindow, c, clients, i);
      AdoptKeepsLinks(cs, g, window, transientForWindow, c, clients, i + 1);
      ExemptKeeps(cs, transientFor, window, transientForWindow, oc);
      if transientForWindow[oc] == window[c] {
        ClientFindTransientFor(oc);
      }
    }

    /**
     Manages the window w in a new frame c. The reply is its WM_TRANSIENT_FOR property, hints are its attributes
     once its other hints have been read. If it turns out that it could not be put in the frame, it is
     unmanaged at once.
     */
    method ClientManage(c: Client, w: Window, reply: Option<Window>, hints: Attributes, reparented: bool)
      requires Consistent(Now()) && c != NONE && c !in clients && c !in drawins
      requires w != NONE && w !in window.Values
      modifies this
      ensures Now() == if reparented then Managed(old(Now()), c, w, Named(reply), hints) else old(Now())
      ensures reparented ==> Joins(old(Now()), Now(), c, w, if reply.Some? then reply.value else NONE, hints)
      ensures Consistent(Now()) && needStackRefresh
      ensures requests == old(requests) + [StackBottom(c)]
    {
      NotInStack(Now(), c);
      ManagedJoins(Now(), c, w, Named(reply), hints);
      ManagedConsistent(Now(), c, w, Named(reply), hints);
      if !reparented {
        ManageThenUnmanage(Now(), c, w, Named(reply), hints);
      }
      hide Managed, Unmanaged, Joins;
      ClientEnter(c, w, reply, hints);
      if !reparented {
        assert c in clients;
        ClientUnmanage(c);
      }
    }

    method ClientEnter(c: Client, w: Window, reply: Option<Window>, hints: Attributes)
      requires Consistent(Now()) && c != NONE && c !in clients && c !in drawins
      requires w != NONE && w !in window.Values
      modifies this
      ensures Now() == Managed(old(Now()), c, w, Named(reply), hints) && c in clients && needStackRefresh
      ensures requests == old(requests) + [StackBottom(c)]
    {
      hide Consistent, Linked, Adopt, Chain, Relinked, Waiting, Without;
      ghost var s := Now();
      AddedLinked(s, c, w, PLAIN);
      NewcomerHinted(Added(s, c, w, PLAIN), c, Named(reply));
      NewcomerRead(s, c, w, reply);
      Finished(s, c, w, reply, hints);
      hide Added, PropertyRead, Hinted, Adopted, Managed, Unparented, ToSet, Named;
      ClientAdd(c, w);
      PropertyUpdateTransientFor(c, reply);
      AdoptTransients(c);
      ghost var t := Now();
      attributes := attributes[c := hints];
      assert Now() == t.(attributes := t.attributes[c := hints]);
      StackClientPush(c);
      assert Now() == Pushed(t.(attributes := t.attributes[c := hints]), c);
    }

    /** The new client joins the client list; its frame goes below all other windows. */
    method ClientAdd(c: Client, w: Window)
      modifies this`requests, this`clients, this`window, this`transientForWindow, this`attributes
      ensures Now() == Added(old(Now()), c, w, PLAIN) && requests == old(requests) + [StackBottom(c)]
    {
      requests := requests + [StackBottom(c)];
      clients := [c] + clients;
      window, transientForWindow := window[c := w], transientForWindow[c := NONE];
      attributes := attributes[c := PLAIN];
    }

    /** Unsets the links to c. */
    method ResetTransients(c: Client)
      modifies this`transientFor
      ensures transientFor == Cut(old(transientFor), c, clients, |clients|)
    {
      ghost var g := transientFor;
      var i := 0;
      while i < |clients|
        invariant 0 <= i <= |clients| && transientFor == Cut(g, c, clients, i)
      {
        var tc := clients[i];
        CutNext(g, c, clients, i);
        if tc in transientFor && transientFor[tc] == c {
          transientFor := transientFor - {tc};
        }
        i := i + 1;
      }
    }

    method ClientsRemove(c: Client)
      modifies this`clients
      ensures clients == Without(old(clients), c)
    {
      var i := 0;
      while i < |clients|
        invariant 0 <= i <= |clients| && clients == old(clients) && c !in clients[..i]
      {
        if clients[i] == c {
          WithoutSplit(clients[..i], c, clients[i + 1..]);
          assert clients == clients[..i] + [c] + clients[i + 1..];
          clients := clients[..i] + clients[i + 1..];
          return;
        }
        i := i + 1;
      }
    }

    method ClientUnfocus()
      modifies this`focus
      ensures focus == NONE
    {
      focus := NONE;
    }

    /** Stops managing c: it leaves both lists and the focus, and nobody is transient for it any more. */
    method ClientUnmanage(c: Client)
      requires Consistent(Now()) && c in clients
      modifies this
      ensures Now() == Unmanaged(old(Now()), c) && Consistent(Now())
      ensures Leaves(old(Now()), Now(), c)
      ensures requests == old(requests) && needStackRefresh
    {
      hide Consistent, Leaves, Unmanaged;
      UnmanagedLeaves(Now(), c);
      ClientLeave(c);
    }

    method ClientLeave(c: Client)
      requires Consistent(Now()) && c in clients
      modifies this
      ensures Now() == Unmanaged(old(Now()), c) && Consistent(Now())
      ensures requests == old(requests) && needStackRefresh
    {
      hide Consistent, Linked, WellLinked, Cut, Forget, Without, ToSet;
      UnmanagedConsistent(Now(), c);
      ResetTransients(c);
      if focus == c {
        ClientUnfocus();
      }
      ClientsRemove(c);
      StackClientRemove(c);
      ClientWipe(c);
    }

    /** The fields of the client go with it. */
    method ClientWipe(c: Client)
      modifies this`transientFor, this`window, this`transientForWindow, this`attributes
      ensures transientFor == old(transientFor) - {c} && window == old(window) - {c}
      ensures transientForWindow == old(transientForWindow) - {c} && attributes == old(attributes) - {c}
    {
      transientFor := transientFor - {c};
      window, transientForWindow, attributes := window - {c}, transientForWindow - {c}, attributes - {c};
    }

    // ----- raise and lower

    /** The k-th ancestor of c, which exists. */
    method Ancestor(c: Client, k: nat) returns (tc: Client)
      requires Acyclic(transientFor) && k < |Chain(transientFor, c)|
      ensures tc == Chain(transientFor, c)[k]
    {
      tc := c;
      for i := 0 to k
        invariant tc == Chain(transientFor, c)[i]
      {
        ChainSuffix(transientFor, c, i);
        tc := transientFor[tc];
      }
    }

    method CountLayers(c: Client) returns (counter: nat)
      requires Acyclic(transientFor)
      ensures counter == |Chain(transientFor, c)| - 1
    {
      var tc := c;
      counter := 0;
      ghost var chain := Chain(transientFor, c);
      ChainSuffix(transientFor, c, 0);
      while tc in transientFor
        invariant counter < |chain| && tc == chain[counter]
        invariant tc in transientFor <==> counter + 1 < |chain|
        decreases |chain| - counter
      {
        ChainSuffix(transientFor, c, counter);
        ChainSuffix(transientFor, c, counter + 1);
        tc := transientFor[tc];
        counter := counter + 1;
      }
    }

    /** Appends the first counter ancestors of c to the stack, the farthest first. */
    method RaiseAncestors(c: Client, counter: nat)
      requires Acyclic(transientFor) && Fits(stack, Chain(transientFor, c)) && counter == |Chain(transientFor, c)| - 1
      modifies this`stack, this`needStackRefresh
      ensures stack == Raised(old(stack), Chain(transientFor, c)[1..])
    {
      hide Acyclic, Raised, Without, Chain, Fits;
      ghost var st, chain := stack, Chain(transientFor, c);
      RaiseNothing(st);
      assert chain[counter + 1..] == [];
      var n := counter;
      while n > 0
        invariant 0 <= n < |chain| && stack == Raised(st, chain[n + 1..])
      {
        var tc := Ancestor(c, n);
        RaiseNext(st, chain, n);
        StackClientAppend(tc);
        n := n - 1;
      }
    }

    /** Appends the ancestors of c to the stack, the root first, and then c. */
    method ClientRaise(c: Client)
      requires Consistent(Now()) && c in clients
      modifies this`stack, this`needStackRefresh
      ensures Now() == RaisedState(old(Now()), c) && Consistent(Now()) && needStackRefresh
    {
      hide Consistent, Acyclic, Raised, Without, Chain, Fits;
      ghost var chain := ChainOf(Now(), c);
      RaisedConsistent(Now(), c);
      ChainFits(Now(), c);
      RaiseNext(stack, chain, 0);
      assert chain[0..] == chain;
      var counter := CountLayers(c);
      RaiseAncestors(c, counter);
      StackClientAppend(c);
    }

    method LuaClientRaise(c: Client)
      requires Consistent(Now()) && c in clients
      modifies this`stack, this`needStackRefresh
      ensures Now() == RaisedState(old(Now()), c) && Consistent(Now())
      ensures needStackRefresh == (old(needStackRefresh) || !OnTop(old(Now()), c))
    {
      if c !in transientFor && |stack| > 0 && stack[|stack| - 1] == c {
        RaiseShortcut(Now(), c);
        return;
      }
      ClientRaise(c);
    }

    /** Pushes c and then its ancestors, the nearest first. */
    method LowerChain(c: Client)
      requires Acyclic(transientFor) && Fits(stack, Chain(transientFor, c))
      modifies this`stack, this`needStackRefresh
      ensures stack == Lowered(old(stack), Chain(transientFor, c)) && needStackRefresh
    {
      ghost var st, chain, k := stack, Chain(transientFor, c), 1;
      assert 0 !in chain;
      hide Acyclic, Lowered, Without, Chain, Fits;
      RaiseNothing(st);
      LowerNext(st, chain, 0);
      StackClientPush(c);
      ChainSuffix(transientFor, c, 0);
      var tc := if c in transientFor then transientFor[c] else NONE;
      while tc != NONE
        invariant 1 <= k <= |chain| && stack == Lowered(st, chain[..k]) && needStackRefresh
        invariant tc == if k < |chain| then chain[k] else NONE
        decreases |chain| - k
      {
        LowerNext(st, chain, k);
        StackClientPush(tc);
        ChainSuffix(transientFor, c, k);
        tc := if tc in transientFor then transientFor[tc] else NONE;
        k := k + 1;
      }
      assert chain[..k] == chain;
    }

    /** Lowers c and its ancestors to the bottom of the stack, unless c is there already. */
    method LuaClientLower(c: Client)
      requires Consistent(Now()) && c in clients
      modifies this`stack, this`needStackRefresh
      ensures Now() == if old(stack)[0] == c then old(Now()) else LoweredState(old(Now()), c)
      ensures needStackRefresh == (old(needStackRefresh) || old(stack)[0] != c)
      ensures Consistent(Now())
    {
      assert c in ToSet(stack);
      hide Consistent, Acyclic, Lowered, Chain, Fits;
      if |stack| > 0 && stack[0] == c {
        return;
      }
      RaisedConsistent(Now(), c);
      ChainFits(Now(), c);
      LowerChain(c);
    }

    // ----- focus, the order of the client list, drawins

    method ClientFocusUpdate(c: Client) returns (focusedNew: bool)
      requires Consistent(Now()) && c in clients
      modifies this`focus
      ensures Now() == old(Now()).(focus := c) && Consistent(Now())
      ensures focusedNew <==> old(focus) != c
    {
      if focus != NONE && focus != c {
        ClientUnfocus();
      }
      focusedNew := focus != c;
      focus := c;
    }

    method IndexOf(c: Client) returns (i: nat)
      requires c in clients
      ensures i < |clients| && clients[i] == c
    {
      i := 0;
      while clients[i] != c
        invariant i < |clients| && c in clients[i..]
        decreases |clients| - i
      {
        i := i + 1;
      }
    }

    method LuaClientSwap(c: Client, swap: Client) returns (ghost i: nat, ghost j: nat)
      requires Consistent(Now()) && c in clients && swap in clients
      modifies this`clients
      ensures i < |old(clients)| && j < |old(clients)| && old(clients)[i] == c && old(clients)[j] == swap
      ensures Now() == old(Now()).(clients := old(clients)[i := swap][j := c]) && Consistent(Now())
    {
      hide Consistent;
      var m := IndexOf(c);
      var n := IndexOf(swap);
      ghost var s := Now();
      if c != swap {
        SwappedConsistent(s, m, n);
        clients := clients[m := swap][n := c];
        assert Now() == s.(clients := s.clients[m := swap][n := c]);
      } else {
        assert clients == clients[m := c][m := c];
        n := m;
      }
      i, j := m, n;
    }

    /** Shows or hides a drawin that is, or is not, in the list; showing it appends it. */
    method DrawinSetVisible(d: Drawin, v: bool, ontop: bool)
      requires Consistent(Now()) && d != NONE && d !in clients
      modifies this`drawins, this`drawinOntop, this`needStackRefresh
      ensures Now() == old(Shown(Now(), d, v, ontop)) && Consistent(Now())
      ensures v && d !in old(drawins) ==>
        drawins == old(drawins) + [d] && drawinOntop == old(drawinOntop)[d := ontop]
      ensures !v && d in old(drawins) ==> TakenOut(old(drawins), d, drawins) && drawinOntop == old(drawinOntop) - {d}
      ensures v == (d in old(drawins)) ==> drawins == old(drawins) && drawinOntop == old(drawinOntop)
      ensures needStackRefresh == (old(needStackRefresh) || (v && d !in old(drawins)))
    {
      ShownConsistent(Now(), d, v, ontop);
      hide Consistent;
      if v && d !in drawins {
        needStackRefresh := true;
        drawins := drawins + [d];
        drawinOntop := drawinOntop[d := ontop];
      } else if !v && d in drawins {
        WithoutTakesOut(drawins, d);
        DrawinUnmap(d);
      }
    }

    /** The drawin, visible or not, has had the given flag. */
    method DrawinSetOntop(d: Drawin, was: bool, ontop: bool)
      requires Consistent(Now()) && (d in drawins && d in drawinOntop ==> was == drawinOntop[d])
      modifies this`drawinOntop, this`needStackRefresh
      ensures Now() == OntopSet(old(Now()), d, ontop) && Consistent(Now())
      ensures d in drawins ==> drawinOntop == old(drawinOntop)[d := ontop]
      ensures d !in drawins ==> drawinOntop == old(drawinOntop)
      ensures needStackRefresh == (old(needStackRefresh) || was != ontop)
    {
      OntopConsistent(Now(), d, ontop);
      hide Consistent;
      if ontop != was {
        if d in drawins {
          drawinOntop := drawinOntop[d := ontop];
        }
        StackWindows();
      } else if d in drawins {
        assert drawinOntop[d := ontop] == drawinOntop;
      }
    }

    method DrawinUnmap(d: Drawin)
      modifies this`drawins, this`drawinOntop
      ensures drawins == Without(old(drawins), d) && drawinOntop == old(drawinOntop) - {d}
    {
      var i := 0;
      while i < |drawins|
        invariant 0 <= i <= |drawins| && drawins == old(drawins) && d !in drawins[..i]
      {
        if drawins[i] == d {
          WithoutSplit(drawins[..i], d, drawins[i + 1..]);
          assert drawins == drawins[..i] + [d] + drawins[i + 1..];
          drawins := drawins[..i] + drawins[i + 1..];
          break;
        }
        i := i + 1;
      }
      drawinOntop := drawinOntop - {d};
    }

    // ----- the stack refresh

    method StackWindowAbove(w: Window, previous: Window)
      modifies this`requests
      ensures requests == old(requests) + Requests(previous, [w])
    {
      if previous != NONE {
        requests := requests + [StackAbove(w, previous)];
      }
    }

    /** Stacks c above the previous window and its transients above c. */
    method StackClientAbove(c: Client, previous: Window) returns (next: Window)
      requires Acyclic(transientFor)
      modifies this`requests
      ensures requests == old(requests) + Requests(previous, Family(transientFor, stack, c))
      ensures next == Last(Family(transientFor, stack, c))
      decreases Room(transientFor, c)
    {
      ghost var g, st, before := transientFor, stack, requests;
      hide Chain, Acyclic, Requests;
      StackWindowAbove(c, previous);
      next := c;
      RequestsAppend(previous, [c], Children(g, st, c, 0));
      var i := 0;
      while i < |stack|
        invariant 0 <= i <= |stack|
        invariant requests + Requests(next, Children(g, st, c, i)) == before + Requests(previous, Family(g, st, c))
        invariant LastOr(next, Children(g, st, c, i)) == Last(Family(g, st, c))
      {
        if stack[i] in transientFor && transientFor[stack[i]] == c {
          ChildHasLessRoom(g, stack[i], c);
          RequestsAppend(next, Family(g, st, stack[i]), Children(g, st, c, i + 1));
          LastOrAppend(next, Family(g, st, stack[i]), Children(g, st, c, i + 1));
          next := StackClientAbove(stack[i], next);
        }
        i := i + 1;
      }
      RequestsNothing(next);
    }

    /** Stacks the clients of layer l, each with its transients. */
    method StackLayer(l: Layer, previous: Window) returns (next: Window)
      requires Acyclic(transientFor) && attributes.Keys == ToSet(stack)
      modifies this`requests
      ensures requests == old(requests)
        + Requests(previous, Pass(transientFor, stack, LayerMap(attributes, focus, transientFor), l, 0))
      ensures next == LastOr(previous, Pass(transientFor, stack, LayerMap(attributes, focus, transientFor), l, 0))
    {
      ghost var g, st, layers, before := transientFor, stack, LayerMap(attributes, focus, transientFor), requests;
      hide Chain, Acyclic, Requests, Family, Children;
      next := previous;
      var i := 0;
      while i < |stack|
        invariant 0 <= i <= |stack|
        invariant requests + Requests(next, Pass(g, st, layers, l, i))
               == before + Requests(previous, Pass(g, st, layers, l, 0))
        invariant LastOr(next, Pass(g, st, layers, l, i)) == LastOr(previous, Pass(g, st, layers, l, 0))
      {
        var c := stack[i];
        assert c in ToSet(stack);
        if LayerOf(attributes[c], focus == c, c in transientFor) == l {
          RequestsAppend(next, Family(g, st, c), Pass(g, st, layers, l, i + 1));
          next := StackClientAbove(c, next);
        }
        i := i + 1;
      }
      RequestsNothing(next);
    }

    method StackLayers(lo: Layer, hi: Layer, previous: Window) returns (next: Window)
      requires Acyclic(transientFor) && attributes.Keys == ToSet(stack) && lo <= hi
      modifies this`requests
      ensures requests == old(requests)
        + Requests(previous, Passes(transientFor, stack, LayerMap(attributes, focus, transientFor), lo, hi))
      ensures next == LastOr(previous, Passes(transientFor, stack, LayerMap(attributes, focus, transientFor), lo, hi))
    {
      ghost var g, st, layers, before := transientFor, stack, LayerMap(attributes, focus, transientFor), requests;
      assert ToSet(st) <= layers.Keys;
      hide *;
      next := previous;
      var layer := lo;
      while layer < hi
        invariant lo <= layer <= hi
        invariant requests + Requests(next, Passes(g, st, layers, layer, hi))
               == before + Requests(previous, Passes(g, st, layers, lo, hi))
        invariant LastOr(next, Passes(g, st, layers, layer, hi)) == LastOr(previous, Passes(g, st, layers, lo, hi))
      {
        RequestsOfLayer(requests, next, g, st, layers, layer, hi);
        next := StackLayer(layer, next);
        layer := layer + 1;
      }
      NoLayerLeft(requests, next, g, st, layers, hi);
    }

    static lemma NoLayerLeft(rs: seq<Request>, next: Window, g: map<Client, Client>, st: seq<Client>,
        layers: map<Client, Layer>, hi: Layer)
      requires Acyclic(g) && ToSet(st) <= layers.Keys
      ensures rs + Requests(next, Passes(g, st, layers, hi, hi)) == rs
      ensures LastOr(next, Passes(g, st, layers, hi, hi)) == next
    {
      PassesStep(g, st, layers, hi, hi);
      RequestsNothing(next);
      LastOrNothing(next);
    }

    static lemma RequestsOfLayer(rs: seq<Request>, next: Window, g: map<Client, Client>, st: seq<Client>,
        layers: map<Client, Layer>,
                                 layer: Layer, hi: Layer)
      requires Acyclic(g) && layer < hi && ToSet(st) <= layers.Keys
      ensures var (pass, rest) := (Pass(g, st, layers, layer, 0), Passes(g, st, layers, layer + 1, hi));
        && rs + Requests(next, pass) + Requests(LastOr(next, pass), rest)
            == rs + Requests(next, Passes(g, st, layers, layer, hi))
        && LastOr(LastOr(next, pass), rest) == LastOr(next, Passes(g, st, layers, layer, hi))
    {
      PassesStep(g, st, layers, layer, hi);
      hide *;
      var (pass, rest) := (Pass(g, st, layers, layer, 0), Passes(g, st, layers, layer + 1, hi));
      RequestsAppend(next, pass, rest);
      LastOrAppend(next, pass, rest);
      Assoc(rs, Requests(next, pass), Requests(LastOr(next, pass), rest));
    }

    method StackDrawins(ontop: bool, previous: Window) returns (next: Window)
      requires drawinOntop.Keys == ToSet(drawins)
      modifies this`requests
      ensures requests == old(requests) + Requests(previous, DrawinList(drawins, drawinOntop, ontop, 0))
      ensures next == LastOr(previous, DrawinList(drawins, drawinOntop, ontop, 0))
    {
      ghost var ds, flags, before := drawins, drawinOntop, requests;
      hide Requests;
      next := previous;
      var i := 0;
      while i < |drawins|
        invariant 0 <= i <= |drawins|
        invariant requests + Requests(next, DrawinList(ds, flags, ontop, i))
               == before + Requests(previous, DrawinList(ds, flags, ontop, 0))
        invariant LastOr(next, DrawinList(ds, flags, ontop, i)) == LastOr(previous, DrawinList(ds, flags, ontop, 0))
      {
        var d := drawins[i];
        assert d in ToSet(drawins);
        if drawinOntop[d] == ontop {
          RequestsAppend(next, [d], DrawinList(ds, flags, ontop, i + 1));
          StackWindowAbove(d, next);
          next := d;
        }
        i := i + 1;
      }
      RequestsNothing(next);
    }

    /** The four walks of a refresh, one after the other. */
    method StackEverything()
      requires Acyclic(transientFor) && attributes.Keys == ToSet(stack) && drawinOntop.Keys == ToSet(drawins)
      modifies this`requests
      ensures requests == old(requests) + Requests(NONE,
        Passes(transientFor, stack, LayerMap(attributes, focus, transientFor), DESKTOP, BELOW)
        + DrawinList(drawins, drawinOntop, false, 0)
        + Passes(transientFor, stack, LayerMap(attributes, focus, transientFor), BELOW, LAYER_COUNT)
        + DrawinList(drawins, drawinOntop, true, 0))
    {
      ghost var layers, before := LayerMap(attributes, focus, transientFor), requests;
      ghost var a, d := Passes(transientFor, stack, layers, DESKTOP, BELOW), DrawinList(drawins, drawinOntop, false, 0);
      ghost var b := Passes(transientFor, stack, layers, BELOW, LAYER_COUNT);
      ghost var e := DrawinList(drawins, drawinOntop, true, 0);
      RequestsFour(before, a, d, b, e);
      hide Acyclic, Passes, DrawinList, Requests, LastOr, LayerMap, ToSet;
      var next := StackLayers(DESKTOP, BELOW, NONE);
      next := StackDrawins(false, next);
      next := StackLayers(BELOW, LAYER_COUNT, next);
      next := StackDrawins(true, next);
    }

    /** Restacks all clients and drawins, when something asked for it since the last time. */
    method StackRefresh()
      requires Consistent(Now())
      modifies this`requests, this`needStackRefresh
      ensures Now() == old(Now()) && !needStackRefresh
      ensures requests ==
        if old(needStackRefresh) then old(requests) + Requests(NONE, Emission(Now())) else old(requests)
      ensures |old(requests)| <= |requests|
      ensures old(needStackRefresh) ==> forall order | OnServer(Now(), order) ::
        Layered(Now(), ApplyAll(order, requests[|old(requests)|..]))
    {
      if !needStackRefresh {
        return;
      }
      RefreshLayers(Now());
      assert Acyclic(transientFor) && attributes.Keys == ToSet(stack) && drawinOntop.Keys == ToSet(drawins);
      hide Consistent, Acyclic, Passes, DrawinList, Requests, LayerMap, ToSet;
      StackEverything();
      needStackRefresh := false;
    }

    /** The focus changes and the round of the main loop ends: no request is sent unless something else has
        asked for a refresh, whether or not the order is still right. */
    method FocusUpdateAndRefresh(c: Client)
      requires Consistent(Now()) && c in clients && !needStackRefresh
      modifies this`focus, this`requests, this`needStackRefresh
      ensures Now() == old(Now()).(focus := c) && requests == old(requests) && !needStackRefresh
    {
      var focusedNew := ClientFocusUpdate(c);
      StackRefresh();
    }
  }
}
