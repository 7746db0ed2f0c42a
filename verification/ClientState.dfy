/**
 What the window manager knows about clients, as one value, and what each operation makes of it.
 A client and a drawin are named by their window on the root (for a client, its frame window); the
 fields of client_t that matter here are maps from that name.
 */
module ClientState {
  import opened Options
  import opened Sequences
  import opened TransientGraph
  import opened Stacking
  import opened XServer
  import opened ClientLinks

  type Client = Window
  type Drawin = Window

  datatype WindowType = NormalType | DialogType | DesktopType | OtherType

  /** The flags of a client, its type, and whether it has a _NET_WM_WINDOW_TYPE property. */
  datatype Properties = Properties(
    ontop: bool, fullscreen: bool, above: bool, below: bool, kind: WindowType, typed: bool)

  /** Without that property the type comes from WM_TRANSIENT_FOR, which knows two types. */
  type Attributes = p: Properties | p.typed || p.kind == NormalType || p.kind == DialogType
    witness Properties(false, false, false, false, NormalType, false)

  const PLAIN: Attributes := Properties(false, false, false, false, NormalType, false)

  /** The flags that put a client in a special layer. */
  datatype Flag = Ontop | Fullscreen | Above | Below

  predicate Has(a: Attributes, f: Flag) {
    match f
    case Ontop => a.ontop
    case Fullscreen => a.fullscreen
    case Above => a.above
    case Below => a.below
  }

  function Put(a: Attributes, f: Flag, v: bool): Attributes {
    match f
    case Ontop => a.(ontop := v)
    case Fullscreen => a.(fullscreen := v)
    case Above => a.(above := v)
    case Below => a.(below := v)
  }

  /** Setting a flag that was not set takes the client out of the other special layers. */
  function Flagged(a: Attributes, f: Flag, v: bool): Attributes {
    if v && !Has(a, f) then Put(a.(ontop := false, fullscreen := false, above := false, below := false), f, true)
    else Put(a, f, v)
  }

  /** Setting a flag step by step, the others first. */
  lemma FlaggedInSteps(a: Attributes, f: Flag, g: Flag, h: Flag, k: Flag)
    requires f != g && f != h && f != k && g != h && g != k && h != k
    ensures Has(a, f) ==> Flagged(a, f, true) == a
    ensures !Has(a, f) ==> Flagged(a, f, false) == a
    ensures Flagged(a, f, false) == Put(a, f, false)
    ensures !Has(a, f) ==>
      Put(Flagged(Flagged(Flagged(a, g, false), h, false), k, false), f, true) == Flagged(a, f, true)
  {
    if !Has(a, f) {
      PutInSteps(a, f, g, h, k);
    }
    hide Put;
  }

  lemma PutInSteps(a: Attributes, f: Flag, g: Flag, h: Flag, k: Flag)
    requires f != g && f != h && f != k && g != h && g != k && h != k && !Has(a, f)
    ensures Put(Put(Put(a, g, false), h, false), k, false)
         == a.(ontop := false, fullscreen := false, above := false, below := false)
  {
  }

  /** A client can only be part of one of the special layers. */
  predicate OneLayer(a: Attributes) {
    forall f, g | Has(a, f) && Has(a, g) :: f == g
  }

  lemma FlaggedOneLayer(a: Attributes, f: Flag, v: bool)
    requires OneLayer(a)
    ensures OneLayer(Flagged(a, f, v)) && Has(Flagged(a, f, v), f) == v
  {
    var b := Flagged(a, f, v);
    forall g, h | Has(b, g) && Has(b, h) ensures g == h {
      assert v && !Has(a, f) ==> g == f && h == f;
      assert !(v && !Has(a, f)) ==> Has(a, g) && Has(a, h);
    }
  }

  /** What reading trans from WM_TRANSIENT_FOR makes of the attributes. */
  function TransientRead(a: Attributes, trans: Window): Attributes {
    a.(above := false, kind := if a.typed then a.kind else if trans == NONE then NormalType else DialogType)
  }

  /** An untyped client with a named window is a dialog, one without an ordinary window; the client is not above any
      longer, and keeps the other flags. */
  ghost predicate HintRead(a: Attributes, b: Attributes, trans: Window) {
    && !b.above && b.ontop == a.ontop && b.fullscreen == a.fullscreen && b.below == a.below && b.typed == a.typed
    && (a.typed ==> b.kind == a.kind)
    && (!a.typed && trans != NONE ==> b.kind == DialogType)
    && (!a.typed && trans == NONE ==> b.kind == NormalType)
  }

  lemma TransientReadIs(a: Attributes, trans: Window)
    ensures HintRead(a, TransientRead(a, trans), trans)
  {
  }

  datatype State = State(
    clients: seq<Client>,
    stack: seq<Client>,
    focus: Client,
    transientFor: map<Client, Client>,
    window: map<Client, Window>,
    transientForWindow: map<Client, Window>,
    attributes: map<Client, Attributes>,
    drawins: seq<Drawin>,
    drawinOntop: map<Drawin, bool>)

  /** The client list and the links; the stack may lack one client, as it does during client_manage. */
  ghost predicate Linked(s: State) {
    && WellLinked(ToSet(s.clients), s.transientFor, s.window, s.transientForWindow, {})
    && Once(s.clients) && NONE !in ToSet(s.clients)
    && |s.clients| <= |s.stack| + 1
  }

  /** The invariant of every state between operations. */
  ghost predicate Consistent(s: State) {
    && Linked(s)
    && Once(s.stack) && ToSet(s.stack) == ToSet(s.clients)
    && s.attributes.Keys == ToSet(s.clients)
    && (s.focus != NONE ==> s.focus in ToSet(s.clients))
    && Once(s.drawins) && NONE !in ToSet(s.drawins) && s.drawinOntop.Keys == ToSet(s.drawins)
    && ToSet(s.clients) !! ToSet(s.drawins)
  }

  ghost predicate ParentIs(s: State, x: Client, p: Client) {
    x in s.transientFor && s.transientFor[x] == p
  }

  ghost predicate WindowIs(s: State, x: Client, w: Window) {
    x in s.window && s.window[x] == w
  }

  ghost predicate HintIs(s: State, x: Client, w: Window) {
    x in s.transientForWindow && s.transientForWindow[x] == w
  }

  // ----- the operations

  ghost function Pushed(s: State, c: Client): State {
    s.(stack := [c] + Without(s.stack, c))
  }

  /** c names trans as the window it is transient for, and is linked anew. */
  ghost function Hinted(s: State, c: Client, trans: Window): State {
    var hint := s.transientForWindow[c := trans];
    s.(transientForWindow := hint, transientFor := Relinked(ToSet(s.clients), s.transientFor, s.window, hint, c))
  }

  /** c reads its WM_TRANSIENT_FOR property, which may be missing. */
  ghost function PropertyRead(s: State, c: Client, reply: Option<Window>): State
    requires c in s.attributes
  {
    match reply
    case None => Hinted(s, c, NONE)
    case Some(trans) => Hinted(s.(attributes := s.attributes[c := TransientRead(s.attributes[c], trans)]), c, trans)
  }

  function Named(reply: Option<Window>): Window {
    if reply.Some? then reply.value else NONE
  }

  ghost function Added(s: State, c: Client, w: Window, a: Attributes): State {
    s.(clients := [c] + s.clients, window := s.window[c := w], transientForWindow := s.transientForWindow[c := NONE],
       attributes := s.attributes[c := a])
  }

  ghost function Adopted(s: State, c: Client): State
    requires c in s.window
  {
    s.(transientFor := Adopt(s.transientFor, c,
         Waiting(s.clients, |s.clients|, s.transientForWindow, s.window[c], Chain(s.transientFor, c))))
  }

  /** c is the frame of the window w; trans is the window it names, and a what the hints of w ask for. */
  ghost function Managed(s: State, c: Client, w: Window, trans: Window, a: Attributes): State {
    Pushed(Adopted(Hinted(Added(s, c, w, a), c, trans), c), c)
  }

  ghost function Unmanaged(s: State, c: Client): State {
    State(Without(s.clients, c), Without(s.stack, c), if s.focus == c then NONE else s.focus,
          Forget(s.transientFor, c), s.window - {c}, s.transientForWindow - {c}, s.attributes - {c},
          s.drawins, s.drawinOntop)
  }

  ghost function ChainOf(s: State, c: Client): seq<Client> {
    Chain(s.transientFor, c)
  }

  ghost function RaisedState(s: State, c: Client): State {
    s.(stack := Raised(s.stack, ChainOf(s, c)))
  }

  ghost function LoweredState(s: State, c: Client): State {
    s.(stack := Lowered(s.stack, ChainOf(s, c)))
  }

  /** Shows or hides a drawin. */
  ghost function Shown(s: State, d: Drawin, v: bool, ontop: bool): State {
    if v && d !in s.drawins then s.(drawins := s.drawins + [d], drawinOntop := s.drawinOntop[d := ontop])
    else if !v && d in s.drawins then s.(drawins := Without(s.drawins, d), drawinOntop := s.drawinOntop - {d})
    else s
  }

  /** Sets the ontop flag of a drawin; the flags of hidden ones are not part of the state. */
  ghost function OntopSet(s: State, d: Drawin, ontop: bool): State {
    if d in s.drawins then s.(drawinOntop := s.drawinOntop[d := ontop]) else s
  }

  // ----- what the operations keep

  lemma HintedLinked(s: State, c: Client, trans: Window)
    requires Linked(s) && c in s.clients
    ensures Linked(Hinted(s, c, trans))
    ensures WellLinked(ToSet(s.clients), s.transientFor, s.window, s.transientForWindow[c := trans], {c})
  {
    RelinkedKeeps(ToSet(s.clients), s.transientFor, s.window, s.transientForWindow[c := trans], c);
  }

  /** c names trans, and its parent becomes the client with that window, unless that would close a loop or there is
      none; nobody else gets another parent. */
  ghost predicate LinksAnew(s: State, t: State, c: Client, trans: Window) {
    && t.transientForWindow == s.transientForWindow[c := trans]
    && (forall x, p | x != c :: ParentIs(t, x, p) <==> ParentIs(s, x, p))
    && (forall p :: ParentIs(t, c, p) <==> p in s.clients && WindowIs(s, p, trans) && c !in ChainOf(s, p))
  }

  lemma HintedLinksAnew(s: State, c: Client, trans: Window)
    requires Linked(s) && c in s.clients
    ensures LinksAnew(s, Hinted(s, c, trans), c, trans)
  {
    var cs, hint := ToSet(s.clients), s.transientForWindow[c := trans];
    HintedLinked(s, c, trans);
    RelinkedParents(cs, s.transientFor, s.window, hint, c);
    hide Linked, WellLinked, Relinked, Chain;
    var t := Hinted(s, c, trans);
    SameElsewhere(s.transientFor, t.transientFor, c);
    forall p ensures ParentIs(t, c, p) <==> p in s.clients && WindowIs(s, p, trans) && c !in ChainOf(s, p) {
      assert p in cs <==> p in s.clients;
      assert ParentIs(t, c, p) <==> MayLink(cs, s.transientFor, s.window, hint, c, p);
    }
  }

  lemma SameElsewhere(g: map<Client, Client>, h: map<Client, Client>, c: Client)
    requires g - {c} == h - {c}
    ensures forall x | x != c :: (x in g <==> x in h) && (x in g ==> g[x] == h[x])
  {
    forall x | x != c ensures (x in g <==> x in h) && (x in g ==> g[x] == h[x]) {
      assert x in g <==> x in g - {c};
      assert x in h <==> x in h - {c};
    }
  }

  /** What reading the property does to the links and the attributes; a missing property names no window, and leaves
      the attributes alone. */
  ghost predicate ReadsHint(s: State, t: State, c: Client, reply: Option<Window>)
    requires c in s.attributes
  {
    && LinksAnew(s, t, c, if reply.Some? then reply.value else NONE)
    && t.attributes.Keys == s.attributes.Keys && t.attributes - {c} == s.attributes - {c}
    && (if reply.Some? then HintRead(s.attributes[c], t.attributes[c], reply.value) else t.attributes == s.attributes)
    && t == s.(attributes := t.attributes, transientFor := t.transientFor, transientForWindow := t.transientForWindow)
  }

  lemma PropertyReadsHint(s: State, c: Client, reply: Option<Window>)
    requires Linked(s) && c in s.clients && c in s.attributes
    ensures ReadsHint(s, PropertyRead(s, c, reply), c, reply)
  {
    hide Relinked, TransientRead, LinksAnew, HintRead;
    match reply
    case None =>
      HintedLinksAnew(s, c, NONE);
    case Some(trans) =>
      var u := s.(attributes := s.attributes[c := TransientRead(s.attributes[c], trans)]);
      TransientReadIs(s.attributes[c], trans);
      HintedLinksAnew(u, c, trans);
      AttributesApart(s, u, PropertyRead(s, c, reply), c, trans);
  }

  lemma AttributesApart(s: State, u: State, t: State, c: Client, trans: Window)
    requires u == s.(attributes := u.attributes) && LinksAnew(u, t, c, trans)
    ensures LinksAnew(s, t, c, trans)
  {
    hide Chain;
    assert forall p :: ChainOf(u, p) == ChainOf(s, p);
    assert forall x, p :: ParentIs(u, x, p) <==> ParentIs(s, x, p);
  }

  lemma HintedConsistent(s: State, c: Client, trans: Window)
    requires Consistent(s) && c in s.clients
    ensures Consistent(Hinted(s, c, trans))
  {
    HintedLinked(s, c, trans);
  }

  lemma AddedLinked(s: State, c: Client, w: Window, a: Attributes)
    requires Consistent(s) && c != NONE && c !in s.clients && w != NONE && w !in s.window.Values
    ensures Linked(Added(s, c, w, a)) && ToSet(Added(s, c, w, a).clients) == ToSet(s.clients) + {c}
    ensures Unparented(s.transientFor, c) && c !in s.transientFor
  {
    AddKeeps(ToSet(s.clients), s.transientFor, s.window, s.transientForWindow, c, w, NONE);
    ConsOnce(c, s.clients);
    NoDupSizes(s.clients, s.stack);
  }

  lemma NoDupSizes(a: seq<Client>, b: seq<Client>)
    requires Once(a) && Once(b) && ToSet(a) == ToSet(b)
    ensures |a| == |b|
  {
  }

  /** Who is linked to whom after a newcomer has read its hint. */
  lemma NewcomerHinted(s: State, c: Client, trans: Window)
    requires Linked(s) && c in s.clients && c !in s.transientFor && Unparented(s.transientFor, c)
    ensures Linked(Hinted(s, c, trans)) && Unparented(Hinted(s, c, trans).transientFor, c)
    ensures forall p | p in s.clients :: ParentIs(Hinted(s, c, trans), c, p) <==> p != c && WindowIs(s, p, trans)
    ensures Hinted(s, c, trans).transientFor - {c} == s.transientFor
  {
    HintedLinked(s, c, trans);
    NewcomerLinks(ToSet(s.clients), s.transientFor, s.window, s.transientForWindow[c := trans], c);
  }

  lemma AdoptedLinked(s: State, c: Client)
    requires Linked(s) && c in s.clients && Unparented(s.transientFor, c)
    ensures Linked(Adopted(s, c)) && ChainOf(Adopted(s, c), c) == ChainOf(s, c)
    ensures forall x, p | x in s.clients :: ParentIs(Adopted(s, c), x, p) <==>
      if HintIs(s, x, s.window[c]) && x !in ChainOf(s, c) then p == c else ParentIs(s, x, p)
  {
    var waiting := Waiting(s.clients, |s.clients|, s.transientForWindow, s.window[c], ChainOf(s, c));
    AdoptKeepsChain(s.transientFor, c, waiting);
    AdoptKeepsLinks(ToSet(s.clients), s.transientFor, s.window, s.transientForWindow, c, s.clients, |s.clients|);
    assert s.clients[..|s.clients|] == s.clients;
  }

  /** Managing a window keeps the invariant. */
  lemma ManagedConsistent(s: State, c: Client, w: Window, trans: Window, a: Attributes)
    requires Consistent(s) && c != NONE && c !in s.clients && c !in s.drawins
    requires w != NONE && w !in s.window.Values
    ensures Consistent(Managed(s, c, w, trans, a))
    ensures Managed(s, c, w, trans, a).stack == [c] + s.stack
  {
    hide Consistent, Linked, Adopt, Chain, Relinked, Waiting;
    var added := Added(s, c, w, a);
    AddedLinked(s, c, w, a);
    NewcomerHinted(added, c, trans);
    AdoptedLinked(Hinted(added, c, trans), c);
    PushedConsistent(s, Adopted(Hinted(added, c, trans), c), c, a);
  }

  lemma PushedConsistent(s: State, t: State, c: Client, a: Attributes)
    requires Consistent(s) && c !in s.clients && c !in s.drawins
    requires Linked(t) && t.clients == [c] + s.clients && t.stack == s.stack
    requires t.focus == s.focus && t.drawins == s.drawins && t.drawinOntop == s.drawinOntop
    requires t.attributes == s.attributes[c := a]
    ensures Consistent(Pushed(t, c)) && Pushed(t, c).stack == [c] + s.stack
  {
    hide WellLinked, Once, ToSet, Without;
    PushedLists(s.clients, s.stack, s.drawins, c);
    KeysWith(s.attributes, c, a);
  }

  lemma PushedLists(clients: seq<Client>, stack: seq<Client>, drawins: seq<Drawin>, c: Client)
    requires Once(stack) && ToSet(stack) == ToSet(clients) && c !in clients
    requires ToSet(clients) !! ToSet(drawins) && c !in drawins
    ensures c !in stack && Once([c] + stack)
    ensures ToSet([c] + stack) == ToSet([c] + clients) == ToSet(clients) + {c}
    ensures ToSet([c] + clients) !! ToSet(drawins) && (c in ToSet([c] + clients))
    ensures ToSet(clients) <= ToSet([c] + clients)
  {
    NotListed(clients, c);
    NotListed(drawins, c);
    assert c !in stack by {
      assert c !in ToSet(stack);
    }
    ConsOnce(c, stack);
    SetOfAppend([c], clients);
    assert ToSet([c]) == {c};
    Apart(ToSet(drawins), ToSet(clients), c);
    hide ToSet, Once;
  }

  lemma Apart<T>(xs: set<T>, ys: set<T>, y: T)
    requires xs !! ys && y !in xs
    ensures xs !! ys + {y} && xs !! ys - {y} && ys + {y} !! xs && {y} + ys == ys + {y}
  {
  }

  lemma KeysWith<K, V>(m: map<K, V>, k: K, v: V)
    ensures m[k := v].Keys == m.Keys + {k} && (m - {k}).Keys == m.Keys - {k}
  {
  }

  lemma NotListed<T>(s: seq<T>, x: T)
    requires x !in s
    ensures x !in ToSet(s)
  {
  }

  lemma NewcomerRead(s: State, c: Client, w: Window, reply: Option<Window>)
    ensures var added := Added(s, c, w, PLAIN);
      PropertyRead(added, c, reply).clients == added.clients == [c] + s.clients
      && PropertyRead(added, c, reply).transientFor == Hinted(added, c, Named(reply)).transientFor
      && c in PropertyRead(added, c, reply).window
  {
    hide Relinked;
  }

  /** Which attributes a client has does not matter for its links. */
  lemma Finished(s: State, c: Client, w: Window, reply: Option<Window>, a: Attributes)
    ensures c in PropertyRead(Added(s, c, w, PLAIN), c, reply).window
    ensures var t := Adopted(PropertyRead(Added(s, c, w, PLAIN), c, reply), c);
      Pushed(t.(attributes := t.attributes[c := a]), c) == Managed(s, c, w, Named(reply), a)
  {
    hide Relinked, Adopt, Waiting, Chain, Without;
    var r := PropertyRead(Added(s, c, w, PLAIN), c, reply);
    assert r.attributes[c := a] == s.attributes[c := a];
  }

  /** The parent of the new client is the other client whose window it names; the clients that were
      waiting for the new window become its transients, except for an ancestor of the new client; no
      other link changes. */
  lemma ManagedLinks(s: State, c: Client, w: Window, trans: Window, a: Attributes)
    requires Consistent(s) && c != NONE && c !in s.clients && c !in s.drawins
    requires w != NONE && w !in s.window.Values
    ensures var m := Managed(s, c, w, trans, a);
      && (forall p | p in s.clients :: ParentIs(m, c, p) <==> WindowIs(s, p, trans))
      && (forall x, p | x in s.clients :: ParentIs(m, x, p) <==>
            if HintIs(s, x, w) && x !in ChainOf(m, c) then p == c else ParentIs(s, x, p))
  {
    hide Consistent, Linked, Adopt, Chain, Relinked, Waiting, Without, ToSet, Unparented;
    var added := Added(s, c, w, a);
    var h := Hinted(added, c, trans);
    AddedLinked(s, c, w, a);
    NewcomerHinted(added, c, trans);
    AdoptedLinked(h, c);
    ParentUnchanged(h, c);
    var m := Managed(s, c, w, trans, a);
    assert m.transientFor == Adopted(h, c).transientFor;
    forall p | p in s.clients
      ensures ParentIs(m, c, p) <==> WindowIs(s, p, trans)
    {
      assert p in added.clients && p != c;
      assert ParentIs(Adopted(h, c), c, p) <==> ParentIs(h, c, p);
      assert WindowIs(added, p, trans) <==> WindowIs(s, p, trans);
    }
    assert ChainOf(m, c) == ChainOf(h, c);
    forall x, p | x in s.clients
      ensures ParentIs(m, x, p) <==> if HintIs(s, x, w) && x !in ChainOf(m, c) then p == c else ParentIs(s, x, p)
    {
      assert x in h.clients && h.window[c] == w;
      assert HintIs(h, x, w) <==> HintIs(s, x, w);
      OthersKeepParent(h, s, c, x, p);
      assert ParentIs(m, x, p) <==> ParentIs(Adopted(h, c), x, p);
    }
  }

  lemma ParentUnchanged(h: State, c: Client)
    requires Linked(h) && c in h.clients && Unparented(h.transientFor, c)
    ensures forall p :: ParentIs(Adopted(h, c), c, p) <==> ParentIs(h, c, p)
  {
    AdoptedLinked(h, c);
    assert ChainOf(h, c)[0] == c;
  }

  lemma OthersKeepParent(h: State, s: State, c: Client, x: Client, p: Client)
    requires h.transientFor - {c} == s.transientFor && x != c
    ensures ParentIs(h, x, p) <==> ParentIs(s, x, p)
  {
    assert x in h.transientFor - {c} <==> x in s.transientFor;
    if x in s.transientFor {
      assert (h.transientFor - {c})[x] == s.transientFor[x];
    }
  }

  /** Unmanaging a client keeps the invariant; every link but those of c stays. */
  lemma UnmanagedConsistent(s: State, c: Client)
    requires Consistent(s) && c in s.clients
    ensures Consistent(Unmanaged(s, c))
    ensures Unmanaged(s, c).transientFor == Cut(s.transientFor, c, s.clients, |s.clients|) - {c}
  {
    hide WellLinked, Once, Cut, Forget, Without;
    CutAll(ToSet(s.clients), s.transientFor, s.window, s.transientForWindow, c, s.clients);
    ForgetKeeps(ToSet(s.clients), s.transientFor, s.window, s.transientForWindow, c);
    WithoutOnce(s.clients, c);
    WithoutOnce(s.stack, c);
    NoDupSizes(Without(s.clients, c), Without(s.stack, c));
  }

  lemma AttributesConsistent(s: State, c: Client, a: Attributes)
    requires Consistent(s) && c in s.clients
    ensures c in s.attributes && Consistent(s.(attributes := s.attributes[c := a]))
  {
    hide WellLinked, Once;
    assert c in ToSet(s.clients);
    assert s.attributes[c := a].Keys == s.attributes.Keys;
  }

  lemma AttributesLinked(s: State, c: Client, a: Attributes)
    requires Linked(s)
    ensures Linked(s.(attributes := s.attributes[c := a]))
  {
  }

  lemma OntopConsistent(s: State, d: Drawin, ontop: bool)
    requires Consistent(s)
    ensures Consistent(OntopSet(s, d, ontop)) && (d in s.drawins ==> d in s.drawinOntop)
  {
    hide WellLinked, Once;
    if d in s.drawins {
      assert d in ToSet(s.drawins);
      assert s.drawinOntop[d := ontop].Keys == s.drawinOntop.Keys;
    }
  }

  lemma PropertyConsistent(s: State, c: Client, reply: Option<Window>)
    requires Consistent(s) && c in s.clients
    ensures c in s.attributes && Consistent(PropertyRead(s, c, reply))
  {
    AttributesConsistent(s, c, PLAIN);
    hide Consistent, Hinted;
    match reply {
      case None => {
        HintedConsistent(s, c, NONE);
      }
      case Some(trans) => {
        var a := TransientRead(s.attributes[c], trans);
        AttributesConsistent(s, c, a);
        HintedConsistent(s.(attributes := s.attributes[c := a]), c, trans);
      }
    }
  }

  /** Every link but those of c, and those to c, stays. */
  lemma UnmanagedLinks(s: State, c: Client, x: Client, p: Client)
    ensures ParentIs(Unmanaged(s, c), x, p) <==> ParentIs(s, x, p) && x != c && p != c
  {
  }

  lemma NotInStack(s: State, c: Client)
    requires Consistent(s) && c !in s.clients
    ensures c !in s.stack
  {
    assert c in ToSet(s.stack) <==> c in ToSet(s.clients);
  }

  /** A client that is managed comes first in the list and lowest in the stack; nothing else changes but the links. */
  ghost predicate Joins(s: State, m: State, c: Client, w: Window, trans: Window, a: Attributes) {
    && m.clients == [c] + s.clients && m.stack == [c] + s.stack && m.focus == s.focus
    && m.window == s.window[c := w] && m.transientForWindow == s.transientForWindow[c := trans]
    && m.attributes == s.attributes[c := a] && m.drawins == s.drawins && m.drawinOntop == s.drawinOntop
  }

  lemma ManagedJoins(s: State, c: Client, w: Window, trans: Window, a: Attributes)
    requires c !in s.stack
    ensures Joins(s, Managed(s, c, w, trans, a), c, w, trans, a)
  {
    hide Relinked, Adopt, Waiting;
  }

  /** One that is unmanaged leaves the list and the stack, and loses the focus; nothing else changes but the links. */
  ghost predicate Leaves(s: State, u: State, c: Client) {
    && TakenOut(s.clients, c, u.clients) && TakenOut(s.stack, c, u.stack)
    && (if s.focus == c then u.focus == NONE else u.focus == s.focus)
    && u.window == s.window - {c} && u.transientForWindow == s.transientForWindow - {c}
    && u.attributes == s.attributes - {c} && u.drawins == s.drawins && u.drawinOntop == s.drawinOntop
  }

  lemma UnmanagedLeaves(s: State, c: Client)
    requires Consistent(s) && c in s.clients
    ensures Leaves(s, Unmanaged(s, c), c)
  {
    assert c in ToSet(s.clients);
    WithoutTakesOut(s.clients, c);
    WithoutTakesOut(s.stack, c);
    hide Consistent, TakenOut, Forget, Without;
  }

  /** Unmanaging undoes managing: a window that cannot be reparented leaves no trace. */
  lemma ManageThenUnmanage(s: State, c: Client, w: Window, trans: Window, a: Attributes)
    requires Consistent(s) && c != NONE && c !in s.clients && c !in s.drawins
    requires w != NONE && w !in s.window.Values
    ensures Unmanaged(Managed(s, c, w, trans, a), c) == s
  {
    NewStack(s, c);
    ManageThenUnlink(s, c, w, trans, a);
    NotKnown(s, c);
    MapUndone(s.window, c, w);
    MapUndone(s.transientForWindow, c, trans);
    MapUndone(s.attributes, c, a);
    ManagedFields(s, c, w, trans, a);
    hide *;
    UnmanagedFields(Managed(s, c, w, trans, a), c, s);
  }

  lemma UnmanagedFields(m: State, c: Client, s: State)
    requires Without(m.clients, c) == s.clients && Without(m.stack, c) == s.stack
    requires m.focus == s.focus && s.focus != c && Forget(m.transientFor, c) == s.transientFor
    requires m.window - {c} == s.window && m.transientForWindow - {c} == s.transientForWindow
    requires m.attributes - {c} == s.attributes && m.drawins == s.drawins && m.drawinOntop == s.drawinOntop
    ensures Unmanaged(m, c) == s
  {
  }

  lemma ManagedFields(s: State, c: Client, w: Window, trans: Window, a: Attributes)
    ensures var m := Managed(s, c, w, trans, a);
      && m.clients == [c] + s.clients && m.stack == [c] + Without(s.stack, c) && m.focus == s.focus
      && m.window == s.window[c := w] && m.transientForWindow == s.transientForWindow[c := trans]
      && m.attributes == s.attributes[c := a] && m.drawins == s.drawins && m.drawinOntop == s.drawinOntop
  {
    hide Relinked, Adopt, Waiting, Chain, Without;
    assert s.transientForWindow[c := NONE][c := trans] == s.transientForWindow[c := trans];
  }

  lemma NotKnown(s: State, c: Client)
    requires Consistent(s) && c != NONE && c !in s.clients
    ensures c !in s.window && c !in s.transientForWindow && c !in s.attributes && s.focus != c
  {
    assert c !in ToSet(s.clients);
  }

  lemma MapUndone<K, V>(m: map<K, V>, k: K, v: V)
    requires k !in m
    ensures m[k := v] - {k} == m
  {
  }

  lemma NewStack(s: State, c: Client)
    requires Consistent(s) && c !in s.clients
    ensures Without([c] + s.stack, c) == s.stack && Without([c] + s.clients, c) == s.clients
    ensures Without(s.stack, c) == s.stack
  {
    assert c !in s.stack by {
      assert c !in ToSet(s.stack);
    }
    assert ([c] + s.stack)[1..] == s.stack && ([c] + s.clients)[1..] == s.clients;
  }

  /** The links after both are those before, one by one. */
  lemma ManageThenUnlink(s: State, c: Client, w: Window, trans: Window, a: Attributes)
    requires Consistent(s) && c != NONE && c !in s.clients && c !in s.drawins
    requires w != NONE && w !in s.window.Values
    ensures Forget(Managed(s, c, w, trans, a).transientFor, c) == s.transientFor
  {
    var m := Managed(s, c, w, trans, a);
    ManagedLinks(s, c, w, trans, a);
    ManagedConsistent(s, c, w, trans, a);
    forall x, p ensures ParentIs(Unmanaged(m, c), x, p) <==> ParentIs(s, x, p) {
      UnmanagedLinks(m, c, x, p);
      LinkIsOld(s, m, c, w, x, p);
    }
    SameLinks(Unmanaged(m, c), s);
  }

  lemma SameLinks(s: State, t: State)
    requires forall x, p :: ParentIs(s, x, p) <==> ParentIs(t, x, p)
    ensures s.transientFor == t.transientFor
  {
    var g, h := s.transientFor, t.transientFor;
    forall x | x in g ensures x in h && h[x] == g[x] {
      assert ParentIs(s, x, g[x]);
    }
    forall x | x in h ensures x in g {
      assert ParentIs(t, x, h[x]);
    }
  }

  lemma LinkIsOld(s: State, m: State, c: Client, w: Window, x: Client, p: Client)
    requires Consistent(s) && c !in s.clients && w !in s.window.Values
    requires Consistent(m) && m.clients == [c] + s.clients
    requires forall y, q | y in s.clients :: ParentIs(m, y, q) <==>
      if HintIs(s, y, w) && y !in ChainOf(m, c) then q == c else ParentIs(s, y, q)
    ensures ParentIs(m, x, p) && x != c && p != c <==> ParentIs(s, x, p)
  {
    assert c !in ToSet(s.clients);
    assert ParentIs(s, x, p) ==> x in ToSet(s.clients) && p in ToSet(s.clients);
    assert ParentIs(s, x, p) ==> s.window[p] == s.transientForWindow[x] && s.window[p] in s.window.Values;
    assert ParentIs(m, x, p) ==> x in ToSet(m.clients);
    hide Consistent, Chain;
  }

  /** Raising and lowering keep the invariant: the stack still holds the same clients once. */
  lemma RaisedConsistent(s: State, c: Client)
    requires Consistent(s) && c in s.clients
    ensures Consistent(RaisedState(s, c)) && Consistent(LoweredState(s, c))
  {
    var chain := ChainOf(s, c);
    ChainManaged(ToSet(s.clients), s.transientFor, s.window, s.transientForWindow, {}, c);
    OnceIsNoDup(s.stack);
    RaisedNoDup(s.stack, chain);
    RaisedMembers(s.stack, chain);
    OnceIsNoDup(Raised(s.stack, chain));
    OnceIsNoDup(Lowered(s.stack, chain));
    NoDupSizes(s.clients, Raised(s.stack, chain));
    NoDupSizes(s.clients, Lowered(s.stack, chain));
  }

  lemma SwappedConsistent(s: State, i: nat, j: nat)
    requires Consistent(s) && i < |s.clients| && j < |s.clients|
    ensures Consistent(s.(clients := s.clients[i := s.clients[j]][j := s.clients[i]]))
  {
    hide WellLinked, Once;
    SwapOnce(s.clients, i, j);
  }

  /** What raising looks for: the client is on top of the stack and nobody has to come along. */
  predicate OnTop(s: State, c: Client) {
    c !in s.transientFor && s.stack != [] && Last(s.stack) == c
  }

  /** Raising a client that is on top of the stack and has no parent changes nothing. */
  lemma RaiseShortcut(s: State, c: Client)
    requires Consistent(s) && c in s.clients && OnTop(s, c)
    ensures RaisedState(s, c) == s
  {
    OnceIsNoDup(s.stack);
    assert ChainOf(s, c) == [c] && c in s.stack;
    RaiseLast(s.stack, c);
  }

  lemma RaiseLast(stack: seq<Client>, c: Client)
    requires NoDup(stack) && stack != [] && Last(stack) == c
    ensures Raised(stack, [c]) == stack
  {
    var front := stack[..|stack| - 1];
    assert stack == front + [c];
    LastFresh(front, c);
    MinusAppend(front, [c], {c});
    MinusNothing(front, {c});
    assert ToSet([c]) == {c};
  }

  /** Skipping the work for a client at the bottom of the stack is right exactly when it has no parent:
      lowering a transient also takes its parents to the bottom. */
  lemma LowerShortcut(s: State, c: Client)
    requires Consistent(s) && c in s.clients && s.stack[0] == c
    ensures LoweredState(s, c) == s <==> c !in s.transientFor
  {
    hide NoDup;
    OnceIsNoDup(s.stack);
    if c in s.transientFor {
      ChainStep(s.transientFor, c);
      LowestIsRoot(s.stack, ChainOf(s, c));
      assert Last(ChainOf(s, c)) in ChainOf(s, c)[1..];
    } else {
      assert ChainOf(s, c) == [c];
      LowerFirst(s.stack, c);
    }
  }

  lemma LowestIsRoot(stack: seq<Client>, chain: seq<Client>)
    requires chain != []
    ensures Lowered(stack, chain)[0] == Last(chain)
  {
  }

  lemma LowerFirst(stack: seq<Client>, c: Client)
    requires NoDup(stack) && stack != [] && stack[0] == c
    ensures Lowered(stack, [c]) == stack
  {
    var rest := stack[1..];
    assert stack == [c] + rest;
    HeadFresh(c, rest);
    MinusNothing(rest, {c});
    assert ToSet([c]) == {c};
  }

  /** What raising and lowering need to know of the chain of a managed client. */
  lemma ChainFits(s: State, c: Client)
    requires Consistent(s) && c in s.clients
    ensures Acyclic(s.transientFor) && Fits(s.stack, ChainOf(s, c))
  {
    assert Acyclic(s.transientFor);
    hide WellLinked, Acyclic, NoDup, Once, Chain;
    var chain := ChainOf(s, c);
    ChainManaged(ToSet(s.clients), s.transientFor, s.window, s.transientForWindow, {}, c);
    OnceIsNoDup(s.stack);
    forall x | x in chain ensures x in s.stack && x != NONE {
      assert x in ToSet(chain);
      assert x in ToSet(s.stack);
    }
  }

  lemma ShownConsistent(s: State, d: Drawin, v: bool, ontop: bool)
    requires Consistent(s) && d != NONE && d !in s.clients
    ensures Consistent(Shown(s, d, v, ontop))
  {
    ShownLists(s.clients, s.drawins, s.drawinOntop, d, ontop);
    hide WellLinked, Once, Without, ToSet;
  }

  lemma ShownLists(clients: seq<Client>, drawins: seq<Drawin>, isOntop: map<Drawin, bool>, d: Drawin, ontop: bool)
    requires Once(drawins) && NONE !in ToSet(drawins) && isOntop.Keys == ToSet(drawins)
    requires ToSet(clients) !! ToSet(drawins)
    requires d != NONE && d !in clients
    ensures d !in drawins ==> Once(drawins + [d]) && NONE !in ToSet(drawins + [d])
    ensures d !in drawins ==> isOntop[d := ontop].Keys == ToSet(drawins + [d]) && ToSet(clients) !! ToSet(drawins + [d])
    ensures Once(Without(drawins, d)) && NONE !in ToSet(Without(drawins, d))
      && (isOntop - {d}).Keys == ToSet(Without(drawins, d)) && ToSet(clients) !! ToSet(Without(drawins, d))
  {
    NotListed(clients, d);
    if d !in drawins {
      ConsOnce(d, drawins);
    }
    WithoutOnce(drawins, d);
    Apart(ToSet(clients), ToSet(drawins), d);
    KeysWith(isOntop, d, ontop);
    hide ToSet, Once, Without;
  }
}
