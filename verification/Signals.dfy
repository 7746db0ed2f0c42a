/**
 Signal arrays: the handlers connected to each signal, in an array that is kept sorted by the number of
 the signal so that it can be searched by halving.
 */
module Signals {
  import opened Sequences
  import opened Arrays
  import opened Lua

  datatype Signal = Signal(id: nat, sigfuncs: seq<Ptr>)

  /** What a signal array stands for. */
  type Connections = map<nat, seq<Ptr>>

  ghost predicate Sorted(s: seq<Signal>) {
    forall i, j | 0 <= i < j < |s| :: s[i].id < s[j].id
  }

  /** Sorted, and no signal without handlers. */
  ghost predicate WellKept(s: seq<Signal>) {
    Sorted(s) && forall i | 0 <= i < |s| :: s[i].sigfuncs != []
  }

  ghost function Ids(s: seq<Signal>): set<nat> {
    set e | e in s :: e.id
  }

  ghost function TableOf(s: seq<Signal>): Connections {
    map id | id in Ids(s) :: Find(s, id)
  }

  ghost function Find(s: seq<Signal>, id: nat): seq<Ptr>
    requires id in Ids(s)
  {
    var e :| e in s && e.id == id;
    e.sigfuncs
  }

  /** The table holds what the array holds, and nothing else. */
  ghost predicate Stands(s: seq<Signal>, t: Connections) {
    (forall e | e in s :: e.id in t && t[e.id] == e.sigfuncs) && t.Keys == Ids(s)
  }

  lemma TableStands(s: seq<Signal>)
    requires Sorted(s)
    ensures Stands(s, TableOf(s))
  {
    forall e | e in s ensures e.id in TableOf(s) && TableOf(s)[e.id] == e.sigfuncs {
      var f :| f in s && f.id == e.id && Find(s, e.id) == f.sigfuncs;
      SortedOnce(s, e, f);
    }
  }

  lemma SortedOnce(s: seq<Signal>, e: Signal, f: Signal)
    requires Sorted(s) && e in s && f in s && e.id == f.id
    ensures e == f
  {
    var i :| 0 <= i < |s| && s[i] == e;
    var j :| 0 <= j < |s| && s[j] == f;
    assert !(i < j) && !(j < i);
  }

  /** There is no other table like that. */
  lemma OneTable(s: seq<Signal>, t: Connections)
    requires Sorted(s) && Stands(s, t)
    ensures TableOf(s) == t
  {
    TableStands(s);
    forall id | id in t ensures TableOf(s)[id] == t[id] {
      var e :| e in s && e.id == id;
    }
  }

  // ----- what connecting and disconnecting mean

  ghost function Connected<K>(t: map<K, seq<Ptr>>, id: K, ref: Ptr): map<K, seq<Ptr>> {
    t[id := (if id in t then t[id] else []) + [ref]]
  }

  ghost predicate IsConnected<K>(t: map<K, seq<Ptr>>, id: K, ref: Ptr) {
    id in t && ref in t[id]
  }

  /** Takes off the first occurrence, and the signal with its last handler. */
  ghost function Disconnected<K>(t: map<K, seq<Ptr>>, id: K, ref: Ptr): map<K, seq<Ptr>> {
    if !IsConnected(t, id, ref) then t
    else
      var rest := Without(t[id], ref);
      if rest == [] then t - {id} else t[id := rest]
  }

  /** Of the handlers that the table t' has for a signal ref is the last one, and before it come those that t has; the
      other signals have what they had. */
  ghost predicate ComesLast<K>(t: map<K, seq<Ptr>>, t': map<K, seq<Ptr>>, id: K, ref: Ptr) {
    && t'.Keys == t.Keys + {id} && (forall k | k in t && k != id :: t'[k] == t[k])
    && |t'[id]| == (if id in t then |t[id]| else 0) + 1 && t'[id][|t'[id]| - 1] == ref
    && forall i | 0 <= i < |t'[id]| - 1 :: id in t && t'[id][i] == t[id][i]
  }

  lemma ConnectedLast<K>(t: map<K, seq<Ptr>>, id: K, ref: Ptr)
    ensures ComesLast(t, Connected(t, id, ref), id, ref)
  {
  }

  /** The first ref among the handlers that t has for a signal is missing in t', and with its last handler the signal;
      where there is none nothing changes. */
  ghost predicate FirstGoes<K>(t: map<K, seq<Ptr>>, t': map<K, seq<Ptr>>, id: K, ref: Ptr) {
    if id in t && ref in t[id] then
      && t'.Keys == (if |t[id]| == 1 then t.Keys - {id} else t.Keys) && (forall k | k in t' && k != id :: t'[k] == t[k])
      && exists i :: 0 <= i < |t[id]| && t[id][i] == ref && ref !in t[id][..i]
           && (id in t' ==> t'[id] == t[id][..i] + t[id][i + 1..])
    else t' == t
  }

  lemma DisconnectedFirst<K>(t: map<K, seq<Ptr>>, id: K, ref: Ptr)
    ensures FirstGoes(t, Disconnected(t, id, ref), id, ref)
  {
    if IsConnected(t, id, ref) {
      var i := FirstAt(t[id], ref);
      WithoutAt(t[id], i);
      hide Without;
    }
  }

  // ----- the array

  function SignalCmp(x: Signal, y: Signal): int {
    if x.id > y.id then 1 else if x.id < y.id then -1 else 0
  }

  /** Adds an element at its place, unless there is one with the same number. */
  method SignalArrayInsert(arr: Vec<Signal>, e: Signal)
    requires arr.Valid() && Sorted(arr.Contents())
    modifies arr, arr.tab
    ensures arr.Valid() && (arr.tab == old(arr.tab) || fresh(arr.tab))
    ensures e.id in Ids(old(arr.Contents())) ==> arr.Contents() == old(arr.Contents())
    ensures e.id !in Ids(old(arr.Contents())) ==>
      exists r :: 0 <= r <= |old(arr.Contents())|
        && arr.Contents() == old(arr.Contents()[..r] + [e] + arr.Contents()[r..])
        && (forall i | 0 <= i < r :: old(arr.Contents())[i].id < e.id)
        && (forall i | r <= i < |old(arr.Contents())| :: e.id < old(arr.Contents())[i].id)
  {
    ghost var c := arr.Contents();
    var l, r := 0, arr.len;
    while l < r
      invariant 0 <= l <= r <= arr.len && arr.Contents() == c
      invariant forall i | 0 <= i < l :: c[i].id < e.id
      invariant forall i | r <= i < |c| :: e.id < c[i].id
    {
      var i := (r + l) / 2;
      assert arr.tab[i] == c[i];
      var res := SignalCmp(e, arr.tab[i]);
      if res == 0 {
        return;
      }
      if res < 0 {
        r := i;
      } else {
        l := i + 1;
      }
    }
    arr.Splice(r, 0, [e]);
    assert arr.Contents() == c[..r] + [e] + c[r..];
  }

  /** The place of the element with the given number, or -1. */
  method SignalArrayGetById(arr: Vec<Signal>, id: nat) returns (pos: int)
    requires arr.Valid() && Sorted(arr.Contents())
    ensures -1 <= pos < arr.len
    ensures pos == -1 <==> id !in Ids(arr.Contents())
    ensures pos >= 0 ==> arr.Contents()[pos].id == id
  {
    ghost var c := arr.Contents();
    var l, r := 0, arr.len;
    while l < r
      invariant 0 <= l <= r <= arr.len
      invariant forall i | 0 <= i < l :: c[i].id < id
      invariant forall i | r <= i < |c| :: id < c[i].id
    {
      var i := (r + l) / 2;
      assert arr.tab[i] == c[i];
      if arr.tab[i].id == id {
        return i;
      }
      if id < arr.tab[i].id {
        r := i;
      } else {
        l := i + 1;
      }
    }
    pos := -1;
  }

  /** Connects a handler: it comes last among the handlers of its signal. */
  method SignalConnect(arr: Vec<Signal>, id: nat, ref: Ptr)
    requires arr.Valid() && WellKept(arr.Contents())
    modifies arr, arr.tab
    ensures arr.Valid() && (arr.tab == old(arr.tab) || fresh(arr.tab)) && WellKept(arr.Contents())
    ensures TableOf(arr.Contents()) == Connected(old(TableOf(arr.Contents())), id, ref)
    ensures ComesLast(old(TableOf(arr.Contents())), TableOf(arr.Contents()), id, ref)
  {
    ConnectedLast(TableOf(arr.Contents()), id, ref);
    hide TableOf, Connected, ComesLast;
    var pos := SignalArrayGetById(arr, id);
    if pos >= 0 {
      AppendHandler(arr, pos, id, ref);
    } else {
      InsertHandler(arr, id, ref);
    }
  }

  method AppendHandler(arr: Vec<Signal>, pos: int, id: nat, ref: Ptr)
    requires arr.Valid() && WellKept(arr.Contents()) && 0 <= pos < arr.len && arr.Contents()[pos].id == id
    modifies arr.tab
    ensures arr.Valid() && WellKept(arr.Contents())
    ensures TableOf(arr.Contents()) == Connected(old(TableOf(arr.Contents())), id, ref)
  {
    ghost var c := arr.Contents();
    TableStands(c);
    assert c[pos] in c;
    var sig := arr.tab[pos];
    assert sig == c[pos];
    UpdatedTable(c, pos, sig.sigfuncs + [ref]);
    arr.tab[pos] := Signal(sig.id, sig.sigfuncs + [ref]);
    assert arr.Contents() == c[pos := Signal(id, sig.sigfuncs + [ref])];
  }

  method InsertHandler(arr: Vec<Signal>, id: nat, ref: Ptr)
    requires arr.Valid() && WellKept(arr.Contents()) && id !in Ids(arr.Contents())
    modifies arr, arr.tab
    ensures arr.Valid() && (arr.tab == old(arr.tab) || fresh(arr.tab)) && WellKept(arr.Contents())
    ensures TableOf(arr.Contents()) == Connected(old(TableOf(arr.Contents())), id, ref)
  {
    ghost var c := arr.Contents();
    hide TableOf, Connected, Ids;
    SignalArrayInsert(arr, Signal(id, [ref]));
    ghost var r :| 0 <= r <= |c| && arr.Contents() == c[..r] + [Signal(id, [ref])] + c[r..]
      && (forall i | 0 <= i < r :: c[i].id < id) && (forall i | r <= i < |c| :: id < c[i].id);
    InsertedTable(c, r, id, ref);
  }

  /** Disconnects the first occurrence of a handler and says whether there was one. */
  method SignalDisconnect(arr: Vec<Signal>, id: nat, ref: Ptr) returns (found: bool)
    requires arr.Valid() && WellKept(arr.Contents())
    modifies arr, arr.tab
    ensures arr.Valid() && arr.tab == old(arr.tab) && WellKept(arr.Contents())
    ensures found <==> IsConnected(old(TableOf(arr.Contents())), id, ref)
    ensures TableOf(arr.Contents()) == Disconnected(old(TableOf(arr.Contents())), id, ref)
    ensures FirstGoes(old(TableOf(arr.Contents())), TableOf(arr.Contents()), id, ref)
  {
    ghost var c := arr.Contents();
    DisconnectedFirst(TableOf(c), id, ref);
    hide FirstGoes;
    var pos := SignalArrayGetById(arr, id);
    if pos < 0 {
      return false;
    }
    TableStands(c);
    assert c[pos] in c;
    var funcs := arr.tab[pos].sigfuncs;
    var i := 0;
    while i < |funcs|
      invariant 0 <= i <= |funcs| && ref !in funcs[..i]
      invariant arr.Valid() && arr.Contents() == c && arr.tab == old(arr.tab)
    {
      if funcs[i] == ref {
        WithoutAt(funcs, i);
        var rest := funcs[..i] + funcs[i + 1..];
        assert Disconnected(TableOf(c), id, ref) == if rest == [] then TableOf(c) - {id} else TableOf(c)[id := rest];
        hide Disconnected, Without, Stands, TableOf, WellKept;
        if rest == [] {
          RemovedTable(c, pos);
          var s := arr.Take(pos);
        } else {
          UpdatedTable(c, pos, rest);
          arr.tab[pos] := Signal(id, rest);
          assert arr.Contents() == c[pos := Signal(id, rest)];
        }
        return true;
      }
      i := i + 1;
    }
    assert funcs[..i] == funcs;
    found := false;
  }

  // ----- the table after a change of the array

  lemma UpdatedTable(s: seq<Signal>, i: nat, funcs: seq<Ptr>)
    requires WellKept(s) && i < |s| && funcs != []
    ensures WellKept(s[i := Signal(s[i].id, funcs)])
    ensures TableOf(s[i := Signal(s[i].id, funcs)]) == TableOf(s)[s[i].id := funcs]
  {
    var e := Signal(s[i].id, funcs);
    var r := s[i := e];
    Halves(s, i);
    assert r == s[..i] + [e] + s[i + 1..];
    assert Sorted(s) && WellKept(r);
    hide TableOf, Stands, Sorted, WellKept, Ids;
    TableStands(s);
    ReplacedTable(s[..i], s[i], e, s[i + 1..], TableOf(s));
    OneTable(r, TableOf(s)[e.id := funcs]);
  }

  /** An element differs from the others in its number. */
  lemma Halves(s: seq<Signal>, i: nat)
    requires Sorted(s) && i < |s|
    ensures s == s[..i] + [s[i]] + s[i + 1..]
    ensures s[i].id !in Ids(s[..i]) + Ids(s[i + 1..])
  {
  }

  lemma ReplacedTable(a: seq<Signal>, d: Signal, e: Signal, b: seq<Signal>, t: Connections)
    requires d.id == e.id && e.id !in Ids(a) + Ids(b)
    requires Stands(a + [d] + b, t)
    ensures Stands(a + [e] + b, t[e.id := e.sigfuncs])
  {
    IdsAppend(a, [d], b);
    IdsAppend(a, [e], b);
    forall f | f in a + [d] + b ensures f.id in t && t[f.id] == f.sigfuncs {
    }
    forall f | f in a + b ensures f.id != e.id && f in a + [d] + b {
    }
    hide Ids;
  }

  lemma IdsAppend(a: seq<Signal>, m: seq<Signal>, b: seq<Signal>)
    ensures Ids(a + m + b) == Ids(a) + Ids(m) + Ids(b)
  {
  }

  lemma InsertedTable(s: seq<Signal>, p: nat, id: nat, ref: Ptr)
    requires WellKept(s) && p <= |s|
    requires (forall i | 0 <= i < p :: s[i].id < id) && (forall i | p <= i < |s| :: id < s[i].id)
    ensures WellKept(s[..p] + [Signal(id, [ref])] + s[p..])
    ensures TableOf(s[..p] + [Signal(id, [ref])] + s[p..]) == Connected(TableOf(s), id, ref)
  {
    var e := Signal(id, [ref]);
    assert s == s[..p] + [] + s[p..];
    assert id !in Ids(s);
    TableStands(s);
    IdsAppend(s[..p], [], s[p..]);
    IdsAppend(s[..p], [e], s[p..]);
    assert Stands(s[..p] + [e] + s[p..], TableOf(s)[id := [ref]]);
    InsertedKept(s, p, e);
    OneTable(s[..p] + [e] + s[p..], TableOf(s)[id := [ref]]);
    assert [] + [ref] == [ref];
  }

  lemma InsertedKept(s: seq<Signal>, p: nat, e: Signal)
    requires WellKept(s) && p <= |s| && e.sigfuncs != []
    requires (forall i | 0 <= i < p :: s[i].id < e.id) && (forall i | p <= i < |s| :: e.id < s[i].id)
    ensures WellKept(s[..p] + [e] + s[p..])
  {
    var r := s[..p] + [e] + s[p..];
    forall k | 0 <= k < |r| ensures r[k] == if k < p then s[k] else if k == p then e else s[k - 1] {
    }
  }

  lemma RemovedTable(s: seq<Signal>, p: nat)
    requires WellKept(s) && p < |s|
    ensures WellKept(s[..p] + s[p + 1..])
    ensures TableOf(s[..p] + s[p + 1..]) == TableOf(s) - {s[p].id}
  {
    Halves(s, p);
    TableStands(s);
    RemovedStands(s[..p], s[p], s[p + 1..], TableOf(s));
    RemovedKept(s, p);
    OneTable(s[..p] + s[p + 1..], TableOf(s) - {s[p].id});
  }

  lemma RemovedStands(a: seq<Signal>, d: Signal, b: seq<Signal>, t: Connections)
    requires d.id !in Ids(a) + Ids(b)
    requires Stands(a + [d] + b, t)
    ensures Stands(a + b, t - {d.id})
  {
    IdsAppend(a, [d], b);
    IdsAppend(a, [], b);
    assert a + [] + b == a + b;
    forall f | f in a + b ensures f.id != d.id && f in a + [d] + b {
    }
    hide Ids;
  }

  lemma RemovedKept(s: seq<Signal>, p: nat)
    requires WellKept(s) && p < |s|
    ensures WellKept(s[..p] + s[p + 1..])
  {
    var r := s[..p] + s[p + 1..];
    forall k | 0 <= k < |r| ensures r[k] == if k < p then s[k] else s[k + 1] {
    }
  }
}
