/**
 The registry that keeps Lua values alive while C code holds their address: a table from addresses to values
 and, in its metatable, a count for each address. Connecting a handler takes a reference, disconnecting it
 gives the reference back.
 */
module Registry {
  import opened Arrays
  import opened Lua
  import opened Sequences
  import opened Signals

  datatype Store = Store(objects: map<Ptr, Value>, counts: map<Ptr, int>)

  /** The count of an address; lua_tointeger reads a missing one as 0. */
  function Count(s: Store, p: Ptr): int {
    if p in s.counts then s.counts[p] else 0
  }

  /** A count for every address in the table, which is where the value has its address, and no other. */
  ghost predicate Tidy(s: Store) {
    s.objects.Keys == s.counts.Keys && 0 !in s.counts
    && forall p | p in s.counts :: s.counts[p] > 0 && ToPointer(s.objects[p]) == p
  }

  /** A table with a metatable. Both lie on the Lua stack as values that stand for them. */
  class Registry {
    const table: Value
    const metatable: Value
    var objects: map<Ptr, Value>
    var counts: map<Ptr, int>

    constructor (table: Value, metatable: Value)
      requires table != metatable
      ensures this.table == table && this.metatable == metatable && Now() == Store(map[], map[])
    {
      this.table, this.metatable := table, metatable;
      objects, counts := map[], map[];
    }

    ghost function Now(): Store
      reads this
    {
      Store(objects, counts)
    }

    /** lua_getmetatable */
    method GetMetatable(L: State, i: int)
      requires L.At(i) && L.stack[L.Place(i)] == table
      modifies L
      ensures L.stack == old(L.stack) + [metatable]
    {
      L.Push(metatable);
    }

    /** lua_rawget on the metatable with an address as the key. */
    method RawGetCount(L: State, i: int, ghost p: Ptr)
      requires L.At(i) && L.Place(i) < |L.stack| - 1 && L.stack[L.Place(i)] == metatable
      requires L.stack[|L.stack| - 1] == Light(p)
      modifies L
      ensures L.stack == old(L.stack[..|L.stack| - 1]) + [if p in counts then Integer(counts[p]) else Nil]
    {
      var key := L.stack[|L.stack| - 1].pointer;
      L.Pop(1);
      L.Push(if key in counts then Integer(counts[key]) else Nil);
    }

    /** lua_rawset on the table. */
    method RawSetObject(L: State, i: int, ghost p: Ptr, ghost v: Value)
      requires L.At(i) && L.Place(i) < |L.stack| - 2 && L.stack[L.Place(i)] == table
      requires L.stack[|L.stack| - 2..] == [Light(p), v]
      modifies this`objects, L
      ensures objects == if v == Nil then old(objects) - {p} else old(objects)[p := v]
      ensures L.stack == old(L.stack[..|L.stack| - 2])
    {
      var top := |L.stack|;
      assert L.stack[top - 2..][0] == Light(p) && L.stack[top - 2..][1] == v;
      var key, value := L.stack[top - 2].pointer, L.stack[top - 1];
      objects := if value == Nil then objects - {key} else objects[key := value];
      L.Pop(2);
    }

    /** lua_rawset on the metatable. */
    method RawSetCount(L: State, i: int, ghost p: Ptr, ghost v: Value)
      requires L.At(i) && L.Place(i) < |L.stack| - 2 && L.stack[L.Place(i)] == metatable
      requires L.stack[|L.stack| - 2..] == [Light(p), v] && (v == Nil || v.Integer?)
      modifies this`counts, L
      ensures counts == if v == Nil then old(counts) - {p} else old(counts)[p := v.n]
      ensures L.stack == old(L.stack[..|L.stack| - 2])
    {
      var top := |L.stack|;
      assert L.stack[top - 2..][0] == Light(p) && L.stack[top - 2..][1] == v;
      var key, value := L.stack[top - 2].pointer, L.stack[top - 1];
      counts := if value == Nil then counts - {key} else counts[key := value.n];
      L.Pop(2);
    }

    /** Reads the count of an address; the stack is as before. */
    method ReadCount(L: State, pointer: Ptr, ghost base: seq<Value>) returns (count: int)
      requires L.stack == base + [metatable]
      modifies L
      ensures L.stack == base + [metatable] && count == Count(Now(), pointer)
    {
      L.Push(Light(pointer));
      assert L.stack[..|L.stack| - 1] == base + [metatable];
      RawGetCount(L, -2, pointer);
      count := ToInteger(L.stack[|L.stack| - 1]);
      L.Pop(1);
    }

    /** Stores a count under an address; the stack is as before. */
    method WriteCount(L: State, pointer: Ptr, v: Value, ghost base: seq<Value>)
      requires L.stack == base + [metatable] && (v == Nil || v.Integer?)
      modifies this`counts, L
      ensures L.stack == base + [metatable]
      ensures counts == if v == Nil then old(counts) - {pointer} else old(counts)[pointer := v.n]
    {
      L.Push(Light(pointer));
      L.Push(v);
      assert L.stack == base + [metatable] + [Light(pointer), v];
      RawSetCount(L, -3, pointer, v);
    }

    /**
     Takes a reference to the value at oud, which leaves the stack, in the table at tud; a value without
     address cannot be referenced.
     */
    method Incref(L: State, tud: int, oud: int) returns (pointer: Ptr)
      requires L.At(tud) && L.At(oud) && L.Place(tud) != L.Place(oud) && L.stack[L.Place(tud)] == table
      modifies this`objects, this`counts, L
      ensures pointer == ToPointer(old(L.stack[L.Place(oud)]))
      ensures Now() == Increfed(old(Now()), old(L.stack[L.Place(oud)]))
      ensures L.stack == old(L.stack[..L.Place(oud)] + L.stack[L.Place(oud) + 1..])
    {
      ghost var base, v := L.stack, L.stack[L.Place(oud)];
      pointer := ToPointer(L.stack[L.Place(oud)]);
      if pointer == 0 {
        L.Remove(oud);
        return;
      }
      L.Push(Light(pointer));
      L.PushValue(if oud < 0 then oud - 1 else oud);
      assert L.stack == base + [Light(pointer), v];
      RawSetObject(L, if tud < 0 then tud - 2 else tud, pointer, v);
      assert L.stack == base;
      GetMetatable(L, tud);
      var count := ReadCount(L, pointer, base);
      WriteCount(L, pointer, Integer(count + 1), base);
      L.Pop(1);
      assert L.stack == base;
      L.Remove(oud);
    }

    /** Gives a reference back; without one there is only a warning. */
    method Decref(L: State, tud: int, pointer: Ptr) returns (warned: bool)
      requires L.At(tud) && L.stack[L.Place(tud)] == table
      modifies this`objects, this`counts, L
      ensures warned <==> pointer != 0 && Count(old(Now()), pointer) <= 0
      ensures Now() == Decrefed(old(Now()), pointer)
      ensures L.stack == old(L.stack)
    {
      ghost var base := L.stack;
      if pointer == 0 {
        return false;
      }
      GetMetatable(L, tud);
      var count := ReadCount(L, pointer, base);
      count := count - 1;
      if count < 0 {
        L.Pop(1);
        return true;
      }
      WriteCount(L, pointer, if count != 0 then Integer(count) else Nil, base);
      L.Pop(1);
      assert L.stack == base;
      if count == 0 {
        L.Push(Light(pointer));
        L.Push(Nil);
        assert L.stack == base + [Light(pointer), Nil];
        RawSetObject(L, if tud < 0 then tud - 2 else tud, pointer, Nil);
      }
      warned := false;
    }

    /** luaA_object_ref: the registry is pushed, used and popped. */
    method ObjectRef(L: State, oud: int) returns (pointer: Ptr)
      requires L.At(oud)
      modifies this`objects, this`counts, L
      ensures pointer == ToPointer(old(L.stack[L.Place(oud)]))
      ensures Now() == Increfed(old(Now()), old(L.stack[L.Place(oud)]))
      ensures L.stack == old(L.stack[..L.Place(oud)] + L.stack[L.Place(oud) + 1..])
    {
      ghost var base, p := L.stack, L.Place(oud);
      L.Push(table);
      assert L.stack == base + [table];
      pointer := Incref(L, -1, if oud < 0 then oud - 1 else oud);
      assert L.stack == base[..p] + base[p + 1..] + [table];
      L.Pop(1);
    }

    /** luaA_object_unref */
    method ObjectUnref(L: State, pointer: Ptr)
      modifies this`objects, this`counts, L
      ensures Now() == Decrefed(old(Now()), pointer) && L.stack == old(L.stack)
    {
      L.Push(table);
      var warned := Decref(L, -1, pointer);
      L.Pop(1);
    }
  }

  ghost function Increfed(s: Store, v: Value): Store {
    var p := ToPointer(v);
    if p == 0 then s else Store(s.objects[p := v], s.counts[p := Count(s, p) + 1])
  }

  ghost function Decrefed(s: Store, p: Ptr): Store {
    if p == 0 || Count(s, p) <= 0 then s
    else if Count(s, p) == 1 then Store(s.objects - {p}, s.counts - {p})
    else Store(s.objects, s.counts[p := Count(s, p) - 1])
  }

  // ----- counting what is connected

  ghost function Occurrences<K(!new)>(t: map<K, seq<Ptr>>, p: Ptr): nat {
    if t == map[] then 0
    else
      var k :| k in t;
      multiset(t[k])[p] + Occurrences(t - {k}, p)
  }

  /** The order in which the lists are counted does not matter. */
  lemma {:induction false} OccurrencesAt<K(!new)>(t: map<K, seq<Ptr>>, k: K, p: Ptr)
    requires k in t
    ensures Occurrences(t, p) == multiset(t[k])[p] + Occurrences(t - {k}, p)
    decreases |t|
  {
    var first :| first in t && Occurrences(t, p) == multiset(t[first])[p] + Occurrences(t - {first}, p);
    if first != k {
      Smaller(t, first);
      Smaller(t, k);
      OccurrencesAt(t - {first}, k, p);
      OccurrencesAt(t - {k}, first, p);
      assert t - {first} - {k} == t - {k} - {first};
    }
  }

  lemma Smaller<K, V>(t: map<K, V>, k: K)
    requires k in t
    ensures |t - {k}| < |t|
  {
    assert (t - {k}).Keys == t.Keys - {k};
    assert |(t - {k}).Keys| == |t.Keys| - 1;
  }

  ghost function ListAt<K>(t: map<K, seq<Ptr>>, k: K): seq<Ptr> {
    if k in t then t[k] else []
  }

  /** Changing one list changes the occurrences by what it gains or loses. */
  lemma OccurrencesChanged<K(!new)>(t: map<K, seq<Ptr>>, u: map<K, seq<Ptr>>, k: K, p: Ptr)
    requires t - {k} == u - {k}
    ensures Occurrences(u, p) + multiset(ListAt(t, k))[p] == Occurrences(t, p) + multiset(ListAt(u, k))[p]
  {
    OccurrencesOf(t, k, p);
    OccurrencesOf(u, k, p);
  }

  lemma OccurrencesOf<K(!new)>(t: map<K, seq<Ptr>>, k: K, p: Ptr)
    ensures Occurrences(t, p) == multiset(ListAt(t, k))[p] + Occurrences(t - {k}, p)
  {
    if k in t {
      OccurrencesAt(t, k, p);
    } else {
      assert t - {k} == t;
    }
  }

  /** The registry counts exactly the handlers in the lists and the references held elsewhere. */
  ghost predicate Accounts<K(!new)>(s: Store, t: map<K, seq<Ptr>>, others: multiset<Ptr>) {
    Tidy(s) && Occurrences(t, 0) == 0 && forall p | p != 0 :: Count(s, p) == Occurrences(t, p) + others[p]
  }

  lemma ConnectCounts<K(!new)>(t: map<K, seq<Ptr>>, k: K, ref: Ptr, p: Ptr)
    ensures Occurrences(Connected(t, k, ref), p) == Occurrences(t, p) + if p == ref then 1 else 0
  {
    var u := Connected(t, k, ref);
    assert t - {k} == u - {k};
    OccurrencesChanged(t, u, k, p);
    hide Occurrences;
  }

  lemma DisconnectCounts<K(!new)>(t: map<K, seq<Ptr>>, k: K, ref: Ptr, p: Ptr)
    requires IsConnected(t, k, ref)
    ensures Occurrences(t, p) == Occurrences(Disconnected(t, k, ref), p) + if p == ref then 1 else 0
  {
    var u := Disconnected(t, k, ref);
    assert t - {k} == u - {k};
    WithoutTakesOne(t[k], ref);
    assert ListAt(u, k) == Without(t[k], ref);
    OccurrencesChanged(t, u, k, p);
    hide Occurrences, Disconnected, Without;
  }

  lemma IncrefTidy(s: Store, v: Value)
    requires Tidy(s)
    ensures Tidy(Increfed(s, v))
    ensures forall p | p != 0 :: Count(Increfed(s, v), p) == Count(s, p) + if p == ToPointer(v) then 1 else 0
  {
  }

  lemma DecrefTidy(s: Store, ref: Ptr)
    requires Tidy(s) && Count(s, ref) > 0
    ensures Tidy(Decrefed(s, ref))
    ensures forall p | p != 0 :: Count(s, p) == Count(Decrefed(s, ref), p) + if p == ref then 1 else 0
  {
  }

  lemma ConnectAccounts<K(!new)>(s: Store, t: map<K, seq<Ptr>>, others: multiset<Ptr>, k: K, fn: Value)
    requires Accounts(s, t, others) && ToPointer(fn) != 0
    ensures Accounts(Increfed(s, fn), Connected(t, k, ToPointer(fn)), others)
  {
    IncrefTidy(s, fn);
    ConnectCounts(t, k, ToPointer(fn), 0);
    hide Increfed, Tidy;
    forall p | p != 0 ensures Count(Increfed(s, fn), p) == Occurrences(Connected(t, k, ToPointer(fn)), p) + others[p] {
      ConnectCounts(t, k, ToPointer(fn), p);
    }
  }

  lemma DisconnectAccounts<K(!new)>(s: Store, t: map<K, seq<Ptr>>, others: multiset<Ptr>, k: K, ref: Ptr)
    requires Accounts(s, t, others) && ref != 0 && IsConnected(t, k, ref)
    ensures Accounts(Decrefed(s, ref), Disconnected(t, k, ref), others)
  {
    DisconnectCounts(t, k, ref, ref);
    DisconnectCounts(t, k, ref, 0);
    assert Count(s, ref) == Occurrences(t, ref) + others[ref];
    DecrefTidy(s, ref);
    hide Decrefed, Disconnected, Tidy;
    forall p | p != 0 ensures Count(Decrefed(s, ref), p) == Occurrences(Disconnected(t, k, ref), p) + others[p] {
      DisconnectCounts(t, k, ref, p);
    }
  }

  lemma {:induction false} WithoutTakesOne(s: seq<Ptr>, x: Ptr)
    requires x in s
    ensures multiset(Without(s, x)) == multiset(s) - multiset{x}
  {
    assert s == [s[0]] + s[1..];
    if s[0] != x {
      WithoutTakesOne(s[1..], x);
    }
  }

  // ----- connecting and disconnecting

  /** The arguments of both functions: the name of a signal and a handler; anything else raises an error. */
  predicate Callable(args: seq<Value>) {
    |args| >= 2 && IsText(args[0]) && args[1].Function?
  }

  /** The number under which the signal array keeps a signal: the hash of its name. */
  function Id(name: Value, hash: seq<nat> -> nat): nat
    requires name.String?
  {
    hash(name.bytes)
  }

  /** awesome.connect_signal: the reference takes the function off the stack. */
  method AwesomeConnectSignal(L: State, signals: Vec<Signal>, reg: Registry, hash: seq<nat> -> nat,
      ghost others: multiset<Ptr>)
    returns (error: bool)
    requires signals.Valid() && WellKept(signals.Contents())
    requires Accounts(reg.Now(), TableOf(signals.Contents()), others)
    modifies L, signals, signals.tab, reg`objects, reg`counts
    ensures signals.Valid() && (signals.tab == old(signals.tab) || fresh(signals.tab)) && WellKept(signals.Contents())
    ensures error <==> !Callable(old(L.stack))
    ensures error <==>
      || |old(L.stack)| < 2 || !old(L.stack)[1].Function?
      || !(old(L.stack)[0].String? || old(L.stack)[0].Integer? || old(L.stack)[0].Number?)
    ensures error ==> reg.Now() == old(reg.Now()) && TableOf(signals.Contents()) == old(TableOf(signals.Contents()))
    ensures !error ==>
      var id := hash(if old(L.stack)[0].String? then old(L.stack)[0].bytes else L.numeral(old(L.stack)[0]));
      ComesLast(old(TableOf(signals.Contents())), TableOf(signals.Contents()), id, old(L.stack)[1].address)
    ensures !error ==>
      var (name, fn) := (L.AsString(old(L.stack[0])), old(L.stack[1]));
      && L.stack == [name] + old(L.stack[2..]) && reg.Now() == Increfed(old(reg.Now()), fn)
      && TableOf(signals.Contents()) == Connected(old(TableOf(signals.Contents())), Id(name, hash), ToPointer(fn))
    ensures Accounts(reg.Now(), TableOf(signals.Contents()), others)
  {
    hide Increfed, Accounts, Connected, TableOf, WellKept, ComesLast;
    error := L.CheckString(1);
    if error {
      return;
    }
    error := L.CheckFunction(2);
    if error {
      return;
    }
    ConnectAccounts(reg.Now(), TableOf(signals.Contents()), others, Id(L.stack[0], hash), L.stack[1]);
    var ref := reg.ObjectRef(L, 2);
    SignalConnect(signals, Id(L.stack[0], hash), ref);
  }

  /** awesome.disconnect_signal: gives back the reference only if the handler was connected. */
  method AwesomeDisconnectSignal(L: State, signals: Vec<Signal>, reg: Registry, hash: seq<nat> -> nat,
      ghost others: multiset<Ptr>)
    returns (error: bool)
    requires signals.Valid() && WellKept(signals.Contents())
    requires Accounts(reg.Now(), TableOf(signals.Contents()), others)
    modifies L, signals, signals.tab, reg`objects, reg`counts
    ensures signals.Valid() && (signals.tab == old(signals.tab) || fresh(signals.tab)) && WellKept(signals.Contents())
    ensures error <==> !Callable(old(L.stack))
    ensures error <==>
      || |old(L.stack)| < 2 || !old(L.stack)[1].Function?
      || !(old(L.stack)[0].String? || old(L.stack)[0].Integer? || old(L.stack)[0].Number?)
    ensures error ==> reg.Now() == old(reg.Now()) && TableOf(signals.Contents()) == old(TableOf(signals.Contents()))
    ensures !error ==>
      var id := hash(if old(L.stack)[0].String? then old(L.stack)[0].bytes else L.numeral(old(L.stack)[0]));
      FirstGoes(old(TableOf(signals.Contents())), TableOf(signals.Contents()), id, old(L.stack)[1].address)
    ensures !error ==>
      var (name, ref) := (L.AsString(old(L.stack[0])), ToPointer(old(L.stack[1])));
      var t := old(TableOf(signals.Contents()));
      && L.stack == [name] + old(L.stack[1..])
      && TableOf(signals.Contents()) == Disconnected(t, Id(name, hash), ref)
      && reg.Now() == if IsConnected(t, Id(name, hash), ref) then Decrefed(old(reg.Now()), ref) else old(reg.Now())
    ensures Accounts(reg.Now(), TableOf(signals.Contents()), others)
  {
    hide Decrefed, Accounts, Disconnected, TableOf, WellKept, FirstGoes;
    error := L.CheckString(1);
    if error {
      return;
    }
    error := L.CheckFunction(2);
    if error {
      return;
    }
    var func := ToPointer(L.stack[1]);
    ghost var t := TableOf(signals.Contents());
    GivenBack(reg.Now(), t, others, Id(L.stack[0], hash), func);
    var found := SignalDisconnect(signals, Id(L.stack[0], hash), func);
    if found {
      reg.ObjectUnref(L, func);
    }
  }

  lemma GivenBack<K(!new)>(s: Store, t: map<K, seq<Ptr>>, others: multiset<Ptr>, k: K, ref: Ptr)
    requires Accounts(s, t, others) && ref != 0
    ensures IsConnected(t, k, ref) ==> Accounts(Decrefed(s, ref), Disconnected(t, k, ref), others)
    ensures !IsConnected(t, k, ref) ==> Disconnected(t, k, ref) == t
  {
    if IsConnected(t, k, ref) {
      DisconnectAccounts(s, t, others, k, ref);
    }
    hide Accounts, Decrefed;
  }

  // ----- runs over all lists

  /** Handler lists are found under a key: the number of a global signal, or class and number. */
  datatype Hub<K> = Hub(store: Store, handlers: map<K, seq<Ptr>>, others: multiset<Ptr>)

  datatype Event<K> =
    | Connect(list: K, fn: Value)
    | Disconnect(list: K, fn: Value)
    | Ref(v: Value)
    | Unref(p: Ptr)
    | Failed

  ghost function Step<K>(h: Hub<K>, e: Event<K>): Hub<K> {
    match e
    case Connect(list, fn) =>
      h.(store := Increfed(h.store, fn), handlers := Connected(h.handlers, list, ToPointer(fn)))
    case Disconnect(list, fn) =>
      if !IsConnected(h.handlers, list, ToPointer(fn)) then h
      else h.(store := Decrefed(h.store, ToPointer(fn)), handlers := Disconnected(h.handlers, list, ToPointer(fn)))
    case Ref(v) =>
      if ToPointer(v) == 0 then h
      else h.(store := Increfed(h.store, v), others := h.others + multiset{ToPointer(v)})
    case Unref(p) => h.(store := Decrefed(h.store, p), others := h.others - multiset{p})
    case Failed => h
  }

  /** Handlers are functions, and other code gives back only references that it has taken, or none that anybody
      has taken. */
  ghost predicate Fair<K>(h: Hub<K>, e: Event<K>) {
    match e
    case Connect(_, fn) => fn.Function?
    case Disconnect(_, fn) => fn.Function?
    case Unref(p) => p == 0 || p in h.others || Count(h.store, p) == 0
    case _ => true
  }

  ghost function Run<K>(h: Hub<K>, es: seq<Event<K>>): Hub<K> {
    if es == [] then h else Step(Run(h, es[..|es| - 1]), es[|es| - 1])
  }

  ghost predicate FairRun<K>(h: Hub<K>, es: seq<Event<K>>) {
    forall i | 0 <= i < |es| :: Fair(Run(h, es[..i]), es[i])
  }

  ghost predicate Counted<K(!new)>(h: Hub<K>) {
    Accounts(h.store, h.handlers, h.others)
  }

  lemma StepCounted<K(!new)>(h: Hub<K>, e: Event<K>)
    requires Counted(h) && Fair(h, e)
    ensures Counted(Step(h, e))
  {
    match e {
      case Connect(list, fn) => {
        ConnectAccounts(h.store, h.handlers, h.others, list, fn);
      }
      case Disconnect(list, fn) => {
        GivenBack(h.store, h.handlers, h.others, list, ToPointer(fn));
      }
      case Ref(v) => {
        IncrefTidy(h.store, v);
      }
      case Unref(p) => {
        if Count(h.store, p) > 0 && p != 0 {
          DecrefTidy(h.store, p);
        }
      }
      case Failed => {
      }
    }
  }

  lemma RunNext<K>(h: Hub<K>, es: seq<Event<K>>, i: nat)
    requires i < |es|
    ensures Run(h, es[..i + 1]) == Step(Run(h, es[..i]), es[i])
  {
    assert es[..i + 1][..i] == es[..i];
  }

  /**
   Over every run: the count of an address is the number of its occurrences in all handler lists, plus the
   references that other code holds, and its value is in the registry exactly while that is positive.
   */
  lemma {:induction false} RunCounted<K(!new)>(h: Hub<K>, es: seq<Event<K>>)
    requires Counted(h) && FairRun(h, es)
    ensures Counted(Run(h, es))
    ensures forall p | p != 0 ::
      Count(Run(h, es).store, p) == Occurrences(Run(h, es).handlers, p) + Run(h, es).others[p]
    ensures forall p | p != 0 ::
      p in Run(h, es).store.objects <==> Occurrences(Run(h, es).handlers, p) + Run(h, es).others[p] > 0
  {
    if es != [] {
      var n := |es| - 1;
      forall i | 0 <= i < n ensures Fair(Run(h, es[..n][..i]), es[..n][i]) {
        assert es[..n][..i] == es[..i];
      }
      RunCounted(h, es[..n]);
      StepCounted(Run(h, es[..n]), es[n]);
    }
    CountedHolds(Run(h, es));
  }

  lemma CountedHolds<K(!new)>(h: Hub<K>)
    requires Counted(h)
    ensures forall p | p != 0 :: Count(h.store, p) == Occurrences(h.handlers, p) + h.others[p]
    ensures forall p | p != 0 :: p in h.store.objects <==> Occurrences(h.handlers, p) + h.others[p] > 0
  {
    forall p | p != 0 ensures p in h.store.objects <==> Occurrences(h.handlers, p) + h.others[p] > 0 {
      assert Count(h.store, p) == Occurrences(h.handlers, p) + h.others[p];
    }
  }

  ghost function Empty<K>(): Hub<K> {
    Hub(Store(map[], map[]), map[], multiset{})
  }

  lemma StartCounted<K(!new)>()
    ensures Counted<K>(Empty())
  {
  }

  /**
   The same from the beginning, when nothing is connected: and then whatever is connected is in the registry,
   so that an emission never pushes nil for it.
   */
  lemma EveryRunCounted<K(!new)>(es: seq<Event<K>>)
    requires FairRun(Empty<K>(), es)
    ensures var h := Run(Empty<K>(), es);
      && (forall p | p != 0 :: Count(h.store, p) == Occurrences(h.handlers, p) + h.others[p])
      && (forall p | p != 0 :: p in h.store.objects <==> Occurrences(h.handlers, p) + h.others[p] > 0)
      && (forall list, p | list in h.handlers && p in h.handlers[list] ::
        p in h.store.objects && ToPointer(h.store.objects[p]) == p && h.store.objects[p] != Nil)
  {
    StartCounted<K>();
    RunCounted(Empty<K>(), es);
    var h := Run(Empty<K>(), es);
    hide Run, FairRun, Occurrences, Tidy;
    forall list, p | list in h.handlers && p in h.handlers[list]
      ensures p in h.store.objects && ToPointer(h.store.objects[p]) == p && h.store.objects[p] != Nil
    {
      HandlersAreLive(h.store, h.handlers, h.others, list, p);
    }
  }

  // ----- the global signals, run by the code

  /** A call from Lua with some arguments, or a reference taken or given back elsewhere. */
  datatype Call =
    | ConnectSignal(args: seq<Value>)
    | DisconnectSignal(args: seq<Value>)
    | ObjectRef(v: Value)
    | ObjectUnref(p: Ptr)

  /** The name of a signal in the arguments of a call. */
  function Name(args: seq<Value>, numeral: Value -> seq<nat>): Value
    requires Callable(args)
  {
    if args[0].String? then args[0] else String(numeral(args[0]))
  }

  /** What a call means. */
  function Meaning(c: Call, numeral: Value -> seq<nat>, hash: seq<nat> -> nat): Event<nat> {
    match c
    case ConnectSignal(args) => if Callable(args) then Connect(Id(Name(args, numeral), hash), args[1]) else Failed
    case DisconnectSignal(args) => if Callable(args) then Disconnect(Id(Name(args, numeral), hash), args[1]) else Failed
    case ObjectRef(v) => Ref(v)
    case ObjectUnref(p) => Unref(p)
  }

  function Meanings(cs: seq<Call>, numeral: Value -> seq<nat>, hash: seq<nat> -> nat): (es: seq<Event<nat>>)
    ensures |es| == |cs|
  {
    seq(|cs|, i requires 0 <= i < |cs| => Meaning(cs[i], numeral, hash))
  }

  /** The signal array and the registry are those of the hub. */
  ghost predicate Shows(signals: Vec<Signal>, reg: Registry, h: Hub<nat>)
    reads signals, signals.tab, reg
  {
    && signals.Valid() && WellKept(signals.Contents()) && TableOf(signals.Contents()) == h.handlers
    && reg.Now() == h.store && Counted(h)
  }

  method Perform(signals: Vec<Signal>, reg: Registry, c: Call, numeral: Value -> seq<nat>, hash: seq<nat> -> nat,
      ghost h: Hub<nat>)
    requires Shows(signals, reg, h) && Fair(h, Meaning(c, numeral, hash))
    modifies signals, signals.tab, reg`objects, reg`counts
    ensures Shows(signals, reg, Step(h, Meaning(c, numeral, hash)))
    ensures signals.tab == old(signals.tab) || fresh(signals.tab)
  {
    StepCounted(h, Meaning(c, numeral, hash));
    hide Increfed, Decrefed, Accounts, Connected, Disconnected, IsConnected, TableOf, WellKept;
    match c {
      case ConnectSignal(args) => {
        PerformConnect(signals, reg, args, numeral, hash, h);
      }
      case DisconnectSignal(args) => {
        PerformDisconnect(signals, reg, args, numeral, hash, h);
      }
      case ObjectRef(v) => {
        var L := new State(numeral, [v]);
        var pointer := reg.ObjectRef(L, 1);
        NoAddress(h.store, v);
      }
      case ObjectUnref(p) => {
        var L := new State(numeral, []);
        reg.ObjectUnref(L, p);
      }
    }
  }

  method PerformConnect(signals: Vec<Signal>, reg: Registry, args: seq<Value>, numeral: Value -> seq<nat>,
      hash: seq<nat> -> nat, ghost h: Hub<nat>)
    requires Shows(signals, reg, h)
    modifies signals, signals.tab, reg`objects, reg`counts
    ensures Shows(signals, reg, Step(h, Meaning(ConnectSignal(args), numeral, hash)))
    ensures signals.tab == old(signals.tab) || fresh(signals.tab)
  {
    hide Increfed, Accounts, Connected, TableOf, WellKept;
    var L := new State(numeral, args);
    var error := AwesomeConnectSignal(L, signals, reg, hash, h.others);
  }

  method PerformDisconnect(signals: Vec<Signal>, reg: Registry, args: seq<Value>, numeral: Value -> seq<nat>,
      hash: seq<nat> -> nat, ghost h: Hub<nat>)
    requires Shows(signals, reg, h)
    modifies signals, signals.tab, reg`objects, reg`counts
    ensures Shows(signals, reg, Step(h, Meaning(DisconnectSignal(args), numeral, hash)))
    ensures signals.tab == old(signals.tab) || fresh(signals.tab)
  {
    hide Decrefed, Accounts, IsConnected, TableOf, WellKept;
    var L := new State(numeral, args);
    var error := AwesomeDisconnectSignal(L, signals, reg, hash, h.others);
  }

  lemma NoAddress(s: Store, v: Value)
    ensures ToPointer(v) == 0 ==> Increfed(s, v) == s
  {
  }

  /** Any calls, from the start: signal array and registry end as the run of their meanings says. */
  method RunCalls(cs: seq<Call>, numeral: Value -> seq<nat>, hash: seq<nat> -> nat, table: Value, metatable: Value)
    returns (signals: Vec<Signal>, reg: Registry)
    requires table != metatable && FairRun(Empty(), Meanings(cs, numeral, hash))
    ensures Shows(signals, reg, Run(Empty(), Meanings(cs, numeral, hash)))
  {
    signals := new Vec();
    reg := new Registry(table, metatable);
    ghost var es := Meanings(cs, numeral, hash);
    StartCounted<nat>();
    assert es[..0] == [];
    hide Step, Meaning, Fair, Counted, TableOf, WellKept;
    var i := 0;
    while i < |cs|
      invariant 0 <= i <= |cs| && fresh(signals) && fresh(signals.tab) && fresh(reg)
      invariant Shows(signals, reg, Run(Empty(), es[..i]))
    {
      RunNext(Empty(), es, i);
      Perform(signals, reg, cs[i], numeral, hash, Run(Empty(), es[..i]));
      i := i + 1;
    }
    assert es[..i] == es;
  }

  /** What an emission pushes for a connected handler is that handler, never nil. */
  lemma HandlersAreLive<K(!new)>(s: Store, t: map<K, seq<Ptr>>, others: multiset<Ptr>, k: K, p: Ptr)
    requires Accounts(s, t, others) && k in t && p in t[k]
    ensures p in s.objects && ToPointer(s.objects[p]) == p && s.objects[p] != Nil
  {
    OccurrencesOf(t, k, p);
    assert multiset(t[k])[p] > 0;
    assert Count(s, p) == Occurrences(t, p) + others[p];
  }
}
