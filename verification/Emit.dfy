/**
 Emitting a signal: the handlers connected at the start are pushed on the Lua stack and called one after the
 other. A handler may do anything, so a call yields an arbitrary new world in which the signal arrays,
 the registry and the class of the object may all be different, and it may fail.
 */
module Emit {
  import opened Lua
  import Registry
  import opened Sequences
  import opened Signals

  /** What the handlers can change. */
  datatype World = World(
    objectSignals: Ptr -> Connections,
    classSignals: nat -> Connections,
    classOf: Ptr -> nat,
    valid: Ptr -> bool,
    items: Ptr -> map<Ptr, Value>,
    registry: map<Ptr, Value>)

  datatype Call = Call(fn: Value, args: seq<Value>)

  /** How a call ends: with some results, or with an error value. */
  datatype Outcome = Outcome(world: World, error: bool, results: seq<Value>, message: Value)

  type Behaviour = (World, Value, seq<Value>) -> Outcome

  /** lua_pcall brings the results to the number asked for. */
  function Adjusted(results: seq<Value>, n: nat): (r: seq<Value>)
    ensures |r| == n
    ensures forall i | 0 <= i < n :: r[i] == if i < |results| then results[i] else Nil
  {
    if |results| >= n then results[..n] else results + seq(n - |results|, i => Nil)
  }

  // ----- what an emission does

  function HandlersOf(t: Connections, id: nat): seq<Ptr> {
    if id in t then t[id] else []
  }

  /** The value stored under an address, nil if there is none. */
  function Lookup(store: map<Ptr, Value>, p: Ptr): Value {
    if p in store then store[p] else Nil
  }

  function AllStored(store: map<Ptr, Value>, ps: seq<Ptr>): (r: seq<Value>)
    ensures |r| == |ps|
  {
    seq(|ps|, i requires 0 <= i < |ps| => Lookup(store, ps[i]))
  }

  function ObjectHandlers(w: World, o: Ptr, id: nat): seq<Value> {
    AllStored(w.items(o), HandlersOf(w.objectSignals(o), id))
  }

  function ClassHandlers(w: World, class_: nat, id: nat): seq<Value> {
    AllStored(w.registry, HandlersOf(w.classSignals(class_), id))
  }

  /** The world after the given functions have been called in turn. */
  function RunAll(b: Behaviour, w: World, fns: seq<Value>, args: seq<Value>): World {
    if fns == [] then w
    else b(RunAll(b, w, fns[..|fns| - 1], args), fns[|fns| - 1], args).world
  }

  function Calls(fns: seq<Value>, args: seq<Value>): (r: seq<Call>)
    ensures |r| == |fns|
  {
    seq(|fns|, i requires 0 <= i < |fns| => Call(fns[i], args))
  }

  lemma RunAllNext(b: Behaviour, w: World, fns: seq<Value>, i: nat, args: seq<Value>)
    requires i < |fns|
    ensures RunAll(b, w, fns[..i + 1], args) == b(RunAll(b, w, fns[..i], args), fns[i], args).world
    ensures Calls(fns[..i + 1], args) == Calls(fns[..i], args) + [Call(fns[i], args)]
  {
    assert fns[..i + 1][..i] == fns[..i];
  }

  /** As long as a store accounts for the handlers in a table, what is looked up are the functions connected. */
  lemma StoredAreConnected(store: map<Ptr, Value>, counts: map<Ptr, int>, t: Connections, id: nat,
      others: multiset<Ptr>)
    requires Registry.Accounts(Registry.Store(store, counts), t, others)
    ensures forall i | 0 <= i < |HandlersOf(t, id)| ::
      var v := AllStored(store, HandlersOf(t, id))[i];
      v != Nil && ToPointer(v) == HandlersOf(t, id)[i]
  {
    var ps := HandlersOf(t, id);
    forall i | 0 <= i < |ps| ensures Lookup(store, ps[i]) != Nil && ToPointer(Lookup(store, ps[i])) == ps[i] {
      Registry.HandlersAreLive(Registry.Store(store, counts), t, others, id, ps[i]);
    }
  }

  /** Neither a class, by the registry, nor an object, by its own table of items, calls nil for a handler. */
  lemma NoNilIsCalled(w: World, class_: nat, o: Ptr, id: nat, counts: map<Ptr, int>, others: multiset<Ptr>,
      itemCounts: map<Ptr, int>, otherItems: multiset<Ptr>)
    requires Registry.Accounts(Registry.Store(w.registry, counts), w.classSignals(class_), others)
    requires Registry.Accounts(Registry.Store(w.items(o), itemCounts), w.objectSignals(o), otherItems)
    ensures forall i | 0 <= i < |ClassHandlers(w, class_, id)| ::
      ClassHandlers(w, class_, id)[i] != Nil &&
      ToPointer(ClassHandlers(w, class_, id)[i]) == HandlersOf(w.classSignals(class_), id)[i]
    ensures forall i | 0 <= i < |ObjectHandlers(w, o, id)| ::
      ObjectHandlers(w, o, id)[i] != Nil &&
      ToPointer(ObjectHandlers(w, o, id)[i]) == HandlersOf(w.objectSignals(o), id)[i]
  {
    StoredAreConnected(w.registry, counts, w.classSignals(class_), id, others);
    StoredAreConnected(w.items(o), itemCounts, w.objectSignals(o), id, otherItems);
  }

  // ----- the calls, told from the tables

  /** One call for each reference in turn: of the value stored under it, of nil if there is none. */
  ghost predicate CallsEach(ps: seq<Ptr>, store: map<Ptr, Value>, args: seq<Value>, before: seq<Call>,
      after: seq<Call>)
  {
    && |after| == |before| + |ps| && after[..|before|] == before
    && forall i | 0 <= i < |ps| ::
         var call := after[|before| + i];
         call.args == args && if ps[i] in store then call.fn == store[ps[i]] else call.fn == Nil
  }

  /** Each handler that the table has for the signal is called once, in the order of the table; none if the signal is
      not in the table. */
  ghost predicate CallsAll(t: Connections, id: nat, store: map<Ptr, Value>, args: seq<Value>, before: seq<Call>,
      after: seq<Call>)
  {
    if id in t then CallsEach(t[id], store, args, before, after) else after == before
  }

  /** The world after some calls. */
  ghost function Replayed(b: Behaviour, w: World, calls: seq<Call>): World {
    if calls == [] then w
    else b(Replayed(b, w, calls[..|calls| - 1]), calls[|calls| - 1].fn, calls[|calls| - 1].args).world
  }

  lemma {:induction false} ReplayedAll(b: Behaviour, w: World, fns: seq<Value>, args: seq<Value>)
    ensures Replayed(b, w, Calls(fns, args)) == RunAll(b, w, fns, args)
    decreases |fns|
  {
    if fns != [] {
      var n := |fns| - 1;
      ReplayedAll(b, w, fns[..n], args);
      assert Calls(fns, args)[..n] == Calls(fns[..n], args);
    }
  }

  /** What an emission adds to the calls, and what becomes of the world. */
  lemma EmissionCalls(b: Behaviour, w: World, t: Connections, id: nat, store: map<Ptr, Value>, args: seq<Value>,
      before: seq<Call>)
    ensures var fns := AllStored(store, HandlersOf(t, id));
      var after := before + Calls(fns, args);
      && CallsAll(t, id, store, args, before, after)
      && |before| <= |after| && Replayed(b, w, after[|before|..]) == RunAll(b, w, fns, args)
  {
    var fns := AllStored(store, HandlersOf(t, id));
    ReplayedAll(b, w, fns, args);
    assert (before + Calls(fns, args))[|before|..] == Calls(fns, args);
  }

  /** The calls for the class, after those for the object, from the tables of the world that these have left. */
  ghost predicate EndsWith(b: Behaviour, w: World, v: Value, id: nat, args: seq<Value>, before: seq<Call>,
      calls: seq<Call>, w': World, after: seq<Call>)
    requires v.Object?
  {
    && |before| <= |calls| <= |after|
    && var u := Replayed(b, w, calls[|before|..]);
       && CallsAll(u.classSignals(u.classOf(v.address)), id, u.registry, [v] + args, calls, after)
       && w' == Replayed(b, u, after[|calls|..])
  }

  lemma Regroup<T>(a: seq<T>, b: seq<T>, c: seq<T>, d: seq<T>)
    ensures a + (b + c) + d == a + b + (c + d)
  {
  }

  // ----- the machine

  class Machine {
    const behaviour: Behaviour
    const L: State
    var world: World
    /** The calls made by this machine; those a handler makes itself are part of its behaviour. */
    ghost var trace: seq<Call>

    constructor (behaviour: Behaviour, world: World, numeral: Value -> seq<nat>)
      ensures this.behaviour == behaviour && this.world == world
      ensures fresh(L) && L.stack == [] && trace == []
    {
      this.behaviour, this.world, this.trace := behaviour, world, [];
      L := new State(numeral, []);
    }

    /** lua_pcall: takes the function and its arguments off, and puts its results, or the error, in their place. */
    method PCall(nargs: int, nret: nat, errfunc: int, ghost base: seq<Value>, ghost fn: Value, ghost args: seq<Value>)
      returns (ok: bool)
      requires nargs == |args| && L.stack == base + [fn] + args && L.At(errfunc)
      modifies this, L
      ensures var o := behaviour(old(world), fn, args);
        && (ok <==> !o.error) && world == o.world
        && L.stack == base + (if ok then Adjusted(o.results, nret) else [o.message])
        && trace == old(trace) + [Call(fn, args)]
    {
      var top := |L.stack|;
      var f, a := L.stack[top - nargs - 1], L.stack[top - nargs..];
      assert f == fn && a == args;
      assert L.stack[..top - nargs - 1] == base;
      var o := behaviour(world, f, a);
      L.stack := L.stack[..top - nargs - 1] + (if o.error then [o.message] else Adjusted(o.results, nret));
      world := o.world;
      trace := trace + [Call(fn, args)];
      ok := !o.error;
    }

    /** Calls the function on top with the arguments below it. After an error none of the results is there. */
    method DoFunction(nargs: int, nret: nat, ghost base: seq<Value>, ghost args: seq<Value>, ghost fn: Value)
      returns (ok: bool)
      requires nargs == |args| && L.stack == base + args + [fn]
      modifies this, L
      ensures var o := behaviour(old(world), fn, args);
        && (ok <==> !o.error) && world == o.world
        && L.stack == base + (if ok then Adjusted(o.results, nret) else [])
        && trace == old(trace) + [Call(fn, args)]
    {
      L.Insert(-nargs - 1);
      assert L.stack == base + [fn] + args;
      var handler := Function(1);
      L.Push(handler);
      L.Insert(-nargs - 2);
      assert L.stack == (base + [handler]) + [fn] + args;
      var errorFuncPos := |L.stack| - nargs - 1;
      ok := PCall(nargs, nret, -nargs - 2, base + [handler], fn, args);
      if !ok {
        L.Pop(2);
        assert L.stack == base;
        return;
      }
      L.Remove(errorFuncPos);
    }

    /** Calls the handlers of a class for a signal with the arguments on top, and takes the arguments off. */
    method SignalObjectEmit(class_: nat, id: nat, nargs: int, ghost base: seq<Value>, ghost args: seq<Value>)
      requires nargs == |args| && L.stack == base + args
      modifies this, L
      ensures L.stack == base
      ensures var fns := ClassHandlers(old(world), class_, id);
        world == RunAll(behaviour, old(world), fns, args) && trace == old(trace) + Calls(fns, args)
      ensures CallsAll(old(world).classSignals(class_), id, old(world).registry, args, old(trace), trace)
      ensures |old(trace)| <= |trace| && world == Replayed(behaviour, old(world), trace[|old(trace)|..])
    {
      EmissionCalls(behaviour, world, world.classSignals(class_), id, world.registry, args, trace);
      hide CallsAll, CallsEach, Replayed;
      var funcs := HandlersOf(world.classSignals(class_), id);
      var nbfunc := |funcs|;
      ghost var w, tr := world, trace;
      ghost var fns := ClassHandlers(world, class_, id);
      var k := 0;
      while k < nbfunc
        invariant 0 <= k <= nbfunc && L.stack == base + args + fns[..k]
        invariant world == w && trace == tr
      {
        L.Push(Lookup(world.registry, funcs[k]));
        TakeNext(fns, k);
        Assoc(base + args, fns[..k], [fns[k]]);
        k := k + 1;
      }
      assert fns[..k] == fns == fns[0..];
      var i := 0;
      while i < nbfunc
        invariant 0 <= i <= nbfunc && L.stack == base + args + fns[i..]
        invariant world == RunAll(behaviour, w, fns[..i], args)
        invariant trace == tr + Calls(fns[..i], args)
      {
        RunAllNext(behaviour, w, fns, i, args);
        hide RunAll, Calls, ClassHandlers;
        PushArgs(nargs, -nargs - nbfunc + i, base, args, fns[i..]);
        CallNext(nargs, -nargs - nbfunc + i, base + args, fns, i, args);
        i := i + 1;
      }
      L.Pop(nargs);
    }

    /**
     Emits a signal on a value that lies below the arguments. A valid object has the handlers connected to itself
     called first, then those connected to its class at that time; both get the object before the arguments. For
     anything else there is a warning, and the arguments stay where they are.
     */
    method EmitSignal(oud: int, id: nat, nargs: int, ghost base: seq<Value>, ghost args: seq<Value>, ghost v: Value)
      returns (warned: bool)
      requires nargs == |args| && L.stack == base + args
      requires oud > LUA_REGISTRYINDEX && L.At(oud) && L.Place(oud) < |base| && base[L.Place(oud)] == v
      modifies this, L
      ensures warned <==> !v.Object? || !old(world).valid(v.address)
      ensures warned ==> L.stack == old(L.stack) && world == old(world) && trace == old(trace)
      ensures !warned ==> L.stack == base
      ensures !warned ==>
        var fns := ObjectHandlers(old(world), v.address, id);
        var w := RunAll(behaviour, old(world), fns, [v] + args);
        var more := ClassHandlers(w, w.classOf(v.address), id);
        && world == RunAll(behaviour, w, more, [v] + args)
        && trace == old(trace) + Calls(fns, [v] + args) + Calls(more, [v] + args)
      ensures !warned ==> exists calls ::
        && CallsAll(old(world).objectSignals(v.address), id, old(world).items(v.address), [v] + args, old(trace), calls)
        && EndsWith(behaviour, old(world), v, id, args, old(trace), calls, world, trace)
    {
      var oudAbs := L.AbsIndex(oud);
      var obj := L.stack[L.Place(oudAbs)];
      if !obj.Object? {
        return true;
      } else if !world.valid(obj.address) {
        return true;
      }
      warned := false;
      ghost var w, before := world, trace;
      EmitOnObject(oudAbs, obj.address, id, nargs, base, args);
      ghost var calls := trace;
      PushBelow(oud, nargs, base, args, obj.address);
      var class_ := world.classOf(L.stack[L.Place(-nargs - 1)].address);
      hide ClassHandlers, ObjectHandlers, RunAll, Calls, CallsAll, Replayed;
      SignalObjectEmit(class_, id, nargs + 1, base, [v] + args);
      assert EndsWith(behaviour, w, v, id, args, before, calls, world, trace);
    }

    /** Puts the object below its arguments. */
    method PushBelow(oud: int, nargs: int, ghost base: seq<Value>, ghost args: seq<Value>, ghost o: Address)
      requires nargs == |args| && L.stack == base + args
      requires L.At(oud) && L.Place(oud) < |base| && base[L.Place(oud)] == Object(o)
      modifies L
      ensures L.stack == base + ([Object(o)] + args)
    {
      L.PushValue(oud);
      L.Insert(-nargs - 1);
    }

    /** The handlers of the object itself. */
    method EmitOnObject(oudAbs: int, o: Address, id: nat, nargs: int, ghost base: seq<Value>, ghost args: seq<Value>)
      requires nargs == |args| && L.stack == base + args
      requires 1 <= oudAbs <= |base| && base[oudAbs - 1] == Object(o)
      modifies this, L
      ensures L.stack == base + args
      ensures var fns := ObjectHandlers(old(world), o, id);
        && world == RunAll(behaviour, old(world), fns, [Object(o)] + args)
        && trace == old(trace) + Calls(fns, [Object(o)] + args)
      ensures CallsAll(old(world).objectSignals(o), id, old(world).items(o), [Object(o)] + args, old(trace), trace)
      ensures |old(trace)| <= |trace| && world == Replayed(behaviour, old(world), trace[|old(trace)|..])
    {
      EmissionCalls(behaviour, world, world.objectSignals(o), id, world.items(o), [Object(o)] + args, trace);
      hide CallsAll, CallsEach, Replayed;
      var funcs := HandlersOf(world.objectSignals(o), id);
      var nbfunc := |funcs|;
      ghost var w, tr, all := world, trace, [Object(o)] + args;
      ghost var fns := ObjectHandlers(world, o, id);
      var k := 0;
      while k < nbfunc
        invariant 0 <= k <= nbfunc && L.stack == base + args + fns[..k]
        invariant world == w && trace == tr
      {
        L.Push(Lookup(world.items(o), funcs[k]));
        TakeNext(fns, k);
        Assoc(base + args, fns[..k], [fns[k]]);
        k := k + 1;
      }
      assert fns[..k] == fns == fns[0..];
      var i := 0;
      while i < nbfunc
        invariant 0 <= i <= nbfunc && L.stack == base + args + fns[i..]
        invariant world == RunAll(behaviour, w, fns[..i], all)
        invariant trace == tr + Calls(fns[..i], all)
      {
        RunAllNext(behaviour, w, fns, i, all);
        hide RunAll, Calls, ObjectHandlers;
        PushObject(oudAbs, base, args, fns[i..], o);
        PushArgs(nargs, -nargs - nbfunc - 1 + i, base, args, fns[i..] + [Object(o)]);
        Regroup(base + args, fns[i..], [Object(o)], args);
        CallNext(nargs + 1, -nargs - nbfunc - 1 + i, base + args, fns, i, all);
        i := i + 1;
      }
    }

    method PushObject(oudAbs: int, ghost base: seq<Value>, ghost args: seq<Value>, ghost fns: seq<Value>,
        ghost o: Address)
      requires L.stack == base + args + fns && 1 <= oudAbs <= |base| && base[oudAbs - 1] == Object(o)
      modifies L
      ensures L.stack == base + args + (fns + [Object(o)])
    {
      L.PushValue(oudAbs);
    }

    /** Pushes copies of the arguments that lie below the functions. */
    method PushArgs(nargs: int, at: int, ghost base: seq<Value>, ghost args: seq<Value>, ghost above: seq<Value>)
      requires nargs == |args| && L.stack == base + args + above && at == -(|above| + nargs)
      modifies L
      ensures L.stack == base + args + above + args
    {
      var j := 0;
      while j < nargs
        invariant 0 <= j <= nargs && L.stack == base + args + above + args[..j]
      {
        L.PushValue(at);
        TakeNext(args, j);
        Assoc(base + args + above, args[..j], [args[j]]);
        j := j + 1;
      }
      assert args[..j] == args;
    }

    /** Calls the next function, which lies below the arguments, and takes it off. */
    method CallNext(ncall: int, at: int, ghost base: seq<Value>, ghost fns: seq<Value>, ghost i: nat,
        ghost args: seq<Value>)
      requires i < |fns| && ncall == |args| && at == -(|fns| - i + ncall)
      requires L.stack == base + fns[i..] + args
      modifies this, L
      ensures L.stack == base + fns[i + 1..]
      ensures world == behaviour(old(world), fns[i], args).world && trace == old(trace) + [Call(fns[i], args)]
    {
      L.PushValue(at);
      L.Remove(at - 1);
      assert L.stack == (base + fns[i + 1..]) + args + [fns[i]];
      var ok := DoFunction(ncall, 0, base + fns[i + 1..], args, fns[i]);
      assert L.stack == base + fns[i + 1..];
    }
  }
}
