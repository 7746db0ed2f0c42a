/**
 The part of the Lua machine that the window manager drives from C: a stack of values that is addressed by
 index, from the bottom (1, 2, ...) or from the top (-1, -2, ...).
 */
module Lua {
  /** The address of a value that has one; 0 is the null pointer. */
  type Ptr = nat

  type Address = p: Ptr | p != 0 witness 1

  /** A table that is being filled is a value, as it has a single owner; one that is kept is known by its address. */
  datatype Value =
    | Nil
    | Boolean(b: bool)
    | Integer(n: int)
    | Number(r: real)
    | String(bytes: seq<nat>)
    | Table(fields: map<Value, Value>)
    | Function(address: Address)
    | Object(address: Address)
    | Thread(address: Address)
    | KeptTable(address: Address)
    | Light(pointer: Ptr)

  /** lua_topointer: what is kept by reference has an address, a light userdata is one, plain values have none. */
  function ToPointer(v: Value): (p: Ptr)
    ensures v.Function? || v.Object? || v.Thread? || v.KeptTable? ==> p == v.address && p != 0
    ensures v.Nil? || v.Boolean? || v.Integer? || v.Number? || v.String? || v.Table? ==> p == 0
  {
    if v.Function? || v.Object? || v.Thread? || v.KeptTable? then v.address else if v.Light? then v.pointer else 0
  }

  /** lua_tointeger: what is not a number reads as 0. */
  function ToInteger(v: Value): int {
    if v.Integer? then v.n else 0
  }

  /** Indices from here on down do not mean places in the stack. */
  const LUA_REGISTRYINDEX := -1001000

  /** The key under which a table files a value: a whole float is the same key as the integer. */
  function Key(v: Value): (k: Value)
    ensures forall n: int | v == Number(n as real) && -0x8000_0000_0000_0000 <= n < 0x8000_0000_0000_0000 ::
      k == Integer(n)
    ensures !v.Number? ==> k == v
    ensures k == v || (v.Number? && k.Integer? && k.n as real == v.r)
  {
    if v.Number? && v.r == v.r.Floor as real && -0x8000_0000_0000_0000 <= v.r.Floor < 0x8000_0000_0000_0000
    then Integer(v.r.Floor) else v
  }

  /** Storing nil removes the key. */
  function Stored(t: map<Value, Value>, k: Value, v: Value): map<Value, Value> {
    if v == Nil then t - {Key(k)} else t[Key(k) := v]
  }

  /** What luaL_checkstring accepts: numbers read as strings. */
  predicate IsText(v: Value) {
    v.String? || v.Integer? || v.Number?
  }

  class State {
    var stack: seq<Value>
    /** How a number reads as a string. */
    const numeral: Value -> seq<nat>

    /** The stack of a function that has been called with some arguments. */
    constructor (numeral: Value -> seq<nat>, args: seq<Value>)
      ensures this.numeral == numeral && stack == args
    {
      this.numeral, stack := numeral, args;
    }

    function AsString(v: Value): (r: Value)
      ensures r.String? && (v.String? ==> r == v) && (!v.String? ==> r.bytes == numeral(v))
    {
      if v.String? then v else String(numeral(v))
    }

    /** luaL_checkstring: a number becomes a string where it lies; anything else, or nothing, raises an error. */
    method CheckString(i: nat) returns (error: bool)
      requires i > 0
      modifies this
      ensures error <==> |old(stack)| < i || !IsText(old(stack)[i - 1])
      ensures stack == if error then old(stack) else old(stack)[i - 1 := AsString(old(stack)[i - 1])]
    {
      error := |stack| < i || !IsText(stack[i - 1]);
      if !error {
        stack := stack[i - 1 := AsString(stack[i - 1])];
      }
    }

    /** luaA_checkfunction: anything but a function, or nothing, raises an error. */
    method CheckFunction(i: nat) returns (error: bool)
      requires i > 0
      ensures error <==> |stack| < i || !stack[i - 1].Function?
    {
      error := |stack| < i || !stack[i - 1].Function?;
    }

    predicate At(i: int)
      reads this
    {
      1 <= i <= |stack| || -|stack| <= i <= -1
    }

    /** The place in the stack that an index means. */
    function Place(i: int): (p: nat)
      requires At(i)
      reads this
      ensures p < |stack|
    {
      if i > 0 then i - 1 else |stack| + i
    }

    /** luaA_absindex: the index from the bottom that means the same place; pseudo-indices stay what they are. */
    function AbsIndex(i: int): (a: int)
      requires At(i) || i <= LUA_REGISTRYINDEX
      reads this
      ensures i <= LUA_REGISTRYINDEX ==> a == i
      ensures i > LUA_REGISTRYINDEX ==> At(a) && 1 <= a && Place(a) == Place(i)
    {
      if i > 0 || i <= LUA_REGISTRYINDEX then i else |stack| + i + 1
    }

    method Push(v: Value)
      modifies this
      ensures stack == old(stack) + [v]
    {
      stack := stack + [v];
    }

    method PushValue(i: int)
      requires At(i)
      modifies this
      ensures stack == old(stack + [stack[Place(i)]])
    {
      stack := stack + [stack[Place(i)]];
    }

    method Pop(n: nat)
      requires n <= |stack|
      modifies this
      ensures stack == old(stack[..|stack| - n])
    {
      stack := stack[..|stack| - n];
    }

    method Remove(i: int)
      requires At(i)
      modifies this
      ensures stack == old(stack[..Place(i)] + stack[Place(i) + 1..])
    {
      var p := Place(i);
      stack := stack[..p] + stack[p + 1..];
    }

    /** Moves the value on top to the given place, shifting up what is there. */
    method Insert(i: int)
      requires At(i)
      modifies this
      ensures stack == old(stack[..Place(i)] + [stack[|stack| - 1]] + stack[Place(i)..|stack| - 1])
    {
      var p, last := Place(i), |stack| - 1;
      stack := stack[..p] + [stack[last]] + stack[p..last];
    }

    /** Stores the value on top in the table at the given index, under the number n, and takes it off. */
    method RawSetI(i: int, n: int)
      requires At(i) && Place(i) < |stack| - 1 && stack[Place(i)].Table?
      modifies this
      ensures stack == old(stack[..|stack| - 1][Place(i) :=
        Table(Stored(stack[Place(i)].fields, Integer(n), stack[|stack| - 1]))])
    {
      var p, last := Place(i), |stack| - 1;
      stack := stack[..last][p := Table(Stored(stack[p].fields, Integer(n), stack[last]))];
    }

    /**
     Stores the value on top in the table at the given index, under the key below it, and takes both off. A nil
     key raises an error.
     */
    method RawSet(i: int) returns (error: bool)
      requires At(i) && Place(i) < |stack| - 2 && stack[Place(i)].Table?
      modifies this
      ensures error <==> old(stack[|stack| - 2]) == Nil
      ensures !error ==> stack == old(stack[..|stack| - 2][Place(i) :=
        Table(Stored(stack[Place(i)].fields, stack[|stack| - 2], stack[|stack| - 1]))])
    {
      var p, last := Place(i), |stack| - 1;
      error := stack[last - 1] == Nil;
      if !error {
        stack := stack[..last - 1][p := Table(Stored(stack[p].fields, stack[last - 1], stack[last]))];
      }
    }
  }
}
