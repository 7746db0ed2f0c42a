/**
 The translation of the arguments of a D-Bus message into Lua values. The code walks over the message and
 works on the Lua stack; what it leaves there is compared with a plain recursive reading of the message.
 */
module DBus {
  import opened Lua
  import opened Sequences

  datatype Type =
    | BYTE | BOOLEAN | INT16 | UINT16 | INT32 | UINT32 | INT64 | UINT64 | DOUBLE | UNIX_FD
    | STRING | OBJECT_PATH | SIGNATURE | VARIANT | STRUCT | ARRAY | DICT_ENTRY

  datatype Arg =
    | Byte(byte: nat)
    | Bool(b: bool)
    | Int(t: Type, n: int)
    | Double(r: real)
    | Str(chars: seq<nat>)
    | Other(t: Type)
    | Variant(sub: seq<Arg>)
    | Struct(sub: seq<Arg>)
    | Entry(sub: seq<Arg>)
    | Array(elem: Type, sub: seq<Arg>)

  function TypeOf(a: Arg): Type {
    match a
    case Byte(_) => BYTE
    case Bool(_) => BOOLEAN
    case Int(t, _) => t
    case Double(_) => DOUBLE
    case Str(_) => STRING
    case Other(t) => t
    case Variant(_) => VARIANT
    case Struct(_) => STRUCT
    case Entry(_) => DICT_ENTRY
    case Array(_, _) => ARRAY
  }

  /** dbus_type_is_fixed */
  predicate Fixed(t: Type) {
    t in {BYTE, BOOLEAN, INT16, UINT16, INT32, UINT32, INT64, UINT64, DOUBLE, UNIX_FD}
  }

  predicate Ranged(t: Type, n: int) {
    match t
    case INT16 => -0x8000 <= n < 0x8000
    case UINT16 => 0 <= n < 0x1_0000
    case INT32 => -0x8000_0000 <= n < 0x8000_0000
    case UINT32 => 0 <= n < 0x1_0000_0000
    case INT64 => -0x8000_0000_0000_0000 <= n < 0x8000_0000_0000_0000
    case UINT64 => 0 <= n < 0x1_0000_0000_0000_0000
    case _ => false
  }

  /** The code has no case for an array of file descriptors: it counts one and pushes nothing. */
  ghost predicate Lost(a: Arg) {
    match a
    case Variant(sub) => |sub| == 1 && Lost(sub[0])
    case Array(elem, _) => elem == UNIX_FD
    case _ => false
  }

  /** What a message can hold by the D-Bus type system: arrays of one type, entries only in arrays, basic keys. */
  ghost predicate Typed(a: Arg) {
    match a
    case Int(t, n) => Ranged(t, n)
    case Byte(b) => b < 0x100
    case Other(t) => t in {OBJECT_PATH, SIGNATURE, UNIX_FD}
    case Variant(sub) => |sub| == 1 && AllTyped(sub) && !sub[0].Entry?
    case Struct(sub) => AllTyped(sub) && forall f | f in sub :: !f.Entry?
    case Entry(sub) => |sub| == 2 && AllTyped(sub) && Basic(sub[0]) && !sub[1].Entry?
    case Array(elem, sub) => AllTyped(sub) && forall i | i in sub :: TypeOf(i) == elem
    case _ => true
  }

  ghost predicate AllTyped(args: seq<Arg>) {
    forall a | a in args :: Typed(a)
  }

  /** In a message that is well formed no argument is lost where it would be a member of another one. */
  ghost predicate WellFormed(a: Arg) {
    match a
    case Int(t, n) => Ranged(t, n)
    case Byte(b) => b < 0x100
    case Other(t) => t in {OBJECT_PATH, SIGNATURE, UNIX_FD}
    case Variant(sub) => |sub| == 1 && AllWellFormed(sub) && !sub[0].Entry?
    case Struct(sub) => AllWellFormed(sub) && forall f | f in sub :: !f.Entry? && !Lost(f)
    case Entry(sub) => |sub| == 2 && AllWellFormed(sub) && Basic(sub[0]) && !sub[1].Entry? && !Lost(sub[1])
    case Array(elem, sub) => AllWellFormed(sub) && forall i | i in sub :: TypeOf(i) == elem && !Lost(i)
    case _ => true
  }

  lemma {:induction false} WellFormedIsTyped(a: Arg)
    requires WellFormed(a)
    ensures Typed(a)
    decreases a
  {
    var sub := if a.Variant? || a.Struct? || a.Entry? || a.Array? then a.sub else [];
    forall x | x in sub ensures Typed(x) {
      assert AllWellFormed(sub);
      WellFormedIsTyped(x);
    }
  }

  lemma AllWellFormedIsTyped(args: seq<Arg>)
    requires AllWellFormed(args)
    ensures AllTyped(args)
  {
    forall a | a in args {
      WellFormedIsTyped(a);
    }
  }

  predicate Basic(k: Arg) {
    k.Byte? || k.Bool? || k.Int? || k.Double? || k.Str? || k.Other?
  }

  /** No dictionary has a key that the code reads as nil: an object path, a signature or a file descriptor. */
  ghost predicate Readable(a: Arg) {
    match a
    case Variant(sub) => AllReadable(sub)
    case Struct(sub) => AllReadable(sub)
    case Entry(sub) => AllReadable(sub)
    case Array(_, sub) => AllReadable(sub) && forall e | e in sub :: e.Entry? && |e.sub| > 0 ==> !e.sub[0].Other?
    case _ => true
  }

  ghost predicate AllReadable(args: seq<Arg>) {
    forall a | a in args :: Readable(a)
  }

  lemma TypeTells(a: Arg)
    requires Typed(a)
    ensures TypeOf(a) == BYTE <==> a.Byte?
    ensures TypeOf(a) == DICT_ENTRY <==> a.Entry?
    ensures Fixed(TypeOf(a)) && TypeOf(a) !in {BYTE, UNIX_FD} <==> a.Bool? || a.Int? || a.Double?
    ensures Fixed(TypeOf(a)) ==> WellFormed(a) && Readable(a)
  {
  }

  lemma ElementsAre(a: Arg)
    requires Typed(a) && a.Array?
    ensures a.elem == BYTE ==> forall i | i in a.sub :: i.Byte?
    ensures if a.elem == DICT_ENTRY then forall i | i in a.sub :: i.Entry? else forall i | i in a.sub :: !i.Entry?
    ensures Fixed(a.elem) && a.elem !in {BYTE, UNIX_FD} ==> forall i | i in a.sub :: i.Bool? || i.Int? || i.Double?
    ensures Fixed(a.elem) ==> AllWellFormed(a.sub) && AllReadable(a.sub)
    ensures a.elem != DICT_ENTRY ==> (Readable(a) <==> AllReadable(a.sub))
  {
    forall i | i in a.sub {
      TypeTells(i);
    }
  }

  /** What an array of a type can hold. */
  ghost predicate ElementOf(i: Arg, elem: Type) {
    match elem
    case BYTE => i.Byte?
    case BOOLEAN => i.Bool?
    case DOUBLE => i.Double?
    case STRING => i.Str?
    case OBJECT_PATH => i == Other(elem)
    case SIGNATURE => i == Other(elem)
    case UNIX_FD => i == Other(elem)
    case VARIANT => i.Variant?
    case STRUCT => i.Struct?
    case ARRAY => i.Array?
    case DICT_ENTRY => i.Entry?
    case _ => i.Int? && i.t == elem
  }

  lemma ElementTypes(elem: Type, sub: seq<Arg>)
    ensures Typed(Array(elem, sub)) <==> AllTyped(sub) && forall i | i in sub :: ElementOf(i, elem)
  {
    forall i | Typed(i) ensures TypeOf(i) == elem <==> ElementOf(i, elem) {
    }
  }

  ghost predicate AllWellFormed(args: seq<Arg>) {
    forall a | a in args :: WellFormed(a)
  }

  // ----- the recursive reading

  /** lua_pushinteger takes a signed 64-bit number. */
  function Signed(n: int): int {
    if n >= 0x8000_0000_0000_0000 then n - 0x1_0000_0000_0000_0000 else n
  }

  /** The number that a number in a message reads as: the same one, or for a large unsigned one that differs by a
      multiple of 2^64. */
  ghost predicate SameNumber(t: Type, n: int, v: Value) {
    v.Integer? &&
    if t != UINT64 then v.n == n
    else -0x8000_0000_0000_0000 <= v.n < 0x8000_0000_0000_0000 && (n - v.n) % 0x1_0000_0000_0000_0000 == 0
  }

  /** What an argument of a basic type reads as; object paths, signatures and descriptors read as nil. */
  ghost predicate ReadsAs(a: Arg, v: Value) {
    match a
    case Byte(b) => v.String? && |v.bytes| == 1 && v.bytes[0] == b
    case Bool(b) => v.Boolean? && v.b == b
    case Int(t, n) => SameNumber(t, n, v)
    case Double(r) => v.Number? && v.r == r
    case Str(s) => v.String? && v.bytes == s
    case Other(_) => v == Nil
    case _ => false
  }

  lemma BasicReads(a: Arg)
    requires WellFormed(a) && Basic(a)
    ensures Readable(a) && !Lost(a) && ReadsAs(a, Decode(a))
  {
  }

  ghost function Decode(a: Arg): (v: Value)
    requires WellFormed(a) && Readable(a) && !a.Entry? && !Lost(a)
    decreases a, 0
  {
    match a
    case Byte(b) => String([b])
    case Bool(b) => Boolean(b)
    case Int(_, n) => Integer(Signed(n))
    case Double(r) => Number(r)
    case Str(s) => String(s)
    case Other(_) => Nil
    case Variant(sub) => assert AllWellFormed(sub) && AllReadable(sub) && sub[0] in sub; Decode(sub[0])
    case Struct(sub) => Table(List(Decoded(sub)))
    case Array(elem, sub) =>
      WellFormedIsTyped(a);
      ElementsAre(a);
      if elem == BYTE then String(Bytes(sub))
      else if elem == DICT_ENTRY then Table(Dict(Decoded(sub)))
      else Table(List(Decoded(sub)))
  }

  function Bytes(items: seq<Arg>): (r: seq<nat>)
    requires forall i | i in items :: i.Byte?
    ensures |r| == |items| && forall i | 0 <= i < |items| :: r[i] == items[i].byte
  {
    if items == [] then [] else Bytes(items[..|items| - 1]) + [items[|items| - 1].byte]
  }

  /** The values for a list of arguments: two for an entry of a dictionary, none where one is lost, else one. */
  ghost function Decoded(args: seq<Arg>): (r: seq<Value>)
    requires AllWellFormed(args) && AllReadable(args)
    ensures (forall a | a in args :: a.Entry?) ==> |r| == 2 * |args|
    ensures (forall a | a in args :: !a.Entry? && !Lost(a)) ==> |r| == |args|
    decreases args, 2
  {
    if args == [] then []
    else
      var last := args[|args| - 1];
      assert last in args;
      Decoded(args[..|args| - 1]) + Pushed(last)
  }

  ghost function Pushed(a: Arg): (r: seq<Value>)
    requires WellFormed(a) && Readable(a)
    ensures |r| == if a.Entry? then 2 else if Lost(a) then 0 else 1
    decreases a, 1
  {
    if a.Entry? then
      assert AllWellFormed(a.sub) && AllReadable(a.sub) && a.sub[0] in a.sub && a.sub[1] in a.sub;
      [Decode(a.sub[0]), Decode(a.sub[1])]
    else if Lost(a) then []
    else [Decode(a)]
  }

  /** The number of arguments is the number of values exactly when none is lost. */
  lemma {:induction false} CountsValues(args: seq<Arg>)
    requires AllWellFormed(args) && AllReadable(args) && forall a | a in args :: !a.Entry?
    ensures |Decoded(args)| <= |args|
    ensures |Decoded(args)| == |args| <==> forall a | a in args :: !Lost(a)
  {
    hide Pushed;
    if args != [] {
      var n := |args| - 1;
      CountsValues(args[..n]);
      assert args[n] in args;
      LostFrom(args);
      hide Lost, Readable, WellFormed, AllWellFormed, AllReadable;
    }
  }

  /** A string and an array of file descriptors are counted as two arguments and leave one value. */
  lemma DescriptorsAreLost(args: seq<Arg>)
    requires args == [Str([120]), Array(UNIX_FD, [])]
    ensures AllWellFormed(args) && AllReadable(args) && |args| == 2 && |Decoded(args)| == 1
  {
    assert args[..1] == [Str([120])] && args[..1][..0] == [];
    assert Pushed(args[0]) == [String([120])] && Pushed(args[1]) == [];
    assert Decoded(args) == Decoded(args[..1]) + Pushed(args[1]);
    DecodedOne(args[..1]);
  }

  /** A dictionary by object paths is a message that raises an error. */
  lemma PathKeysRaise(paths: Arg, entry: Arg)
    requires entry == Entry([Other(OBJECT_PATH), Bool(true)]) && paths == Array(DICT_ENTRY, [entry])
    ensures WellFormed(paths) && !Readable(paths)
  {
    assert entry in paths.sub && entry.sub[0].Other?;
    assert forall a | a in entry.sub :: WellFormed(a) && !Lost(a);
    assert AllWellFormed(entry.sub) && WellFormed(entry);
  }

  lemma LostFrom(args: seq<Arg>)
    requires args != []
    ensures (forall a | a in args :: !Lost(a)) <==>
      !Lost(args[|args| - 1]) && forall a | a in args[..|args| - 1] :: !Lost(a)
  {
    var n := |args| - 1;
    assert args[n] in args;
    assert forall a | a in args :: a == args[n] || a in args[..n];
    hide Lost;
  }

  /** Numbered from 1; nil leaves a gap. */
  ghost function List(values: seq<Value>): map<Value, Value> {
    ListFrom(values, 0)
  }

  ghost function ListFrom(values: seq<Value>, from: nat): map<Value, Value> {
    map i | from < i <= |values| && values[i - 1] != Nil :: Integer(i) := values[i - 1]
  }

  /** Keys and values in turn, where the first of several values for a key counts. */
  ghost function Dict(pairs: seq<Value>): map<Value, Value> {
    if |pairs| < 2 then map[] else Stored(Dict(pairs[2..]), pairs[0], pairs[1])
  }

  function RawGet(t: map<Value, Value>, k: Value): Value {
    if k in t then t[k] else Nil
  }

  function Name(pairs: seq<Value>, i: nat): Value
    requires 2 * i + 1 < |pairs|
  {
    pairs[2 * i]
  }

  lemma NameInTail(pairs: seq<Value>, i: nat)
    requires 2 * i + 3 < |pairs|
    ensures Name(pairs[2..], i) == Name(pairs, i + 1)
  {
  }

  /** A dictionary has for each key what the first entry with that key says. */
  lemma {:induction false} FirstEntryWins(pairs: seq<Value>, i: nat)
    requires 2 * i + 1 < |pairs|
    requires forall j | 0 <= j < i :: Key(Name(pairs, j)) != Key(Name(pairs, i))
    ensures RawGet(Dict(pairs), Key(Name(pairs, i))) == pairs[2 * i + 1]
  {
    if i > 0 {
      forall j | 0 <= j < i {
        NameInTail(pairs, j);
      }
      FirstEntryWins(pairs[2..], i - 1);
      assert Key(Name(pairs, 0)) != Key(Name(pairs, i));
    }
  }

  /** And nothing for a key that no entry has. */
  lemma {:induction false} NoOtherKeys(pairs: seq<Value>, k: Value)
    requires forall j | 0 <= j && 2 * j + 1 < |pairs| :: Key(Name(pairs, j)) != k
    ensures RawGet(Dict(pairs), k) == Nil
  {
    if |pairs| >= 2 {
      forall j | 0 <= j && 2 * j + 3 < |pairs| {
        NameInTail(pairs, j);
      }
      NoOtherKeys(pairs[2..], k);
      assert Key(Name(pairs, 0)) != k;
    }
  }

  lemma ListSnoc(values: seq<Value>, v: Value)
    ensures List(values + [v]) == Stored(List(values), Integer(|values| + 1), v)
  {
  }

  lemma DecodedSnoc(args: seq<Arg>, i: nat)
    requires i < |args| && AllWellFormed(args) && AllReadable(args[..i + 1])
    ensures AllWellFormed(args[..i]) && AllWellFormed(args[..i + 1]) && WellFormed(args[i])
    ensures AllReadable(args[..i]) && Readable(args[i])
    ensures Decoded(args[..i + 1]) == Decoded(args[..i]) + Pushed(args[i])
  {
    assert args[..i + 1][..i] == args[..i];
    assert args[i] in args && args[..i + 1][i] == args[i];
  }

  ghost predicate Entries(args: seq<Arg>) {
    AllWellFormed(args) && AllReadable(args) && forall a | a in args :: a.Entry?
  }

  ghost function KeyAt(entries: seq<Arg>, i: nat): Value
    requires Entries(entries) && i < |entries|
  {
    assert entries[i] in entries;
    Pushed(entries[i])[0]
  }

  ghost function ValueAt(entries: seq<Arg>, i: nat): Value
    requires Entries(entries) && i < |entries|
  {
    assert entries[i] in entries;
    Pushed(entries[i])[1]
  }

  lemma {:induction false} DecodedAt(entries: seq<Arg>, i: nat)
    requires Entries(entries) && i < |entries|
    ensures Name(Decoded(entries), i) == KeyAt(entries, i) && Decoded(entries)[2 * i + 1] == ValueAt(entries, i)
  {
    var n := |entries| - 1;
    assert entries[n] in entries;
    if i < n {
      DecodedAt(entries[..n], i);
    }
  }

  /** Reading a dictionary from a message: the table has for each key the value of its first entry. */
  lemma DictionaryReads(entries: seq<Arg>, i: nat)
    requires Entries(entries) && i < |entries|
    requires forall j | 0 <= j < i :: Key(KeyAt(entries, j)) != Key(KeyAt(entries, i))
    ensures RawGet(Dict(Decoded(entries)), Key(KeyAt(entries, i))) == ValueAt(entries, i)
  {
    DecodedAt(entries, i);
    forall j | 0 <= j < i {
      DecodedAt(entries, j);
    }
    hide *;
    FirstEntryWins(Decoded(entries), i);
  }

  /** The key of an entry is nil when the code has no case for its type. */
  lemma KeysAreSet(entries: seq<Arg>)
    requires Entries(entries)
    ensures forall i | 0 <= i < |entries| :: |entries[i].sub| == 2
    ensures forall i | 0 <= i < |entries| :: Name(Decoded(entries), i) == Nil <==> entries[i].sub[0].Other?
  {
    forall i | 0 <= i < |entries|
      ensures |entries[i].sub| == 2 && (Name(Decoded(entries), i) == Nil <==> entries[i].sub[0].Other?)
    {
      DecodedAt(entries, i);
      NamedIsSet(entries[i]);
    }
  }

  lemma NamedIsSet(a: Arg)
    requires WellFormed(a) && Readable(a) && a.Entry?
    ensures |a.sub| == 2 && (Pushed(a)[0] == Nil <==> a.sub[0].Other?)
  {
    assert AllWellFormed(a.sub) && AllReadable(a.sub) && a.sub[0] in a.sub;
  }

  lemma DecodedOne(sub: seq<Arg>)
    requires |sub| == 1 && AllWellFormed(sub) && AllReadable(sub)
    ensures Decoded(sub) == Pushed(sub[0])
  {
    assert sub[..0] == [];
  }

  lemma DecodedTwo(sub: seq<Arg>)
    requires |sub| == 2 && AllWellFormed(sub) && AllReadable(sub)
    requires !sub[0].Entry? && !sub[1].Entry? && !Lost(sub[0]) && !Lost(sub[1])
    ensures Decoded(sub) == [Decode(sub[0]), Decode(sub[1])]
  {
    DecodedOne(sub[..1]);
    DecodedSnoc(sub, 1);
    assert sub[..2] == sub;
  }

  // ----- what the walk does to the stack

  /** The stack it leaves, the error of a nil key, or an index of lua_insert below the stack, which Lua does not
      check. */
  datatype Reading = Stack(values: seq<Value>) | Raised | Outside

  ghost function ReadAll(args: seq<Arg>, st: seq<Value>): Reading
    requires AllTyped(args)
    decreases args, 2
  {
    if args == [] then Stack(st)
    else
      var n := |args| - 1;
      assert args[n] in args;
      match ReadAll(args[..n], st)
      case Stack(s) => Read(args[n], s)
      case other => other
  }

  ghost function Read(a: Arg, st: seq<Value>): Reading
    requires Typed(a)
    decreases a, 1
  {
    match a
    case Byte(b) => Stack(st + [String([b])])
    case Bool(b) => Stack(st + [Boolean(b)])
    case Int(_, n) => Stack(st + [Integer(Signed(n))])
    case Double(x) => Stack(st + [Number(x)])
    case Str(s) => Stack(st + [String(s)])
    case Other(_) => Stack(st + [Nil])
    case Variant(sub) => ReadAll(sub, st)
    case Entry(sub) => ReadAll(sub, st)
    case Struct(sub) => Packed(ReadAll(sub, st), |sub|)
    case Array(elem, sub) =>
      ElementsAre(a);
      if elem == BYTE then Stack(st + [String(Bytes(sub))])
      else if elem == UNIX_FD then Stack(st)
      else if Fixed(elem) then Stack(st + [Table(List(Decoded(sub)))])
      else if elem == DICT_ENTRY then PackedPairs(ReadAll(sub, st), |sub|)
      else Packed(ReadAll(sub, st), |sub|)
  }

  /** As many values as there are members go into a list, whether the members have pushed them or not. */
  ghost function Packed(r: Reading, n: nat): Reading {
    match r
    case Stack(s) => if |s| < n then Outside else Stack(s[..|s| - n] + [Table(List(s[|s| - n..]))])
    case _ => r
  }

  ghost function PackedPairs(r: Reading, n: nat): Reading {
    match r
    case Stack(s) =>
      if |s| < 2 * n then Outside
      else
        var pairs := s[|s| - 2 * n..];
        if forall i | 0 <= i < n :: Name(pairs, i) != Nil then Stack(s[..|s| - 2 * n] + [Table(Dict(pairs))])
        else Raised
    case _ => r
  }

  lemma ReadNext(args: seq<Arg>, i: nat, st: seq<Value>)
    requires i < |args| && AllTyped(args)
    ensures args[i] in args && AllTyped(args[..i]) && AllTyped(args[..i + 1])
    ensures ReadAll(args[..i + 1], st) ==
      match ReadAll(args[..i], st) { case Stack(s) => Read(args[i], s) case other => other }
  {
    assert args[..i + 1][..i] == args[..i] && args[..i + 1][i] == args[i];
    hide Read;
  }

  /** Once it has failed, the walk fails. */
  lemma {:induction false} Stuck(args: seq<Arg>, i: nat, st: seq<Value>)
    requires i <= |args| && AllTyped(args) && AllTyped(args[..i]) && !ReadAll(args[..i], st).Stack?
    ensures ReadAll(args, st) == ReadAll(args[..i], st)
    decreases |args| - i
  {
    if i < |args| {
      ReadNext(args, i, st);
      hide ReadAll, Read;
      Stuck(args, i + 1, st);
    } else {
      assert args[..i] == args;
    }
  }

  /** A well-formed message: the values of the arguments, or the error if a key is nil. */
  lemma {:induction false} ReadAllMeans(args: seq<Arg>, st: seq<Value>)
    requires AllWellFormed(args)
    ensures AllTyped(args)
    ensures ReadAll(args, st) == if AllReadable(args) then Stack(st + Decoded(args)) else Raised
    decreases args, 2
  {
    AllWellFormedIsTyped(args);
    if args == [] {
      assert st + [] == st;
    } else {
      var n := |args| - 1;
      assert args[n] in args && args == args[..n] + [args[n]];
      OneMore(args, n);
      assert AllReadable(args) ==> AllReadable(args[..n]);
      ReadAllMeans(args[..n], st);
      if AllReadable(args[..n]) {
        ReadMeans(args[n], st + Decoded(args[..n]));
        if Readable(args[n]) {
          Assoc(st, Decoded(args[..n]), Pushed(args[n]));
        }
      }
      hide Read, Readable, Pushed;
    }
  }

  lemma {:induction false} ReadMeans(a: Arg, st: seq<Value>)
    requires WellFormed(a)
    ensures Typed(a)
    ensures Read(a, st) == if Readable(a) then Stack(st + Pushed(a)) else Raised
    decreases a, 1
  {
    WellFormedIsTyped(a);
    match a {
      case Variant(sub) => {
        ReadAllMeans(sub, st);
        if AllReadable(sub) {
          DecodedOne(sub);
        }
      }
      case Entry(sub) => {
        ReadAllMeans(sub, st);
        if AllReadable(sub) {
          DecodedTwo(sub);
        }
      }
      case Struct(sub) => {
        ReadAllMeans(sub, st);
        if AllReadable(sub) {
          PackedOnTop(st, Decoded(sub));
        }
      }
      case Array(elem, sub) => {
        ReadArrayMeans(a, st);
      }
      case _ => {
      }
    }
  }

  lemma {:induction false} ReadArrayMeans(a: Arg, st: seq<Value>)
    requires WellFormed(a) && a.Array? && Typed(a)
    ensures Read(a, st) == if Readable(a) then Stack(st + Pushed(a)) else Raised
    decreases a, 0
  {
    ElementsAre(a);
    hide List, Dict, Bytes, Decoded, WellFormed, Typed;
    if Fixed(a.elem) {
      assert st + [] == st;
    } else {
      ReadAllMeans(a.sub, st);
      if AllReadable(a.sub) {
        if a.elem == DICT_ENTRY {
          DictMeans(a, st);
        } else {
          PackedOnTop(st, Decoded(a.sub));
        }
      }
    }
  }

  lemma DictMeans(a: Arg, st: seq<Value>)
    requires a.Array? && a.elem == DICT_ENTRY && Entries(a.sub)
    ensures PackedPairs(Stack(st + Decoded(a.sub)), |a.sub|)
         == if Readable(a) then Stack(st + [Table(Dict(Decoded(a.sub)))]) else Raised
  {
    var sub := a.sub;
    KeysAreSet(sub);
    KeysReadable(a);
    hide List, Dict, Decoded, Readable, PackedPairs;
    PairsOnTop(st, Decoded(sub), |sub|);
  }

  lemma KeysReadable(a: Arg)
    requires a.Array? && Entries(a.sub) && forall i | 0 <= i < |a.sub| :: |a.sub[i].sub| == 2
    ensures Readable(a) <==> forall i | 0 <= i < |a.sub| :: !a.sub[i].sub[0].Other?
  {
    assert forall i | 0 <= i < |a.sub| :: a.sub[i] in a.sub;
    hide WellFormed;
  }

  lemma PackedOnTop(st: seq<Value>, values: seq<Value>)
    ensures Packed(Stack(st + values), |values|) == Stack(st + [Table(List(values))])
  {
    assert (st + values)[..|st|] == st && (st + values)[|st|..] == values;
  }

  lemma PairsOnTop(st: seq<Value>, pairs: seq<Value>, n: nat)
    requires |pairs| == 2 * n
    ensures PackedPairs(Stack(st + pairs), n) ==
      if forall i | 0 <= i < n :: Name(pairs, i) != Nil then Stack(st + [Table(Dict(pairs))]) else Raised
  {
    assert (st + pairs)[..|st|] == st && (st + pairs)[|st|..] == pairs;
  }

  lemma OneMore(args: seq<Arg>, i: nat)
    requires i < |args|
    ensures args[i] in args && (AllReadable(args) ==> Readable(args[i]))
    ensures AllReadable(args[..i]) && Readable(args[i]) ==> AllReadable(args[..i + 1])
  {
    hide Readable;
  }

  /** None of the arguments is the entry of a dictionary or leaves no value. */
  ghost predicate OneValueEach(args: seq<Arg>) {
    forall a | a in args :: !a.Entry? && !Lost(a)
  }

  /** One value for each argument has been pushed, for those of a basic type what they read as. */
  ghost predicate ReadsBasics(args: seq<Arg>, before: seq<Value>, after: seq<Value>) {
    && |after| == |before| + |args| && after[..|before|] == before
    && forall i | 0 <= i < |args| && Basic(args[i]) :: ReadsAs(args[i], after[|before| + i])
  }

  /** Where each argument leaves one value, the i-th value is that of the i-th argument. */
  lemma {:induction false} OneEach(args: seq<Arg>, i: nat)
    requires AllWellFormed(args) && AllReadable(args) && OneValueEach(args) && i < |args|
    ensures args[i] in args && Decoded(args)[i] == Decode(args[i])
  {
    var n := |args| - 1;
    assert args[n] in args && args[i] in args;
    if i < n {
      OneEach(args[..n], i);
    }
  }

  lemma BasicRead(args: seq<Arg>, i: nat)
    requires AllWellFormed(args) && AllReadable(args) && OneValueEach(args) && i < |args|
    requires Basic(args[i])
    ensures |Decoded(args)| == |args| && ReadsAs(args[i], Decoded(args)[i])
  {
    assert args[i] in args;
    OneEach(args, i);
    BasicReads(args[i]);
  }

  lemma BasicsRead(args: seq<Arg>, st: seq<Value>)
    requires AllWellFormed(args)
    ensures AllReadable(args) && OneValueEach(args) ==> ReadsBasics(args, st, st + Decoded(args))
  {
    if AllReadable(args) && OneValueEach(args) {
      assert |Decoded(args)| == |args|;
      hide WellFormed, AllReadable, OneValueEach, ReadsAs, Decoded;
      forall i | 0 <= i < |args| && Basic(args[i]) ensures ReadsAs(args[i], (st + Decoded(args))[|st| + i]) {
        BasicRead(args, i);
      }
    }
  }

  // ----- the walk over the message

  /** How the walk ends: in the last case the code would go on with what lies below the stack. */
  datatype Ending = Done | Error | BadIndex

  ghost predicate EndsAs(end: Ending, stack: seq<Value>, r: Reading) {
    match r
    case Stack(s) => end == Done && stack == s
    case Raised => end == Error
    case Outside => end == BadIndex
  }

  /**
   Leaves the values of the arguments on the stack, above what was there, and counts the arguments; but a member
   that is lost makes its container take a value from below. A nil key raises an error.
   */
  method MessageIter(L: State, iter: seq<Arg>) returns (end: Ending, nargs: nat)
    requires AllTyped(iter)
    modifies L
    ensures EndsAs(end, L.stack, ReadAll(iter, old(L.stack))) && (end == Done ==> nargs == |iter|)
    ensures AllWellFormed(iter) ==> end == if AllReadable(iter) then Done else Error
    ensures AllWellFormed(iter) && AllReadable(iter) ==> L.stack == old(L.stack) + Decoded(iter)
    ensures AllWellFormed(iter) && AllReadable(iter) && OneValueEach(iter) ==>
      ReadsBasics(iter, old(L.stack), L.stack)
    decreases iter, 2
  {
    ghost var base := L.stack;
    if AllWellFormed(iter) {
      ReadAllMeans(iter, base);
      BasicsRead(iter, base);
    }
    assert iter[..0] == [] && ReadAll(iter[..0], base) == Stack(base);
    hide Decoded, Read, ReadAll, Typed, WellFormed, Readable, OneValueEach, ReadsBasics;
    end, nargs := Done, 0;
    var pos := 0;
    while true
      invariant pos <= |iter| && (pos == |iter| ==> iter == [])
      invariant end == Done && nargs == pos && AllTyped(iter[..pos])
      invariant ReadAll(iter[..pos], base) == Stack(L.stack)
      decreases |iter| - pos
    {
      if pos < |iter| {
        ReadNext(iter, pos, base);
        end := MessageItem(L, iter[pos]);
        if end != Done {
          Stuck(iter, pos + 1, base);
          return;
        }
        nargs := nargs + 1;
      }
      pos := pos + 1;
      if pos >= |iter| {
        break;
      }
    }
    assert iter[..|iter|] == iter;
  }

  /** One value has been pushed, which is what the argument reads as. */
  ghost predicate PushedBasic(a: Arg, before: seq<Value>, after: seq<Value>) {
    |after| == |before| + 1 && after[..|before|] == before && ReadsAs(a, Last(after))
  }

  method MessageItem(L: State, a: Arg) returns (end: Ending)
    requires Typed(a)
    modifies L
    ensures EndsAs(end, L.stack, Read(a, old(L.stack)))
    ensures Basic(a) ==> end == Done && PushedBasic(a, old(L.stack), L.stack)
    ensures a.Int? && a.t != UINT64 ==> end == Done && L.stack == old(L.stack) + [Integer(a.n)]
    decreases a, 1
  {
    end := Done;
    match a {
      case Byte(b) => {
        L.Push(String([b]));
      }
      case Bool(b) => {
        L.Push(Boolean(b));
      }
      case Int(_, n) => {
        L.Push(Integer(Signed(n)));
      }
      case Double(x) => {
        L.Push(Number(x));
      }
      case Str(s) => {
        L.Push(String(s));
      }
      case Other(_) => {
        L.Push(Nil);
      }
      case Variant(sub) => {
        var n;
        end, n := MessageIter(L, sub);
      }
      case Entry(sub) => {
        var n;
        end, n := MessageIter(L, sub);
      }
      case Struct(sub) => {
        end := MessageMembers(L, sub);
      }
      case Array(elem, sub) => {
        end := MessageArray(L, elem, sub);
      }
    }
  }

  /** The members of a struct or an array, which become a list. */
  method MessageMembers(L: State, sub: seq<Arg>) returns (end: Ending)
    requires AllTyped(sub)
    modifies L
    ensures EndsAs(end, L.stack, Packed(ReadAll(sub, old(L.stack)), |sub|))
    decreases sub, 3
  {
    hide ReadAll, Decoded, List;
    var n;
    end, n := MessageIter(L, sub);
    if end == Done {
      if n > |L.stack| {
        return BadIndex;
      }
      PackList(L, n, L.stack[|L.stack| - n..]);
    }
  }

  method MessageArray(L: State, elem: Type, sub: seq<Arg>) returns (end: Ending)
    requires Typed(Array(elem, sub))
    modifies L
    ensures EndsAs(end, L.stack, Read(Array(elem, sub), old(L.stack)))
    decreases Array(elem, sub), 0
  {
    end := Done;
    ElementsAre(Array(elem, sub));
    hide Dict, List, Bytes, ReadAll, Decoded;
    if Fixed(elem) {
      if elem == BYTE {
        var s := Bytes(sub);
        L.Push(String(s));
      } else if elem != UNIX_FD {
        PackFixed(L, sub);
      }
    } else if elem == DICT_ENTRY {
      var n;
      end, n := MessageIter(L, sub);
      if end == Done {
        if 2 * n > |L.stack| {
          return BadIndex;
        }
        var ok := PackDict(L, n, L.stack[|L.stack| - 2 * n..]);
        end := if ok then Done else Error;
      }
    } else {
      end := MessageMembers(L, sub);
    }
  }

  /** Puts the n values on top into a new table, the one on top with number n. */
  method PackList(L: State, n: int, ghost values: seq<Value>)
    requires 0 <= n == |values| <= |L.stack| && values == L.stack[|L.stack| - n..]
    modifies L
    ensures L.stack == old(L.stack[..|L.stack| - n]) + [Table(List(values))]
  {
    ghost var base := L.stack[..|L.stack| - n];
    NewTable(L, -n - 1, base, values);
    assert values[..n] == values && ListFrom(values, n) == map[];
    var i := n;
    hide ListFrom, Stored;
    while i > 0
      invariant 0 <= i <= n
      invariant L.stack == base + [Table(ListFrom(values, i))] + values[..i]
    {
      ListFromStep(values, i);
      StoreItem(L, -i - 1, i, base, ListFrom(values, i), values);
      i := i - 1;
    }
  }

  /** Puts the n pairs on top into a new table, the pair on top first. */
  method PackDict(L: State, n: int, ghost pairs: seq<Value>) returns (ok: bool)
    requires 0 <= n && |pairs| == 2 * n <= |L.stack| && pairs == L.stack[|L.stack| - 2 * n..]
    modifies L
    ensures ok <==> forall i | 0 <= i < n :: Name(pairs, i) != Nil
    ensures ok ==> L.stack == old(L.stack[..|L.stack| - 2 * n]) + [Table(Dict(pairs))]
  {
    hide Partial, Dict, List, Decoded;
    ghost var base := L.stack[..|L.stack| - 2 * n];
    PairsLeft(base, pairs);
    NewTable(L, -(n * 2) - 1, base, pairs);
    ok := true;
    var i := 0;
    while i < n
      invariant 0 <= i <= n && forall j | n - i <= j < n :: Name(pairs, j) != Nil
      invariant L.stack == Partial(base, pairs, 2 * n - 2 * i)
    {
      ok := StorePair(L, -(n * 2) - 1 + i * 2, base, pairs, n - i - 1);
      if !ok {
        return;
      }
      i := i + 1;
    }
  }

  /** The stack while the first m of the names and values are left. */
  ghost function Partial(base: seq<Value>, pairs: seq<Value>, m: nat): seq<Value>
    requires m <= |pairs|
  {
    base + [Table(Dict(pairs[m..]))] + pairs[..m]
  }

  lemma PairsLeft(base: seq<Value>, pairs: seq<Value>)
    ensures Partial(base, pairs, |pairs|) == base + [Table(map[])] + pairs
    ensures Partial(base, pairs, 0) == base + [Table(Dict(pairs))]
  {
    assert pairs[..|pairs|] == pairs && Dict(pairs[|pairs|..]) == map[] && pairs[0..] == pairs;
  }

  /** Puts an empty table below the values on top. */
  method NewTable(L: State, at: int, ghost base: seq<Value>, ghost values: seq<Value>)
    requires L.stack == base + values && at == -|values| - 1
    modifies L
    ensures L.stack == base + [Table(map[])] + values
  {
    L.Push(Table(map[]));
    L.Insert(at);
  }

  lemma ListFromStep(values: seq<Value>, i: nat)
    requires 0 < i <= |values|
    ensures ListFrom(values, i - 1) == Stored(ListFrom(values, i), Integer(i), values[i - 1])
  {
    var t := ListFrom(values, i);
    assert Key(Integer(i)) == Integer(i) && Integer(i) !in t;
    if values[i - 1] == Nil {
      assert t - {Integer(i)} == t;
    }
    hide Key;
  }

  /** Stores the i-th value, which is on top, in the table below the values. */
  method StoreItem(L: State, at: int, i: int, ghost base: seq<Value>, ghost t: map<Value, Value>,
      ghost values: seq<Value>)
    requires 0 < i <= |values| && at == -i - 1
    requires L.stack == base + [Table(t)] + values[..i]
    modifies L
    ensures L.stack == base + [Table(Stored(t, Integer(i), values[i - 1]))] + values[..i - 1]
  {
    hide Stored;
    L.RawSetI(at, i);
  }

  /** Stores the pair on top, which is the k-th, in the table below the pairs. */
  method StorePair(L: State, at: int, ghost base: seq<Value>, ghost pairs: seq<Value>, ghost k: nat)
    returns (ok: bool)
    requires 2 * k + 2 <= |pairs| && at == -(2 * k + 2) - 1
    requires L.stack == Partial(base, pairs, 2 * k + 2)
    modifies L
    ensures ok <==> Name(pairs, k) != Nil
    ensures ok ==> L.stack == Partial(base, pairs, 2 * k)
  {
    DictStep(pairs, 2 * k);
    hide Stored, Dict;
    assert L.stack == base + [Table(Dict(pairs[2 * k + 2..]))] + pairs[..2 * k + 2];
    var error := L.RawSet(at);
    ok := !error;
  }

  lemma DictStep(pairs: seq<Value>, i: nat)
    requires i + 2 <= |pairs|
    ensures Dict(pairs[i..]) == Stored(Dict(pairs[i + 2..]), pairs[i], pairs[i + 1])
  {
    assert pairs[i..][2..] == pairs[i + 2..];
  }

  /** Stores the value on top in the table below it. */
  method StoreNext(L: State, i: int, ghost base: seq<Value>, ghost t: map<Value, Value>, ghost v: Value)
    requires L.stack == base + [Table(t)] + [v]
    modifies L
    ensures L.stack == base + [Table(Stored(t, Integer(i), v))]
  {
    hide Stored;
    L.RawSetI(-2, i);
  }

  /** Makes a table of numbers or booleans, one element after the other. */
  method PackFixed(L: State, data: seq<Arg>)
    requires AllWellFormed(data) && AllReadable(data) && forall a | a in data :: a.Bool? || a.Int? || a.Double?
    modifies L
    ensures L.stack == old(L.stack) + [Table(List(Decoded(data)))]
    ensures ListsBasics(data, Last(L.stack))
  {
    ghost var base := L.stack;
    FixedReads(data);
    L.Push(Table(map[]));
    var i := 0;
    while i < |data|
      invariant 0 <= i <= |data| && AllReadable(data[..i])
      invariant L.stack == base + [Table(List(Decoded(data[..i])))]
    {
      FixedSnoc(data, i);
      hide List, Decode, Decoded, Stored, Readable, WellFormed;
      PushFixed(L, data[i]);
      StoreNext(L, i + 1, base, List(Decoded(data[..i])), Decode(data[i]));
      i := i + 1;
    }
    assert data[..i] == data;
  }

  /** A list of what the arguments read as, numbered from one, and nothing else. */
  ghost predicate ListsBasics(data: seq<Arg>, v: Value) {
    && v.Table?
    && (forall k :: k in v.fields <==> k.Integer? && 1 <= k.n <= |data|)
    && (forall i | 0 <= i < |data| :: Integer(i + 1) in v.fields && ReadsAs(data[i], v.fields[Integer(i + 1)]))
  }

  lemma FixedReads(data: seq<Arg>)
    requires AllWellFormed(data) && AllReadable(data) && forall a | a in data :: a.Bool? || a.Int? || a.Double?
    ensures ListsBasics(data, Table(List(Decoded(data))))
  {
    var values := Decoded(data);
    FixedCount(data);
    hide *;
    forall i | 0 <= i < |data| ensures ReadsAs(data[i], values[i]) && values[i] != Nil {
      FixedReadsAt(data, i);
    }
    ListsAll(data, values);
  }

  lemma ListsAll(data: seq<Arg>, values: seq<Value>)
    requires |values| == |data| && forall i | 0 <= i < |data| :: ReadsAs(data[i], values[i]) && values[i] != Nil
    ensures ListsBasics(data, Table(List(values)))
  {
    hide ReadsAs;
    ListOfAll(values);
  }

  lemma FixedCount(data: seq<Arg>)
    requires AllWellFormed(data) && AllReadable(data) && forall a | a in data :: a.Bool? || a.Int? || a.Double?
    ensures |Decoded(data)| == |data|
  {
    hide WellFormed, Readable, Decoded;
    forall a | a in data ensures !a.Entry? && !Lost(a) {
      FixedIsOne(a);
    }
  }

  lemma FixedReadsAt(data: seq<Arg>, i: nat)
    requires AllWellFormed(data) && AllReadable(data) && forall a | a in data :: a.Bool? || a.Int? || a.Double?
    requires i < |data| == |Decoded(data)|
    ensures ReadsAs(data[i], Decoded(data)[i]) && Decoded(data)[i] != Nil
  {
    assert data[i] in data;
    forall a | a in data ensures !a.Entry? && !Lost(a) {
      FixedIsOne(a);
    }
    BasicRead(data, i);
  }

  lemma ListOfAll(values: seq<Value>)
    requires forall i | 0 <= i < |values| :: values[i] != Nil
    ensures forall k :: k in List(values) <==> k.Integer? && 1 <= k.n <= |values|
    ensures forall i | 0 <= i < |values| :: Integer(i + 1) in List(values) && List(values)[Integer(i + 1)] == values[i]
  {
    forall k: Value | k.Integer? && 1 <= k.n <= |values| ensures k in List(values) {
      assert k == Integer(k.n) && values[k.n - 1] != Nil;
    }
  }

  lemma FixedSnoc(data: seq<Arg>, i: nat)
    requires i < |data| && AllWellFormed(data) && AllReadable(data)
    requires forall a | a in data :: a.Bool? || a.Int? || a.Double?
    ensures AllReadable(data[..i + 1]) && data[i] in data
    ensures List(Decoded(data[..i + 1])) == Stored(List(Decoded(data[..i])), Integer(i + 1), Decode(data[i]))
  {
    OneMore(data, i);
    TakenReadable(data, i);
    hide *;
    DecodedSnoc(data, i);
    forall a | a in data[..i] + [data[i]] ensures !a.Entry? && !Lost(a) {
      FixedIsOne(a);
    }
    FixedIsOne(data[i]);
    assert forall a | a in data[..i] :: a in data[..i] + [data[i]];
    assert |Decoded(data[..i])| == i;
    ListSnoc(Decoded(data[..i]), Decode(data[i]));
  }

  lemma TakenReadable(data: seq<Arg>, i: nat)
    requires AllReadable(data) && i < |data|
    ensures AllReadable(data[..i]) && AllReadable(data[..i + 1])
  {
    hide Readable;
  }

  lemma FixedIsOne(a: Arg)
    requires a.Bool? || a.Int? || a.Double?
    ensures !a.Entry? && !Lost(a)
    ensures WellFormed(a) && Readable(a) ==> Pushed(a) == [Decode(a)]
  {
  }

  method PushFixed(L: State, a: Arg)
    requires WellFormed(a) && (a.Bool? || a.Int? || a.Double?)
    modifies L
    ensures L.stack == old(L.stack) + [Decode(a)]
  {
    match a {
      case Bool(b) => {
        L.Push(Boolean(b));
      }
      case Int(_, n) => {
        L.Push(Integer(Signed(n)));
      }
      case Double(r) => {
        L.Push(Number(r));
      }
    }
  }

  /**
   A string and then a struct whose only member is an array of file descriptors: the member is counted and pushes
   nothing, so that the string ends up in the struct.
   */
  method MemberTakesValue(L: State, s: seq<nat>) returns (nargs: nat)
    modifies L
    ensures nargs == 2 && L.stack == old(L.stack) + [Table(map[Integer(1) := String(s)])]
  {
    var end;
    StructAfterString(s, L.stack);
    hide *;
    end, nargs := MessageIter(L, [Str(s), Struct([Array(UNIX_FD, [])])]);
    EndsDone(end, L.stack, old(L.stack) + [Table(map[Integer(1) := String(s)])]);
  }

  lemma EndsDone(end: Ending, stack: seq<Value>, s: seq<Value>)
    requires EndsAs(end, stack, Stack(s))
    ensures end == Done && stack == s
  {
  }

  lemma StructAfterString(s: seq<nat>, st: seq<Value>)
    ensures var args := [Str(s), Struct([Array(UNIX_FD, [])])];
      AllTyped(args) && |args| == 2 && ReadAll(args, st) == Stack(st + [Table(map[Integer(1) := String(s)])])
  {
    var inner, args := [Array(UNIX_FD, [])], [Str(s), Struct([Array(UNIX_FD, [])])];
    assert AllTyped(inner) && AllTyped(args);
    var top := st + [String(s)];
    assert args[..1] == [Str(s)] && args[..1][..0] == [] && inner[..0] == [];
    assert ReadAll(args[..1], st) == Stack(top);
    assert ReadAll(inner, top) == Stack(top);
    PackedOnTop(st, [String(s)]);
    assert ReadAll(args, st) == Read(args[1], top) == Packed(Stack(top), 1);
    ListOfOne(String(s));
  }

  lemma ListOfOne(v: Value)
    requires v != Nil
    ensures List([v]) == map[Integer(1) := v]
  {
    assert [v][0] == v && List([v]).Keys == {Integer(1)};
  }

  /** Without the string, and nothing else on the stack, there is nothing to take. */
  lemma NothingToTake(args: seq<Arg>)
    requires args == [Struct([Array(UNIX_FD, [])])]
    ensures AllTyped(args) && ReadAll(args, []) == Outside
  {
    var inner := [Array(UNIX_FD, [])];
    assert AllTyped(inner) && inner[..0] == [] && args[..0] == [];
    assert ReadAll(inner, []) == Stack([]);
  }
}
