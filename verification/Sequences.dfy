/** Facts about sequences shared by the other modules. */
module Sequences {

  ghost predicate NoDup<T>(s: seq<T>) {
    forall i, j :: 0 <= i < j < |s| ==> s[i] != s[j]
  }

  function Last<T>(s: seq<T>): T
    requires s != []
  {
    s[|s| - 1]
  }

  function ToSet<T>(s: seq<T>): set<T> {
    set x | x in s
  }

  lemma TakeNext<T>(s: seq<T>, i: nat)
    requires i < |s|
    ensures s[..i + 1] == s[..i] + [s[i]]
  {
  }

  lemma SplitAt<T>(s: seq<T>, i: nat)
    requires i < |s|
    ensures s == s[..i] + ([s[i]] + s[i + 1..])
  {
  }

  lemma TakeAppend<T>(a: seq<T>, b: seq<T>, n: nat)
    requires n <= |b|
    ensures (a + b)[..|a| + n] == a + b[..n]
  {
  }

  lemma DropAppend<T>(a: seq<T>, b: seq<T>, n: nat)
    requires n <= |b|
    ensures (a + b)[|a| + n..] == b[n..]
  {
  }

  lemma Assoc<T>(a: seq<T>, b: seq<T>, c: seq<T>)
    ensures a + b + c == a + (b + c)
  {
  }

  /** The sequence without the first occurrence of x. */
  function Without<T(==)>(s: seq<T>, x: T): (r: seq<T>)
    ensures x !in s ==> r == s
    ensures x in s ==> |r| == |s| - 1
  {
    if s == [] then []
    else if s[0] == x then s[1..]
    else [s[0]] + Without(s[1..], x)
  }

  lemma {:induction false} WithoutSplit<T>(a: seq<T>, x: T, b: seq<T>)
    requires x !in a
    ensures Without(a + [x] + b, x) == a + b
  {
    if a == [] {
      assert a + [x] + b == [x] + b && a + b == b;
      assert ([x] + b)[1..] == b;
    } else {
      var h, t := [a[0]], a[1..];
      assert a == h + t;
      hide Without;
      WithoutSplit(t, x, b);
      WithoutLater(a[0], t + [x] + b, x);
      Assoc(h, t, b);
      Assoc(h, t, [x]);
      Assoc(h, t + [x], b);
    }
  }

  lemma WithoutLater<T>(y: T, s: seq<T>, x: T)
    requires y != x
    ensures Without([y] + s, x) == [y] + Without(s, x)
  {
    assert ([y] + s)[1..] == s;
  }

  lemma WithoutAt<T>(s: seq<T>, i: nat)
    requires i < |s| && s[i] !in s[..i]
    ensures s[i] in s && Without(s, s[i]) == s[..i] + s[i + 1..]
  {
    hide Without;
    assert s == s[..i] + [s[i]] + s[i + 1..];
    WithoutSplit(s[..i], s[i], s[i + 1..]);
  }

  lemma {:induction false} FirstAt<T>(s: seq<T>, x: T) returns (i: nat)
    requires x in s
    ensures i < |s| && s[i] == x && x !in s[..i]
    decreases |s|
  {
    var n := |s| - 1;
    if x in s[..n] {
      i := FirstAt(s[..n], x);
      assert s[..n][..i] == s[..i];
    } else {
      assert s == s[..n] + [s[n]];
      i := n;
    }
  }

  /** r has all elements of s but one x, in their order. */
  ghost predicate TakenOut<T>(s: seq<T>, x: T, r: seq<T>) {
    exists i :: 0 <= i < |s| && s[i] == x && r == s[..i] + s[i + 1..]
  }

  lemma WithoutTakesOut<T>(s: seq<T>, x: T)
    requires x in s
    ensures TakenOut(s, x, Without(s, x))
  {
    var i := FirstAt(s, x);
    WithoutAt(s, i);
  }

  /** The sequence without any element of xs. */
  function Minus<T(==)>(s: seq<T>, xs: set<T>): (r: seq<T>) {
    if s == [] then []
    else if s[0] in xs then Minus(s[1..], xs)
    else [s[0]] + Minus(s[1..], xs)
  }

  lemma {:induction false} MinusAppend<T>(a: seq<T>, b: seq<T>, xs: set<T>)
    ensures Minus(a + b, xs) == Minus(a, xs) + Minus(b, xs)
  {
    if a == [] {
      assert a + b == b;
    } else {
      assert (a + b)[1..] == a[1..] + b;
      MinusAppend(a[1..], b, xs);
    }
  }

  lemma {:induction false} MinusMember<T>(s: seq<T>, xs: set<T>, x: T)
    ensures x in Minus(s, xs) <==> x in s && x !in xs
  {
    if s != [] {
      assert x in s <==> x == s[0] || x in s[1..];
      MinusMember(s[1..], xs, x);
    }
  }

  lemma {:induction false} MinusTwice<T>(s: seq<T>, xs: set<T>, ys: set<T>)
    ensures Minus(Minus(s, xs), ys) == Minus(s, xs + ys)
  {
    if s != [] {
      MinusTwice(s[1..], xs, ys);
    }
  }

  /** Each element once, at the place of its last occurrence. */
  function KeepLast<T(==)>(s: seq<T>): (r: seq<T>)
    ensures forall x | x in r :: x in s
    ensures forall x | x in s :: x in r
    ensures s != [] ==> r != [] && Last(r) == Last(s)
  {
    if s == [] then []
    else
      assert s == [s[0]] + s[1..];
      if s[0] in s[1..] then KeepLast(s[1..])
      else [s[0]] + KeepLast(s[1..])
  }

  lemma {:induction false} KeepLastSnoc<T>(s: seq<T>, x: T)
    ensures KeepLast(s + [x]) == Minus(KeepLast(s), {x}) + [x]
  {
    if s != [] {
      assert (s + [x])[1..] == s[1..] + [x];
      KeepLastSnoc(s[1..], x);
      assert s == [s[0]] + s[1..];
    }
  }

  /** a occurs in s, and some b comes after every a. */
  ghost predicate Under<T>(s: seq<T>, a: T, b: T) {
    a in s && exists j :: 0 <= j < |s| && s[j] == b && a !in s[j..]
  }

  /** a comes before b in a sequence that repeats nothing. */
  ghost predicate Precedes<T>(s: seq<T>, a: T, b: T) {
    exists i, j :: 0 <= i < j < |s| && s[i] == a && s[j] == b
  }

  lemma UnderInRight<T>(u: seq<T>, v: seq<T>, a: T, b: T)
    requires Under(v, a, b)
    ensures Under(u + v, a, b)
  {
    var j :| 0 <= j < |v| && v[j] == b && a !in v[j..];
    assert (u + v)[|u| + j..] == v[j..];
    assert (u + v)[|u| + j] == b;
  }

  lemma UnderInLeft<T>(u: seq<T>, v: seq<T>, a: T, b: T)
    requires Under(u, a, b) && a !in v
    ensures Under(u + v, a, b)
  {
    var j :| 0 <= j < |u| && u[j] == b && a !in u[j..];
    assert (u + v)[j..] == u[j..] + v;
    assert (u + v)[j] == b;
  }

  lemma UnderAcross<T>(u: seq<T>, v: seq<T>, a: T, b: T)
    requires a in u && a !in v && b in v
    ensures Under(u + v, a, b)
  {
    var j :| 0 <= j < |v| && v[j] == b;
    assert (u + v)[|u| + j..] == v[j..];
    assert (u + v)[|u| + j] == b;
  }

  /** The order of the last occurrences is the order that KeepLast keeps. */
  lemma {:induction false} UnderKeepLast<T>(s: seq<T>, a: T, b: T)
    requires Under(s, a, b)
    ensures Precedes(KeepLast(s), a, b)
  {
    var t := s[1..];
    UnderTail(s, a, b);
    if a in t {
      UnderKeepLast(t, a, b);
      PrecedesWithin(if s[0] in t then [] else [s[0]], KeepLast(t), [], a, b);
      assert KeepLast(s) == (if s[0] in t then [] else [s[0]]) + KeepLast(t) + [];
    } else {
      var l :| 0 <= l < |KeepLast(t)| && KeepLast(t)[l] == b;
      assert KeepLast(s)[0] == a && KeepLast(s)[l + 1] == b;
    }
  }

  lemma {:induction false} KeepLastNoDup<T>(s: seq<T>)
    ensures NoDup(KeepLast(s))
  {
    if s != [] {
      KeepLastNoDup(s[1..]);
    }
  }

  /** And there is no other order in it. */
  lemma KeepLastUnder<T>(s: seq<T>, a: T, b: T)
    requires Precedes(KeepLast(s), a, b)
    ensures Under(s, a, b)
  {
    KeepLastNoDup(s);
    assert a in KeepLast(s) && b in KeepLast(s) && a != b;
    if !Under(s, a, b) {
      EitherUnder(s, a, b);
      UnderKeepLast(s, b, a);
      NotBothWays(KeepLast(s), a, b);
    }
  }

  lemma {:induction false} EitherUnder<T>(s: seq<T>, a: T, b: T)
    requires a in s && b in s && a != b
    ensures Under(s, a, b) || Under(s, b, a)
  {
    var h, t := s[0], s[1..];
    assert s == [h] + t;
    if a in t && b in t {
      EitherUnder(t, a, b);
      if Under(t, a, b) {
        UnderInRight([h], t, a, b);
      } else {
        UnderInRight([h], t, b, a);
      }
    } else if a in t {
      UnderAcross([h], t, b, a);
    } else {
      UnderAcross([h], t, a, b);
    }
  }

  lemma NotBothWays<T>(s: seq<T>, a: T, b: T)
    requires NoDup(s) && Precedes(s, a, b)
    ensures !Precedes(s, b, a)
  {
  }

  /** Two orders of the same elements that agree on what precedes what are the same. */
  lemma {:induction false} SameOrderIsSame<T>(a: seq<T>, b: seq<T>)
    requires NoDup(a) && NoDup(b) && ToSet(a) == ToSet(b)
    requires forall x, y | Precedes(a, x, y) :: Precedes(b, x, y)
    ensures a == b
  {
    if a == [] {
      assert forall i | 0 <= i < |b| :: b[i] in ToSet(b);
    } else {
      assert a[0] in ToSet(b);
      assert b[0] in ToSet(a);
      SameFirst(a, b);
      SameRest(a, b);
      SameOrderIsSame(a[1..], b[1..]);
      assert a == [a[0]] + a[1..] && b == [b[0]] + b[1..];
    }
  }

  lemma SameFirst<T>(a: seq<T>, b: seq<T>)
    requires NoDup(b) && a != [] && b != [] && a[0] in b && b[0] in a
    requires forall x, y | Precedes(a, x, y) :: Precedes(b, x, y)
    ensures a[0] == b[0]
  {
    var j :| 0 <= j < |a| && a[j] == b[0];
    assert j > 0 ==> Precedes(a, a[0], b[0]);
  }

  lemma SameRest<T>(a: seq<T>, b: seq<T>)
    requires NoDup(a) && NoDup(b) && a != [] && b != [] && a[0] == b[0] && ToSet(a) == ToSet(b)
    requires forall x, y | Precedes(a, x, y) :: Precedes(b, x, y)
    ensures NoDup(a[1..]) && NoDup(b[1..]) && ToSet(a[1..]) == ToSet(b[1..])
    ensures forall x, y | Precedes(a[1..], x, y) :: Precedes(b[1..], x, y)
  {
    RestSet(a);
    RestSet(b);
    forall x, y | Precedes(a[1..], x, y) ensures Precedes(b[1..], x, y) {
      PrecedesWithin([a[0]], a[1..], [], x, y);
      assert a == [a[0]] + a[1..] + [];
      var i, j :| 0 <= i < j < |b| && b[i] == x && b[j] == y;
      assert x in ToSet(a[1..]) && x != b[0];
      assert b[1..][i - 1] == x && b[1..][j - 1] == y;
    }
  }

  lemma RestSet<T>(s: seq<T>)
    requires NoDup(s) && s != []
    ensures ToSet(s[1..]) == ToSet(s) - {s[0]}
  {
    assert s == [s[0]] + s[1..];
  }

  lemma UnderTail<T>(s: seq<T>, a: T, b: T)
    requires Under(s, a, b)
    ensures s != [] && b in s[1..]
    ensures if a in s[1..] then Under(s[1..], a, b) else s[0] == a
  {
    var j :| 0 <= j < |s| && s[j] == b && a !in s[j..];
    assert s == [s[0]] + s[1..];
    assert s[0..] == s;
    assert s[1..][j - 1] == b && s[1..][j - 1..] == s[j..];
  }

  lemma PrecedesWithin<T>(u: seq<T>, s: seq<T>, v: seq<T>, a: T, b: T)
    requires Precedes(s, a, b)
    ensures Precedes(u + s + v, a, b)
  {
    var i, j :| 0 <= i < j < |s| && s[i] == a && s[j] == b;
    assert (u + s + v)[|u| + i] == a && (u + s + v)[|u| + j] == b;
  }

  // ----- sequences that repeat nothing

  lemma {:induction false} WithoutIsMinus<T>(s: seq<T>, x: T)
    requires NoDup(s)
    ensures Without(s, x) == Minus(s, {x})
  {
    if s != [] {
      if s[0] == x {
        assert x !in s[1..];
        MinusNothing(s[1..], {x});
      } else {
        WithoutIsMinus(s[1..], x);
      }
    }
  }

  lemma {:induction false} MinusNothing<T>(s: seq<T>, xs: set<T>)
    requires forall x | x in s :: x !in xs
    ensures Minus(s, xs) == s
  {
    if s != [] {
      assert s[0] in s;
      MinusNothing(s[1..], xs);
    }
  }

  lemma {:induction false} MinusKeepsNoDup<T>(s: seq<T>, xs: set<T>)
    requires NoDup(s)
    ensures NoDup(Minus(s, xs))
  {
    if s != [] {
      MinusKeepsNoDup(s[1..], xs);
      MinusMember(s[1..], xs, s[0]);
    }
  }

  lemma {:induction false} NoDupSize<T>(s: seq<T>)
    requires NoDup(s)
    ensures |ToSet(s)| == |s|
  {
    if s != [] {
      NoDupSize(s[1..]);
      assert ToSet(s) == {s[0]} + ToSet(s[1..]);
    }
  }

  lemma NoDupFits<T>(s: seq<T>, xs: set<T>)
    requires NoDup(s) && ToSet(s) <= xs
    ensures |s| <= |xs|
  {
    NoDupSize(s);
    SubsetSize(ToSet(s), xs);
  }

  lemma {:induction false} SubsetSize<T>(a: set<T>, b: set<T>)
    requires a <= b
    ensures |a| <= |b|
  {
    assert b == a + (b - a);
  }

  /** NoDup by counting, without an index in sight. */
  ghost predicate Once<T>(s: seq<T>) {
    |ToSet(s)| == |s|
  }

  lemma {:induction false} OnceIsNoDup<T>(s: seq<T>)
    ensures Once(s) <==> NoDup(s)
  {
    if NoDup(s) {
      NoDupSize(s);
    } else {
      var i, j :| 0 <= i < j < |s| && s[i] == s[j];
      var r := s[..j] + s[j + 1..];
      assert ToSet(r) == ToSet(s) by {
        forall x | x in s ensures x in r {
          var k :| 0 <= k < |s| && s[k] == x;
          assert r[if k == j then i else if k < j then k else k - 1] == x;
        }
      }
      SizeAtMost(r);
    }
  }

  lemma {:induction false} SizeAtMost<T>(s: seq<T>)
    ensures |ToSet(s)| <= |s|
  {
    if s != [] {
      SizeAtMost(s[1..]);
      assert ToSet(s) == {s[0]} + ToSet(s[1..]);
    }
  }

  function Reverse<T>(s: seq<T>): (r: seq<T>)
    ensures |r| == |s|
    ensures forall i | 0 <= i < |s| :: r[i] == s[|s| - 1 - i]
  {
    if s == [] then [] else Reverse(s[1..]) + [s[0]]
  }

  lemma {:induction false} ReverseSnoc<T>(s: seq<T>, x: T)
    ensures Reverse(s + [x]) == [x] + Reverse(s)
  {
    if s != [] {
      assert (s + [x])[1..] == s[1..] + [x];
      ReverseSnoc(s[1..], x);
    }
  }

  lemma MinusSet<T>(s: seq<T>, xs: set<T>)
    ensures ToSet(Minus(s, xs)) == ToSet(s) - xs
  {
    forall y | y in ToSet(s) + ToSet(Minus(s, xs)) ensures y in ToSet(Minus(s, xs)) <==> y in ToSet(s) - xs {
      MinusMember(s, xs, y);
    }
    assert forall y | y in ToSet(s) - xs :: y in ToSet(s) + ToSet(Minus(s, xs));
  }

  lemma ReverseSet<T>(s: seq<T>)
    ensures ToSet(Reverse(s)) == ToSet(s)
  {
    forall y | y in s ensures y in Reverse(s) {
      var i :| 0 <= i < |s| && s[i] == y;
      assert Reverse(s)[|s| - 1 - i] == y;
    }
  }

  lemma WithoutOnce<T>(s: seq<T>, x: T)
    requires Once(s)
    ensures Once(Without(s, x)) && ToSet(Without(s, x)) == ToSet(s) - {x}
  {
    OnceIsNoDup(s);
    WithoutIsMinus(s, x);
    MinusKeepsNoDup(s, {x});
    OnceIsNoDup(Without(s, x));
    MinusSet(s, {x});
  }

  lemma ConsOnce<T>(x: T, s: seq<T>)
    requires Once(s) && x !in s
    ensures Once([x] + s) && Once(s + [x])
    ensures ToSet([x] + s) == ToSet(s) + {x} == ToSet(s + [x])
  {
    assert ToSet([x] + s) == ToSet(s) + {x};
    assert ToSet(s + [x]) == ToSet(s) + {x};
  }

  lemma SwapOnce<T>(s: seq<T>, i: nat, j: nat)
    requires Once(s) && i < |s| && j < |s|
    ensures Once(s[i := s[j]][j := s[i]]) && ToSet(s[i := s[j]][j := s[i]]) == ToSet(s)
  {
    var r := s[i := s[j]][j := s[i]];
    forall k | 0 <= k < |s| ensures s[k] in r {
      assert r[if k == i then j else if k == j then i else k] == s[k];
    }
    assert ToSet(r) == ToSet(s);
  }
}
