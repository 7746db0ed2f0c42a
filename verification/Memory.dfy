/**
 memmove and memcpy on arrays, and what they do to slices.
 */
module Memory {

  /** The capacity to ask for when a capacity of x is too small. */
  function AllocNr(x: nat): (r: nat)
    ensures 2 * r <= 3 * (x + 16) <= 2 * r + 1
  {
    (x + 16) * 3 / 2
  }

  /** A sequence with data written over it from place p on. */
  ghost function Written<T>(s: seq<T>, p: nat, data: seq<T>): seq<T>
    requires p + |data| <= |s|
  {
    s[..p] + data + s[p + |data|..]
  }

  method MemMove<T>(a: array<T>, dst: nat, src: nat, n: nat)
    requires dst + n <= a.Length && src + n <= a.Length
    modifies a
    ensures a[..] == Written(old(a[..]), dst, old(a[src..src + n]))
  {
    forall i | 0 <= i < n {
      a[dst + i] := a[src + i];
    }
  }

  method MemCpy<T>(a: array<T>, dst: nat, data: seq<T>)
    requires dst + |data| <= a.Length
    modifies a
    ensures a[..] == Written(old(a[..]), dst, data)
  {
    forall i | 0 <= i < |data| {
      a[dst + i] := data[i];
    }
  }

  /** What writing leaves of a slice that begins before the written place and ends behind it. */
  lemma WrittenSlice<T>(s: seq<T>, p: nat, data: seq<T>, a: nat, b: nat)
    requires a <= p && p + |data| <= b <= |s|
    ensures Written(s, p, data)[a..b] == Written(s[a..b], p - a, data)
  {
    assert s[a..b][..p - a] == s[a..p];
    assert s[a..b][p - a + |data|..] == s[p + |data|..b];
    var t := s[..p] + data + s[p + |data|..];
    assert t[a..b] == s[a..p] + data + s[p + |data|..b];
  }

  lemma WrittenAt<T>(s: seq<T>, p: nat, data: seq<T>, i: nat)
    requires p + |data| <= i < |s|
    ensures Written(s, p, data)[i] == s[i]
  {
  }

  /** Writing behind a slice leaves it alone. */
  lemma WrittenBehind<T>(s: seq<T>, p: nat, data: seq<T>, a: nat, b: nat)
    requires a <= b <= p && p + |data| <= |s|
    ensures Written(s, p, data)[a..b] == s[a..b]
  {
  }

  /** A slice that begins with what was written. */
  lemma WrittenAhead<T>(s: seq<T>, p: nat, data: seq<T>, b: nat)
    requires p + |data| <= b <= |s|
    ensures Written(s, p, data)[p..b] == data + s[p + |data|..b]
    ensures Written(s, p, data)[p + |data|..] == s[p + |data|..]
  {
  }

  /** What moving the n bytes at o behind the l bytes at p makes of them, when d take their place. */
  lemma GapOpened<T>(s: seq<T>, o: nat, n: nat, p: nat, l: nat, d: nat)
    requires p + l <= n && o + n <= |s| && o + n + d - l <= |s|
    ensures var t := Written(s, o + p + d, s[o + p + l..o + n])[o..o + n + d - l];
      t[..p] == s[o..o + n][..p] && t[p + d..] == s[o..o + n][p + l..]
  {
  }
}
