/**
 A growable byte buffer.  Its bytes lie in a storage area behind an offset, so that bytes can be taken
 off the front without moving the others.
 */
module Buffers {
  import opened Memory

  type Byte = b: int | 0 <= b < 256

  /** The clamped number of bytes and place of a splice. */
  function ClampPos(pos: nat, length: nat): nat {
    if pos > length then length else pos
  }

  function ClampLen(pos: nat, len: nat, length: nat): nat
    requires pos <= length
  {
    if len > length - pos then length - pos else len
  }

  /** The bytes from pos on, len of them, replaced by data; what lies outside the sequence is ignored. */
  ghost function Spliced(c: seq<Byte>, pos: nat, len: nat, data: seq<Byte>): seq<Byte> {
    var p := ClampPos(pos, |c|);
    c[..p] + data + c[p + ClampLen(p, len, |c|)..]
  }

  /** What a splice makes of the bytes c, when it begins behind them, ends behind them, or lies within them. */
  ghost predicate Replaces(r: seq<Byte>, c: seq<Byte>, pos: nat, len: nat, data: seq<Byte>) {
    if pos >= |c| then r == c + data
    else if pos + len >= |c| then r == c[..pos] + data
    else r == c[..pos] + data + c[pos + len..]
  }

  lemma SplicedReplaces(c: seq<Byte>, pos: nat, len: nat, data: seq<Byte>)
    ensures Replaces(Spliced(c, pos, len, data), c, pos, len, data)
  {
  }

  class Buffer {
    /** The storage; the first byte of the buffer is at offs, and size bytes are available from there. */
    var area: array<Byte>
    var offs: nat
    var len: nat
    var size: nat
    var alloced: bool

    ghost predicate Valid()
      reads this, area
    {
      && area.Length == offs + size
      && len < size
      && area[offs + len] == 0
    }

    ghost function Contents(): seq<Byte>
      reads this, area
      requires Valid()
    {
      area[offs..offs + len]
    }

    /** An empty buffer, which has room for nothing but the terminator. */
    constructor ()
      ensures Valid() && fresh(area) && Contents() == []
    {
      area := new Byte[1](_ => 0);
      offs, len, size, alloced := 0, 0, 1, false;
    }

    /** Makes room for newlen bytes and the terminator. */
    method Ensure(newlen: nat)
      requires Valid()
      modifies this`area, this`offs, this`size, this`alloced, area
      ensures Valid() && (area == old(area) || fresh(area))
      ensures newlen < size && len == old(len)
      ensures Contents() == old(Contents())
      ensures area == old(area) ||
        (AllocNr(old(area).Length) <= size && size in {newlen + 1, AllocNr(old(area).Length)})
    {
      if newlen < size {
        return;
      }
      if newlen < offs + size && offs > size / 4 {
        ghost var before := area[..];
        MemMove(area, 0, offs, len + 1);
        assert area[..len + 1] == before[offs..offs + len + 1];
        assert before[offs..offs + len + 1] == before[offs..offs + len] + [0];
        size := size + offs;
        offs := 0;
        return;
      }
      hide AllocNr;
      var newSize := AllocNr(size + offs);
      if newSize < newlen + 1 {
        newSize := newlen + 1;
      }
      if alloced && offs == 0 {
        Reallocate(newSize, size);
      } else {
        Reallocate(newSize, len + 1);
      }
    }

    /** Moves the first count bytes to a new area. */
    method Reallocate(newSize: nat, count: nat)
      requires Valid() && len < count <= size && count <= newSize
      modifies this`area, this`offs, this`size, this`alloced
      ensures Valid() && fresh(area) && size == newSize && len == old(len)
      ensures Contents() == old(Contents())
    {
      var newArea := new Byte[newSize](_ => 0);
      ghost var part := area[offs..offs + count];
      assert part[len] == 0 && part[..len] == Contents();
      MemCpy(newArea, 0, area[offs..offs + count]);
      assert newArea[..count] == part;
      alloced := true;
      area := newArea;
      offs := 0;
      size := newSize;
    }

    /** Replaces len bytes at pos by data.  At the front, when the new bytes fit in the place of the old ones
        and the free space before them, only the offset moves. */
    method Splice(pos: nat, len: nat, data: seq<Byte>)
      requires Valid()
      modifies this, area
      ensures Valid() && (area == old(area) || fresh(area))
      ensures Contents() == Spliced(old(Contents()), pos, len, data)
      ensures Replaces(Contents(), old(Contents()), pos, len, data)
    {
      SplicedReplaces(Contents(), pos, len, data);
      hide Replaces;
      var p := ClampPos(pos, this.len);
      var l := ClampLen(p, len, this.len);
      if p == 0 && l + offs >= |data| {
        assert Contents()[..0] + data == data;
        SpliceFront(l, data);
      } else {
        SpliceInside(p, l, data);
      }
    }

    /** Replaces the l bytes at p, all of them in the buffer, by data. */
    method SpliceInside(p: nat, l: nat, data: seq<Byte>)
      requires Valid() && p + l <= len
      modifies this, area
      ensures Valid() && (area == old(area) || fresh(area))
      ensures Contents() == old(Contents())[..p] + data + old(Contents())[p + l..]
    {
      if l != |data| {
        OpenGap(p, l, |data|);
      }
      Overwrite(p, data);
    }

    /** Writes data over the bytes at p. */
    method Overwrite(p: nat, data: seq<Byte>)
      requires Valid() && p + |data| <= len
      modifies area
      ensures Valid()
      ensures Contents() == Written(old(Contents()), p, data)
    {
      hide Written;
      ghost var before := area[..];
      MemCpy(area, offs + p, data);
      OverwrittenSlice(before, area[..], offs, len, p, data);
    }

    static lemma OverwrittenSlice(before: seq<Byte>, after: seq<Byte>, o: nat, n: nat, p: nat, data: seq<Byte>)
      requires o + n < |before| && p + |data| <= n && after == Written(before, o + p, data)
      ensures |after| == |before| && after[o + n] == before[o + n]
      ensures after[o..o + n] == Written(before[o..o + n], p, data)
    {
      WrittenSlice(before, o + p, data, o, o + n);
      WrittenAt(before, o + p, data, o + n);
    }

    /** Moves the offset so that the buffer begins with data instead of its first l bytes. */
    method SpliceFront(l: nat, data: seq<Byte>)
      requires Valid() && l <= len && l + offs >= |data|
      modifies this`offs, this`size, this`len, area
      ensures Valid() && area == old(area)
      ensures Contents() == data + old(Contents())[l..]
    {
      ghost var before := area[..];
      offs := offs + l - |data|;
      size := size + |data| - l;
      len := len + |data| - l;
      MemCpy(area, offs, data);
      WrittenFront(before, offs, offs + len, data);
      SliceOfSlice(before, old(offs), old(offs) + old(len), l);
      hide Written;
    }

    static lemma WrittenFront(before: seq<Byte>, a: nat, b: nat, data: seq<Byte>)
      requires a + |data| <= b < |before|
      ensures Written(before, a, data)[a..b] == data + before[a + |data|..b]
      ensures Written(before, a, data)[b] == before[b]
    {
      WrittenAhead(before, a, data, b);
      WrittenAt(before, a, data, b);
    }

    static lemma SliceOfSlice(s: seq<Byte>, a: nat, b: nat, k: nat)
      requires a + k <= b <= |s|
      ensures s[a..b][k..] == s[a + k..b]
    {
    }

    /** Gives the l bytes at p room for d bytes, whatever these are. */
    method OpenGap(p: nat, l: nat, d: nat)
      requires Valid() && p + l <= len
      modifies this, area
      ensures Valid() && (area == old(area) || fresh(area))
      ensures len == old(len) + d - l && p + d <= len
      ensures Contents()[..p] == old(Contents())[..p]
      ensures Contents()[p + d..] == old(Contents())[p + l..]
    {
      Ensure(len + d - l);
      MoveTail(p, l, d);
    }

    /** Moves the bytes behind the l bytes at p to where they belong when d bytes take their place. */
    method MoveTail(p: nat, l: nat, d: nat)
      requires Valid() && p + l <= len && len + d - l < size
      modifies this`len, area
      ensures Valid() && len == old(len) + d - l && p + d <= len
      ensures Contents()[..p] == old(Contents())[..p]
      ensures Contents()[p + d..] == old(Contents())[p + l..]
    {
      hide Written;
      ghost var before, c, o, n := area[..], Contents(), offs, len;
      assert before[o..o + n] == c;
      assert before[o + p + l..o + n] == area[o + p + l..o + p + l + (n - p - l)];
      MemMove(area, offs + p + d, offs + p + l, len - p - l);
      ghost var moved := area[..];
      Terminate(len + d - l);
      assert Contents() == moved[o..o + n + d - l];
      GapOpened(before, o, n, p, l, d);
    }

    /** Ends the buffer after n bytes. */
    method Terminate(n: nat)
      requires area.Length == offs + size && n < size
      modifies this`len, area
      ensures Valid() && len == n && Contents() == old(area[..])[offs..offs + n]
    {
      WrittenBehind(area[..], offs + n, [0], offs, offs + n);
      len := n;
      area[offs + n] := 0;
    }

    method Add(data: seq<Byte>)
      requires Valid()
      modifies this, area
      ensures Valid() && (area == old(area) || fresh(area))
      ensures Contents() == old(Contents()) + data
    {
      Splice(len, 0, data);
    }

    /** Any run of splices and additions. */
    method Run(ops: seq<Op>)
      requires Valid()
      modifies this, area
      ensures Valid() && (area == old(area) || fresh(area))
      ensures Contents() == After(old(Contents()), ops)
    {
      ghost var c := Contents();
      var i := 0;
      while i < |ops|
        invariant 0 <= i <= |ops| && Valid() && (area == old(area) || fresh(area))
        invariant Contents() == After(c, ops[..i])
      {
        match ops[i] {
          case Splice(pos, len, data) => Splice(pos, len, data);
          case Add(data) => Add(data);
        }
        assert ops[..i + 1][..i] == ops[..i];
        i := i + 1;
      }
      assert ops[..i] == ops;
    }
  }

  datatype Op = Splice(pos: nat, len: nat, data: seq<Byte>) | Add(data: seq<Byte>)

  /** What a run makes of a sequence of bytes. */
  ghost function After(c: seq<Byte>, ops: seq<Op>): seq<Byte>
    decreases |ops|
  {
    if ops == [] then c
    else
      var before := After(c, ops[..|ops| - 1]);
      match ops[|ops| - 1]
      case Splice(pos, len, data) => Spliced(before, pos, len, data)
      case Add(data) => before + data
  }
}
