/**
 The growable array on which the other containers are built: elements in a table with some room to spare.
 */
module Arrays {
  import opened Memory

  class Vec<T(0)> {
    var tab: array<T>
    var len: nat

    ghost predicate Valid()
      reads this
    {
      len <= tab.Length
    }

    ghost function Contents(): seq<T>
      reads this, tab
      requires Valid()
    {
      tab[..len]
    }

    constructor ()
      ensures Valid() && fresh(tab) && Contents() == []
    {
      tab := new T[0];
      len := 0;
    }

    /** Gets room for newlen elements; the table is replaced only when it is too small. */
    method Grow(newlen: nat)
      requires Valid()
      modifies this`tab
      ensures Valid() && newlen <= tab.Length && Contents() == old(Contents())
      ensures if newlen <= old(tab).Length then tab == old(tab) else fresh(tab)
      ensures newlen > old(tab).Length ==>
        AllocNr(old(tab).Length) <= tab.Length && tab.Length in {newlen, AllocNr(old(tab).Length)}
    {
      if newlen > tab.Length {
        var size := if AllocNr(tab.Length) < newlen then newlen else AllocNr(tab.Length);
        var bigger := new T[size];
        MemCpy(bigger, 0, tab[..len]);
        assert bigger[..len] == tab[..len];
        tab := bigger;
      }
    }

    /** Replaces n elements at pos by the items, in the table itself as long as they fit. */
    method Splice(pos: nat, n: nat, items: seq<T>)
      requires Valid() && pos + n <= len
      modifies this, tab
      ensures Valid() && Contents() == old(Contents()[..pos] + items + Contents()[pos + n..])
      ensures if old(len) + |items| - n <= old(tab).Length then tab == old(tab) else fresh(tab)
    {
      ghost var c := Contents();
      if n != |items| {
        Grow(len + |items| - n);
        MakeGap(pos, n, |items|);
      }
      ghost var g := Contents();
      assert g[..pos] == c[..pos] && g[pos + |items|..] == c[pos + n..];
      WrittenSlice(tab[..], pos, items, 0, len);
      MemCpy(tab, pos, items);
    }

    /** Moves what lies behind the n elements at pos to where it belongs when d elements take their place. */
    method MakeGap(pos: nat, n: nat, d: nat)
      requires Valid() && pos + n <= len && len + d - n <= tab.Length
      modifies this`len, tab
      ensures Valid() && len == old(len) + d - n
      ensures Contents()[..pos] == old(Contents())[..pos]
      ensures Contents()[pos + d..] == old(Contents())[pos + n..]
    {
      ghost var before, m := tab[..], len;
      assert before[0..m] == Contents();
      GapOpened(before, 0, m, pos, n, d);
      assert pos + n + (m - pos - n) == m;
      hide Written;
      MemMove(tab, pos + d, pos + n, len - pos - n);
      len := len + d - n;
      assert tab[0..len] == Contents();
    }

    method Take(pos: nat) returns (res: T)
      requires Valid() && pos < len
      modifies this, tab
      ensures Valid() && tab == old(tab) && res == old(Contents())[pos]
      ensures Contents() == old(Contents()[..pos] + Contents()[pos + 1..])
    {
      res := tab[pos];
      Splice(pos, 1, []);
    }

    method Push(e: T)
      requires Valid()
      modifies this, tab
      ensures Valid() && Contents() == [e] + old(Contents())
      ensures tab == old(tab) || fresh(tab)
    {
      Splice(0, 0, [e]);
    }

    method Append(e: T)
      requires Valid()
      modifies this, tab
      ensures Valid() && Contents() == old(Contents()) + [e]
      ensures tab == old(tab) || fresh(tab)
    {
      Splice(len, 0, [e]);
    }
  }
}
