/**
 The icons in a _NET_WM_ICON property (Extended Window Manager Hints, section _NET_WM_ICON): a list of
 32-bit words in which each icon is its width, its height and its width * height pixels.
 */
module Icons {
  import opened Options
  import opened Sequences

  type Word = w: int | 0 <= w < 0x1_0000_0000

  const WIDE := 0x1_0000_0000_0000_0000

  datatype Icon = Icon(width: Word, height: Word, pixels: seq<Word>)

  /** A property reply: the words, and whether type and format are the expected ones. */
  datatype Reply = Reply(isCardinal32: bool, words: seq<Word>)

  predicate WellFormed(i: Icon) {
    i.width >= 1 && i.height >= 1 && |i.pixels| == i.width * i.height
  }

  function Encode(i: Icon): seq<Word> {
    [i.width, i.height] + i.pixels
  }

  function EncodeAll(icons: seq<Icon>): seq<Word> {
    if icons == [] then [] else Encode(icons[0]) + EncodeAll(icons[1..])
  }

  /** No icon starts here: too few words, an empty icon, or more pixels than there are words. */
  ghost predicate Malformed(words: seq<Word>) {
    |words| <= 2 || words[0] < 1 || words[1] < 1 || words[0] * words[1] > |words| - 2
  }

  lemma ProductFits(w: Word, h: Word)
    ensures w * h < WIDE
  {
    AtMost(w, 0xFFFF_FFFF, h);
  }

  lemma AtMost(a: int, b: int, c: int)
    requires a <= b && c >= 0
    ensures a * c <= b * c
  {
    assert (b - a) * c >= 0;
  }

  /** The icon at position pos, and the position after it. */
  method IconFromReplyNext(words: seq<Word>, pos: nat) returns (icon: Option<Icon>, next: nat)
    requires pos <= |words|
    ensures icon == None <==> Malformed(words[pos..])
    ensures icon == None ==> next == pos
    ensures icon.Some? ==> pos < next <= |words| && WellFormed(icon.value) && words[pos..next] == Encode(icon.value)
  {
    next := pos;
    if |words| - pos <= 2 {
      return None, pos;
    }
    var width, height := words[pos], words[pos + 1];
    // the product is computed in 64 bits
    ProductFits(width, height);
    var dataLen := (width * height) % WIDE;
    if width < 1 || height < 1 || dataLen > |words| - pos - 2 {
      return None, pos;
    }
    assert dataLen >= 0;
    var pixels := words[pos + 2..pos + 2 + dataLen];
    next := pos + 2 + dataLen;
    icon := Some(Icon(width, height, pixels));
    assert words[pos..next] == [words[pos], words[pos + 1]] + words[pos + 2..next];
  }

  /** A list of icons and what follows them account for all the words, and no icon starts there. */
  ghost predicate Splits(words: seq<Word>, icons: seq<Icon>, rest: seq<Word>) {
    words == EncodeAll(icons) + rest && (forall i | i in icons :: WellFormed(i)) && Malformed(rest)
  }

  /** All icons up to the first malformed entry.  Each one is pushed in front of those found before it, so
      the result is in reverse order of the property. */
  method IconsFromReply(reply: Option<Reply>) returns (result: seq<Icon>)
    ensures reply == None || !reply.value.isCardinal32 ==> result == []
    ensures reply.Some? && reply.value.isCardinal32 ==>
      exists rest :: Splits(reply.value.words, Reverse(result), rest)
  {
    result := [];
    if reply == None || !reply.value.isCardinal32 {
      return;
    }
    var words := reply.value.words;
    var pos := 0;
    ghost var found: seq<Icon> := [];
    while true
      invariant 0 <= pos <= |words| && words[..pos] == EncodeAll(found) && result == Reverse(found)
      invariant forall i | i in found :: WellFormed(i)
      decreases |words| - pos
    {
      var s, next := IconFromReplyNext(words, pos);
      if s == None {
        break;
      }
      EncodeSnoc(found, s.value);
      ReverseSnoc(found, s.value);
      assert words[..next] == words[..pos] + words[pos..next];
      found := found + [s.value];
      result := [s.value] + result;
      pos := next;
    }
    ReverseTwice(found);
    assert words == words[..pos] + words[pos..];
    assert Splits(words, Reverse(result), words[pos..]);
  }

  lemma {:induction false} EncodeSnoc(icons: seq<Icon>, i: Icon)
    ensures EncodeAll(icons + [i]) == EncodeAll(icons) + Encode(i)
  {
    if icons == [] {
      assert icons + [i] == [i] && [i][1..] == [];
      assert Encode(i) + [] == Encode(i);
    } else {
      assert (icons + [i])[1..] == icons[1..] + [i];
      EncodeSnoc(icons[1..], i);
      Assoc(Encode(icons[0]), EncodeAll(icons[1..]), Encode(i));
    }
  }

  lemma ReverseTwice(s: seq<Icon>)
    ensures Reverse(Reverse(s)) == s
  {
  }

  /** The first entry of a list of icons is that icon, whatever follows. */
  lemma FirstEntry(i: Icon, rest: seq<Word>)
    requires WellFormed(i)
    ensures !Malformed(Encode(i) + rest)
    ensures (Encode(i) + rest)[0] == i.width && (Encode(i) + rest)[1] == i.height
    ensures (Encode(i) + rest)[2..2 + i.width * i.height] == i.pixels
    ensures (Encode(i) + rest)[2 + i.width * i.height..] == rest
  {
    AtLeastOne(i.width, i.height);
  }

  lemma AtLeastOne(w: int, h: int)
    requires w >= 1 && h >= 1
    ensures w * h >= 1
  {
  }

  /** There is only one way to read a property: the icons and the rest are determined by the words. */
  lemma {:induction false} SplitsUnique(words: seq<Word>, a: seq<Icon>, r: seq<Word>, b: seq<Icon>, t: seq<Word>)
    requires Splits(words, a, r) && Splits(words, b, t)
    ensures a == b && r == t
    decreases |a|
  {
    EmptyOrNot(words, a, r);
    EmptyOrNot(words, b, t);
    if a != [] {
      Tail(words, a, r);
      Tail(words, b, t);
      hide Splits;
      assert a[0] == b[0];
      SplitsUnique(words[2 + a[0].width * a[0].height..], a[1..], r, b[1..], t);
      assert a == [a[0]] + a[1..] && b == [b[0]] + b[1..];
    }
  }

  lemma EmptyOrNot(words: seq<Word>, a: seq<Icon>, r: seq<Word>)
    requires Splits(words, a, r)
    ensures a == [] <==> Malformed(words)
    ensures a == [] ==> words == r
  {
    if a != [] {
      Tail(words, a, r);
    } else {
      assert [] + r == r;
    }
  }

  lemma Tail(words: seq<Word>, a: seq<Icon>, r: seq<Word>)
    requires Splits(words, a, r) && a != []
    ensures !Malformed(words) && words[0] == a[0].width && words[1] == a[0].height
    ensures words[2..2 + a[0].width * a[0].height] == a[0].pixels
    ensures Splits(words[2 + a[0].width * a[0].height..], a[1..], r)
  {
    assert a[0] in a;
    Assoc(Encode(a[0]), EncodeAll(a[1..]), r);
    FirstEntry(a[0], EncodeAll(a[1..]) + r);
  }

  /** Reading back a list of encoded icons, with or without something malformed behind it, gives the list
      in reverse; it gives the list itself exactly when the list reads the same both ways. */
  lemma ReadBack(icons: seq<Icon>, rest: seq<Word>, result: seq<Icon>, left: seq<Word>)
    requires (forall i | i in icons :: WellFormed(i)) && Malformed(rest)
    requires Splits(EncodeAll(icons) + rest, Reverse(result), left)
    ensures result == Reverse(icons) && left == rest
    ensures result == icons <==> Reverse(icons) == icons
  {
    SplitsUnique(EncodeAll(icons) + rest, icons, rest, Reverse(result), left);
    ReverseTwice(result);
  }

  /** Two icons of one pixel each come back in the other order. */
  method ReadTwoIcons() returns (result: seq<Icon>)
    ensures result == [Icon(1, 1, [8]), Icon(1, 1, [7])]
  {
    ghost var icons: seq<Icon> := [Icon(1, 1, [7]), Icon(1, 1, [8])];
    var words: seq<Word> := [1, 1, 7, 1, 1, 8];
    TwoEncoded(icons, words);
    result := IconsFromReply(Some(Reply(true, words)));
    ghost var left :| Splits(words, Reverse(result), left);
    hide Splits, EncodeAll, Reverse;
    ReadBack(icons, [], result, left);
    ReverseTwo(icons);
  }

  lemma TwoEncoded(icons: seq<Icon>, words: seq<Word>)
    requires icons == [Icon(1, 1, [7]), Icon(1, 1, [8])] && words == [1, 1, 7, 1, 1, 8]
    ensures EncodeAll(icons) + [] == words && forall i | i in icons :: WellFormed(i)
  {
    var rest := icons[1..];
    assert rest == [icons[1]] && rest[1..] == [];
    assert EncodeAll(rest) == Encode(icons[1]) == [1, 1, 8];
    assert EncodeAll(icons) == Encode(icons[0]) + EncodeAll(rest) == words;
  }

  lemma ReverseTwo(s: seq<Icon>)
    requires |s| == 2
    ensures Reverse(s) == [s[1], s[0]]
  {
    assert s[1..] == [s[1]] && s[1..][1..] == [];
  }
}
