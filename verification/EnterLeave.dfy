/**
 Enter and leave events that the window manager caused itself.  The numbers of the requests between a
 grab and an ungrab are recorded as an interval; an event is to be ignored when its number lies in one.
 Numbers are kept modulo 2^32.
 */
module EnterLeave {

  const MODULUS := 0x1_0000_0000
  const HALF := 0x7FFF_FFFF

  /** An interval of request numbers as the X connection counts them, without wrapping. */
  datatype Interval = Interval(begin: nat, end: nat)

  /** The same as stored: 32 bits each. */
  datatype Stored = Stored(begin: nat, end: nat)

  function Wrap(n: int): nat {
    n % MODULUS
  }

  ghost function Store(i: Interval): Stored {
    Stored(Wrap(i.begin), Wrap(i.end))
  }

  ghost predicate Within(i: Interval, s: nat) {
    i.begin <= s <= i.end
  }

  /** The interval runs over the point where the 32-bit number starts again. */
  ghost predicate Straddles(i: Interval) {
    i.begin / MODULUS != i.end / MODULUS
  }

  /** The unsigned subtraction and comparison that keep an entry of the queue. */
  predicate KeepTest(end: nat, sequence: nat) {
    Wrap(end - sequence) < HALF
  }

  /** The test on wrapped numbers decides whether an interval is over exactly when the event is at most
      2^31 - 2 numbers before its end and at most 2^31 + 1 behind it. */
  lemma KeepTestExact(end: nat, s: nat)
    requires -0x1_0000_0000 < end - s < 0x1_0000_0000
    ensures (KeepTest(Wrap(end), Wrap(s)) <==> s <= end) <==> -0x8000_0001 <= end - s <= 0x7FFF_FFFE
  {
    WrapDifference(end, s);
  }

  lemma WrapDifference(a: nat, b: nat)
    ensures Wrap(Wrap(a) - Wrap(b)) == Wrap(a - b)
  {
    var qa, qb := a / MODULUS, b / MODULUS;
    assert a - b == (Wrap(a) - Wrap(b)) + (qa - qb) * MODULUS;
  }

  /** For an interval that is not over, comparing wrapped numbers finds the event in it exactly when it is
      there and the interval does not straddle a wrap. */
  lemma MatchTestExact(i: Interval, s: nat)
    requires i.begin <= i.end < i.begin + MODULUS
    requires s <= i.end < s + HALF
    ensures Wrap(i.begin) <= Wrap(s) <= Wrap(i.end) <==> Within(i, s) && !Straddles(i)
  {
  }

  /** The number of the next request: the connection leaves out those that wrap to 0. */
  function NextNumber(issued: nat): (n: nat)
    ensures issued < n <= issued + 2 && Wrap(n) != 0
  {
    if Wrap(issued + 1) == 0 then issued + 2 else issued + 1
  }

  /** The number of the n-th request from now on. */
  function Advance(issued: nat, n: nat): (r: nat)
    ensures issued + n <= r
  {
    if n == 0 then issued else NextNumber(Advance(issued, n - 1))
  }

  lemma {:induction false} AdvanceTwice(issued: nat, a: nat, b: nat)
    ensures Advance(Advance(issued, a), b) == Advance(issued, a + b)
    decreases b
  {
    hide NextNumber;
    if b > 0 {
      AdvanceTwice(issued, a, b - 1);
    }
  }

  /** Of the numbers passed, all count that do not wrap to 0. */
  lemma {:induction false} AdvanceCounts(issued: nat, n: nat)
    ensures Advance(issued, n) - Advance(issued, n) / MODULUS == issued - issued / MODULUS + n
    decreases n
  {
    if n > 0 {
      AdvanceCounts(issued, n - 1);
      NextCounts(Advance(issued, n - 1));
    }
  }

  lemma NextCounts(x: nat)
    ensures NextNumber(x) - NextNumber(x) / MODULUS == x - x / MODULUS + 1
  {
    if Wrap(x + 1) == 0 {
      assert x + 1 == (x + 1) / MODULUS * MODULUS;
      assert (x + 2) / MODULUS == (x + 1) / MODULUS == x / MODULUS + 1;
    } else {
      assert (x + 1) / MODULUS == x / MODULUS;
    }
  }

  /** Within less than a turn of the counter at most one number is left out. */
  lemma AdvanceBounds(issued: nat, n: nat)
    requires n < MODULUS - 1
    ensures issued + n <= Advance(issued, n) <= issued + n + 1
  {
    AdvanceCounts(issued, n);
    var d := Advance(issued, n) / MODULUS - issued / MODULUS;
    assert Advance(issued, n) == issued + n + d;
  }

  /** The event is close enough to the end of the interval for the subtraction to tell. */
  ghost predicate InReach(i: Interval, s: nat) {
    -(MODULUS - HALF) <= i.end - s < HALF
  }

  /** What is recorded: intervals one after the other, shorter than a turn of the counter. */
  ghost predicate Increasing(h: seq<Interval>) {
    && (forall i | 0 <= i < |h| :: h[i].begin <= h[i].end < h[i].begin + MODULUS)
    && (forall i, j | 0 <= i < j < |h| :: h[i].end < h[j].begin)
  }

  lemma IncreasingSnoc(h: seq<Interval>, i: Interval)
    requires Increasing(h) && i.begin <= i.end < i.begin + MODULUS
    requires forall k | 0 <= k < |h| :: h[k].end < i.begin
    ensures Increasing(h + [i])
  {
  }

  /** The number lies in an interval, not older than the k-th, that can be recognised. */
  ghost predicate Recorded(h: seq<Interval>, k: nat, s: nat) {
    exists j :: k <= j < |h| && Within(h[j], s) && !Straddles(h[j])
  }

  /** Intervals before the head of the queue end before the event, those after it begin after it. */
  lemma OnlyTheHead(h: seq<Interval>, k: nat, head: nat, s: nat)
    requires Increasing(h) && k <= head <= |h|
    requires forall j | k <= j < head :: h[j].end < s
    requires head < |h| ==> s <= h[head].end
    ensures Recorded(h, k, s) <==> head < |h| && Within(h[head], s) && !Straddles(h[head])
  {
    hide Straddles;
  }

  /** What has been dropped for earlier events is not missed by later ones. */
  lemma NoneIsMissing(h: seq<Interval>, k: nat, highest: nat, s: nat)
    requires k <= |h| && highest <= s
    requires forall j | 0 <= j < k :: h[j].end < highest
    ensures Recorded(h, 0, s) <==> Recorded(h, k, s)
  {
    hide Straddles;
  }

  /** The queue once the intervals that are over, by the test on wrapped numbers, have been taken off its front. */
  function Kept(q: seq<Stored>, sequence: nat): (r: seq<Stored>)
    ensures |r| <= |q|
    ensures r != [] ==> KeepTest(r[0].end, sequence)
  {
    if q == [] || KeepTest(q[0].end, sequence) then q else Kept(q[1..], sequence)
  }

  lemma {:induction false} KeptIsSuffix(q: seq<Stored>, sequence: nat)
    ensures Kept(q, sequence) == q[|q| - |Kept(q, sequence)|..]
  {
    if q != [] && !KeepTest(q[0].end, sequence) {
      KeptIsSuffix(q[1..], sequence);
      var n := |Kept(q[1..], sequence)|;
      assert q[1..][|q| - 1 - n..] == q[|q| - n..];
    }
  }

  /** The queue stands for the intervals of h from the d-th on. */
  ghost predicate StandsFor(q: seq<Stored>, h: seq<Interval>, d: nat) {
    |q| + d == |h| && forall k | 0 <= k < |q| :: q[k] == Store(h[d + k])
  }

  lemma StandsForSnoc(q: seq<Stored>, h: seq<Interval>, d: nat, i: Interval)
    ensures StandsFor(q, h, d) ==> StandsFor(q + [Store(i)], h + [i], d)
  {
    hide Store;
  }

  /** For intervals in reach the test takes off just those that end before the event. */
  lemma {:induction false} KeptMeans(q: seq<Stored>, h: seq<Interval>, d: nat, s: nat) returns (head: nat)
    requires StandsFor(q, h, d) && forall k | d <= k < |h| :: InReach(h[k], s)
    ensures StandsFor(Kept(q, Wrap(s)), h, head) && d <= head
    ensures forall k | d <= k < head :: h[k].end < s
    ensures head < |h| ==> s <= h[head].end
    decreases |q|
  {
    head := d;
    if q != [] {
      assert q[0] == Store(h[d + 0]) && InReach(h[d], s);
      KeepTestExact(h[d].end, s);
      if !KeepTest(q[0].end, Wrap(s)) {
        forall k | 0 <= k < |q| - 1 ensures q[1..][k] == Store(h[d + 1 + k]) {
          assert q[1..][k] == q[k + 1];
        }
        hide Wrap, KeepTest, Store, InReach;
        head := KeptMeans(q[1..], h, d + 1, s);
      }
    }
  }

  /** The comparison with the first interval that is left decides for all of them. */
  lemma HeadDecides(q: seq<Stored>, h: seq<Interval>, d: nat, head: nat, s: nat)
    requires Increasing(h) && StandsFor(q, h, head) && d <= head
    requires forall k | d <= k < head :: h[k].end < s
    requires head < |h| ==> s <= h[head].end < s + HALF
    ensures Matches(q, Wrap(s)) <==> Recorded(h, d, s)
  {
    OnlyTheHead(h, d, head, s);
    if head < |h| {
      MatchTestExact(h[head], s);
      assert q[0] == Store(h[head + 0]);
    }
    hide Wrap, Straddles, Recorded;
  }

  predicate Matches(q: seq<Stored>, sequence: nat) {
    q != [] && q[0].begin <= sequence <= q[0].end
  }

  /** What there is to do for a client: nothing, tell it its geometry because it asked, or change the geometry. */
  datatype Work = Nothing | Asked | Changed

  function Requests(work: seq<Work>): nat {
    if work == [] then 0
    else
      Requests(work[..|work| - 1]) + Cost(work[|work| - 1])
  }

  function Cost(work: Work): nat {
    match work
    case Nothing => 0
    case Asked => 1
    case Changed => 3
  }

  lemma RequestsNext(work: seq<Work>, i: nat)
    requires i < |work|
    ensures Requests(work[..i + 1]) == Requests(work[..i]) + Cost(work[i])
    ensures Changed in work[..i + 1] <==> Changed in work[..i] || work[i] == Changed
    ensures Requests(work[..i + 1]) <= Requests(work)
    decreases |work| - i
  {
    assert work[..i + 1][..i] == work[..i];
    assert work[..i + 1] == work[..i] + [work[i]];
    if i + 1 < |work| {
      RequestsNext(work, i + 1);
    } else {
      assert work[..i + 1] == work;
    }
  }

  /** The first client whose geometry changes. */
  function FirstChange(work: seq<Work>): (f: nat)
    ensures f <= |work|
  {
    if work == [] || work[0] == Changed then 0 else 1 + FirstChange(work[1..])
  }

  lemma {:induction false} FirstChangeIs(work: seq<Work>)
    ensures FirstChange(work) < |work| <==> Changed in work
    ensures FirstChange(work) < |work| ==> work[FirstChange(work)] == Changed
    ensures forall i | 0 <= i < FirstChange(work) :: work[i] != Changed
    ensures Requests(work[..FirstChange(work)]) <= Requests(work)
  {
    FirstChangePlace(work);
    RequestsTake(work, FirstChange(work));
  }

  lemma {:induction false} FirstChangePlace(work: seq<Work>)
    ensures FirstChange(work) < |work| <==> Changed in work
    ensures FirstChange(work) < |work| ==> work[FirstChange(work)] == Changed
    ensures forall i | 0 <= i < FirstChange(work) :: work[i] != Changed
  {
    if work != [] && work[0] != Changed {
      FirstChangePlace(work[1..]);
      assert work == [work[0]] + work[1..];
      assert forall i | 0 < i < |work| :: work[i] == work[1..][i - 1];
    }
  }

  lemma {:induction false} RequestsTake(work: seq<Work>, i: nat)
    requires i <= |work|
    ensures Requests(work[..i]) <= Requests(work)
  {
    if i < |work| {
      RequestsNext(work, i);
    } else {
      assert work[..i] == work;
    }
  }

  /** The interval around n requests that begins after a others. */
  ghost function Around(issued: nat, a: nat, n: nat): Interval {
    Interval(Advance(issued, a + 1), Advance(issued, a + n + 2))
  }

  /** The interval that a refresh of all geometries records, if any. */
  ghost function Refreshing(issued: nat, work: seq<Work>): seq<Interval> {
    if Changed !in work then []
    else
      FirstChangeIs(work);
      var a := Requests(work[..FirstChange(work)]);
      [Around(issued, a, Requests(work) - a)]
  }

  lemma ChangeAt(work: seq<Work>, i: nat)
    requires i < |work|
    ensures Requests(work[..i + 1]) == Requests(work[..i]) + Cost(work[i])
    ensures FirstChange(work) < i + 1 <==> FirstChange(work) < i || work[i] == Changed
    ensures work[i] == Changed && i <= FirstChange(work) ==> i == FirstChange(work)
  {
    FirstChangePlace(work);
    RequestsNext(work, i);
  }

  /** The requests until the grab, and until the i-th client. */
  function GrabAt(work: seq<Work>): nat {
    Requests(work[..FirstChange(work)]) + 1
  }

  function Sent(work: seq<Work>, i: nat, grabbing: bool): nat
    requires i <= |work|
  {
    Requests(work[..i]) + if grabbing then 1 else 0
  }

  lemma SentNext(work: seq<Work>, i: nat, grabbing: bool, now: bool, next: nat)
    requires i < |work| && (grabbing <==> FirstChange(work) < i) && (now <==> grabbing || work[i] == Changed)
    requires next == Sent(work, i, grabbing) + Cost(work[i]) + if now && !grabbing then 1 else 0
    ensures (now <==> FirstChange(work) < i + 1) && next == Sent(work, i + 1, now)
    ensures now && !grabbing ==> Sent(work, i, grabbing) + 1 == GrabAt(work)
  {
    ChangeAt(work, i);
    hide Requests, FirstChange, Cost;
  }

  /** What is recorded in the end, and the numbers of the last requests. */
  lemma Refreshes(issued: nat, work: seq<Work>)
    requires Requests(work) + 4 < MODULUS
    ensures Changed in work <==> FirstChange(work) < |work|
    ensures Changed !in work ==> Refreshing(issued, work) == []
    ensures Changed in work ==>
      var (a, n) := (Requests(work[..FirstChange(work)]), Requests(work));
      && Refreshing(issued, work) == [Interval(Advance(issued, a + 1), Advance(issued, n + 2))]
      && NextNumber(Advance(issued, n + 1)) == Advance(issued, n + 2) < Advance(issued, a + 1) + MODULUS
      && NextNumber(Advance(issued, n + 2)) == Advance(issued, n + 3)
  {
    hide Advance, NextNumber, Requests, FirstChange;
    FirstChangeIs(work);
    var a := Requests(work[..FirstChange(work)]);
    Releasing(issued, a, Requests(work) - a);
  }

  /** It begins after all earlier requests and encloses those of every client that changes. */
  lemma ChangesEnclosed(issued: nat, work: seq<Work>, i: nat, k: nat)
    requires i < |work| && work[i] == Changed
    requires Requests(work[..i]) + 1 < k <= Requests(work[..i + 1]) + 1
    ensures |Refreshing(issued, work)| == 1
    ensures issued < Refreshing(issued, work)[0].begin && Within(Refreshing(issued, work)[0], Advance(issued, k))
  {
    hide Requests, FirstChange, Advance, Around, Within;
    FirstChangeIs(work);
    RequestsNext(work, i);
    var f := FirstChange(work);
    assert f <= i && work[..i][..f] == work[..f];
    RequestsTake(work[..i], f);
    AroundHas(issued, Requests(work[..f]), Requests(work) - Requests(work[..f]), k);
  }

  lemma AroundHas(issued: nat, a: nat, n: nat, k: nat)
    requires a + 1 <= k <= a + n + 2
    ensures issued < Around(issued, a, n).begin && Within(Around(issued, a, n), Advance(issued, k))
  {
    hide NextNumber;
    AdvanceTwice(issued, a + 1, k - (a + 1));
    AdvanceTwice(issued, k, a + n + 2 - k);
  }

  lemma NoAdvance(issued: nat)
    ensures Advance(issued, 0) == issued
  {
  }

  lemma Grabbing(issued: nat, a: nat)
    ensures NextNumber(Advance(issued, a)) == Advance(issued, a + 1)
  {
  }

  lemma BracketNumbers(issued: nat, n: nat)
    requires n + 4 < MODULUS
    ensures NextNumber(issued) == Advance(issued, 1)
    ensures Advance(Advance(issued, 1), n) == Advance(issued, n + 1)
    ensures NextNumber(Advance(issued, n + 1)) == Advance(issued, n + 2) < Advance(issued, 1) + MODULUS
    ensures NextNumber(Advance(issued, n + 2)) == Advance(issued, n + 3)
  {
    hide NextNumber;
    assert Advance(issued, 0) == issued;
    AdvanceTwice(issued, 1, n);
    AdvanceTwice(issued, 1, n + 1);
    AdvanceBounds(Advance(issued, 1), n + 1);
  }

  /** The numbers of the requests that end a bracket around n requests after a others. */
  lemma Releasing(issued: nat, a: nat, n: nat)
    requires n + 4 < MODULUS
    ensures NextNumber(Advance(issued, a + n + 1)) == Advance(issued, a + n + 2) < Advance(issued, a + 1) + MODULUS
    ensures NextNumber(Advance(issued, a + n + 2)) == Advance(issued, a + n + 3)
  {
    hide NextNumber;
    AdvanceTwice(issued, a + 1, n + 1);
    AdvanceBounds(Advance(issued, a + 1), n + 1);
  }

  class Suppression {
    var queue: seq<Stored>
    /** The number of the open grab, 0 when there is none. */
    var pendingBegin: nat

    /** The requests sent so far on the connection. */
    var issued: nat

    /** Every interval ever recorded, and how many have left the queue. */
    ghost var history: seq<Interval>
    ghost var dropped: nat
    /** The number of the open grab without wrapping, and the highest event number. */
    ghost var grabbed: nat
    ghost var highest: nat

    ghost predicate Valid()
      reads this
    {
      && Increasing(history) && StandsFor(queue, history, dropped)
      && (forall k | 0 <= k < |history| :: history[k].end <= issued)
      && (pendingBegin != 0 ==>
            && pendingBegin == Wrap(grabbed) && grabbed <= issued
            && forall k | 0 <= k < |history| :: history[k].end < grabbed)
    }

    /** Just the intervals that end before the highest event number so far have been dropped. */
    ghost predicate InStep()
      reads this
    {
      && dropped <= |history| && highest <= issued
      && (forall k | 0 <= k < dropped :: history[k].end < highest)
      && (forall k | dropped <= k < |history| :: highest <= history[k].end)
    }

    /** The server has processed this request, not too long after the one of the highest event so far and not
        too long ago. */
    ghost predicate Near(s: nat)
      reads this
    {
      s <= issued < s + HALF && s <= highest + (MODULUS - HALF)
    }

    constructor ()
      ensures Valid() && InStep()
      ensures history == [] && pendingBegin == 0 && issued == 0 && dropped == 0 && highest == 0
    {
      queue, pendingBegin := [], 0;
      history, dropped, issued, grabbed, highest := [], 0, 0, 0, 0;
    }

    /** Requests that have nothing to do with enter and leave events. */
    method OtherRequests(n: nat)
      requires Valid()
      modifies this`issued
      ensures Valid() && issued == Advance(old(issued), n) && (old(InStep()) ==> InStep())
    {
      issued := Advance(issued, n);
    }

    /**
     Grabs the server; the grab is the first request of the interval. When a grab is open already there is a
     warning, and that one is forgotten.
     */
    method IgnoreEnterLeaveEvents() returns (warned: bool)
      requires Valid()
      modifies this`pendingBegin, this`issued, this`grabbed
      ensures Valid() && pendingBegin != 0 && (warned <==> old(pendingBegin) != 0)
      ensures grabbed == issued == NextNumber(old(issued)) && (old(InStep()) ==> InStep())
    {
      warned := pendingBegin != 0;
      issued := NextNumber(issued);
      grabbed := issued;
      pendingBegin := Wrap(issued);
    }

    /**
     A no-operation request ends the interval, and the server is released. Without an open grab there is a
     warning, and the interval that is recorded begins at 0.
     */
    method RestoreEnterLeaveEvents() returns (warned: bool)
      requires Valid()
      modifies this`queue, this`pendingBegin, this`issued, this`history
      ensures pendingBegin == 0 && (warned <==> old(pendingBegin) == 0)
      ensures queue == old(queue) + [Stored(old(pendingBegin), Wrap(NextNumber(old(issued))))]
      ensures issued == NextNumber(NextNumber(old(issued)))
      ensures !warned && NextNumber(old(issued)) < grabbed + MODULUS ==>
        && Valid() && history == old(history) + [Interval(grabbed, NextNumber(old(issued)))]
        && (old(InStep()) ==> InStep())
    {
      warned := pendingBegin == 0;
      issued := NextNumber(issued);
      var pair := Stored(pendingBegin, Wrap(issued));
      ghost var i, q, h := Interval(grabbed, issued), queue, history;
      if !warned && issued < grabbed + MODULUS {
        IncreasingSnoc(h, i);
        StandsForSnoc(q, h, dropped, i);
        history := h + [i];
      }
      hide Wrap, Store, NextNumber, Increasing, StandsFor;
      issued := NextNumber(issued);
      pendingBegin := 0;
      queue := queue + [pair];
    }

    // ----- those who open and close the brackets

    /** One bracket around n requests, as for mapping, unmapping and moving a window or warping the pointer. */
    method Bracket(n: nat)
      requires Valid() && pendingBegin == 0 && n + 4 < MODULUS
      modifies this`queue, this`pendingBegin, this`issued, this`history, this`grabbed
      ensures Valid() && pendingBegin == 0 && (old(InStep()) ==> InStep())
      ensures history == old(history) + [Around(old(issued), 0, n)] && issued == Advance(old(issued), n + 3)
    {
      BracketNumbers(issued, n);
      hide Advance, NextNumber, Wrap;
      var nested := IgnoreEnterLeaveEvents();
      OtherRequests(n);
      var unmatched := RestoreEnterLeaveEvents();
    }

    /**
     client_geometry_refresh: the bracket is opened for the first client that changes, and closed if opened. What
     it records are the numbers from the grab on, which comes before the requests for that client.
     */
    method GeometryRefresh(work: seq<Work>)
      requires Valid() && pendingBegin == 0 && Requests(work) + 4 < MODULUS
      modifies this`queue, this`pendingBegin, this`issued, this`history, this`grabbed
      ensures Valid() && pendingBegin == 0 && (old(InStep()) ==> InStep())
      ensures history == old(history) + Refreshing(old(issued), work)
      ensures issued == Advance(old(issued), Requests(work) + if Changed in work then 3 else 0)
    {
      Refreshes(issued, work);
      hide *;
      ghost var start := issued;
      var ignoredEnterLeave := ClientGeometries(work);
      if ignoredEnterLeave {
        EndBracket(start, Requests(work[..FirstChange(work)]), Requests(work));
      }
    }

    /** The end of a bracket that was opened after a requests, when n have been sent apart from the grab. */
    method EndBracket(ghost start: nat, ghost a: nat, ghost n: nat)
      requires Valid() && pendingBegin != 0 && grabbed == Advance(start, a + 1) && issued == Advance(start, n + 1)
      requires NextNumber(Advance(start, n + 1)) == Advance(start, n + 2) < Advance(start, a + 1) + MODULUS
      requires NextNumber(Advance(start, n + 2)) == Advance(start, n + 3)
      modifies this`queue, this`pendingBegin, this`issued, this`history
      ensures Valid() && pendingBegin == 0 && (old(InStep()) ==> InStep())
      ensures history == old(history) + [Interval(Advance(start, a + 1), Advance(start, n + 2))]
      ensures issued == Advance(start, n + 3)
    {
      hide *;
      var unmatched := RestoreEnterLeaveEvents();
    }

    /** The loop over the clients. */
    method ClientGeometries(work: seq<Work>) returns (ignoredEnterLeave: bool)
      requires Valid() && pendingBegin == 0
      modifies this`pendingBegin, this`issued, this`grabbed
      ensures Valid() && (old(InStep()) ==> InStep())
      ensures (ignoredEnterLeave <==> FirstChange(work) < |work|) && (ignoredEnterLeave <==> pendingBegin != 0)
      ensures ignoredEnterLeave ==> grabbed == Advance(old(issued), Requests(work[..FirstChange(work)]) + 1)
      ensures issued == Advance(old(issued), Requests(work) + if ignoredEnterLeave then 1 else 0)
    {
      ghost var start := issued;
      NoAdvance(issued);
      assert work[..0] == [] && Requests(work[..0]) == 0;
      hide NextNumber, Wrap, Advance, Increasing, StandsFor;
      ignoredEnterLeave := false;
      var i := 0;
      while i < |work|
        invariant 0 <= i <= |work| && Valid() && (old(InStep()) ==> InStep())
        invariant AtClient(work, i, start, ignoredEnterLeave)
      {
        hide *;
        ignoredEnterLeave := NextClient(work, i, start, ignoredEnterLeave);
        i := i + 1;
      }
      assert work[..i] == work;
    }

    /** What has happened when the first i clients have been looked at. */
    ghost predicate AtClient(work: seq<Work>, i: nat, start: nat, grabbing: bool)
      reads this
    {
      && i <= |work| && (grabbing <==> FirstChange(work) < i) && (grabbing <==> pendingBegin != 0)
      && (grabbing ==> grabbed == Advance(start, GrabAt(work)))
      && issued == Advance(start, Sent(work, i, grabbing))
    }

    method NextClient(work: seq<Work>, i: nat, ghost start: nat, grabbing: bool) returns (now: bool)
      requires i < |work| && Valid() && AtClient(work, i, start, grabbing)
      modifies this`pendingBegin, this`issued, this`grabbed
      ensures Valid() && (old(InStep()) ==> InStep()) && AtClient(work, i + 1, start, now)
    {
      hide Advance, Sent, GrabAt, FirstChange, Cost;
      ghost var next;
      now, next := ClientGeometry(work[i], grabbing, start, Sent(work, i, grabbing));
      SentNext(work, i, grabbing, now, next);
    }

    /**
     Two requests and an event go out for a client that changes, after the grab if there is none yet, and an event
     for one that only asked for it.
     */
    method ClientGeometry(work: Work, grabbing: bool, ghost start: nat, ghost sent: nat)
      returns (now: bool, ghost next: nat)
      requires Valid() && (grabbing <==> pendingBegin != 0) && issued == Advance(start, sent)
      modifies this`pendingBegin, this`issued, this`grabbed
      ensures Valid() && (old(InStep()) ==> InStep())
      ensures (now <==> grabbing || work == Changed) && (now <==> pendingBegin != 0)
      ensures issued == Advance(start, next) && next == sent + Cost(work) + if now && !grabbing then 1 else 0
      ensures grabbed == if now && !grabbing then Advance(start, sent + 1) else old(grabbed)
    {
      hide Advance, NextNumber, Wrap, Increasing, StandsFor;
      now, next := grabbing, sent;
      match work {
        case Nothing => {
        }
        case Asked => {
          AdvanceTwice(start, next, 1);
          OtherRequests(1);
          next := next + 1;
        }
        case Changed => {
          if !grabbing {
            Grabbing(start, next);
            var nested := IgnoreEnterLeaveEvents();
            now, next := true, next + 1;
          }
          AdvanceTwice(start, next, 3);
          OtherRequests(3);
          next := next + 3;
        }
      }
    }

    /** Takes the intervals that are over off the queue. */
    method DropCompleted(sequence: nat)
      modifies this`queue, this`dropped
      ensures queue == Kept(old(queue), sequence) && dropped == old(dropped) + |old(queue)| - |queue|
    {
      while |queue| > 0
        invariant Kept(queue, sequence) == Kept(old(queue), sequence)
        invariant |queue| + dropped == |old(queue)| + old(dropped)
      {
        if KeepTest(queue[0].end, sequence) {
          break;
        }
        queue := queue[1..];
        dropped := dropped + 1;
      }
    }

    /**
     Says whether an event is to be ignored. For an enter or leave event whose unwrapped number s is near, the
     answer is whether s lies in an interval that does not straddle a wrap and has not been dropped for an earlier
     event, although only one is looked at. When no event with a higher number has come before, none of the
     intervals ever recorded is missing. For any other number the test on wrapped numbers decides.
     */
    method ShouldIgnore(enterOrLeave: bool, sequence: nat, ghost s: nat) returns (r: bool)
      requires Valid() && sequence == Wrap(s)
      modifies this`queue, this`dropped, this`highest
      ensures Valid() && highest == if s < old(highest) then old(highest) else s
      ensures queue == Kept(old(queue), sequence) && (r <==> enterOrLeave && Matches(queue, sequence))
      ensures old(InStep() && Near(s)) ==>
        && InStep() && (r <==> enterOrLeave && Recorded(history, old(dropped), s))
        && (old(highest) <= s ==> (r <==> enterOrLeave && Recorded(history, 0, s)))
    {
      hide Kept, Wrap, Increasing, Recorded, Store, StandsFor, KeepTest, Matches, Near, Straddles, Within;
      if InStep() && Near(s) {
        NearMeans(s);
      }
      KeptStands(queue, history, dropped, sequence);
      DropCompleted(sequence);
      highest := if s < highest then highest else s;
      NoneMatches(queue, sequence);
      r := false;
      if enterOrLeave && |queue| > 0 {
        r := HeadMatches(sequence);
      }
    }

    /** The comparison with the first interval. */
    method HeadMatches(sequence: nat) returns (r: bool)
      requires |queue| > 0
      ensures r <==> Matches(queue, sequence)
    {
      var begin, end := queue[0].begin, queue[0].end;
      r := sequence >= begin && sequence <= end;
    }

    /** What will be left of the queue for a near number, and what the comparison will say. */
    lemma NearMeans(s: nat)
      requires Valid() && InStep() && Near(s)
      ensures var q := Kept(queue, Wrap(s));
        var head := |history| - |q|;
        && s <= issued && dropped <= head <= |history|
        && (forall k | dropped <= k < head :: history[k].end < s) && (head < |history| ==> s <= history[head].end)
        && (forall k | head <= k < |history| :: s <= history[k].end)
        && (Matches(q, Wrap(s)) <==> Recorded(history, dropped, s))
        && (highest <= s ==> (Matches(q, Wrap(s)) <==> Recorded(history, 0, s)))
    {
      hide Kept, Wrap, Increasing, Recorded, Store, KeepTest, Matches, InReach, Straddles, Within;
      AllInReach(s);
      var head := KeptMeans(queue, history, dropped, s);
      EndsRise(history, head, s);
      HeadDecides(Kept(queue, Wrap(s)), history, dropped, head, s);
      if highest <= s {
        NoneIsMissing(history, dropped, highest, s);
      }
    }

    lemma AllInReach(s: nat)
      requires Valid() && InStep() && Near(s)
      ensures forall k | dropped <= k < |history| :: InReach(history[k], s)
      ensures forall k | dropped <= k < |history| :: history[k].end < s + HALF
    {
      hide Increasing, StandsFor;
    }
  }

  lemma EndsRise(h: seq<Interval>, head: nat, s: nat)
    requires Increasing(h) && (head < |h| ==> s <= h[head].end)
    ensures forall k | head <= k < |h| :: s <= h[k].end
  {
    forall k | head < k < |h| ensures s <= h[k].end {
      assert h[head].end < h[k].begin <= h[k].end;
    }
  }

  lemma KeptStands(q: seq<Stored>, h: seq<Interval>, d: nat, sequence: nat)
    requires StandsFor(q, h, d)
    ensures StandsFor(Kept(q, sequence), h, d + |q| - |Kept(q, sequence)|) && |q| + d == |h|
  {
    KeptIsSuffix(q, sequence);
    SuffixStands(q, h, d, |q| - |Kept(q, sequence)|);
    hide Store, Kept;
  }

  lemma SuffixStands(q: seq<Stored>, h: seq<Interval>, d: nat, n: nat)
    requires StandsFor(q, h, d) && n <= |q|
    ensures StandsFor(q[n..], h, d + n)
  {
    hide Store;
    forall k | 0 <= k < |q| - n ensures q[n..][k] == Store(h[d + n + k]) {
      assert q[n..][k] == q[n + k];
    }
  }

  lemma NoneMatches(q: seq<Stored>, sequence: nat)
    ensures q == [] ==> !Matches(q, sequence)
  {
  }

  /**
   An event with a higher number that is handled first, as the error of a failed reparent request is, takes the
   interval away from an enter event that should have been ignored.
   */
  method EarlyErrorLosesInterval() returns (ignored: bool, ghost recorded: seq<Interval>)
    ensures recorded == [Interval(1, 2)] && Within(recorded[0], 2) && !Straddles(recorded[0])
    ensures !ignored
  {
    hide Increasing, StandsFor, Store;
    var x := new Suppression();
    var nested := x.IgnoreEnterLeaveEvents();
    assert x.issued == 1;
    var unmatched := x.RestoreEnterLeaveEvents();
    assert x.issued == 3 && x.history == [Interval(1, 2)];
    x.OtherRequests(2);
    recorded := x.history;
    hide *;
    ignored := EnterAfterError(x);
  }

  method EnterAfterError(x: Suppression) returns (ignored: bool)
    requires x.Valid() && x.InStep() && x.history == [Interval(1, 2)]
    requires x.dropped == 0 && x.highest == 0 && x.issued == 5
    modifies x
    ensures !ignored
  {
    var error := x.ShouldIgnore(false, 5, 5);
    assert x.highest == 5 && x.dropped == 1;
    ignored := x.ShouldIgnore(true, 2, 2);
  }

  /** An interval that straddles a wrap fails to suppress its own events: here the event number 2^32, in the
      interval from 2^32 - 1 to 2^32 + 1. */
  lemma StraddlingIntervalMisses()
    ensures var i, s := Interval(MODULUS - 1, MODULUS + 1), MODULUS;
      Within(i, s) && InReach(i, s) && !(Wrap(i.begin) <= Wrap(s) <= Wrap(i.end))
  {
  }
}
