/**
 One turn of the event loop over the events that are waiting: motion events are coalesced, everything
 else is handled as it comes.
 */
module EventLoop {
  import opened Options
  import opened Sequences

  datatype Kind = Motion | Enter | Leave | ButtonPress | ButtonRelease | OtherKind

  /** An event and the number of the last request the server had processed when it sent it. */
  datatype Event = Event(kind: Kind, sequence: nat, detail: nat)

  /** Motion events are not moved over these. */
  predicate Barrier(e: Event) {
    e.kind in {Enter, Leave, ButtonPress, ButtonRelease}
  }

  function ToSeq(o: Option<Event>): seq<Event> {
    match o
    case None => []
    case Some(e) => [e]
  }

  function NonMotions(es: seq<Event>): seq<Event>
    decreases |es|
  {
    if es == [] then []
    else if es[0].kind == Motion then NonMotions(es[1..])
    else [es[0]] + NonMotions(es[1..])
  }

  function Motions(es: seq<Event>): seq<Event>
    decreases |es|
  {
    if es == [] then []
    else if es[0].kind == Motion then [es[0]] + Motions(es[1..])
    else Motions(es[1..])
  }

  /** The number of events before the first barrier. */
  function SegmentLength(es: seq<Event>): (n: nat)
    ensures n <= |es|
    ensures forall i | 0 <= i < n :: !Barrier(es[i])
    ensures n < |es| ==> Barrier(es[n])
    decreases |es|
  {
    if es == [] || Barrier(es[0]) then 0 else 1 + SegmentLength(es[1..])
  }

  /** What becomes of a segment without barriers: the events other than motions, then the last motion. */
  function Flushed(segment: seq<Event>): seq<Event> {
    var m := Motions(segment);
    NonMotions(segment) + (if m == [] then [] else [m[|m| - 1]])
  }

  /** What becomes of a batch: segment by segment, the barriers between them. */
  function Coalesced(es: seq<Event>): seq<Event>
    decreases |es|, 1
  {
    var n := SegmentLength(es);
    Flushed(es[..n]) + From(es, n)
  }

  /** What becomes of a batch from a barrier on. */
  function From(es: seq<Event>, n: nat): seq<Event>
    requires n <= |es|
    decreases |es|, 0
  {
    if n == |es| then [] else [es[n]] + Coalesced(es[n + 1..])
  }

  // ----- the loop computes it

  /** What comes of a batch after its first segment. */
  function AfterSegment(es: seq<Event>): seq<Event> {
    From(es, SegmentLength(es))
  }

  lemma FromAppend(x: seq<Event>, rest: seq<Event>, n: nat)
    requires n <= |rest|
    ensures From(x + rest, |x| + n) == From(rest, n)
  {
    hide Coalesced;
    if n < |rest| {
      DropAppend(x, rest, n + 1);
      assert (x + rest)[|x| + n] == rest[n];
    }
  }

  /** Events without a barrier join the first segment of what follows. */
  lemma {:induction false} CoalescedFrom(x: seq<Event>, rest: seq<Event>)
    requires forall e | e in x :: !Barrier(e)
    ensures Coalesced(x + rest) == Flushed(x + rest[..SegmentLength(rest)]) + AfterSegment(rest)
  {
    SegmentOfAppend(x, rest);
    TakeAppend(x, rest, SegmentLength(rest));
    FromAppend(x, rest, SegmentLength(rest));
    CoalescedStep(x + rest);
  }

  lemma {:induction false} SegmentOfAppend(x: seq<Event>, rest: seq<Event>)
    requires forall e | e in x :: !Barrier(e)
    ensures SegmentLength(x + rest) == |x| + SegmentLength(rest)
  {
    if x == [] {
      assert x + rest == rest;
    } else {
      assert (x + rest)[1..] == x[1..] + rest;
      assert x[0] in x;
      SegmentOfAppend(x[1..], rest);
    }
  }

  lemma MotionReplaces(m: Event, e: Event, rest: seq<Event>)
    requires m.kind == Motion && e.kind == Motion
    ensures Coalesced([m, e] + rest) == Coalesced([e] + rest)
  {
    var segment := rest[..SegmentLength(rest)];
    CoalescedFrom([m, e], rest);
    CoalescedFrom([e], rest);
    MotionDropped(m, e, segment);
    hide Flushed, Coalesced, AfterSegment;
    assert rest[..SegmentLength(rest)] == segment;
  }

  lemma MotionDropped(m: Event, e: Event, segment: seq<Event>)
    requires m.kind == Motion && e.kind == Motion
    ensures Flushed([m, e] + segment) == Flushed([e] + segment)
  {
    assert ([m, e] + segment)[1..] == [e] + segment;
    assert ([e] + segment)[1..] == segment;
  }

  lemma OtherPasses(pm: Option<Event>, e: Event, rest: seq<Event>)
    requires pm.Some? ==> pm.value.kind == Motion
    requires e.kind != Motion && !Barrier(e)
    ensures Coalesced(ToSeq(pm) + ([e] + rest)) == [e] + Coalesced(ToSeq(pm) + rest)
  {
    var segment := rest[..SegmentLength(rest)];
    CoalescedFrom(ToSeq(pm) + [e], rest);
    CoalescedFrom(ToSeq(pm), rest);
    FlushedWithOther(pm, e, segment);
    hide Coalesced, Flushed, AfterSegment, ToSeq;
    Assoc(ToSeq(pm), [e], rest);
    Assoc([e], Flushed(ToSeq(pm) + segment), AfterSegment(rest));
  }

  lemma FlushedWithOther(pm: Option<Event>, e: Event, segment: seq<Event>)
    requires pm.Some? ==> pm.value.kind == Motion
    requires e.kind != Motion
    ensures Flushed(ToSeq(pm) + [e] + segment) == [e] + Flushed(ToSeq(pm) + segment)
  {
    assert ([e] + segment)[1..] == segment;
    match pm
    case None =>
      assert ToSeq(pm) + [e] + segment == [e] + segment && ToSeq(pm) + segment == segment;
    case Some(m) =>
      assert ([m] + [e] + segment)[1..] == [e] + segment;
      assert ([m] + segment)[1..] == segment;
      assert Motions([m] + [e] + segment) == Motions([m] + segment);
      assert NonMotions([m] + [e] + segment) == [e] + NonMotions([m] + segment);
  }

  lemma BarrierFlushes(pm: Option<Event>, e: Event, rest: seq<Event>)
    requires pm.Some? ==> pm.value.kind == Motion
    requires Barrier(e)
    ensures Coalesced(ToSeq(pm) + ([e] + rest)) == ToSeq(pm) + [e] + Coalesced(rest)
  {
    CoalescedFrom(ToSeq(pm), [e] + rest);
    FlushedAlone(pm);
    assert ToSeq(pm) + ([e] + rest)[..0] == ToSeq(pm);
    AfterBarrier(e, rest);
    hide Coalesced, Flushed, AfterSegment, ToSeq;
    Assoc(ToSeq(pm), [e], Coalesced(rest));
  }

  lemma AfterBarrier(e: Event, rest: seq<Event>)
    requires Barrier(e)
    ensures SegmentLength([e] + rest) == 0 && AfterSegment([e] + rest) == [e] + Coalesced(rest)
  {
    assert ([e] + rest)[1..] == rest;
  }

  lemma FlushedAlone(pm: Option<Event>)
    requires pm.Some? ==> pm.value.kind == Motion
    ensures Flushed(ToSeq(pm)) == ToSeq(pm)
  {
    if pm.Some? {
      var s := [pm.value];
      assert s[1..] == [];
      assert Motions(s) == [s[0]] + Motions(s[1..]) && Motions(s[1..]) == [];
      assert NonMotions(s) == NonMotions(s[1..]) && NonMotions(s[1..]) == [];
    }
  }

  lemma CoalescedAlone(pm: Option<Event>)
    requires pm.Some? ==> pm.value.kind == Motion
    ensures Coalesced(ToSeq(pm) + []) == ToSeq(pm)
  {
    CoalescedFrom(ToSeq(pm), []);
    assert ToSeq(pm) + [] == ToSeq(pm);
    FlushedAlone(pm);
  }

  // ----- what becomes of the events

  lemma {:induction false} NonMotionsAppend(a: seq<Event>, b: seq<Event>)
    ensures NonMotions(a + b) == NonMotions(a) + NonMotions(b)
    ensures Motions(a + b) == Motions(a) + Motions(b)
  {
    if a == [] {
      assert a + b == b;
    } else {
      assert (a + b)[1..] == a[1..] + b;
      NonMotionsAppend(a[1..], b);
      Assoc([a[0]], NonMotions(a[1..]), NonMotions(b));
      Assoc([a[0]], Motions(a[1..]), Motions(b));
    }
  }

  lemma {:induction false} KindsOf(es: seq<Event>)
    ensures forall e | e in NonMotions(es) :: e in es && e.kind != Motion
    ensures forall e | e in Motions(es) :: e in es && e.kind == Motion
    ensures NonMotions(NonMotions(es)) == NonMotions(es) && Motions(NonMotions(es)) == []
    ensures NonMotions(Motions(es)) == [] && Motions(Motions(es)) == Motions(es)
  {
    if es != [] {
      KindsOf(es[1..]);
      assert ([es[0]] + NonMotions(es[1..]))[1..] == NonMotions(es[1..]);
      assert ([es[0]] + Motions(es[1..]))[1..] == Motions(es[1..]);
    }
  }

  function LastMotion(segment: seq<Event>): seq<Event> {
    var m := Motions(segment);
    if m == [] then [] else [m[|m| - 1]]
  }

  lemma FlushedKinds(segment: seq<Event>)
    ensures NonMotions(Flushed(segment)) == NonMotions(segment)
    ensures Motions(Flushed(segment)) == LastMotion(segment)
    ensures forall e | e in Flushed(segment) :: e in segment
  {
    KindsOf(segment);
    NonMotionsAppend(NonMotions(segment), LastMotion(segment));
    var l := LastMotion(segment);
    if l != [] {
      assert l[0] in Motions(segment) && l[1..] == [];
      assert Motions(l) == [l[0]] + Motions(l[1..]) && NonMotions(l) == NonMotions(l[1..]);
    }
  }

  lemma NonMotionsSplit(a: seq<Event>, x: Event, b: seq<Event>)
    ensures NonMotions(a + ([x] + b)) == NonMotions(a) + (NonMotions([x]) + NonMotions(b))
  {
    NonMotionsAppend(a, [x] + b);
    NonMotionsAppend([x], b);
  }

  /** Everything but motion is handled, in the order it came. */
  lemma {:induction false} OthersKeepOrder(es: seq<Event>)
    ensures NonMotions(Coalesced(es)) == NonMotions(es)
    decreases |es|
  {
    CoalescedStep(es);
    var n := SegmentLength(es);
    FlushedKinds(es[..n]);
    if n == |es| {
      assert es[..n] == es && Flushed(es) + [] == Flushed(es);
    } else {
      hide NonMotions, Flushed, Coalesced;
      var rest := es[n + 1..];
      OthersKeepOrder(rest);
      NonMotionsSplit(Flushed(es[..n]), es[n], Coalesced(rest));
      NonMotionsSplit(es[..n], es[n], rest);
      SplitAt(es, n);
    }
  }

  /** No other motion comes between the i-th event, a motion, and the next barrier. */
  ghost predicate LastOfSegment(es: seq<Event>, i: nat)
    requires i < |es|
  {
    es[i].kind == Motion &&
    forall j | i < j < |es| && es[j].kind == Motion :: exists k :: i < k < j && Barrier(es[k])
  }

  /** The motions from the i-th event on that are the last of their segment. */
  ghost function Survivors(es: seq<Event>, i: nat): seq<Event>
    requires i <= |es|
    decreases |es| - i
  {
    if i == |es| then []
    else if LastOfSegment(es, i) then [es[i]] + Survivors(es, i + 1)
    else Survivors(es, i + 1)
  }

  lemma {:induction false} SurvivorsShift(es: seq<Event>, n: nat, i: nat)
    requires n <= i <= |es|
    ensures Survivors(es, i) == Survivors(es[n..], i - n)
    decreases |es| - i
  {
    if i < |es| {
      SurvivorsShift(es, n, i + 1);
      LastOfSegmentShift(es, n, i);
      hide LastOfSegment;
    }
  }

  lemma LastOfSegmentShift(es: seq<Event>, n: nat, i: nat)
    requires n <= i < |es|
    ensures LastOfSegment(es, i) <==> LastOfSegment(es[n..], i - n)
  {
    var t := es[n..];
    if LastOfSegment(t, i - n) {
      forall j | i < j < |es| && es[j].kind == Motion ensures exists k :: i < k < j && Barrier(es[k]) {
        assert t[j - n].kind == Motion;
        var k :| i - n < k < j - n && Barrier(t[k]);
        assert Barrier(es[k + n]);
      }
    }
    if LastOfSegment(es, i) {
      forall j | i - n < j < |t| && t[j].kind == Motion ensures exists k :: i - n < k < j && Barrier(t[k]) {
        assert es[j + n].kind == Motion;
        var k :| i < k < j + n && Barrier(es[k]);
        assert Barrier(t[k - n]);
      }
    }
  }

  /** Within the first segment the survivor is the last motion. */
  lemma {:induction false} SurvivorsOfSegment(es: seq<Event>, n: nat, i: nat)
    requires n == SegmentLength(es) && i <= n
    ensures Survivors(es, i) == LastMotion(es[i..n]) + Survivors(es, n)
    decreases n - i
  {
    if i < n {
      SurvivorsOfSegment(es, n, i + 1);
      var t := es[i + 1..n];
      assert es[i..n] == [es[i]] + t && es[i..n][1..] == t;
      LastOfFirstSegment(es, n, i);
      hide LastOfSegment;
    }
  }

  lemma LastOfFirstSegment(es: seq<Event>, n: nat, i: nat)
    requires n == SegmentLength(es) && i < n
    ensures LastOfSegment(es, i) <==> es[i].kind == Motion && Motions(es[i + 1..n]) == []
  {
    var t := es[i + 1..n];
    if Motions(t) == [] {
      forall j | i < j < |es| && es[j].kind == Motion ensures exists k :: i < k < j && Barrier(es[k]) {
        if j < n {
          assert t[j - i - 1] == es[j];
          MotionsHas(t, j - i - 1);
        }
        assert n < j && Barrier(es[n]);
      }
    } else {
      var j := HasMotion(t);
      assert es[i + 1 + j].kind == Motion;
    }
  }

  lemma {:induction false} MotionsHas(t: seq<Event>, j: nat)
    requires j < |t| && t[j].kind == Motion
    ensures Motions(t) != []
  {
    if j > 0 {
      MotionsHas(t[1..], j - 1);
    }
  }

  lemma {:induction false} HasMotion(t: seq<Event>) returns (j: nat)
    requires Motions(t) != []
    ensures j < |t| && t[j].kind == Motion
  {
    if t[0].kind == Motion {
      j := 0;
    } else {
      j := HasMotion(t[1..]);
      j := j + 1;
    }
  }

  /** Exactly the motions that are the last of their segment are handled, in the order they came. */
  lemma {:induction false} LastMotionsSurvive(es: seq<Event>)
    ensures Motions(Coalesced(es)) == Survivors(es, 0)
    decreases |es|
  {
    CoalescedStep(es);
    var n := SegmentLength(es);
    FlushedKinds(es[..n]);
    NonMotionsAppend(Flushed(es[..n]), AfterSegment(es));
    SurvivorsOfSegment(es, n, 0);
    if n == |es| {
      assert es[0..n] == es[..n] == es;
    } else {
      var rest := es[n + 1..];
      LastMotionsSurvive(rest);
      SurvivorsShift(es, n + 1, n + 1);
      assert es[n].kind != Motion && Survivors(es, n) == Survivors(es, n + 1);
      assert es[0..n] == es[..n];
      NonMotionsAppend([es[n]], Coalesced(rest));
    }
  }

  lemma CoalescedStep(es: seq<Event>)
    ensures Coalesced(es) == Flushed(es[..SegmentLength(es)]) + AfterSegment(es)
    ensures AfterSegment(es) != [] ==> Barrier(AfterSegment(es)[0])
  {
  }

  /** A motion that is handled is handled right before the next barrier, or last of all. */
  lemma {:induction false} MotionBeforeBarrier(es: seq<Event>, p: nat)
    requires p < |Coalesced(es)| && Coalesced(es)[p].kind == Motion
    ensures p + 1 == |Coalesced(es)| || Barrier(Coalesced(es)[p + 1])
    decreases |es|
  {
    CoalescedStep(es);
    var n, t := SegmentLength(es), AfterSegment(es);
    var f := Flushed(es[..n]);
    if p < |f| {
      MotionIsLast(es[..n], p);
    } else {
      assert t[p - |f|].kind == Motion;
      var rest := es[n + 1..];
      assert t == [es[n]] + Coalesced(rest);
      MotionBeforeBarrier(rest, p - |f| - 1);
    }
  }

  // ----- the kinds of the events

  lemma {:induction false} FirstBarrier(a: seq<Event>, b: seq<Event>)
    requires SegmentLength(a) < |a|
    ensures SegmentLength(a + b) == SegmentLength(a)
  {
    if !Barrier(a[0]) {
      assert (a + b)[1..] == a[1..] + b;
      FirstBarrier(a[1..], b);
    }
  }

  /** What comes after the first barrier in a is for itself. */
  lemma CoalescedAfter(a: seq<Event>, b: seq<Event>)
    requires SegmentLength(a) < |a|
    ensures var n := SegmentLength(a);
      Coalesced(a + b) == Flushed(a[..n]) + ([a[n]] + Coalesced(a[n + 1..] + b))
  {
    hide Flushed;
    var n := SegmentLength(a);
    FirstBarrier(a, b);
    assert (a + b)[..n] == a[..n] && (a + b)[n + 1..] == a[n + 1..] + b;
  }

  /** Enter and leave events and the presses and releases of a button split a batch: what comes before one is handled
      before it, and what comes after it after it. */
  lemma {:induction false} PressesSplit(a: seq<Event>, e: Event, b: seq<Event>)
    requires e.kind == Enter || e.kind == Leave || e.kind == ButtonPress || e.kind == ButtonRelease
    ensures Coalesced(a + [e] + b) == Coalesced(a) + [e] + Coalesced(b)
    decreases |a|
  {
    var n := SegmentLength(a);
    Assoc(a, [e], b);
    if n == |a| {
      LastSegment(a, e, b);
    } else {
      var rest := a[n + 1..];
      PressesSplit(rest, e, b);
      CoalescedAfter(a, [e] + b);
      CoalescedAfter(a, []);
      assert a + [] == a && rest + [] == rest;
      Assoc(rest, [e], b);
      hide Coalesced, Flushed;
      Regroup(Flushed(a[..n]), [a[n]], Coalesced(rest), [e], Coalesced(b));
    }
  }

  lemma Regroup(a: seq<Event>, b: seq<Event>, c: seq<Event>, d: seq<Event>, e: seq<Event>)
    ensures a + (b + (c + d + e)) == a + (b + c) + d + e
  {
  }

  lemma LastSegment(a: seq<Event>, e: Event, b: seq<Event>)
    requires Barrier(e) && SegmentLength(a) == |a|
    ensures Coalesced(a + ([e] + b)) == Coalesced(a) + [e] + Coalesced(b)
  {
    CoalescedFrom(a, [e] + b);
    AfterBarrier(e, b);
    CoalescedStep(a);
    assert a[..|a|] == a && a + ([e] + b)[..0] == a;
    hide Coalesced, Flushed;
    Assoc(Flushed(a), [e], Coalesced(b));
  }

  /** A motion does not outlive the next one, though other events may come between them. */
  lemma {:induction false} OthersDoNotSplit(a: seq<Event>, m: Event, e: Event, n: Event, b: seq<Event>)
    requires m.kind == Motion && n.kind == Motion && e.kind == OtherKind
    ensures Coalesced(a + ([m, e, n] + b)) == Coalesced(a + ([e, n] + b))
    decreases |a|
  {
    var k := SegmentLength(a);
    if k == |a| {
      var t := b[..SegmentLength(b)];
      assert a + ([m, e, n] + b) == a + [m, e, n] + b && a + ([e, n] + b) == a + [e, n] + b;
      CoalescedFrom(a + [m, e, n], b);
      CoalescedFrom(a + [e, n], b);
      hide Coalesced, Flushed, AfterSegment;
      OlderMotion(a, m, e, n, t);
    } else {
      OthersDoNotSplit(a[k + 1..], m, e, n, b);
      CoalescedAfter(a, [m, e, n] + b);
      CoalescedAfter(a, [e, n] + b);
    }
  }

  lemma OlderMotion(a: seq<Event>, m: Event, e: Event, n: Event, t: seq<Event>)
    requires m.kind == Motion && n.kind == Motion && e.kind == OtherKind
    ensures Flushed(a + [m, e, n] + t) == Flushed(a + [e, n] + t)
  {
    assert a + [m, e, n] + t == a + ([m, e, n] + t) && a + [e, n] + t == a + ([e, n] + t);
    NonMotionsAppend(a, [m, e, n] + t);
    NonMotionsAppend(a, [e, n] + t);
    assert ([m, e, n] + t)[1..] == [e, n] + t && ([e, n] + t)[1..] == [n] + t && ([n] + t)[1..] == t;
  }

  lemma MotionIsLast(segment: seq<Event>, p: nat)
    requires p < |Flushed(segment)| && Flushed(segment)[p].kind == Motion
    ensures p == |Flushed(segment)| - 1
  {
    KindsOf(segment);
    if p < |NonMotions(segment)| {
      assert false;
    }
  }

  lemma {:induction false} CoalescedMembers(es: seq<Event>, e: Event)
    requires e in Coalesced(es)
    ensures e in es
    decreases |es|
  {
    CoalescedStep(es);
    var n := SegmentLength(es);
    if e in Flushed(es[..n]) {
      FlushedKinds(es[..n]);
    } else if e != es[n] {
      CoalescedMembers(es[n + 1..], e);
    }
  }

  /** When the events come with rising numbers, no barrier is handled after an event with a higher number,
      although motions are handled late. */
  lemma {:induction false} BarriersStayInOrder(es: seq<Event>, p: nat, q: nat)
    requires Rising(es)
    requires p < q < |Coalesced(es)| && Barrier(Coalesced(es)[q])
    ensures Coalesced(es)[p].sequence <= Coalesced(es)[q].sequence
    decreases |es|
  {
    CoalescedStep(es);
    hide Flushed, AfterSegment, Coalesced, Rising;
    var n := SegmentLength(es);
    var l := |Flushed(es[..n])|;
    if q < l {
      var i := FlushedAt(es, q);
    } else {
      var m := AfterSegmentAt(es, q - l);
      if p < l {
        var i := FlushedAt(es, p);
        RisingAt(es, i, m);
      } else if p == l {
        var i := AfterSegmentAt(es, 0);
        RisingAt(es, i, m);
      } else {
        RisingRest(es, n + 1);
        LaterAt(es, p - l);
        LaterAt(es, q - l);
        BarriersStayInOrder(es[n + 1..], p - l - 1, q - l - 1);
      }
    }
  }

  lemma FlushedAt(es: seq<Event>, p: nat) returns (i: nat)
    requires p < |Flushed(es[..SegmentLength(es)])|
    ensures i < SegmentLength(es) && es[i] == Flushed(es[..SegmentLength(es)])[p] && !Barrier(es[i])
  {
    var segment := es[..SegmentLength(es)];
    FlushedKinds(segment);
    assert Flushed(segment)[p] in Flushed(segment) && segment[0..] == segment;
    i := IndexFrom(segment, 0, Flushed(segment)[p]);
  }

  lemma LaterAt(es: seq<Event>, k: nat)
    requires 0 < k < |AfterSegment(es)|
    ensures SegmentLength(es) < |es| && k - 1 < |Coalesced(es[SegmentLength(es) + 1..])|
    ensures AfterSegment(es)[k] == Coalesced(es[SegmentLength(es) + 1..])[k - 1]
  {
    hide Coalesced, SegmentLength;
  }

  /** What comes from the first barrier on came from there in the batch. */
  lemma AfterSegmentAt(es: seq<Event>, k: nat) returns (m: nat)
    requires k < |AfterSegment(es)|
    ensures SegmentLength(es) <= m < |es| && es[m] == AfterSegment(es)[k]
    ensures k == 0 ==> m == SegmentLength(es)
  {
    var n := SegmentLength(es);
    m := n;
    if k > 0 {
      var e := Coalesced(es[n + 1..])[k - 1];
      CoalescedMembers(es[n + 1..], e);
      m := IndexFrom(es, n + 1, e);
    }
  }

  lemma IndexFrom(es: seq<Event>, n: nat, e: Event) returns (m: nat)
    requires n <= |es| && e in es[n..]
    ensures n <= m < |es| && es[m] == e
  {
    var t := es[n..];
    var j :| 0 <= j < |t| && t[j] == e;
    m := n + j;
  }

  ghost predicate Rising(es: seq<Event>) {
    forall i, j | 0 <= i < j < |es| :: es[i].sequence <= es[j].sequence
  }

  lemma RisingRest(es: seq<Event>, n: nat)
    requires Rising(es) && n <= |es|
    ensures Rising(es[n..])
  {
  }

  lemma RisingAt(es: seq<Event>, i: nat, j: nat)
    requires Rising(es) && i <= j < |es|
    ensures es[i].sequence <= es[j].sequence
  {
  }

  class Loop {
    var pendingEvent: Option<Event>
    var queue: seq<Event>
    /** The events handed to event_handle so far. */
    var handled: seq<Event>

    constructor (queue: seq<Event>)
      ensures this.queue == queue && pendingEvent == None && handled == []
    {
      this.queue := queue;
      pendingEvent, handled := None, [];
    }

    function Waiting(): seq<Event>
      reads this
    {
      ToSeq(pendingEvent) + queue
    }

    method PollForEvent() returns (e: Option<Event>)
      modifies this`pendingEvent, this`queue
      ensures old(Waiting()) == ToSeq(e) + Waiting()
      ensures e == None ==> old(Waiting()) == []
    {
      if pendingEvent.Some? {
        e := pendingEvent;
        pendingEvent := None;
      } else if queue != [] {
        e := Some(queue[0]);
        queue := queue[1..];
      } else {
        e := None;
      }
    }

    method EventHandle(e: Event)
      modifies this`handled
      ensures handled == old(handled) + [e]
    {
      handled := handled + [e];
    }

    /** The body of the loop for one event; rest stands for whatever comes after it. */
    method HandleOne(mouse: Option<Event>, e: Event, ghost rest: seq<Event>) returns (next: Option<Event>)
      requires mouse.Some? ==> mouse.value.kind == Motion
      modifies this`handled
      ensures next.Some? ==> next.value.kind == Motion
      ensures handled + Coalesced(ToSeq(next) + rest) == old(handled) + Coalesced(ToSeq(mouse) + ([e] + rest))
    {
      hide Coalesced;
      next := mouse;
      if e.kind == Motion {
        if mouse.Some? {
          MotionReplaces(mouse.value, e, rest);
          assert ToSeq(mouse) + ([e] + rest) == [mouse.value, e] + rest;
        }
        next := Some(e);
        assert [] + ([e] + rest) == [e] + rest;
      } else if Barrier(e) {
        BarrierFlushes(mouse, e, rest);
        if mouse.Some? {
          EventHandle(mouse.value);
          next := None;
        }
        EventHandle(e);
        assert [] + rest == rest;
      } else {
        OtherPasses(mouse, e, rest);
        EventHandle(e);
      }
    }

    /** Handles all waiting events. */
    method XcbCheck()
      modifies this
      ensures Waiting() == []
      ensures handled == old(handled) + Coalesced(old(Waiting()))
    {
      hide Coalesced;
      var mouse: Option<Event> := None;
      ghost var total := handled + Coalesced(Waiting());
      var event := PollForEvent();
      assert [] + (ToSeq(event) + Waiting()) == old(Waiting());
      while event.Some?
        invariant mouse.Some? ==> mouse.value.kind == Motion
        invariant handled + Coalesced(ToSeq(mouse) + (ToSeq(event) + Waiting())) == total
        invariant event == None ==> Waiting() == []
        decreases |ToSeq(event) + Waiting()|
      {
        mouse := HandleOne(mouse, event.value, Waiting());
        event := PollForEvent();
      }
      assert [] + Waiting() == [];
      CoalescedAlone(mouse);
      if mouse.Some? {
        EventHandle(mouse.value);
      }
    }
  }
}
