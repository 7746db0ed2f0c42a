/**
 The event loop and the suppression of enter and leave events together: over any sequence of requests,
 brackets and batches of events, which events are ignored.
 */
module EventStream {
  import opened Sequences
  import opened EventLoop
  import opened EnterLeave

  predicate EnterOrLeave(e: Event) {
    e.kind == Enter || e.kind == Leave
  }

  /** What became of an event. */
  datatype Verdict = Verdict(event: Event, ignored: bool)

  /** Ignored are just the enter and leave events in an interval that can be recognised. */
  ghost predicate Right(v: Verdict, h: seq<Interval>) {
    v.ignored <==> (v.event.kind == Enter || v.event.kind == Leave) && Recorded(h, 0, v.event.sequence)
  }

  /** Some requests, a bracket around some, or a refresh of the geometries. */
  datatype Act = Sends(n: nat) | Bracketed(n: nat) | Refreshes(work: seq<Work>)

  /** An event is looked at, or the window manager acts. */
  datatype Step = Look(event: Event) | Do(act: Act)

  /** The window manager acts, or handles a batch of waiting events; after the i-th handled one
      the handlers perform the i-th list of acts. */
  datatype Turn = Does(act: Act) | Batch(events: seq<Event>, reactions: seq<seq<Act>>)

  /** The highest of h and the numbers of some events. */
  function Top(h: nat, es: seq<Event>): nat {
    if es == [] then h
    else
      var t := Top(h, es[..|es| - 1]);
      if Last(es).sequence < t then t else Last(es).sequence
  }

  lemma {:induction false} TopBound(h: nat, es: seq<Event>, b: nat)
    ensures Top(h, es) <= b <==> h <= b && forall e | e in es :: e.sequence <= b
  {
    if es != [] {
      var n := |es| - 1;
      TopBound(h, es[..n], b);
      assert es == es[..n] + [es[n]];
    }
  }

  // ----- a run as a sequence of steps

  function AllDone(acts: seq<Act>): (r: seq<Step>)
    ensures |r| == |acts|
  {
    seq(|acts|, i requires 0 <= i < |acts| => Do(acts[i]))
  }

  function Reaction(reactions: seq<seq<Act>>, i: nat): seq<Act> {
    if i < |reactions| then reactions[i] else []
  }

  /** Each event, and then what the handlers do. */
  function Interleaved(todo: seq<Event>, reactions: seq<seq<Act>>): seq<Step> {
    if todo == [] then []
    else
      var n := |todo| - 1;
      Interleaved(todo[..n], reactions) + [Look(todo[n])] + AllDone(Reaction(reactions, n))
  }

  /** What has been done when the first i events of a batch have been handled. */
  function Partly(before: seq<Step>, todo: seq<Event>, reactions: seq<seq<Act>>, i: nat): seq<Step>
    requires i <= |todo|
  {
    before + Interleaved(todo[..i], reactions)
  }

  function StepsOf(turn: Turn): seq<Step> {
    match turn
    case Does(act) => [Do(act)]
    case Batch(es, reactions) => Interleaved(Coalesced(es), reactions)
  }

  function Steps(turns: seq<Turn>): seq<Step> {
    if turns == [] then [] else Steps(turns[..|turns| - 1]) + StepsOf(Last(turns))
  }

  /** The number of the last request after an act. */
  function IssuedAfter(issued: nat, step: Step): nat {
    match step
    case Look(_) => issued
    case Do(Sends(n)) => Advance(issued, n)
    case Do(Bracketed(n)) => Advance(issued, n + 3)
    case Do(Refreshes(work)) => Advance(issued, Requests(work) + if Changed in work then 3 else 0)
  }

  /** The interval that an act records, if any. */
  ghost function Recording(issued: nat, step: Step): seq<Interval> {
    match step
    case Look(_) => []
    case Do(Sends(_)) => []
    case Do(Bracketed(n)) => [Around(issued, 0, n)]
    case Do(Refreshes(work)) => Refreshing(issued, work)
  }

  function IssuedBy(steps: seq<Step>): nat {
    if steps == [] then 0 else IssuedAfter(IssuedBy(steps[..|steps| - 1]), Last(steps))
  }

  /** The intervals of a run. */
  ghost function Recordings(steps: seq<Step>): seq<Interval> {
    if steps == [] then []
    else
      var n := |steps| - 1;
      Recordings(steps[..n]) + Recording(IssuedBy(steps[..n]), steps[n])
  }

  function LookedAt(step: Step): seq<Event> {
    if step.Look? then [step.event] else []
  }

  /** The events of a run. */
  function Looked(steps: seq<Step>): seq<Event> {
    if steps == [] then [] else Looked(steps[..|steps| - 1]) + LookedAt(Last(steps))
  }

  lemma StepNext(steps: seq<Step>, step: Step)
    ensures IssuedBy(steps + [step]) == IssuedAfter(IssuedBy(steps), step)
    ensures Recordings(steps + [step]) == Recordings(steps) + Recording(IssuedBy(steps), step)
    ensures Looked(steps + [step]) == Looked(steps) + LookedAt(step)
    ensures step.Do? ==> Looked(steps + [step]) == Looked(steps)
    ensures step.Look? ==> Recordings(steps + [step]) == Recordings(steps)
  {
    assert (steps + [step])[..|steps|] == steps;
    hide IssuedAfter;
  }

  lemma {:induction false} LookedAppend(a: seq<Step>, b: seq<Step>)
    ensures Looked(a + b) == Looked(a) + Looked(b)
  {
    if b == [] {
      assert a + b == a;
    } else {
      hide *;
      var n := |b| - 1;
      LookedAppend(a, b[..n]);
      Assoc(a, b[..n], [b[n]]);
      Snoc(b);
      StepNext(a + b[..n], b[n]);
      StepNext(b[..n], b[n]);
      Assoc(Looked(a), Looked(b[..n]), LookedAt(b[n]));
    }
  }

  lemma {:induction false} LookedDone(acts: seq<Act>)
    ensures Looked(AllDone(acts)) == []
  {
    if acts != [] {
      var n := |acts| - 1;
      LookedDone(acts[..n]);
      assert AllDone(acts)[..n] == AllDone(acts[..n]);
    }
  }

  lemma {:induction false} LookedInterleaved(todo: seq<Event>, reactions: seq<seq<Act>>)
    ensures Looked(Interleaved(todo, reactions)) == todo
  {
    if todo != [] {
      var n := |todo| - 1;
      LookedInterleaved(todo[..n], reactions);
      LookedOneMore(Interleaved(todo[..n], reactions), todo[n], Reaction(reactions, n));
      hide Looked, AllDone, Reaction;
      Snoc(todo);
    }
  }

  lemma {:induction false} InterleavedPrefix(todo: seq<Event>, reactions: seq<seq<Act>>, m: nat)
    requires m <= |todo|
    ensures Interleaved(todo[..m], reactions) <= Interleaved(todo, reactions)
    decreases |todo|
  {
    if m == |todo| {
      assert todo[..m] == todo;
    } else {
      var n := |todo| - 1;
      InterleavedPrefix(todo[..n], reactions, m);
      assert todo[..n][..m] == todo[..m];
    }
  }

  /** After each event come the acts of its handlers, one after the other. */
  lemma ReactionFollows(todo: seq<Event>, reactions: seq<seq<Act>>, i: nat)
    requires i < |todo|
    ensures var (steps, p) := (Interleaved(todo, reactions), |Interleaved(todo[..i], reactions)|);
      var acts := if i < |reactions| then reactions[i] else [];
      p + |acts| < |steps| && steps[p] == Look(todo[i]) && forall k | 0 <= k < |acts| :: steps[p + 1 + k] == Do(acts[k])
  {
    var t, acts := todo[..i + 1], Reaction(reactions, i);
    var front := Interleaved(todo[..i], reactions);
    InterleavedPrefix(todo, reactions, i + 1);
    assert t[..i] == todo[..i];
    assert Interleaved(t, reactions) == front + [Look(todo[i])] + AllDone(acts);
    hide Interleaved, AllDone;
    PlacesAfter(front, Look(todo[i]), acts, Interleaved(todo, reactions));
  }

  lemma PlacesAfter(front: seq<Step>, look: Step, acts: seq<Act>, steps: seq<Step>)
    requires front + [look] + AllDone(acts) <= steps
    ensures |front| + |acts| < |steps| && steps[|front|] == look
    ensures forall k | 0 <= k < |acts| :: steps[|front| + 1 + k] == Do(acts[k])
  {
    var t := front + [look] + AllDone(acts);
    assert t[|front|] == look && forall k | 0 <= k < |acts| :: t[|front| + 1 + k] == AllDone(acts)[k];
  }

  lemma LookedOneMore(front: seq<Step>, e: Event, acts: seq<Act>)
    ensures Looked(front + [Look(e)] + AllDone(acts)) == Looked(front) + [e]
  {
    StepNext(front, Look(e));
    LookedDone(acts);
    LookedAppend(front + [Look(e)], AllDone(acts));
    hide Looked, AllDone;
  }

  lemma Snoc<T>(s: seq<T>)
    requires s != []
    ensures s == s[..|s| - 1] + [s[|s| - 1]]
  {
  }

  /** The events that are handled, in order: batch by batch what is left of it. */
  function Handled(turns: seq<Turn>): seq<Event> {
    if turns == [] then []
    else Handled(turns[..|turns| - 1]) + if Last(turns).Batch? then Coalesced(Last(turns).events) else []
  }

  lemma {:induction false} LookedSteps(turns: seq<Turn>)
    ensures Looked(Steps(turns)) == Handled(turns)
  {
    if turns != [] {
      var n := |turns| - 1;
      LookedSteps(turns[..n]);
      LookedAppend(Steps(turns[..n]), StepsOf(turns[n]));
      match turns[n] {
        case Does(act) => {
          assert [Do(act)][..0] == [];
        }
        case Batch(es, reactions) => {
          LookedInterleaved(Coalesced(es), reactions);
        }
      }
    }
  }

  // ----- what the X server keeps to

  /** An act does not go around the counter. */
  predicate Short(act: Act) {
    match act
    case Sends(_) => true
    case Bracketed(n) => n + 4 < MODULUS
    case Refreshes(work) => Requests(work) + 4 < MODULUS
  }

  /** The number of an event is that of a request that has been sent, not too long ago and not too long after the
      event before. */
  ghost predicate Timely(e: Event, before: seq<Step>) {
    e.sequence <= IssuedBy(before) < e.sequence + HALF && e.sequence <= Top(0, Looked(before)) + (MODULUS - HALF)
  }

  /** Events come with rising numbers, each in time when it is handled. */
  ghost predicate Possible(before: seq<Step>, turn: Turn) {
    match turn
    case Does(act) => Short(act)
    case Batch(es, reactions) =>
      && Rising(es) && (forall e | e in es :: Top(0, Looked(before)) <= e.sequence)
      && (forall acts, act | acts in reactions && act in acts :: Short(act))
      && forall i | 0 <= i < |Coalesced(es)| ::
        Timely(Coalesced(es)[i], Partly(before, Coalesced(es), reactions, i))
  }

  ghost predicate Plausible(turns: seq<Turn>) {
    forall j | 0 <= j < |turns| :: Possible(Steps(turns[..j]), turns[j])
  }

  /** The number of an enter or leave event is the highest so far. */
  lemma OnTime(before: seq<Step>, es: seq<Event>, reactions: seq<seq<Act>>, i: nat)
    requires Possible(before, Batch(es, reactions)) && i < |Coalesced(es)|
    ensures var (cs, now) := (Coalesced(es), Partly(before, Coalesced(es), reactions, i));
      && Timely(cs[i], now)
      && (EnterOrLeave(cs[i]) ==> Top(0, Looked(now)) <= cs[i].sequence)
      && forall act | act in Reaction(reactions, i) :: Short(act)
  {
    var cs, acts := Coalesced(es), Reaction(reactions, i);
    assert acts in reactions || acts == [];
    assert Rising(es) && forall e | e in es :: Top(0, Looked(before)) <= e.sequence;
    hide *;
    LookedPartly(before, cs, reactions, i);
    if EnterOrLeave(cs[i]) {
      HighestSoFar(Looked(before), es, i);
    }
  }

  lemma LookedPartly(before: seq<Step>, todo: seq<Event>, reactions: seq<seq<Act>>, i: nat)
    requires i <= |todo|
    ensures Looked(Partly(before, todo, reactions, i)) == Looked(before) + todo[..i]
  {
    LookedInterleaved(todo[..i], reactions);
    LookedAppend(before, Interleaved(todo[..i], reactions));
    hide Looked, Interleaved;
  }

  lemma HighestSoFar(h: seq<Event>, es: seq<Event>, i: nat)
    requires Rising(es) && (forall e | e in es :: Top(0, h) <= e.sequence)
    requires i < |Coalesced(es)| && EnterOrLeave(Coalesced(es)[i])
    ensures Top(0, h + Coalesced(es)[..i]) <= Coalesced(es)[i].sequence
  {
    var cs := Coalesced(es);
    assert Barrier(cs[i]);
    hide *;
    CoalescedMembers(es, cs[i]);
    TopBound(0, h, cs[i].sequence);
    forall d | d in h + cs[..i] ensures d.sequence <= cs[i].sequence {
      if d !in h {
        var p :| 0 <= p < i && cs[..i][p] == d;
        BarriersStayInOrder(es, p, i);
      }
    }
    TopBound(0, h + cs[..i], cs[i].sequence);
  }

  /** Intervals that begin later do not matter. */
  lemma LaterIntervals(h: seq<Interval>, more: seq<Interval>, s: nat)
    requires forall i | i in more :: s < i.begin
    ensures Recorded(h + more, 0, s) <==> Recorded(h, 0, s)
  {
    hide Straddles;
    if Recorded(h, 0, s) {
      var j :| 0 <= j < |h| && Within(h[j], s) && !Straddles(h[j]);
      assert (h + more)[j] == h[j];
    }
    if Recorded(h + more, 0, s) {
      var j :| 0 <= j < |h + more| && Within((h + more)[j], s) && !Straddles((h + more)[j]);
      assert forall i | 0 <= i < |more| :: (h + more)[|h| + i] == more[i] && more[i] in more;
      assert (h + more)[j] == h[j];
    }
  }

  /** The verdicts on some events. */
  ghost predicate Judged(verdicts: seq<Verdict>, es: seq<Event>, h: seq<Interval>) {
    |verdicts| == |es| && forall i | 0 <= i < |es| :: verdicts[i].event == es[i] && Right(verdicts[i], h)
  }

  lemma JudgedAppend(verdicts: seq<Verdict>, es: seq<Event>, more: seq<Verdict>, ds: seq<Event>, h: seq<Interval>)
    requires Judged(verdicts, es, h) && Judged(more, ds, h)
    ensures Judged(verdicts + more, es + ds, h)
  {
    hide Right;
  }

  // ----- the run

  /** The queue of intervals after some steps. */
  ghost predicate After(x: Suppression, steps: seq<Step>)
    reads x
  {
    && x.Valid() && x.InStep() && x.pendingBegin == 0
    && x.issued == IssuedBy(steps) && x.highest == Top(0, Looked(steps)) && x.history == Recordings(steps)
  }

  /** One event, which is the highest so far if it is an enter or leave event. */
  method HandleEvent(x: Suppression, e: Event, ghost before: seq<Step>) returns (verdict: Verdict)
    requires After(x, before) && Timely(e, before)
    requires EnterOrLeave(e) ==> Top(0, Looked(before)) <= e.sequence
    modifies x
    ensures After(x, before + [Look(e)]) && Judged([verdict], [e], Recordings(before + [Look(e)]))
  {
    hide Recorded, Wrap, Kept, Matches, Increasing, StandsFor, Top, Looked, Recordings, IssuedBy;
    StepNext(before, Look(e));
    TopNext(0, Looked(before), e);
    var r := x.ShouldIgnore(EnterOrLeave(e), Wrap(e.sequence), e.sequence);
    verdict := Verdict(e, r);
  }

  method Perform(x: Suppression, act: Act, ghost before: seq<Step>)
    requires After(x, before) && Short(act)
    modifies x
    ensures After(x, before + [Do(act)])
  {
    hide Increasing, StandsFor, Top, Looked, Recordings, IssuedBy, Advance, Around, Refreshing, Wrap;
    StepNext(before, Do(act));
    match act {
      case Sends(n) => {
        x.OtherRequests(n);
      }
      case Bracketed(n) => {
        x.Bracket(n);
      }
      case Refreshes(work) => {
        x.GeometryRefresh(work);
      }
    }
  }

  /** What the handlers of an event do. */
  method React(x: Suppression, acts: seq<Act>, ghost before: seq<Step>)
    requires After(x, before) && forall act | act in acts :: Short(act)
    modifies x
    ensures After(x, before + AllDone(acts))
  {
    assert before + AllDone(acts[..0]) == before;
    hide *;
    var i := 0;
    while i < |acts|
      invariant 0 <= i <= |acts| && After(x, before + AllDone(acts[..i]))
    {
      DoneNext(before, acts, i);
      Perform(x, acts[i], before + AllDone(acts[..i]));
      i := i + 1;
    }
    assert acts[..i] == acts;
  }

  lemma DoneNext(before: seq<Step>, acts: seq<Act>, i: nat)
    requires i < |acts|
    ensures before + AllDone(acts[..i + 1]) == before + AllDone(acts[..i]) + [Do(acts[i])]
  {
  }

  /** What the loop makes of the events that are waiting. */
  method Waited(es: seq<Event>) returns (todo: seq<Event>)
    ensures todo == Coalesced(es)
  {
    var loop := new Loop(es);
    assert loop.Waiting() == es;
    loop.XcbCheck();
    todo := loop.handled;
  }

  lemma TopNext(h: nat, es: seq<Event>, e: Event)
    ensures Top(h, es + [e]) == if e.sequence < Top(h, es) then Top(h, es) else e.sequence
  {
    assert (es + [e])[..|es|] == es;
  }

  /** All events looked at so far have been judged by the intervals so far, and belong to requests so far. */
  ghost predicate Settled(verdicts: seq<Verdict>, steps: seq<Step>) {
    Judged(verdicts, Looked(steps), Recordings(steps)) && Known(Looked(steps), IssuedBy(steps))
  }

  ghost predicate Known(es: seq<Event>, issued: nat) {
    forall e | e in es :: e.sequence <= issued
  }

  /** What is added begins later. */
  ghost predicate Grown(h: seq<Interval>, g: seq<Interval>, issued: nat) {
    |h| <= |g| && g[..|h|] == h && forall i | i in g[|h|..] :: issued < i.begin
  }

  lemma RecordedLater(issued: nat, step: Step)
    ensures issued <= IssuedAfter(issued, step) && forall i | i in Recording(issued, step) :: issued < i.begin
  {
    hide Requests;
  }

  lemma {:induction false} GrownBy(steps: seq<Step>, more: seq<Step>)
    ensures Grown(Recordings(steps), Recordings(steps + more), IssuedBy(steps))
    ensures IssuedBy(steps) <= IssuedBy(steps + more)
  {
    if more == [] {
      assert steps + more == steps;
    } else {
      hide *;
      var n := |more| - 1;
      GrownBy(steps, more[..n]);
      Snoc(more);
      Assoc(steps, more[..n], [more[n]]);
      StepNext(steps + more[..n], more[n]);
      RecordedLater(IssuedBy(steps + more[..n]), more[n]);
      GrownTwice(Recordings(steps), Recordings(steps + more[..n]),
        Recording(IssuedBy(steps + more[..n]), more[n]), IssuedBy(steps));
    }
  }

  lemma GrownTwice(a: seq<Interval>, b: seq<Interval>, more: seq<Interval>, issued: nat)
    requires Grown(a, b, issued) && forall i | i in more :: issued < i.begin
    ensures Grown(a, b + more, issued)
  {
    assert (b + more)[..|a|] == b[..|a|];
    assert (b + more)[|a|..] == b[|a|..] + more;
  }

  lemma StillJudged(verdicts: seq<Verdict>, es: seq<Event>, h: seq<Interval>, g: seq<Interval>, issued: nat)
    requires Judged(verdicts, es, h) && Known(es, issued) && Grown(h, g, issued)
    ensures Judged(verdicts, es, g)
  {
    assert g == h + g[|h|..];
    hide Recorded;
    forall i | 0 <= i < |es| ensures Right(verdicts[i], g) {
      assert es[i] in es && Right(verdicts[i], h);
      LaterIntervals(h, g[|h|..], es[i].sequence);
    }
  }

  /** Acts do not change what has been settled. */
  lemma SettledMore(verdicts: seq<Verdict>, steps: seq<Step>, more: seq<Step>)
    requires Settled(verdicts, steps) && Looked(more) == []
    ensures Settled(verdicts, steps + more)
  {
    GrownBy(steps, more);
    LookedAppend(steps, more);
    StillJudged(verdicts, Looked(steps), Recordings(steps), Recordings(steps + more), IssuedBy(steps));
    hide Looked, Recordings, IssuedBy, Judged;
  }

  lemma SettledLook(verdicts: seq<Verdict>, steps: seq<Step>, e: Event, verdict: Verdict)
    requires Settled(verdicts, steps) && Judged([verdict], [e], Recordings(steps + [Look(e)]))
    requires e.sequence <= IssuedBy(steps)
    ensures Settled(verdicts + [verdict], steps + [Look(e)])
  {
    hide Looked, Recordings, IssuedBy, Judged;
    StepNext(steps, Look(e));
    JudgedAppend(verdicts, Looked(steps), [verdict], [e], Recordings(steps));
  }

  /** One event of a batch and what its handlers do. */
  method HandleNext(x: Suppression, e: Event, acts: seq<Act>, ghost before: seq<Step>, verdicts: seq<Verdict>)
    returns (judged: seq<Verdict>)
    requires After(x, before) && Settled(verdicts, before) && Timely(e, before)
    requires EnterOrLeave(e) ==> Top(0, Looked(before)) <= e.sequence
    requires forall act | act in acts :: Short(act)
    modifies x
    ensures var now := before + [Look(e)] + AllDone(acts);
      After(x, now) && Settled(judged, now)
  {
    assert e.sequence <= IssuedBy(before);
    hide *;
    var verdict := HandleEvent(x, e, before);
    SettledLook(verdicts, before, e, verdict);
    judged := verdicts + [verdict];
    React(x, acts, before + [Look(e)]);
    LookedDone(acts);
    SettledMore(judged, before + [Look(e)], AllDone(acts));
  }

  lemma InterleavedNext(before: seq<Step>, todo: seq<Event>, reactions: seq<seq<Act>>, i: nat)
    requires i < |todo|
    ensures Partly(before, todo, reactions, i + 1)
         == Partly(before, todo, reactions, i) + [Look(todo[i])] + AllDone(Reaction(reactions, i))
  {
    assert todo[..i + 1][..i] == todo[..i];
    hide AllDone;
  }

  lemma NoneInterleaved(before: seq<Step>, todo: seq<Event>, reactions: seq<seq<Act>>)
    ensures Partly(before, todo, reactions, 0) == before
    ensures Partly(before, todo, reactions, |todo|) == before + Interleaved(todo, reactions)
  {
    assert todo[..0] == [] && todo[..|todo|] == todo;
  }

  /** A batch: the loop coalesces it, and each event that is handled is looked at before its handlers act. */
  method HandleBatch(x: Suppression, es: seq<Event>, reactions: seq<seq<Act>>, ghost before: seq<Step>,
      verdicts: seq<Verdict>)
    returns (judged: seq<Verdict>)
    requires After(x, before) && Settled(verdicts, before) && Possible(before, Batch(es, reactions))
    modifies x
    ensures var now := before + Interleaved(Coalesced(es), reactions);
      After(x, now) && Settled(judged, now)
  {
    hide *;
    var todo := Waited(es);
    judged := verdicts;
    NoneInterleaved(before, todo, reactions);
    var i := 0;
    while i < |todo|
      invariant 0 <= i <= |todo|
      invariant After(x, Partly(before, todo, reactions, i)) && Settled(judged, Partly(before, todo, reactions, i))
    {
      OnTime(before, es, reactions, i);
      InterleavedNext(before, todo, reactions, i);
      judged := HandleNext(x, todo[i], Reaction(reactions, i), Partly(before, todo, reactions, i), judged);
      i := i + 1;
    }
  }

  /** What one turn does. */
  method TakeTurn(x: Suppression, turn: Turn, ghost before: seq<Step>, verdicts: seq<Verdict>)
    returns (judged: seq<Verdict>)
    requires After(x, before) && Settled(verdicts, before) && Possible(before, turn)
    modifies x
    ensures After(x, before + StepsOf(turn)) && Settled(judged, before + StepsOf(turn))
  {
    hide After, Settled, Timely, Rising, Coalesced, Interleaved;
    match turn {
      case Does(act) => {
        Perform(x, act, before);
        judged := verdicts;
        assert [Do(act)][..0] == [] && Looked([Do(act)]) == [];
        SettledMore(judged, before, [Do(act)]);
      }
      case Batch(es, reactions) => {
        judged := HandleBatch(x, es, reactions, before, verdicts);
      }
    }
  }

  /**
   Over any run that the server allows: of all events handled, in order, exactly those are ignored that are enter
   or leave events in an interval of the run that does not straddle a wrap. The intervals are those around the
   requests of the brackets.
   */
  method Run(turns: seq<Turn>) returns (x: Suppression, verdicts: seq<Verdict>)
    requires Plausible(turns)
    ensures x.history == Recordings(Steps(turns))
    ensures Judged(verdicts, Handled(turns), Recordings(Steps(turns)))
  {
    x := new Suppression();
    verdicts := [];
    assert turns[..0] == [] && Steps([]) == [] && After(x, []) && Settled([], []);
    hide After, Settled, Possible, Steps, StepsOf, Recordings, Handled;
    var i := 0;
    while i < |turns|
      invariant 0 <= i <= |turns| && fresh(x)
      invariant After(x, Steps(turns[..i])) && Settled(verdicts, Steps(turns[..i]))
    {
      StepsNext(turns, i);
      verdicts := TakeTurn(x, turns[i], Steps(turns[..i]), verdicts);
      i := i + 1;
    }
    assert turns[..i] == turns;
    LookedSteps(turns);
    WhatIsSettled(x, verdicts, Steps(turns));
  }

  lemma StepsNext(turns: seq<Turn>, i: nat)
    requires i < |turns|
    ensures Steps(turns[..i + 1]) == Steps(turns[..i]) + StepsOf(turns[i])
  {
    assert turns[..i + 1][..i] == turns[..i];
    hide StepsOf;
  }

  lemma WhatIsSettled(x: Suppression, verdicts: seq<Verdict>, steps: seq<Step>)
    requires After(x, steps) && Settled(verdicts, steps)
    ensures x.history == Recordings(steps) && Judged(verdicts, Looked(steps), Recordings(steps))
  {
  }
}
