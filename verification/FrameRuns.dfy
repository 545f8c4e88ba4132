/** Whole runs of the frame queue: every push, close and answered pop, in any order. */
module FrameRuns {
  import opened Bytes
  import opened FrameQueue

  /** `vs[i]` is what the queue looks like before `ops[i]`, and `vs[i + 1]` after it. */
  ghost predicate IsRun(vs: seq<View>, ops: seq<Op>) {
    && |vs| == |ops| + 1 && vs[0] == NEW_QUEUE
    && forall i | 0 <= i < |ops| :: Took(vs[i], ops[i], vs[i + 1])
  }

  predicate PopsAt(ops: seq<Op>, i: nat) { i < |ops| && ops[i].Answered? && ops[i].r.Popped? }

  /** How many frames had left after the last successful pop: nothing was delivered from there on, and a delivered
      frame stands right before. */
  function Served(fate: seq<Fate>): (k: nat)
    ensures k <= |fate| && (forall i | k <= i < |fate| :: fate[i] == Lost)
    ensures k > 0 ==> fate[k - 1] == Delivered
  {
    if fate == [] then 0
    else
      var last, rest := fate[|fate| - 1], fate[..|fate| - 1];
      assert forall i | 0 <= i < |rest| :: fate[i] == rest[i];
      match last
      case Delivered => |fate|
      case Lost => Served(rest)
  }

  lemma ServedIs(fate: seq<Fate>, k: nat)
    requires k <= |fate| && (forall i | k <= i < |fate| :: fate[i] == Lost) && (k > 0 ==> fate[k - 1] == Delivered)
    ensures Served(fate) == k
  {
  }

  lemma ServedAfter(fate: seq<Fate>, fate': seq<Fate>)
    requires fate <= fate' && forall i | |fate| <= i < |fate'| :: fate'[i] == Lost
    ensures Served(fate') == Served(fate)
  {
    var s := Served(fate);
    forall i | s <= i < |fate'| ensures fate'[i] == Lost { if i < |fate| { assert fate'[i] == fate[i]; } }
    ServedIs(fate', s);
  }

  /** Nothing was delivered since the last answer, and frames lost since then leave newer ones behind. */
  ghost predicate ViewOk(h: History) {
    && Served(h.fate) <= h.since <= |h.fate| <= |h.pushed|
    && (h.since < |h.fate| ==> |h.fate| < |h.pushed|)
  }

  lemma StepServes(v: View, op: Op, v': View)
    requires ViewOk(v.h) && Took(v, op, v')
    ensures ViewOk(v'.h)
    ensures Served(v'.h.fate) == if PopsAt([op], 0) then |v'.h.fate| else Served(v.h.fate)
  {
    hide Served;
    if PopsAt([op], 0) { ServedIs(v'.h.fate, |v'.h.fate|); } else { ServedAfter(v.h.fate, v'.h.fate); }
  }

  lemma {:induction false} RunServes(vs: seq<View>, ops: seq<Op>, i: nat)
    requires IsRun(vs, ops) && i <= |ops|
    ensures ViewOk(vs[i].h)
  {
    if i > 0 {
      RunServes(vs, ops, i - 1);
      StepServes(vs[i - 1], ops[i - 1], vs[i]);
    }
  }

  /** Pop `j` answered that the queue is closed, and had dropped a frame. */
  predicate DropsUnreported(vs: seq<View>, ops: seq<Op>, j: nat) {
    && j < |ops| && j + 1 < |vs| && ops[j].Answered? && ops[j].r.Closed?
    && |vs[j].h.fate| < |vs[j + 1].h.fate|
  }

  /** That happened after the last successful pop before `i`. */
  ghost predicate Forgot(vs: seq<View>, ops: seq<Op>, i: nat) {
    exists j | 0 <= j < i :: DropsUnreported(vs, ops, j) && NoPopBetween(ops, j, i)
  }

  predicate NoPopBetween(ops: seq<Op>, j: nat, i: nat) { forall k | j < k < i :: !PopsAt(ops, k) }

  lemma ForgotNext(vs: seq<View>, ops: seq<Op>, i: nat)
    ensures Forgot(vs, ops, i + 1) <==> DropsUnreported(vs, ops, i) || (Forgot(vs, ops, i) && !PopsAt(ops, i))
  {
    hide DropsUnreported, PopsAt;
    if Forgot(vs, ops, i + 1) {
      var j :| 0 <= j < i + 1 && DropsUnreported(vs, ops, j) && NoPopBetween(ops, j, i + 1);
      if j < i { assert NoPopBetween(ops, j, i); }
    }
    if DropsUnreported(vs, ops, i) { assert NoPopBetween(ops, i, i + 1); }
    if Forgot(vs, ops, i) && !PopsAt(ops, i) {
      var j :| 0 <= j < i && DropsUnreported(vs, ops, j) && NoPopBetween(ops, j, i);
      assert NoPopBetween(ops, j, i + 1);
    }
  }

  lemma StepReaches(v: View, op: Op, v': View)
    requires ViewOk(v.h) && Took(v, op, v')
    ensures v'.h.since == Served(v'.h.fate) <==>
              PopsAt([op], 0) ||
              (v.h.since == Served(v.h.fate) && !DropsUnreported([v, v'], [op], 0))
  {
    hide Served;
    StepServes(v, op, v');
  }

  /** The queue remembers losses back to the last successful pop exactly when no answer that the queue is closed
      came in between that had dropped a frame. */
  lemma {:induction false} ReachesBackIff(vs: seq<View>, ops: seq<Op>, i: nat)
    requires IsRun(vs, ops) && i <= |ops|
    ensures vs[i].h.since == Served(vs[i].h.fate) <==> !Forgot(vs, ops, i)
  {
    hide Served, Forgot, Took;
    if i == 0 {
      assert !Forgot(vs, ops, 0) by { Nothing(vs, ops); }
      assert Served([]) == 0;
    } else {
      ReachesBackIff(vs, ops, i - 1);
      RunServes(vs, ops, i - 1);
      StepReaches(vs[i - 1], ops[i - 1], vs[i]);
      ForgotNext(vs, ops, i - 1);
    }
  }

  lemma Nothing(vs: seq<View>, ops: seq<Op>)
    ensures !Forgot(vs, ops, 0)
  {
  }

  /** The report of a successful pop counts from the first frame lost after the first `k` left. */
  ghost predicate CountsFrom(h: History, r: PopResult, now: int, k: nat)
    requires r.Popped?
  {
    var d := |h.fate| - |r.out|;
    && k <= d && |h.fate| <= |h.pushed| && |r.out| > 0 && AllLost(h, k, d)
    && r.droppedMs == (if k < d then PtsMs(h.pushed[k], r.out[0]) else 0)
    && r.ageMs == (if k < d then AgeMs(h.pushed[k], now) else 0)
  }

  /** Every frame lost since the last successful pop is among those the report counts. */
  ghost predicate CoversAll(h: History, h': History, r: PopResult)
    requires r.Popped?
  {
    forall k | Served(h.fate) <= k < |h'.fate| - |r.out| && h'.fate[k] == Lost :: h.since <= k
  }

  lemma PopCounts(v: View, op: Op, v': View)
    requires ViewOk(v.h) && Took(v, op, v') && PopsAt([op], 0)
    ensures CountsFrom(v'.h, op.r, op.now, v.h.since)
    ensures CoversAll(v.h, v'.h, op.r) <==> v.h.since == Served(v.h.fate)
  {
    hide Served, PtsMs, AgeMs;
    var k := Served(v.h.fate);
    if k < v.h.since { assert v'.h.fate[k] == Lost; }
  }

  /** Over every run, a report covers all frames lost since the last successful pop exactly when no answer that the
      queue is closed had dropped a frame in between. */
  lemma ReportCoversIff(vs: seq<View>, ops: seq<Op>, i: nat)
    requires IsRun(vs, ops) && PopsAt(ops, i)
    ensures CountsFrom(vs[i + 1].h, ops[i].r, ops[i].now, vs[i].h.since)
    ensures CoversAll(vs[i].h, vs[i + 1].h, ops[i].r) <==> !Forgot(vs, ops, i)
    ensures !Forgot(vs, ops, i) ==> CountsFrom(vs[i + 1].h, ops[i].r, ops[i].now, Served(vs[i].h.fate))
  {
    hide Served, Forgot, CountsFrom, CoversAll;
    RunServes(vs, ops, i);
    ReachesBackIff(vs, ops, i);
    PopCounts(vs[i], ops[i], vs[i + 1]);
  }

  /** Media time grows by a millisecond a frame or more and stays below 2^63. */
  predicate Spaced(pushed: seq<Frame>) {
    forall i, j | 0 <= i < j < |pushed| :: pushed[i].pts + MILLISECOND <= pushed[j].pts < TWO_TO_63
  }

  lemma EarlierCountsMore(a: Frame, b: Frame, to: Frame)
    requires a.pts + MILLISECOND <= b.pts <= to.pts < TWO_TO_63
    ensures PtsMs(a, to) > PtsMs(b, to) >= 0
  {
    var x, y := to.pts - a.pts, to.pts - b.pts;
    assert x / MILLISECOND >= (y + MILLISECOND) / MILLISECOND == y / MILLISECOND + 1;
  }

  /** For such media the reported milliseconds themselves are those since the last successful pop exactly then. */
  lemma ReportedMsIff(vs: seq<View>, ops: seq<Op>, i: nat)
    requires IsRun(vs, ops) && PopsAt(ops, i) && Spaced(vs[i + 1].h.pushed)
    ensures CountsFrom(vs[i + 1].h, ops[i].r, ops[i].now, Served(vs[i].h.fate)) <==> !Forgot(vs, ops, i)
  {
    hide Served, Forgot, PtsMs, AgeMs;
    RunServes(vs, ops, i);
    ReportCoversIff(vs, ops, i);
    ReachesBackIff(vs, ops, i);
    var h, r := vs[i + 1].h, ops[i].r;
    var k, n, d := Served(vs[i].h.fate), vs[i].h.since, |h.fate| - |r.out|;
    assert Took(vs[i], ops[i], vs[i + 1]);
    if k < n {
      EarlierCountsMore(h.pushed[k], h.pushed[n], h.pushed[d]);
    }
  }

  /** What an operation brings about, in order. */
  function EventsOf(op: Op): seq<Event> {
    match op
    case Pushed(f) => [PushEvent(f)]
    case ClosedQueue => [CloseEvent]
    case Answered(_, es, _) => es
  }

  /** Nothing is pushed once the queue is closed. */
  predicate PushesThenCloses(closed: bool, es: seq<Event>)
    decreases |es|
  {
    es == [] ||
    ((es[0].PushEvent? ==> !closed) && PushesThenCloses(closed || es[0].CloseEvent?, es[1..]))
  }

  ghost predicate Disciplined(vs: seq<View>, ops: seq<Op>) {
    |vs| > |ops| && forall i | 0 <= i < |ops| :: PushesThenCloses(vs[i].closed, EventsOf(ops[i]))
  }

  lemma {:induction false} ClosedTakesNothing(es: seq<Event>)
    requires PushesThenCloses(true, es)
    ensures Pushes(es) == []
  {
    if es != [] { ClosedTakesNothing(es[1..]); }
  }

  ghost predicate Finished(v: View) { v.closed && |v.h.fate| == |v.h.pushed| }

  lemma FinishedStays(v: View, op: Op, v': View)
    requires Finished(v) && Took(v, op, v') && PushesThenCloses(v.closed, EventsOf(op))
    ensures Finished(v') && !PopsAt([op], 0)
  {
    ClosedTakesNothing(EventsOf(op));
  }

  /** Where the reader pushes and then closes, nothing comes out after an answer that the queue is closed. */
  lemma {:induction false} ClosedIsFinal(vs: seq<View>, ops: seq<Op>, j: nat, i: nat)
    requires IsRun(vs, ops) && Disciplined(vs, ops) && j < i <= |ops|
    requires ops[j].Answered? && ops[j].r.Closed?
    ensures Finished(vs[i]) && !PopsAt(ops, i)
    decreases i
  {
    hide Took, PushesThenCloses;
    if i == j + 1 {
      assert Finished(vs[i]) by { AnswerFinishes(vs[j], ops[j], vs[i]); }
    } else {
      ClosedIsFinal(vs, ops, j, i - 1);
      FinishedStays(vs[i - 1], ops[i - 1], vs[i]);
    }
    if i < |ops| { FinishedStays(vs[i], ops[i], vs[i + 1]); }
  }

  lemma AnswerFinishes(v: View, op: Op, v': View)
    requires Took(v, op, v') && op.Answered? && op.r.Closed?
    ensures Finished(v')
  {
  }

  lemma MillisecondsFrom(v: View, op: Op, v': View, k: nat)
    requires Took(v, op, v') && PopsAt([op], 0)
    ensures CountsFrom(v'.h, op.r, op.now, k) ==>
              var h, r := v'.h, op.r;
              var d := |h.fate| - |r.out|;
              if k == d then r.droppedMs == 0 && r.ageMs == 0
              else
                && k < d < |h.pushed| && |r.out| > 0 && r.out[0] == h.pushed[d]
                && (forall j | k <= j < d :: h.fate[j] == Lost)
                && (h.pushed[k].pts <= h.pushed[d].pts < TWO_TO_63 ==>
                      r.droppedMs * 1_000_000 <= h.pushed[d].pts - h.pushed[k].pts < (r.droppedMs + 1) * 1_000_000)
                && (h.pushed[k].at <= op.now ==>
                      r.ageMs * 1_000_000 <= op.now - h.pushed[k].at < (r.ageMs + 1) * 1_000_000)
  {
    hide PtsMs, AgeMs;
    var h, r := v'.h, op.r;
    var d := |h.fate| - |r.out|;
    if CountsFrom(h, r, op.now, k) && k < d { ReportIsMs(h.pushed[k], h.pushed[d], op.now); }
  }

  /** And so every report counts from the first frame lost since the last successful pop. */
  lemma ReportsReachBack(vs: seq<View>, ops: seq<Op>, i: nat)
    requires IsRun(vs, ops) && Disciplined(vs, ops) && PopsAt(ops, i)
    ensures CoversAll(vs[i].h, vs[i + 1].h, ops[i].r)
    ensures CountsFrom(vs[i + 1].h, ops[i].r, ops[i].now, Served(vs[i].h.fate))
    ensures var h, r, k := vs[i + 1].h, ops[i].r, Served(vs[i].h.fate);
            var d := |h.fate| - |r.out|;
            if k == d then r.droppedMs == 0 && r.ageMs == 0
            else
              && k < d < |h.pushed| && |r.out| > 0 && r.out[0] == h.pushed[d]
              && (forall j | k <= j < d :: h.fate[j] == Lost)
              && (h.pushed[k].pts <= h.pushed[d].pts < TWO_TO_63 ==>
                    r.droppedMs * 1_000_000 <= h.pushed[d].pts - h.pushed[k].pts < (r.droppedMs + 1) * 1_000_000)
              && (h.pushed[k].at <= ops[i].now ==>
                    r.ageMs * 1_000_000 <= ops[i].now - h.pushed[k].at < (r.ageMs + 1) * 1_000_000)
  {
    hide Served, CountsFrom, CoversAll, Took, PushesThenCloses;
    MillisecondsFrom(vs[i], ops[i], vs[i + 1], Served(vs[i].h.fate));
    if Forgot(vs, ops, i) {
      var j :| 0 <= j < i && DropsUnreported(vs, ops, j) && NoPopBetween(ops, j, i);
      ClosedIsFinal(vs, ops, j, i);
    }
    ReportCoversIff(vs, ops, i);
  }

  /** All that the first `i` operations delivered. */
  function Out(ops: seq<Op>, i: nat): seq<Frame>
    requires i <= |ops|
  {
    if i == 0 then [] else Out(ops, i - 1) + (if PopsAt(ops, i - 1) then ops[i - 1].r.out else [])
  }

  lemma {:induction false} LossesDeliverNothing(pushed: seq<Frame>, pushed': seq<Frame>, fate: seq<Fate>,
                                                fate': seq<Fate>)
    requires |fate| <= |pushed| && |fate'| <= |pushed'| && pushed <= pushed' && fate <= fate'
    requires forall i | |fate| <= i < |fate'| :: fate'[i] == Lost
    ensures OfFate(pushed', fate', Delivered) == OfFate(pushed, fate, Delivered)
    decreases |fate'|
  {
    if fate' != [] {
      var n := |fate'| - 1;
      if |fate| < |fate'| {
        LossesDeliverNothing(pushed, pushed', fate, fate'[..n]);
      } else {
        assert fate == fate';
        LossesDeliverNothing(pushed, pushed', fate[..n], fate'[..n]);
      }
    }
  }

  lemma {:induction false} DeliveriesDeliver(pushed: seq<Frame>, fate: seq<Fate>, m: nat)
    requires m <= |fate| <= |pushed| && forall i | m <= i < |fate| :: fate[i] == Delivered
    ensures OfFate(pushed, fate, Delivered) == OfFate(pushed, fate[..m], Delivered) + pushed[m..|fate|]
    decreases |fate|
  {
    var n := |fate| - 1;
    if m < |fate| {
      DeliveriesDeliver(pushed, fate[..n], m);
      assert fate[..n][..m] == fate[..m] && pushed[m..n] + [pushed[n]] == pushed[m..|fate|];
    } else {
      assert fate[..m] == fate;
    }
  }

  lemma StepDelivers(v: View, op: Op, v': View)
    requires ViewOk(v.h) && Took(v, op, v')
    ensures ViewOk(v'.h)
    ensures OfFate(v'.h.pushed, v'.h.fate, Delivered) ==
            OfFate(v.h.pushed, v.h.fate, Delivered) + (if PopsAt([op], 0) then op.r.out else [])
  {
    hide OfFate, PtsMs, AgeMs;
    StepServes(v, op, v');
    if PopsAt([op], 0) {
      var d := |v'.h.fate| - |op.r.out|;
      DeliveriesDeliver(v'.h.pushed, v'.h.fate, d);
      LossesDeliverNothing(v.h.pushed, v'.h.pushed, v.h.fate, v'.h.fate[..d]);
    } else {
      LossesDeliverNothing(v.h.pushed, v'.h.pushed, v.h.fate, v'.h.fate);
    }
  }

  /** Over every run, what came out is what was pushed, in order, less the frames lost and those still queued. */
  lemma {:induction false} RunDelivers(vs: seq<View>, ops: seq<Op>, i: nat)
    requires IsRun(vs, ops) && i <= |ops|
    ensures |vs[i].h.fate| <= |vs[i].h.pushed|
    ensures Out(ops, i) == OfFate(vs[i].h.pushed, vs[i].h.fate, Delivered)
  {
    hide OfFate, Took;
    if i == 0 {
      NoFates([]);
    } else {
      RunDelivers(vs, ops, i - 1);
      RunServes(vs, ops, i - 1);
      StepDelivers(vs[i - 1], ops[i - 1], vs[i]);
    }
  }
}
