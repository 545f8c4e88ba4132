/** The queue of the newest frames between a call's reader and writer: it drops what grew too old and says
    how much media was lost. */
module FrameQueue {
  import opened Bytes

  /** `at` is the arrival time, `pts` the media time, both in nanoseconds. */
  datatype Frame = Frame(b: Bytes, at: int, counter: nat, pts: nat)

  const MILLISECOND := 1_000_000
  const QUEUE_CAP_SPAN := 2_000 * MILLISECOND

  /** A 64-bit signed result, wrapped around. */
  function I64(x: int): (r: int)
    ensures -TWO_TO_63 <= x < TWO_TO_63 ==> r == x
  {
    (x + TWO_TO_63) % TWO_TO_64 - TWO_TO_63
  }

  /** Division towards zero. */
  function TruncDiv(x: int, d: int): (q: int)
    requires d > 0
    ensures if x >= 0 then q * d <= x < (q + 1) * d else (q - 1) * d < x <= q * d
  {
    if x >= 0 then
      WholeQuotient(x, d);
      x / d
    else
      WholeQuotient(-x, d);
      -((-x) / d)
  }

  lemma WholeQuotient(x: nat, d: int)
    requires d > 0
    ensures (x / d) * d <= x < (x / d + 1) * d
  {
    assert x == (x / d) * d + x % d;
  }

  /** Media time from one frame to a later one, in milliseconds. */
  function PtsMs(from: Frame, to: Frame): int { TruncDiv(I64(I64(to.pts) - I64(from.pts)), MILLISECOND) }

  function AgeMs(f: Frame, now: int): int { TruncDiv(now - f.at, MILLISECOND) }

  /** The reported numbers are whole milliseconds: of the media time from one frame to a later one, and of the time
      since a frame came. */
  lemma ReportIsMs(from: Frame, to: Frame, now: int)
    ensures from.pts <= to.pts < TWO_TO_63 ==>
      PtsMs(from, to) * 1_000_000 <= to.pts - from.pts < (PtsMs(from, to) + 1) * 1_000_000
    ensures from.at <= now ==>
      AgeMs(from, now) * 1_000_000 <= now - from.at < (AgeMs(from, now) + 1) * 1_000_000
  {
  }

  /** What became of a frame that left the queue. */
  datatype Fate = Delivered | Lost

  /** What other goroutines do while a pop waits. */
  datatype Event = PushEvent(f: Frame) | CloseEvent

  datatype PopResult = Popped(out: seq<Frame>, droppedMs: int, ageMs: int) | Closed | Waiting

  predicate Ordered(fs: seq<Frame>) { forall i, j | 0 <= i < j < |fs| :: fs[i].at <= fs[j].at }

  function Pushes(es: seq<Event>): seq<Frame> {
    if es == [] then []
    else if es[0].PushEvent? then [es[0].f] + Pushes(es[1..])
    else Pushes(es[1..])
  }

  function AllPushes(env: seq<seq<Event>>): seq<Frame> {
    if env == [] then [] else Pushes(env[0]) + AllPushes(env[1..])
  }

  /** What happened during several waits, in order. */
  function Flat(env: seq<seq<Event>>): seq<Event> {
    if env == [] then [] else Flat(env[..|env| - 1]) + env[|env| - 1]
  }

  lemma {:induction false} PushesConcat(a: seq<Event>, b: seq<Event>)
    ensures Pushes(a + b) == Pushes(a) + Pushes(b)
    ensures Pushes([]) == [] && Pushes([CloseEvent]) == [] && forall f :: Pushes([PushEvent(f)]) == [f]
  {
    if a == [] {
      assert a + b == b;
    } else {
      assert (a + b)[0] == a[0] && (a + b)[1..] == a[1..] + b;
      PushesConcat(a[1..], b);
    }
  }

  lemma NoWaits(pushed: seq<Frame>, env: seq<seq<Event>>)
    ensures Flat(env[..0]) == [] && pushed + Pushes(Flat(env[..0])) == pushed && env[0..] == env
  {
    assert pushed + [] == pushed;
  }

  lemma FlatNext(env: seq<seq<Event>>, k: nat)
    requires k < |env|
    ensures Flat(env[..k + 1]) == Flat(env[..k]) + env[k]
    ensures Pushes(Flat(env[..k + 1])) == Pushes(Flat(env[..k])) + Pushes(env[k])
  {
    assert env[..k + 1][..k] == env[..k];
    PushesConcat(Flat(env[..k]), env[k]);
  }

  /** Every frame ever pushed; the fate of each that has left the queue; and how many had left when a pop last
      answered. */
  datatype History = History(pushed: seq<Frame>, fate: seq<Fate>, since: nat)

  /** The first frame lost to eviction, as the queue remembers it. */
  datatype Record = NoEviction | Evicted(pts: nat, at: int)

  /** The queue holds the frames that have no fate yet, in the order they came; since the last answer frames
      were only lost. */
  ghost predicate Follows(frames: seq<Frame>, h: History) {
    && |h.fate| <= |h.pushed| && frames == h.pushed[|h.fate|..]
    && Ordered(h.pushed)
    && h.since <= |h.fate| && (forall i | h.since <= i < |h.fate| :: h.fate[i] == Lost)
  }

  predicate SpanOk(frames: seq<Frame>) {
    frames != [] ==> frames[|frames| - 1].at - frames[0].at <= QUEUE_CAP_SPAN
  }

  /** The record names the first frame that left after the first `n` did, if any has. */
  predicate Names(r: Record, h: History, n: nat) {
    r == if n < |h.fate| && n < |h.pushed| then Evicted(h.pushed[n].pts, h.pushed[n].at) else NoEviction
  }

  lemma FrontIs(frames: seq<Frame>, h: History)
    requires Follows(frames, h)
    ensures h.since <= |h.fate| <= |h.pushed|
    ensures frames != [] <==> |h.fate| < |h.pushed|
    ensures frames != [] ==> frames[0] == h.pushed[|h.fate|]
  {
  }

  /** The frames of one fate, in the order they came. */
  function OfFate(pushed: seq<Frame>, fate: seq<Fate>, x: Fate): seq<Frame>
    requires |fate| <= |pushed|
    decreases |fate|
  {
    if fate == [] then []
    else
      var n := |fate| - 1;
      OfFate(pushed, fate[..n], x) + (if fate[n] == x then [pushed[n]] else [])
  }

  lemma MultisetAppend(s: seq<Frame>, x: Frame)
    ensures multiset(s + [x]) == multiset(s)[x := multiset(s)[x] + 1]
  {
  }

  lemma OfFateStep(pushed: seq<Frame>, fate: seq<Fate>, x: Fate)
    requires 0 < |fate| <= |pushed|
    ensures var n := |fate| - 1;
            multiset(OfFate(pushed, fate, x)) ==
              var m := multiset(OfFate(pushed, fate[..n], x));
              if fate[n] == x then m[pushed[n] := m[pushed[n]] + 1] else m
  {
    var n := |fate| - 1;
    var s := OfFate(pushed, fate[..n], x);
    if fate[n] == x { MultisetAppend(s, pushed[n]); } else { assert s + [] == s; }
  }

  /** Every frame that left the queue was delivered or lost, and none twice. */
  lemma {:induction false} EveryFrameOnce(pushed: seq<Frame>, fate: seq<Fate>)
    requires |fate| <= |pushed|
    ensures multiset(pushed[..|fate|]) ==
            multiset(OfFate(pushed, fate, Delivered)) + multiset(OfFate(pushed, fate, Lost))
    decreases |fate|
  {
    hide OfFate;
    if fate == [] {
      assert OfFate(pushed, fate, Delivered) == [] && OfFate(pushed, fate, Lost) == [] by { NoFates(pushed); }
    } else {
      var n := |fate| - 1;
      EveryFrameOnce(pushed, fate[..n]);
      OfFateStep(pushed, fate, Delivered);
      OfFateStep(pushed, fate, Lost);
      assert pushed[..|fate|] == pushed[..n] + [pushed[n]];
      MultisetAppend(pushed[..n], pushed[n]);
    }
  }

  lemma NoFates(pushed: seq<Frame>)
    ensures OfFate(pushed, [], Delivered) == [] && OfFate(pushed, [], Lost) == []
  {
  }

  lemma LoseFront(frames: seq<Frame>, h: History)
    requires Follows(frames, h) && frames != []
    ensures Follows(frames[1..], h.(fate := h.fate + [Lost]))
    ensures SpanOk(frames) ==> SpanOk(frames[1..])
  {
  }

  /** The front frame is lost: it is remembered if nothing was. */
  function Remember(r: Record, f: Frame): Record { if r == NoEviction then Evicted(f.pts, f.at) else r }

  lemma NameLoss(r: Record, frames: seq<Frame>, h: History, n: nat)
    requires Follows(frames, h) && frames != [] && n <= |h.fate| && Names(r, h, n)
    ensures Names(Remember(r, frames[0]), h.(fate := h.fate + [Lost]), n)
  {
  }

  /** A pop's own record takes precedence over the queue's. */
  lemma MergedNames(record: Record, eviction: Record, r: Record, h: History)
    requires Named(record, eviction, h)
    requires r == if record == NoEviction then eviction else record
    ensures Names(r, h, h.since)
  {
  }

  /** While a pop runs, its own record names the first loss, or the queue's does and its own is empty. */
  predicate Named(record: Record, eviction: Record, h: History) {
    if record == NoEviction then Names(eviction, h, h.since) else Names(record, h, h.since)
  }

  lemma NothingLost(h: History)
    ensures Names(NoEviction, h, |h.fate|)
  {
  }

  /** The first frame that left after the first `n` stays the first while more frames come and go. */
  lemma KeepName(r: Record, h: History, r': Record, h': History, n: nat)
    requires n <= |h.fate| <= |h.pushed| && h.fate <= h'.fate && h.pushed <= h'.pushed
    requires Names(r, h, n)
    requires if r != NoEviction then r' == r else Names(r', h', |h.fate|)
    ensures Names(r', h', n)
  {
  }

  lemma AppendBack(frames: seq<Frame>, h: History, f: Frame)
    requires Follows(frames, h) && (h.pushed != [] ==> h.pushed[|h.pushed| - 1].at <= f.at)
    ensures Follows(frames + [f], h.(pushed := h.pushed + [f]))
  {
  }

  /** A frame more than the span older than the newest pushed so far. */
  predicate Outlived(pushed: seq<Frame>, i: nat) {
    i < |pushed| && pushed[|pushed| - 1].at - pushed[i].at > QUEUE_CAP_SPAN
  }

  /** All frames that left after the first `n` did were evicted for good reason. */
  ghost predicate EvictionsDue(h: History, n: nat) { forall i | n <= i < |h.fate| :: Outlived(h.pushed, i) }

  /** All frames lost after the first `n` left were outlived or too old at the caller's time. */
  ghost predicate LossesDue(h: History, n: nat, now: int, maxAge: int) {
    forall i | n <= i < |h.fate| && h.fate[i] == Lost :: Outlived(h.pushed, i) || TooOld(h.pushed, i, now, maxAge)
  }

  predicate TooOld(pushed: seq<Frame>, i: nat, now: int, maxAge: int) { i < |pushed| && now - pushed[i].at > maxAge }

  /** What the queue's promises about losses and span come to, in nanoseconds. */
  lemma DueMeans(frames: seq<Frame>, h: History, n: nat, now: int, maxAge: int)
    requires |h.fate| <= |h.pushed|
    ensures SpanOk(frames) <==> forall i | 0 <= i < |frames| && i == |frames| - 1 ::
              frames[i].at <= frames[0].at + 2_000_000_000
    ensures EvictionsDue(h, n) <==> forall i | n <= i < |h.fate| ::
              h.pushed[|h.pushed| - 1].at > h.pushed[i].at + 2_000_000_000
    ensures LossesDue(h, n, now, maxAge) <==> forall i | n <= i < |h.fate| && h.fate[i] == Lost ::
              now > h.pushed[i].at + maxAge || h.pushed[|h.pushed| - 1].at > h.pushed[i].at + 2_000_000_000
  {
    if LossesDue(h, n, now, maxAge) {
      forall i | n <= i < |h.fate| && h.fate[i] == Lost
        ensures now > h.pushed[i].at + maxAge || h.pushed[|h.pushed| - 1].at > h.pushed[i].at + 2_000_000_000
      {
        assert Outlived(h.pushed, i) || TooOld(h.pushed, i, now, maxAge);
      }
    }
    if EvictionsDue(h, n) {
      forall i | n <= i < |h.fate| ensures h.pushed[|h.pushed| - 1].at > h.pushed[i].at + 2_000_000_000 {
        assert Outlived(h.pushed, i);
      }
    }
  }

  lemma NoLosses(h: History, now: int, maxAge: int)
    ensures EvictionsDue(h, |h.fate|) && LossesDue(h, |h.fate|, now, maxAge)
  {
  }

  /** What was outlived stays outlived as newer frames come. */
  lemma EvictMore(h: History, h': History, n: nat)
    requires EvictionsDue(h, n) && n <= |h.fate| <= |h.pushed|
    requires h.fate <= h'.fate && h.pushed <= h'.pushed && Ordered(h'.pushed) && EvictionsDue(h', |h.fate|)
    ensures EvictionsDue(h', n)
  {
    forall i | n <= i < |h'.fate| ensures Outlived(h'.pushed, i) {
      if i < |h.fate| {
        assert Outlived(h.pushed, i);
        assert h'.pushed[i] == h.pushed[i] && h'.pushed[|h.pushed| - 1] == h.pushed[|h.pushed| - 1];
      }
    }
  }

  lemma LoseMore(h: History, h': History, n: nat, now: int, maxAge: int)
    requires LossesDue(h, n, now, maxAge) && n <= |h.fate| <= |h.pushed|
    requires h.fate <= h'.fate && h.pushed <= h'.pushed && Ordered(h'.pushed)
    requires EvictionsDue(h', |h.fate|) || LossesDue(h', |h.fate|, now, maxAge)
    ensures LossesDue(h', n, now, maxAge)
  {
    forall i | n <= i < |h'.fate| && h'.fate[i] == Lost
      ensures Outlived(h'.pushed, i) || TooOld(h'.pushed, i, now, maxAge)
    {
      if i < |h.fate| {
        assert h.fate[i] == Lost;
        assert h'.pushed[i] == h.pushed[i] && h'.pushed[|h.pushed| - 1] == h.pushed[|h.pushed| - 1];
      }
    }
  }

  /** The front frame is evicted, or dropped as too old. */
  lemma EvictFront(frames: seq<Frame>, h: History, n: nat)
    requires Follows(frames, h) && frames != [] && n <= |h.fate| && EvictionsDue(h, n)
    requires frames[|frames| - 1].at - frames[0].at > QUEUE_CAP_SPAN
    ensures EvictionsDue(h.(fate := h.fate + [Lost]), n)
  {
    assert Outlived(h.pushed, |h.fate|);
  }

  lemma DropFront(frames: seq<Frame>, h: History, n: nat, now: int, maxAge: int)
    requires Follows(frames, h) && frames != [] && n <= |h.fate| && LossesDue(h, n, now, maxAge)
    requires now - frames[0].at > maxAge
    ensures LossesDue(h.(fate := h.fate + [Lost]), n, now, maxAge)
  {
    assert TooOld(h.pushed, |h.fate|, now, maxAge);
  }

  lemma DeliveryLosesNothing(h: History, n: nat, now: int, maxAge: int, k: nat)
    requires LossesDue(h, n, now, maxAge)
    ensures LossesDue(DeliveredNext(h, k), n, now, maxAge)
  {
  }

  lemma SameLosses(h: History, h': History, n: nat, now: int, maxAge: int)
    requires LossesDue(h, n, now, maxAge) && h'.pushed == h.pushed && h'.fate == h.fate
    ensures LossesDue(h', n, now, maxAge)
  {
  }

  lemma InOrder(frames: seq<Frame>, h: History)
    requires Follows(frames, h)
    ensures Ordered(h.pushed)
  {
  }

  /** What a run of the queue can see: the history and whether the queue is closed. */
  datatype View = View(h: History, closed: bool)

  const NEW_QUEUE := View(History([], [], 0), false)

  /** A push, a close, and a pop that answered `r` at the caller's `now` after `es` had happened during its
      waits. */
  datatype Op = Pushed(f: Frame) | ClosedQueue | Answered(now: int, es: seq<Event>, r: PopResult)

  /** Frames may leave, and only lost. */
  ghost predicate OnlyLoses(h: History, h': History) {
    && h.fate <= h'.fate && AllLost(h', |h.fate|, |h'.fate|) && |h'.fate| <= |h'.pushed|
    && h'.since == h.since
  }

  /** How each operation may change the queue; every method below promises it. */
  ghost predicate Took(v: View, op: Op, v': View) {
    match op
    case Pushed(f) =>
      && OnlyLoses(v.h, v'.h) && v'.closed == v.closed
      && v'.h.pushed == v.h.pushed + [f] && |v'.h.fate| < |v'.h.pushed|
    case ClosedQueue => v' == v.(closed := true)
    case Answered(now, es, r) =>
      && v'.h.pushed == v.h.pushed + Pushes(es) && v'.closed == (v.closed || CloseEvent in es)
      && !r.Waiting? && v'.h.since == |v'.h.fate| && |v'.h.fate| <= |v'.h.pushed| && v.h.fate <= v'.h.fate
      && (r.Closed? ==> v'.closed && |v'.h.fate| == |v'.h.pushed| && AllLost(v'.h, |v.h.fate|, |v'.h.fate|))
      && (r.Popped? ==> PopReports(v.h, v'.h, r, now))
  }

  lemma OnlyLosses(frames: seq<Frame>, h: History, frames': seq<Frame>, h': History)
    requires Follows(frames, h) && Follows(frames', h') && h.fate <= h'.fate && h.since == h'.since
    ensures OnlyLoses(h, h')
  {
  }

  lemma AnsweredTook(frames: seq<Frame>, h: History, closed: bool, h': History, closed': bool, now: int, es: seq<Event>,
                     r: PopResult)
    requires Follows(frames, h') && h'.pushed == h.pushed + Pushes(es) && closed' == (closed || CloseEvent in es)
    requires h'.since == |h'.fate| && h.fate <= h'.fate
    requires !r.Waiting? && (r.Popped? ==> PopReports(h, h', r, now))
    requires r.Closed? ==> closed' && frames == [] && AllLost(h', |h.fate|, |h'.fate|)
    ensures Took(View(h, closed), Answered(now, es, r), View(h', closed'))
  {
    hide PopReports, AllLost, Ordered;
  }

  class Queue {
    var frames: seq<Frame>
    var closed: bool
    var evicted: bool
    var evictedPts: nat
    var evictedAt: int
    ghost var h: History

    function EvictionRecord(): Record
      reads this`evicted, this`evictedPts, this`evictedAt
    {
      if evicted then Evicted(evictedPts, evictedAt) else NoEviction
    }

    ghost predicate Sound()
      reads this`frames, this`h
    {
      Follows(frames, h) && SpanOk(frames)
    }

    /** Between pops the eviction record names the first frame lost since the last answer. */
    ghost predicate Valid()
      reads this
    {
      Sound() && Names(EvictionRecord(), h, h.since)
    }

    ghost function Seen(): View
      reads this`h, this`closed
    {
      View(h, closed)
    }

    constructor ()
      ensures Valid() && Seen() == NEW_QUEUE
    {
      frames, closed, evicted, evictedPts, evictedAt := [], false, false, 0, 0;
      h := History([], [], 0);
    }

    /** Appends a frame and evicts from the front until the span fits again. */
    method Push(f: Frame)
      requires Sound() && (h.pushed != [] ==> h.pushed[|h.pushed| - 1].at <= f.at)
      modifies this`frames, this`h, this`evicted, this`evictedPts, this`evictedAt
      ensures Sound() && h.pushed == old(h).pushed + [f] && h.since == old(h).since && old(h).fate <= h.fate
      ensures old(evicted) ==> EvictionRecord() == old(EvictionRecord())
      ensures !old(evicted) ==> Names(EvictionRecord(), h, |old(h).fate|)
      ensures old(Valid()) ==> Valid()
      ensures EvictionsDue(h, |old(h).fate|)
      ensures Took(old(Seen()), Pushed(f), Seen())
    {
      hide Follows, Names, EvictionsDue;
      AppendBack(frames, h, f);
      FrontIs(frames, h);
      ghost var n := |h.fate|;
      frames := frames + [f];
      h := h.(pushed := h.pushed + [f]);
      NothingLost(h);
      NoLosses(h, 0, 0);
      while |frames| > 1 && frames[|frames| - 1].at - frames[0].at > QUEUE_CAP_SPAN
        invariant frames != [] && Follows(frames, h)
        invariant h.pushed == old(h).pushed + [f] && h.since == old(h).since && old(h).fate <= h.fate
        invariant old(evicted) ==> EvictionRecord() == old(EvictionRecord())
        invariant !old(evicted) ==> Names(EvictionRecord(), h, n)
        invariant n <= |h.fate| && EvictionsDue(h, n)
        decreases |frames|
      {
        EvictFront(frames, h, n);
        LoseFront(frames, h);
        if !old(evicted) { NameLoss(EvictionRecord(), frames, h, n); }
        if !evicted {
          evicted := true;
          evictedPts := frames[0].pts;
          evictedAt := frames[0].at;
        }
        frames := frames[1..];
        h := h.(fate := h.fate + [Lost]);
      }
      if old(Valid()) { KeepName(old(EvictionRecord()), old(h), EvictionRecord(), h, h.since); }
      FrontIs(frames, h);
      OnlyLosses(old(frames), old(h), frames, h);
    }

    method Close()
      modifies this`closed
      ensures Seen() == old(Seen()).(closed := true) && Took(old(Seen()), ClosedQueue, Seen())
    {
      closed := true;
    }

    /** What happens while a pop waits, in order. */
    method Interleave(es: seq<Event>)
      requires Sound() && Ordered(h.pushed + Pushes(es))
      modifies this
      ensures Sound() && h.pushed == old(h).pushed + Pushes(es) && h.since == old(h).since && old(h).fate <= h.fate
      ensures closed == (old(closed) || CloseEvent in es)
      ensures old(evicted) ==> EvictionRecord() == old(EvictionRecord())
      ensures !old(evicted) ==> Names(EvictionRecord(), h, |old(h).fate|)
      ensures EvictionsDue(h, |old(h).fate|)
    {
      hide Follows, Names, Ordered, SpanOk, EvictionsDue;
      ghost var n := |h.fate|;
      NothingLost(h);
      NoLosses(h, 0, 0);
      for k := 0 to |es|
        invariant Sound() && h.since == old(h).since && old(h).fate <= h.fate
        invariant h.pushed + Pushes(es[k..]) == old(h).pushed + Pushes(es)
        invariant closed == (old(closed) || CloseEvent in es[..k])
        invariant old(evicted) ==> EvictionRecord() == old(EvictionRecord())
        invariant !old(evicted) ==> Names(EvictionRecord(), h, n)
        invariant EvictionsDue(h, n)
      {
        assert es[k..][1..] == es[k + 1..] && es[..k + 1] == es[..k] + [es[k]];
        match es[k] {
          case CloseEvent => Close();
          case PushEvent(f) =>
            ghost var p := h.pushed;
            assert Pushes(es[k..]) == [f] + Pushes(es[k + 1..]);
            assert p + ([f] + Pushes(es[k + 1..])) == (p + [f]) + Pushes(es[k + 1..]);
            NextInOrder(p, f, Pushes(es[k + 1..]));
            FrontIs(frames, h);
            ghost var r1, h1 := EvictionRecord(), h;
            Push(f);
            InOrder(frames, h);
            EvictMore(h1, h, n);
            if !old(evicted) { KeepName(r1, h1, EvictionRecord(), h, n); }
        }
      }
      assert es[..|es|] == es && h.pushed + [] == h.pushed;
    }

    /** Drops what is older than `maxAge` at the caller's `now`, remembering the first frame lost since the last
        answer, whether it was evicted or has just been dropped. */
    method DropStale(now: int, maxAge: int, record: Record) returns (r: Record)
      requires Sound()
      requires Named(record, EvictionRecord(), h)
      modifies this`frames, this`h, this`evicted
      ensures Sound() && !evicted && h.pushed == old(h).pushed && h.since == old(h).since && old(h).fate <= h.fate
      ensures Names(r, h, h.since)
      ensures frames != [] ==> now - frames[0].at <= maxAge
      ensures LossesDue(h, |old(h).fate|, now, maxAge)
    {
      hide Follows, Names, LossesDue;
      r := record;
      NoLosses(h, now, maxAge);
      FrontIs(frames, h);
      ghost var r0 := EvictionRecord();
      if evicted {
        if r == NoEviction {
          r := Evicted(evictedPts, evictedAt);
        }
        evicted := false;
      }
      MergedNames(record, r0, r, h);
      while |frames| > 0 && now - frames[0].at > maxAge
        invariant Sound() && !evicted && h.pushed == old(h).pushed && h.since == old(h).since && old(h).fate <= h.fate
        invariant Names(r, h, h.since) && LossesDue(h, |old(h).fate|, now, maxAge)
        decreases |frames|
      {
        DropFront(frames, h, |old(h).fate|, now, maxAge);
        LoseFront(frames, h);
        FrontIs(frames, h);
        NameLoss(r, frames, h, h.since);
        if r == NoEviction {
          r := Evicted(frames[0].pts, frames[0].at);
        }
        frames := frames[1..];
        h := h.(fate := h.fate + [Lost]);
      }
    }

    /** Takes the batch at the front: at least one frame, then as many as fit the window and the limit. */
    method TakeBatch(window: int, maxFrames: int) returns (out: seq<Frame>)
      requires Sound() && frames != []
      modifies this`frames, this`h
      ensures Sound() && IsBatch(old(frames), out, window, maxFrames)
      ensures h == DeliveredNext(old(h), |out|) && frames == old(frames)[|out|..]
    {
      var end := 1;
      while end < |frames| && end < maxFrames && frames[end].at - frames[0].at <= window
        invariant 1 <= end <= |frames| && (end <= maxFrames || end == 1)
        invariant forall k | 1 <= k < end :: frames[k].at - frames[0].at <= window
      {
        end := end + 1;
      }
      out := frames[..end];
      DeliverFront(frames, h, end);
      frames := frames[end..];
      h := DeliveredNext(h, end);
    }

    /** Waits for a batch. `env` is what the other goroutines do during each wait, in turn; when it runs out the
        pop is still waiting. A batch that comes reports the media time from the first frame lost since the last
        answer, however and whenever it was lost. `used` is how many waits it took. */
    method PopBatch(now: int, maxAge: int, window: int, maxFrames: int, env: seq<seq<Event>>)
      returns (r: PopResult, ghost used: nat)
      requires Valid() && Ordered(h.pushed + AllPushes(env))
      modifies this
      ensures Sound() && old(h).fate <= h.fate && used <= |env|
      ensures !r.Waiting? ==> Valid() && Took(old(Seen()), Answered(now, Flat(env[..used]), r), Seen())
      ensures h.pushed == old(h).pushed + Pushes(Flat(env[..used]))
      ensures closed == (old(closed) || CloseEvent in Flat(env[..used]))
      ensures r.Waiting? ==> frames == [] && !closed && used == |env|
      ensures r.Closed? ==> closed && frames == [] && h.since == |h.fate| && AllLost(h, |old(h).fate|, |h.fate|)
      ensures r.Popped? ==>
        h.since == |h.fate| && PopReports(old(h), h, r, now) && Recent(r.out, now, maxAge, window, maxFrames)
      ensures r.Popped? ==>
        var d := |h.fate| - |r.out|;
        if old(h).since == d then r.droppedMs == 0 && r.ageMs == 0
        else
          && 0 <= old(h).since < d < |h.pushed| && r.out[0] == h.pushed[d]
          && var lost, first := h.pushed[old(h).since], h.pushed[d];
             && (lost.pts <= first.pts < TWO_TO_63 ==>
                   r.droppedMs * 1_000_000 <= first.pts - lost.pts < (r.droppedMs + 1) * 1_000_000)
             && (lost.at <= now ==> r.ageMs * 1_000_000 <= now - lost.at < (r.ageMs + 1) * 1_000_000)
      ensures r.Popped? && frames != [] && |r.out| < maxFrames ==> frames[0].at - r.out[0].at > window
      ensures LossesDue(h, |old(h).fate|, now, maxAge)
    {
      hide Follows, Names, Ordered, SpanOk, AllLost, Recent, PopReports, LossesDue, EvictionsDue, Took;
      hide Flat, Pushes, AllPushes;
      FrontIs(frames, h);
      NoLosses(h, now, maxAge);
      var record := NoEviction;
      var waits := 0;
      ghost var h0, c0 := h, closed;
      NoWaits(h.pushed, env);
      while true
        invariant Sound() && 0 <= waits <= |env| && h.since == h0.since
        invariant h.pushed == h0.pushed + Pushes(Flat(env[..waits])) && h0.fate <= h.fate
        invariant closed == (c0 || CloseEvent in Flat(env[..waits]))
        invariant Named(record, EvictionRecord(), h)
        invariant Ordered(h.pushed + AllPushes(env[waits..]))
        invariant LossesDue(h, |h0.fate|, now, maxAge)
        decreases |env| - waits
      {
        FrontIs(frames, h);
        ghost var h2 := h;
        record := DropStale(now, maxAge, record);
        InOrder(frames, h);
        LoseMore(h2, h, |h0.fate|, now, maxAge);
        if |frames| > 0 {
          r := Answer(now, maxAge, window, maxFrames, record, h0);
          used := waits;
          ReportInMs(h0, h, r, now);
          AnsweredTook(frames, h0, c0, h, closed, now, Flat(env[..waits]), r);
          return;
        }
        if closed {
          AnswerNothing(frames, h, h0);
          SameLosses(h, h.(since := |h.fate|), |h0.fate|, now, maxAge);
          h := h.(since := |h.fate|);
          NothingLost(h);
          FrontIs(frames, h);
          AnsweredTook(frames, h0, c0, h, closed, now, Flat(env[..waits]), Closed);
          return Closed, waits;
        }
        if waits == |env| {
          return Waiting, waits;
        }
        FlatNext(env, waits);
        SplitEnv(h.pushed, env, waits);
        WaitTurn(env[waits], record, |h0.fate|, now, maxAge);
        waits := waits + 1;
      }
    }

    /** One wait of a pop, and what the others do meanwhile. */
    method WaitTurn(es: seq<Event>, ghost record: Record, ghost n: nat, ghost now: int, ghost maxAge: int)
      requires Sound() && Ordered(h.pushed + Pushes(es)) && !evicted && n <= |h.fate|
      requires Names(record, h, h.since) && LossesDue(h, n, now, maxAge)
      modifies this
      ensures Sound() && h.pushed == old(h).pushed + Pushes(es) && h.since == old(h).since && old(h).fate <= h.fate
      ensures closed == (old(closed) || CloseEvent in es)
      ensures Named(record, EvictionRecord(), h) && LossesDue(h, n, now, maxAge)
    {
      hide Follows, Names, Named, Ordered, LossesDue, EvictionsDue;
      FrontIs(frames, h);
      Interleave(es);
      InOrder(frames, h);
      LoseMore(old(h), h, n, now, maxAge);
      KeepNaming(frames, record, EvictionRecord(), old(h), h);
    }

    /** The queue is not empty: deliver a batch and report. */
    method Answer(now: int, maxAge: int, window: int, maxFrames: int, record: Record, ghost h0: History)
      returns (r: PopResult)
      requires Sound() && frames != [] && now - frames[0].at <= maxAge && !evicted
      requires Names(record, h, h.since) && h0.since == h.since && h0.fate <= h.fate && h0.since <= |h0.fate|
      requires LossesDue(h, |h0.fate|, now, maxAge)
      modifies this`frames, this`h
      ensures LossesDue(h, |h0.fate|, now, maxAge)
      ensures Valid() && r.Popped? && h.pushed == old(h).pushed && old(h).fate <= h.fate
      ensures r.out != [] && (frames != [] && |r.out| < maxFrames ==> frames[0].at - r.out[0].at > window)
      ensures h.since == |h.fate| && PopReports(h0, h, r, now) && Recent(r.out, now, maxAge, window, maxFrames)
    {
      hide Follows, Names, Ordered, LossesDue;
      var droppedMs, ageMs := 0, 0;
      if record != NoEviction {
        droppedMs := TruncDiv(I64(I64(frames[0].pts) - I64(record.pts)), MILLISECOND);
        ageMs := TruncDiv(now - record.at, MILLISECOND);
      }
      ghost var h1, frames1 := h, frames;
      var out := TakeBatch(window, maxFrames);
      BatchIsFresh(frames1, out, h1, now, maxAge, window, maxFrames);
      DeliveryLosesNothing(h1, |h0.fate|, now, maxAge, |out|);
      NothingLost(h);
      r := Popped(out, droppedMs, ageMs);
      ReportIsFirstLoss(frames1, h1, h0, record, r, now);
    }
  }

  lemma NothingFresh(h0: History, h: History, r: PopResult, f: Frame, now: int, maxAge: int, window: int,
                     maxFrames: int)
    requires h.pushed == [f] && now - f.at > maxAge
    ensures r.Popped? ==> !(PopReports(h0, h, r, now) && Recent(r.out, now, maxAge, window, maxFrames))
  {
    if r.Popped? && PopReports(h0, h, r, now) {
      assert r.out[0] == f && r.out[0] in r.out;
    }
  }

  /** A queue whose only frame is too old answers that it is closed. */
  method DropLast(f: Frame, now: int, maxAge: int, window: int, maxFrames: int) returns (q: Queue, r: PopResult)
    requires now - f.at > maxAge
    ensures fresh(q) && q.Valid() && q.closed && r == Closed && q.h.pushed == [f] && |q.h.fate| == q.h.since == 1
  {
    hide PopReports, Recent, Names, LossesDue;
    q := new Queue();
    q.Push(f);
    q.Close();
    ghost var h0 := q.h;
    ghost var used;
    r, used := q.PopBatch(now, maxAge, window, maxFrames, []);
    NothingFresh(h0, q.h, r, f, now, maxAge, window, maxFrames);
  }

  /** A pop that finds the queue closed answers as well, and the report of what it dropped goes with it: a frame pushed
      after that is delivered with no loss reported. */
  method ClosedAnswerForgetsLoss(f: Frame, g: Frame, now: int, maxAge: int, window: int, maxFrames: int)
    returns (first: PopResult, second: PopResult)
    requires f.at <= g.at && now - f.at > maxAge && now - g.at <= maxAge
    ensures first == Closed && second == Popped([g], 0, 0)
  {
    hide Named, Names, SpanOk;
    var q: Queue;
    q, first := DropLast(f, now, maxAge, window, maxFrames);
    q.Push(g);
    assert q.h.pushed == [f, g] && !Outlived([f, g], 1);
    ghost var used;
    ghost var none: seq<seq<Event>> := [];
    second, used := q.PopBatch(now, maxAge, window, maxFrames, []);
    assert none[..used] == [] && q.h.pushed == [f, g];
  }

  /** No frame delivered is older than the limit at the caller's time, and the batch fits its window. */
  predicate Recent(out: seq<Frame>, now: int, maxAge: int, window: int, maxFrames: int) {
    && out != [] && (|out| <= maxFrames || |out| == 1)
    && forall f | f in out :: now - f.at <= maxAge && f.at - out[0].at <= (if window > 0 then window else 0)
  }

  lemma ReportIsFirstLoss(frames: seq<Frame>, h: History, h0: History, record: Record, r: PopResult, now: int)
    requires Follows(frames, h) && frames != [] && Names(record, h, h.since) && h0.since == h.since && h0.fate <= h.fate
    requires h0.since <= |h0.fate|
    requires r.Popped? && 1 <= |r.out| <= |frames| && r.out == frames[..|r.out|]
    requires r.droppedMs ==
             if record == NoEviction then 0
             else TruncDiv(I64(I64(frames[0].pts) - I64(record.pts)), MILLISECOND)
    requires r.ageMs == if record == NoEviction then 0 else TruncDiv(now - record.at, MILLISECOND)
    ensures PopReports(h0, DeliveredNext(h, |r.out|), r, now)
  {
    hide I64, TruncDiv, Ordered;
    var h' := DeliveredNext(h, |r.out|);
    assert r.out == h.pushed[|h.fate|..|h.fate| + |r.out|];
  }

  lemma ReportInMs(h0: History, h: History, r: PopResult, now: int)
    requires r.Popped? && PopReports(h0, h, r, now)
    ensures var d := |h.fate| - |r.out|;
            if h0.since == d then r.droppedMs == 0 && r.ageMs == 0
            else
              && 0 <= h0.since < d < |h.pushed| && |r.out| > 0 && r.out[0] == h.pushed[d]
              && var lost, first := h.pushed[h0.since], h.pushed[d];
                 && (lost.pts <= first.pts < TWO_TO_63 ==>
                       r.droppedMs * 1_000_000 <= first.pts - lost.pts < (r.droppedMs + 1) * 1_000_000)
                 && (lost.at <= now ==> r.ageMs * 1_000_000 <= now - lost.at < (r.ageMs + 1) * 1_000_000)
  {
    hide PtsMs, AgeMs;
    if h0.since < |h.fate| - |r.out| { ReportIsMs(h.pushed[h0.since], r.out[0], now); }
  }

  lemma AnswerNothing(frames: seq<Frame>, h: History, h0: History)
    requires Follows(frames, h) && h0.since == h.since && h0.fate <= h.fate && h0.since <= |h0.fate|
    ensures Follows(frames, h.(since := |h.fate|)) && AllLost(h.(since := |h.fate|), |h0.fate|, |h.fate|)
  {
  }

  lemma SplitEnv(p: seq<Frame>, env: seq<seq<Event>>, k: nat)
    requires k < |env| && Ordered(p + AllPushes(env[k..]))
    ensures Ordered(p + Pushes(env[k])) && Ordered((p + Pushes(env[k])) + AllPushes(env[k + 1..]))
  {
    assert env[k..][1..] == env[k + 1..];
    var a, b := Pushes(env[k]), AllPushes(env[k + 1..]);
    assert p + (a + b) == (p + a) + b;
    OrderedPrefix(p + a, b);
  }

  lemma NextInOrder(p: seq<Frame>, f: Frame, later: seq<Frame>)
    requires Ordered((p + [f]) + later)
    ensures p != [] ==> p[|p| - 1].at <= f.at
  {
    var all := (p + [f]) + later;
    if p != [] { assert all[|p| - 1] == p[|p| - 1] && all[|p|] == f; }
  }

  lemma OrderedPrefix(a: seq<Frame>, b: seq<Frame>)
    requires Ordered(a + b)
    ensures Ordered(a)
  {
    forall i, j | 0 <= i < j < |a| ensures a[i].at <= a[j].at { assert (a + b)[i] == a[i] && (a + b)[j] == a[j]; }
  }

  /** `n` frames leave delivered, and a pop answers. */
  function DeliveredNext(h: History, n: nat): History {
    History(h.pushed, h.fate + seq(n, i => Delivered), |h.fate| + n)
  }

  lemma DeliverFront(frames: seq<Frame>, h: History, n: nat)
    requires Follows(frames, h) && SpanOk(frames) && n <= |frames|
    ensures Follows(frames[n..], DeliveredNext(h, n)) && SpanOk(frames[n..])
  {
  }

  /** The longest run from the front within the window and the limit. */
  ghost predicate IsBatch(frames: seq<Frame>, out: seq<Frame>, window: int, maxFrames: int) {
    var n := |out|;
    && 1 <= n <= |frames| && out == frames[..n] && (n <= maxFrames || n == 1)
    && (forall k | 1 <= k < n :: frames[k].at - frames[0].at <= window)
    && (n < |frames| && n < maxFrames ==> frames[n].at - frames[0].at > window)
  }

  ghost predicate AllLost(h: History, from: nat, to: nat) {
    forall i | from <= i < to && i < |h.fate| :: h.fate[i] == Lost
  }

  /** What a successful pop did to the frames and what it reports: frames `since` to `d` were lost, the batch
      starts at frame `d`, and the report is the distance from the first of the lost ones to the batch. */
  ghost predicate PopReports(h0: History, h: History, r: PopResult, now: int)
    requires r.Popped?
  {
    var n := |r.out|;
    var d := |h.fate| - n;
    && h0.since <= |h0.fate| <= d && |h.fate| <= |h.pushed| && n > 0
    && r.out == h.pushed[d..d + n]
    && AllLost(h, h0.since, d)
    && (forall i | d <= i < d + n :: h.fate[i] == Delivered)
    && r.droppedMs == (if h0.since < d then PtsMs(h.pushed[h0.since], r.out[0]) else 0)
    && r.ageMs == (if h0.since < d then AgeMs(h.pushed[h0.since], now) else 0)
  }

  lemma BatchIsFresh(frames: seq<Frame>, out: seq<Frame>, h: History, now: int, maxAge: int, window: int,
                     maxFrames: int)
    requires Follows(frames, h) && IsBatch(frames, out, window, maxFrames) && now - frames[0].at <= maxAge
    ensures Recent(out, now, maxAge, window, maxFrames) && out == frames[..|out|] && |out| <= |frames|
  {
    forall f | f in out ensures now - f.at <= maxAge && f.at - out[0].at <= (if window > 0 then window else 0) {
      var k :| 0 <= k < |out| && out[k] == f;
      if k > 0 { assert frames[k].at - frames[0].at <= window; }
    }
  }

  /** A loss during a wait does not replace the one already remembered. */
  lemma KeepNaming(frames: seq<Frame>, record: Record, eviction: Record, h: History, h': History)
    requires Names(record, h, h.since) && h'.since == h.since && h.fate <= h'.fate && h.pushed <= h'.pushed
    requires Names(eviction, h', |h.fate|) && h.since <= |h.fate| <= |h.pushed|
    ensures Named(record, eviction, h')
  {
  }
}
