/** The playout buffer of a call and the rate controller beside it. */
module JitterBuffer {
  import opened Bytes
  import opened JitterModel

  datatype JbConfig = JbConfig(
    startTargetMs: int, targetMinMs: int, targetMaxMs: int, slackMs: int,
    catchupHoldMs: int, catchupGapMs: int, catchupGapMinMs: int, quietWaitMs: int, hardCapMs: int,
    quietRms: real, catchupEnabled: bool, scaleEnabled: bool, scaleMaxRate: real, scaleStepPerMs: real)

  /** What the arithmetic of the buffer needs: clamp bounds in order and divisors that are not zero. */
  predicate CfgOk(c: JbConfig) {
    && 0 <= c.startTargetMs && 0 <= c.targetMinMs <= c.targetMaxMs
    && 0 <= c.slackMs < c.hardCapMs
    && 0 <= c.catchupHoldMs && c.catchupGapMinMs <= c.catchupGapMs
    && c.scaleMaxRate >= 1.0 && c.scaleStepPerMs >= 0.0
  }

  const MS_TO_NS := 1_000_000
  const TARGET_UPDATE_NS := 10_000 * MS_TO_NS

  /** Conversion of a real to an integer, towards zero. */
  function Trunc(x: real): (r: int)
    ensures if x >= 0.0 then r as real <= x < r as real + 1.0 else r as real - 1.0 < x <= r as real
  {
    if x >= 0.0 then x.Floor else -((-x).Floor)
  }

  function Clamp(x: int, lo: int, hi: int): (r: int)
    requires lo <= hi
    ensures lo <= r <= hi && (r > x ==> r == lo) && (r < x ==> r == hi)
  {
    if x < lo then lo else if x > hi then hi else x
  }

  function ClampReal(x: real, lo: real, hi: real): (r: real)
    requires lo <= hi
    ensures lo <= r <= hi && (r > x ==> r == lo) && (r < x ==> r == hi)
  {
    if x < lo then lo else if x > hi then hi else x
  }

  /** How many frames to conceal for a jump in the frame counter: never for a late frame, at most three. */
  function PlcFramesForGap(expected: nat, got: nat): (n: nat)
    ensures n <= 3 && expected + n <= (if got > expected then got else expected)
    ensures n < 3 && got > expected ==> expected + n == got
  {
    if got <= expected then 0 else if got - expected < 3 then got - expected else 3
  }

  lemma ScaleDown(frac: real, d: real)
    requires 0.0 <= frac <= 1.0 && 0.0 <= d
    ensures 0.0 <= frac * d <= d
  {
  }

  lemma ScaledBack(x: nat, y: nat, d: real)
    requires x <= y && y > 0
    ensures (Fraction(x, y) * d) * y as real == x as real * d
  {
    var f := Fraction(x, y);
    assert f * y as real == x as real;
    assert (f * d) * y as real == (f * y as real) * d;
  }

  lemma Slope(k: real, x: real, y: real)
    requires k >= 0.0
    ensures x <= y ==> k * x <= k * y
    ensures x >= y ==> k * x >= k * y
  {
    if x <= y { assert k * (y - x) >= 0.0; } else { assert k * (x - y) >= 0.0; }
  }

  lemma QuotientMonotone(x: real, y: real, d: real)
    requires 0.0 <= x <= y && d > 0.0
    ensures 0.0 <= x / d <= y / d
  {
    assert (x / d) * d == x && (y / d) * d == y;
    Slope(1.0 / d, x, y);
    assert x / d == (1.0 / d) * x && y / d == (1.0 / d) * y;
  }

  lemma QuotientAntitone(g: real, p: real, q: real)
    requires 0.0 <= g && 1.0 <= p <= q
    ensures g / q <= g / p
  {
    assert (g / p) * p == g && (g / q) * q == g;
    if g / q > g / p {
      assert (g / q - g / p) * p > 0.0;
      assert g / q >= 0.0;
      Slope(g / q, p, q);
    }
  }

  /** Clamped between zero and a whole number and truncated: order is kept, and the bounds are met. */
  lemma TruncClamp(x: real, y: real, top: int)
    requires x <= y && 0 <= top
    ensures Trunc(ClampReal(x, 0.0, top as real)) <= Trunc(ClampReal(y, 0.0, top as real))
    ensures y >= top as real ==> Trunc(ClampReal(y, 0.0, top as real)) == top
    ensures x <= 0.0 ==> Trunc(ClampReal(x, 0.0, top as real)) == 0
  {
  }

  /** The hold falls on a line from its full length at the slack to zero a span further. */
  function HoldMs(h: real, span: real, over: real): (ms: int)
    requires span > 0.0 && h >= 0.0
    ensures 0 <= ms && ms as real <= h
  {
    Trunc(ClampReal(Line(h, h / span, over), 0.0, h))
  }

  function Rise(k: real, x: real): real { k * x }

  function Line(h: real, k: real, over: real): real { h - Rise(k, over) }

  lemma HoldMsShrinks(h: real, span: real, x: real, y: real, top: int)
    requires span > 0.0 && x <= y && h == top as real && top >= 0
    ensures HoldMs(h, span, y) <= HoldMs(h, span, x)
    ensures x <= 0.0 ==> HoldMs(h, span, x) == top
    ensures y >= span ==> HoldMs(h, span, y) == 0
  {
    hide Trunc, ClampReal, Line;
    var k := h / span;
    assert k * span == h;
    assert Rise(k, span) == h;
    assert k >= 0.0 by { QuotientMonotone(0.0, h, span); }
    HoldLine(h, k, span, x, y, top);
  }

  lemma RiseMonotone(k: real, x: real, y: real)
    requires k >= 0.0 && x <= y
    ensures Rise(k, x) <= Rise(k, y) && Rise(k, 0.0) == 0.0
  {
    Slope(k, x, y);
  }

  lemma HoldLine(h: real, k: real, span: real, x: real, y: real, top: int)
    requires Rise(k, span) == h && k >= 0.0 && x <= y && h == top as real && top >= 0
    ensures var low, high := Trunc(ClampReal(Line(h, k, y), 0.0, h)), Trunc(ClampReal(Line(h, k, x), 0.0, h));
            low <= high && (x <= 0.0 ==> high == top) && (y >= span ==> low == 0)
  {
    hide Trunc, ClampReal, Rise;
    RiseMonotone(k, x, y);
    if y >= span { RiseMonotone(k, span, y); }
    if x <= 0.0 { RiseMonotone(k, x, 0.0); }
    TruncClamp(Line(h, k, y), Line(h, k, x), top);
  }

  lemma RealProduct(a: int, b: int)
    ensures (a * b) as real == a as real * b as real
  {
  }

  /** Whole part of a quotient, in integers. */
  lemma WholePart(exact: real, ms: int, d: int, top: int)
    requires ms as real <= exact < ms as real + 1.0 && d > 0 && exact * d as real == top as real
    ensures ms * d <= top < (ms + 1) * d
  {
    RealProduct(ms, d);
    RealProduct(ms + 1, d);
    Slope(d as real, ms as real, exact);
    TimesPositive(exact, (ms + 1) as real, d as real);
  }

  lemma HoldExact(h: real, s: real, o: real)
    requires s > 0.0 && 0.0 <= o <= s && h >= 0.0
    ensures Line(h, h / s, o) * s == h * (s - o) && 0.0 <= Line(h, h / s, o) <= h
  {
    var k := h / s;
    assert k * s == h;
    assert (k * o) * s == (k * s) * o;
    Slope(k, 0.0, o);
    Slope(k, o, s);
  }

  lemma HoldLineIs(h: int, span: int, over: int)
    requires 0 <= h && 0 <= over <= span && span > 0
    ensures var ms := HoldMs(h as real, span as real, over as real);
            ms * span <= h * (span - over) < (ms + 1) * span
  {
    hide Line;
    HoldExact(h as real, span as real, over as real);
    RealProduct(h, span - over);
    WholePart(Line(h as real, h as real / span as real, over as real), HoldMs(h as real, span as real, over as real),
              span, h * (span - over));
  }

  lemma GapExact(g: real, cap: real, a: real)
    requires cap > 0.0 && a >= 0.0 && g >= 0.0
    ensures var q := 1.0 + a / cap; q >= 1.0 && (g / q) * (cap + a) == g * cap && 0.0 <= g / q <= g
  {
    var q := 1.0 + a / cap;
    assert (a / cap) * cap == a;
    QuotientMonotone(0.0, a, cap);
    assert q * cap == cap + a;
    assert (g / q) * q == g;
    assert (g / q) * (q * cap) == ((g / q) * q) * cap;
    QuotientMonotone(0.0, g, q);
    QuotientAntitone(g, 1.0, q);
  }

  lemma GapQuotientIs(g: int, least: int, cap: int, a: int)
    requires 0 <= least <= g && 0 < cap && 0 <= a
    ensures var ms := Trunc(ClampReal(g as real / (1.0 + a as real / cap as real), least as real, g as real));
            if g * cap >= least * (cap + a) then ms * (cap + a) <= g * cap < (ms + 1) * (cap + a) else ms == least
  {
    hide Trunc, ClampReal;
    var exact := g as real / (1.0 + a as real / cap as real);
    GapExact(g as real, cap as real, a as real);
    RealProduct(g, cap);
    RealProduct(least, cap + a);
    var ms := Trunc(ClampReal(exact, least as real, g as real));
    if g * cap >= least * (cap + a) {
      if exact < least as real { TimesPositive(exact, least as real, (cap + a) as real); }
      WholePart(exact, ms, cap + a, g * cap);
    } else {
      if exact >= least as real { Slope((cap + a) as real, least as real, exact); }
    }
  }

  // ---------- playout rate ----------

  /** From one rate towards another: all the way if the step allows, else by the whole step. */
  function Towards(rate: real, target: real, step: real): (r: real)
    requires step >= 0.0
    ensures rate - step <= r <= rate + step && (rate <= target ==> rate <= r <= target)
    ensures target <= rate ==> target <= r <= rate
    ensures r != target ==> r == rate + step || r == rate - step
  {
    if target > rate + step then rate + step
    else if target < rate - step then rate - step
    else target
  }

  /** The largest step towards the target is taken. */
  lemma TowardsIsLargest(rate: real, target: real, step: real, other: real)
    requires step >= 0.0 && rate - step <= other <= rate + step
    ensures Abs(target - Towards(rate, target, step)) <= Abs(target - other)
  {
  }

  class PlayoutScaler {
    const slackMs: int
    const hardCapMs: int
    const maxRate: real
    const stepPerMs: real
    var currentRate: real

    ghost predicate Valid()
      reads this
    {
      slackMs < hardCapMs && maxRate >= 1.0 && stepPerMs >= 0.0 && 1.0 <= currentRate <= maxRate
    }

    constructor (c: JbConfig)
      requires CfgOk(c)
      ensures Valid() && currentRate == 1.0
    {
      slackMs, hardCapMs, maxRate, stepPerMs := c.slackMs, c.hardCapMs, c.scaleMaxRate, c.scaleStepPerMs;
      currentRate := 1.0;
    }

    /** 1 up to the slack, the maximum from the hard cap on, and in between a straight line. */
    function TargetRateFor(excessMs: int): (r: real)
      requires slackMs < hardCapMs && maxRate >= 1.0
      ensures 1.0 <= r <= maxRate
      ensures excessMs <= slackMs ==> r == 1.0
      ensures excessMs >= hardCapMs ==> r == maxRate
      ensures slackMs < excessMs < hardCapMs ==>
        (r - 1.0) * (hardCapMs - slackMs) as real == (excessMs - slackMs) as real * (maxRate - 1.0)
    {
      if excessMs <= slackMs then 1.0
      else if excessMs >= hardCapMs then maxRate
      else
        var frac := Fraction(excessMs - slackMs, hardCapMs - slackMs);
        ScaleDown(frac, maxRate - 1.0);
        ScaledBack(excessMs - slackMs, hardCapMs - slackMs, maxRate - 1.0);
        1.0 + frac * (maxRate - 1.0)
    }

    /** Moves the rate towards its target: all the way if the step allows, else by the whole step. */
    method Update(excessMs: int, elapsedMs: int)
      requires Valid()
      modifies this
      ensures Valid()
      ensures var step := stepPerMs * (if elapsedMs > 0 then elapsedMs else 0) as real;
              currentRate == Towards(old(currentRate), TargetRateFor(excessMs), step)
    {
      var target := TargetRateFor(excessMs);
      var elapsed := if elapsedMs > 0 then elapsedMs else 0;
      var maxStep := stepPerMs * elapsed as real;
      assert maxStep >= 0.0;
      if target > currentRate {
        currentRate := if target < currentRate + maxStep then target else currentRate + maxStep;
      } else if target < currentRate {
        currentRate := if target > currentRate - maxStep then target else currentRate - maxStep;
      }
    }
  }

  // ---------- reading at a fractional position ----------

  /** The sample at a position between two samples, on the line through them; the last sample is held. */
  function Interpolate(flat: Pcm, c: real): real
    requires 0.0 <= c && c.Floor < |flat|
  {
    var i := c.Floor;
    Between(flat[i], if i + 1 < |flat| then flat[i + 1] else flat[i], c - i as real)
  }

  function Between(s0: real, s1: real, frac: real): real { s0 + frac * (s1 - s0) }

  /** A read between two samples is their mean, weighted by how near each is. */
  lemma InterpolateIsMean(flat: Pcm, i: nat, f: real)
    requires i < |flat| && 0.0 <= f < 1.0
    ensures Interpolate(flat, i as real + f) ==
            if i + 1 < |flat| then (1.0 - f) * flat[i] + f * flat[i + 1] else flat[i]
  {
    hide Between;
    assert (i as real + f).Floor == i;
    BetweenIsMean(flat[i], if i + 1 < |flat| then flat[i + 1] else flat[i], f);
  }

  lemma BetweenIsMean(a: real, b: real, f: real)
    ensures Between(a, b, f) == (1.0 - f) * a + f * b && Between(a, a, f) == a
  {
    assert f * (b - a) == f * b - f * a;
  }

  function CursorAt(start: real, rate: real, k: nat): real { start + k as real * rate }

  lemma CursorStep(start: real, rate: real, k: nat)
    ensures CursorAt(start, rate, k + 1) == CursorAt(start, rate, k) + rate && CursorAt(start, rate, 0) == start
  {
    assert (k + 1) as real == k as real + 1.0;
  }

  ghost predicate ReadOk(flat: Pcm, start: real, rate: real, k: nat, s: real) {
    var c := CursorAt(start, rate, k);
    0.0 <= c && c.Floor < |flat| && s == Interpolate(flat, c)
  }

  /** `read` interpolates `flat` along the positions from `start` by steps of `rate`, until `n` are read or
      the position leaves `flat`. */
  ghost predicate ReadsAlong(flat: Pcm, start: real, rate: real, n: nat, read: Pcm) {
    && |read| <= n
    && (forall k: nat | k < |read| :: ReadOk(flat, start, rate, k, read[k]))
    && (|read| < n ==> CursorAt(start, rate, |read|).Floor >= |flat|)
  }

  // ---------- the buffer ----------

  predicate SameButDropped(b: Books, b': Books) {
    b'.pushed == b.pushed && b'.popped == b.popped && b'.cleared == b.cleared
  }

  datatype JbCounters = JbCounters(dropCatchupMs: int, dropOverflowMs: int, queueBeforeMs: int, queueAfterMs: int)

  /** State of the catch-up: running or waiting to start, and when it may drop next. */
  datatype Catchup = Catchup(running: bool, overTargetSeen: bool, overTargetSinceNs: int, lastDropNs: int,
                             eligibleSinceNs: int, periodHasDrop: bool)

  /** Where every sample ever pushed went; the drops counted since the counters were taken, and before. */
  datatype Books = Books(pushed: nat, popped: nat, dropped: nat, cleared: nat, counted: seq<nat>, droppedBefore: nat)

  /** No sample is lost from the books: each one pushed was played, dropped, cleared, or is still held. */
  predicate BooksOk(b: Books, held: nat) { b.pushed == b.popped + b.dropped + b.cleared + held }

  /** The two millisecond counters add up the drops counted since they were taken. */
  predicate CountersOk(b: Books, c: JbCounters, rate: nat) {
    rate > 0 && c.dropCatchupMs + c.dropOverflowMs == MsSum(b.counted, rate) &&
      b.dropped == b.droppedBefore + Sum(b.counted)
  }

  /** What a counted drop of `n` samples adds. */
  lemma CountDrop(b: Books, c: JbCounters, rate: nat, n: nat, overflow: bool)
    requires CountersOk(b, c, rate)
    ensures var ms := SamplesToMs(n, rate);
            CountersOk(b.(dropped := b.dropped + n, counted := b.counted + [n]),
                       if overflow then c.(dropOverflowMs := c.dropOverflowMs + ms)
                       else c.(dropCatchupMs := c.dropCatchupMs + ms), rate)
  {
    SumsAppend(b.counted, n, rate);
  }

  class Buffer {
    const cfg: JbConfig
    const sampleRate: nat
    const fadeSamples: nat
    const scaler: PlayoutScaler

    var frames: seq<Pcm>
    var headOff: nat
    var totalSamples: nat
    var prefilling: bool
    var cursor: real
    var lastScaleUpdateNs: int
    var targetMs: int
    var jitterMs: real
    var lastTargetUpdateNs: int
    var catchup: Catchup
    var counters: JbCounters
    ghost var books: Books

    ghost predicate Valid()
      reads this, scaler
    {
      && CfgOk(cfg) && sampleRate > 0 && scaler.Valid()
      && QueueOk(frames, headOff, totalSamples)
      && BooksOk(books, totalSamples) && CountersOk(books, counters, sampleRate)
      && 0.0 <= cursor < 1.0
      && 0 <= targetMs
    }

    /** The samples still to be played. */
    ghost function Samples(): Pcm
      reads this, scaler
      requires Valid()
      ensures |Samples()| == totalSamples
    {
      Flat(frames, headOff)
    }

    constructor (c: JbConfig, rate: nat)
      requires CfgOk(c) && rate > 0
      ensures Valid() && Samples() == [] && prefilling && books.pushed == 0 && fresh(scaler)
      ensures cfg == c && sampleRate == rate && fadeSamples * 1000 <= rate * 5 < (fadeSamples + 1) * 1000
      ensures targetMs == c.startTargetMs && cursor == 0.0 && !catchup.running && counters == JbCounters(0, 0, 0, 0)
    {
      cfg, sampleRate, fadeSamples := c, rate, rate * 5 / 1000;
      scaler := new PlayoutScaler(c);
      frames, headOff, totalSamples, prefilling := [], 0, 0, true;
      cursor, lastScaleUpdateNs := 0.0, -1;
      targetMs, jitterMs, lastTargetUpdateNs := c.startTargetMs, 0.0, -1;
      catchup := Catchup(false, false, 0, 0, -1, false);
      counters := JbCounters(0, 0, 0, 0);
      books := Books(0, 0, 0, 0, [], 0);
    }

    function DepthMs(): nat
      reads this`totalSamples
      requires sampleRate > 0
    {
      SamplesToMs(totalSamples, sampleRate)
    }

    method FadeOutTail(pcm: Pcm) returns (r: Pcm)
      ensures r == FadeOut(pcm, fadeSamples)
    {
      r := pcm;
      var len := if fadeSamples < |pcm| then fadeSamples else |pcm|;
      var start := |pcm| - len;
      for i := 0 to len
        invariant |r| == |pcm|
        invariant forall j | 0 <= j < |pcm| ::
          r[j] == if start <= j < start + i then pcm[j] * FadeOutGain(j - start, len) else pcm[j]
      {
        var gain := 1.0 - (i + 1) as real / len as real;
        r := r[start + i := r[start + i] * gain];
      }
      forall j | 0 <= j < |pcm| ensures r[j] == FadeOut(pcm, fadeSamples)[j] {}
    }

    method FadeInHead(pcm: Pcm) returns (r: Pcm)
      ensures r == FadeIn(pcm, fadeSamples)
    {
      r := pcm;
      var len := if fadeSamples < |pcm| then fadeSamples else |pcm|;
      for i := 0 to len
        invariant |r| == |pcm|
        invariant forall j | 0 <= j < |pcm| :: r[j] == if j < i then pcm[j] * FadeInGain(j, len) else pcm[j]
      {
        var gain := (i + 1) as real / len as real;
        r := r[i := r[i] * gain];
      }
      forall j | 0 <= j < |pcm| ensures r[j] == FadeIn(pcm, fadeSamples)[j] {}
    }

    method FrameQuiet(pcm: Pcm) returns (quiet: bool)
      ensures quiet == QuieterThan(pcm, cfg.quietRms)
    {
      var sumSq := 0.0;
      for i := 0 to |pcm|
        invariant sumSq == SumSq(pcm[..i])
      {
        assert pcm[..i + 1][..i] == pcm[..i];
        sumSq := sumSq + pcm[i] * pcm[i];
      }
      assert pcm[..|pcm|] == pcm;
      quiet := cfg.quietRms > 0.0 && (pcm == [] || sumSq < cfg.quietRms * cfg.quietRms * (|pcm| as real));
    }

    /** The first quiet frame, or the oldest one when none is quiet. */
    method FindQuiet() returns (k: nat, found: bool)
      ensures found ==> k < |frames| && QuieterThan(frames[k], cfg.quietRms)
      ensures found ==> forall j | 0 <= j < k :: !QuieterThan(frames[j], cfg.quietRms)
      ensures !found ==> k == 0 && forall j | 0 <= j < |frames| :: !QuieterThan(frames[j], cfg.quietRms)
    {
      k, found := 0, false;
      var i := 0;
      while i < |frames|
        invariant 0 <= i <= |frames|
        invariant forall j | 0 <= j < i :: !QuieterThan(frames[j], cfg.quietRms)
      {
        var quiet := FrameQuiet(frames[i]);
        if quiet {
          return i, true;
        }
        i := i + 1;
      }
    }

    /** Which frame a drop takes: the first quiet one, else, if forced, the oldest. */
    ghost predicate DropsFrame(frames0: seq<Pcm>, force: bool, k: nat) {
      && k < |frames0|
      && (QuieterThan(frames0[k], cfg.quietRms) || (force && k == 0))
      && (forall j | 0 <= j < k :: !QuieterThan(frames0[j], cfg.quietRms))
      && (force && !QuieterThan(frames0[k], cfg.quietRms) ==>
            forall j | 0 <= j < |frames0| :: !QuieterThan(frames0[j], cfg.quietRms))
    }

    /** The queue after frame `k` was dropped; `n` samples went with it. */
    ghost predicate DroppedFrom(frames0: seq<Pcm>, headOff0: nat, k: nat, n: nat)
      reads this`frames, this`headOff
      requires HeadOk(frames0, headOff0)
    {
      k < |frames0| && frames == DropFrame(frames0, k, fadeSamples) && n == FrameRest(frames0, headOff0, k) &&
      headOff == HeadAfterDrop(headOff0, k)
    }

    method DropOneFramePreferringQuiet(force: bool) returns (n: nat)
      requires QueueOk(frames, headOff, totalSamples) && frames != []
      modifies this`frames, this`headOff, this`totalSamples
      ensures QueueOk(frames, headOff, totalSamples) && totalSamples == old(totalSamples) - n
      ensures Thinned(old(Flat(frames, headOff)), Flat(frames, headOff))
      ensures if !force && (forall j | 0 <= j < |old(frames)| :: !QuieterThan(old(frames)[j], cfg.quietRms))
              then n == 0 && frames == old(frames) && headOff == old(headOff)
              else exists k: nat :: DropsFrame(old(frames), force, k) && DroppedFrom(old(frames), old(headOff), k, n)
      ensures |frames| == |old(frames)| -
                (if force || (exists j :: 0 <= j < |old(frames)| && QuieterThan(old(frames)[j], cfg.quietRms))
                 then 1 else 0)
    {
      var k, found := FindQuiet();
      if !found && !force {
        ThinnedRefl(Flat(frames, headOff));
        return 0;
      }
      assert DropsFrame(frames, force, k);
      ghost var frames0, headOff0 := frames, headOff;
      DropKeepsQueue(frames, headOff, totalSamples, k, fadeSamples);
      n := TakeOut(k);
      assert DroppedFrom(frames0, headOff0, k, n);
    }

    /** Fades the neighbours of frame `k` and removes it. */
    method TakeOut(k: nat) returns (n: nat)
      requires HeadOk(frames, headOff) && k < |frames| && FrameRest(frames, headOff, k) <= totalSamples
      modifies this`frames, this`headOff, this`totalSamples
      ensures DroppedFrom(old(frames), old(headOff), k, n)
      ensures totalSamples == old(totalSamples) - n
    {
      if k == 0 {
        n := |frames[0]| - headOff;
        if |frames| > 1 {
          var faded := FadeInHead(frames[1]);
          frames := frames[1 := faded];
        }
        frames := frames[1..];
        headOff := 0;
      } else {
        n := |frames[k]|;
        var faded := FadeOutTail(frames[k - 1]);
        frames := frames[k - 1 := faded];
        if k + 1 < |frames| {
          faded := FadeInHead(frames[k + 1]);
          frames := frames[k + 1 := faded];
        }
        frames := frames[..k] + frames[k + 1..];
      }
      totalSamples := totalSamples - n;
    }

    /** With the last frame dropped put back, the buffer would be too deep. */
    ghost predicate LastDropNeeded()
      reads this`totalSamples, this`books
      requires sampleRate > 0
    {
      books.counted != [] &&
      (totalSamples + books.counted[|books.counted| - 1]) * 1000 >= (cfg.hardCapMs + 1) * sampleRate
    }

    /** Every sample ever pushed was played, dropped, cleared, or is still to be played, and the counters add up the
        drops since they were taken. */
    lemma BooksBalance()
      requires Valid()
      ensures books.pushed == books.popped + books.dropped + books.cleared + |Samples()|
      ensures counters.dropCatchupMs + counters.dropOverflowMs == MsSum(books.counted, sampleRate)
      ensures books.dropped == books.droppedBefore + Sum(books.counted)
    {
    }

    method EnforceHardCap()
      requires QueueOk(frames, headOff, totalSamples) && CountersOk(books, counters, sampleRate) && cfg.hardCapMs > 0
      requires BooksOk(books, totalSamples)
      modifies this`frames, this`headOff, this`totalSamples, this`counters, this`books
      ensures QueueOk(frames, headOff, totalSamples) && CountersOk(books, counters, sampleRate)
      ensures BooksOk(books, totalSamples) && SameButDropped(old(books), books)
      ensures totalSamples * 1000 < (cfg.hardCapMs + 1) * sampleRate
      ensures Thinned(old(Flat(frames, headOff)), Flat(frames, headOff))
      ensures old(totalSamples) * 1000 < (cfg.hardCapMs + 1) * sampleRate ==>
        frames == old(frames) && headOff == old(headOff) && books == old(books) && counters == old(counters)
      ensures old(totalSamples) * 1000 >= (cfg.hardCapMs + 1) * sampleRate ==> LastDropNeeded()
    {
      hide SamplesToMs, Thinned, MsSum, Sum, Concat;
      MsBelowIff(totalSamples, sampleRate, cfg.hardCapMs + 1);
      ThinnedRefl(Flat(frames, headOff));
      ghost var s0 := Flat(frames, headOff);
      while DepthMs() > cfg.hardCapMs && frames != []
        invariant QueueOk(frames, headOff, totalSamples) && CountersOk(books, counters, sampleRate)
        invariant BooksOk(books, totalSamples) && SameButDropped(old(books), books)
        invariant Thinned(s0, Flat(frames, headOff))
        invariant old(DepthMs()) <= cfg.hardCapMs ==>
          frames == old(frames) && headOff == old(headOff) && books == old(books) && counters == old(counters)
        invariant totalSamples == old(totalSamples) || LastDropNeeded()
        decreases |frames|
      {
        DropForCap(s0);
      }
      if frames == [] { EmptyIsShallow(frames, headOff, sampleRate); }
      MsBelowIff(totalSamples, sampleRate, cfg.hardCapMs + 1);
    }

    method DropForCap(ghost s0: Pcm)
      requires QueueOk(frames, headOff, totalSamples) && CountersOk(books, counters, sampleRate) && frames != []
      requires BooksOk(books, totalSamples) && Thinned(s0, Flat(frames, headOff)) && DepthMs() > cfg.hardCapMs
      modifies this`frames, this`headOff, this`totalSamples, this`counters, this`books
      ensures LastDropNeeded()
      ensures QueueOk(frames, headOff, totalSamples) && CountersOk(books, counters, sampleRate)
      ensures BooksOk(books, totalSamples) && SameButDropped(old(books), books)
      ensures Thinned(s0, Flat(frames, headOff)) && |frames| < |old(frames)|
    {
      ghost var s1 := Flat(frames, headOff);
      MsBelowIff(totalSamples, sampleRate, cfg.hardCapMs + 1);
      var n := DropOneFramePreferringQuiet(true);
      ThinnedTrans(s0, s1, Flat(frames, headOff));
      CountDrop(books, counters, sampleRate, n, true);
      books := books.(dropped := books.dropped + n, counted := books.counted + [n]);
      counters := counters.(dropOverflowMs := counters.dropOverflowMs + SamplesToMs(n, sampleRate));
    }

    method MaybeUpdateTarget(nowNs: int)
      requires CfgOk(cfg)
      modifies this`lastTargetUpdateNs, this`targetMs
      ensures lastTargetUpdateNs ==
        if old(lastTargetUpdateNs) < 0 || nowNs - old(lastTargetUpdateNs) >= TARGET_UPDATE_NS then nowNs
        else old(lastTargetUpdateNs)
      ensures targetMs == old(targetMs) || cfg.targetMinMs <= targetMs <= cfg.targetMaxMs
      ensures targetMs == if old(lastTargetUpdateNs) >= 0 && nowNs - old(lastTargetUpdateNs) >= TARGET_UPDATE_NS
                          then Clamp(Trunc(80.0 + 2.0 * jitterMs), cfg.targetMinMs, cfg.targetMaxMs) else old(targetMs)
    {
      if lastTargetUpdateNs < 0 {
        lastTargetUpdateNs := nowNs;
        return;
      }
      if nowNs - lastTargetUpdateNs < TARGET_UPDATE_NS {
        return;
      }
      lastTargetUpdateNs := nowNs;
      var t := Trunc(80.0 + 2.0 * jitterMs);
      targetMs := Clamp(t, cfg.targetMinMs, cfg.targetMaxMs);
    }

    function CatchupHoldMsFor(excessMs: int): (ms: int)
      requires CfgOk(cfg)
      ensures 0 <= ms <= cfg.catchupHoldMs
    {
      HoldMs(cfg.catchupHoldMs as real, (cfg.hardCapMs - cfg.slackMs) as real, (excessMs - cfg.slackMs) as real)
    }

    function CatchupGapMsFor(excessMs: int): (ms: int)
      requires CfgOk(cfg) && excessMs >= 0
      ensures cfg.catchupGapMinMs <= ms <= cfg.catchupGapMs
    {
      var q := 1.0 + excessMs as real / cfg.hardCapMs as real;
      assert q >= 1.0;
      Trunc(ClampReal(cfg.catchupGapMs as real / q, cfg.catchupGapMinMs as real, cfg.catchupGapMs as real))
    }

    /** The deeper the queue, the shorter the hold: all of it up to the slack, none from the hard cap on. */
    lemma HoldShrinks(a: int, b: int)
      requires CfgOk(cfg) && a <= b
      ensures CatchupHoldMsFor(b) <= CatchupHoldMsFor(a)
      ensures a <= cfg.slackMs ==> CatchupHoldMsFor(a) == cfg.catchupHoldMs
      ensures b >= cfg.hardCapMs ==> CatchupHoldMsFor(b) == 0
    {
      hide HoldMs;
      HoldMsShrinks(cfg.catchupHoldMs as real, (cfg.hardCapMs - cfg.slackMs) as real,
                    (a - cfg.slackMs) as real, (b - cfg.slackMs) as real, cfg.catchupHoldMs);
    }

    /** In between the hold is the whole milliseconds on a straight line. */
    lemma HoldIsLine(a: int)
      requires CfgOk(cfg) && cfg.slackMs <= a <= cfg.hardCapMs
      ensures var span, ms := cfg.hardCapMs - cfg.slackMs, CatchupHoldMsFor(a);
              ms * span <= cfg.catchupHoldMs * (cfg.hardCapMs - a) < (ms + 1) * span
    {
      HoldLineIs(cfg.catchupHoldMs, cfg.hardCapMs - cfg.slackMs, a - cfg.slackMs);
    }

    /** The gap is the whole milliseconds of the full gap times cap over cap plus excess, but not below its least. */
    lemma GapIsQuotient(a: int)
      requires CfgOk(cfg) && 0 <= a && 0 <= cfg.catchupGapMinMs
      ensures var all, ms := cfg.hardCapMs + a, CatchupGapMsFor(a);
              if cfg.catchupGapMs * cfg.hardCapMs >= cfg.catchupGapMinMs * all
              then ms * all <= cfg.catchupGapMs * cfg.hardCapMs < (ms + 1) * all
              else ms == cfg.catchupGapMinMs
    {
      GapQuotientIs(cfg.catchupGapMs, cfg.catchupGapMinMs, cfg.hardCapMs, a);
    }

    /** And the shorter the gap between two drops: all of it with no excess. */
    lemma GapShrinks(a: int, b: int)
      requires CfgOk(cfg) && 0 <= a <= b && 0 <= cfg.catchupGapMinMs
      ensures CatchupGapMsFor(b) <= CatchupGapMsFor(a)
      ensures CatchupGapMsFor(0) == cfg.catchupGapMs
    {
      var cap := cfg.hardCapMs as real;
      QuotientMonotone(a as real, b as real, cap);
      QuotientAntitone(cfg.catchupGapMs as real, 1.0 + a as real / cap, 1.0 + b as real / cap);
    }

    method DropOneCatchupFrame(nowNs: int)
      requires QueueOk(frames, headOff, totalSamples) && CountersOk(books, counters, sampleRate) && frames != []
      requires BooksOk(books, totalSamples)
      modifies this`frames, this`headOff, this`totalSamples, this`counters, this`books, this`catchup
      ensures QueueOk(frames, headOff, totalSamples) && CountersOk(books, counters, sampleRate)
      ensures BooksOk(books, totalSamples) && SameButDropped(old(books), books)
      ensures totalSamples <= old(totalSamples) && |old(frames)| - 1 <= |frames| <= |old(frames)|
      ensures Thinned(old(Flat(frames, headOff)), Flat(frames, headOff))
      ensures |frames| < |old(frames)| <==>
        (old(catchup).eligibleSinceNs >= 0 && nowNs - old(catchup).eligibleSinceNs >= cfg.quietWaitMs * MS_TO_NS) ||
        (exists j :: 0 <= j < |old(frames)| && QuieterThan(old(frames)[j], cfg.quietRms))
      ensures |frames| == |old(frames)| ==> frames == old(frames) && headOff == old(headOff)
      ensures totalSamples < old(totalSamples) ==>
        && catchup == old(catchup).(periodHasDrop := true, lastDropNs := nowNs, eligibleSinceNs := -1)
        && counters.queueBeforeMs ==
           (if old(catchup).periodHasDrop then old(counters).queueBeforeMs else old(DepthMs()))
        && counters.queueAfterMs == DepthMs() && counters.dropOverflowMs == old(counters).dropOverflowMs
        && counters.dropCatchupMs ==
           old(counters).dropCatchupMs + SamplesToMs(old(totalSamples) - totalSamples, sampleRate)
      ensures totalSamples == old(totalSamples) ==> catchup == old(catchup) && counters == old(counters)
    {
      hide Thinned, MsSum, Sum, Concat, SamplesToMs, QuieterThan;
      var quietWaitExpired :=
        catchup.eligibleSinceNs >= 0 && nowNs - catchup.eligibleSinceNs >= cfg.quietWaitMs * MS_TO_NS;
      var depthBefore := DepthMs();
      var n := DropOneFramePreferringQuiet(quietWaitExpired);
      if n == 0 {
        return;
      }
      CountDrop(books, counters, sampleRate, n, false);
      books := books.(dropped := books.dropped + n, counted := books.counted + [n]);
      var c := counters.(dropCatchupMs := counters.dropCatchupMs + SamplesToMs(n, sampleRate));
      if !catchup.periodHasDrop {
        c := c.(queueBeforeMs := depthBefore);
      }
      counters := c.(queueAfterMs := DepthMs());
      catchup := catchup.(periodHasDrop := true, lastDropNs := nowNs, eligibleSinceNs := -1);
    }

    /** The catch-up state after looking at the depth: it starts only after the queue has been over the slack
        for the hold time. */
    method WatchDepth(nowNs: int, depth: int, excessMs: int)
      requires CfgOk(cfg)
      modifies this`catchup
      ensures catchup ==
        if old(catchup).running then old(catchup)
        else if depth <= targetMs + cfg.slackMs then old(catchup).(overTargetSeen := false)
        else if !old(catchup).overTargetSeen then
          old(catchup).(overTargetSeen := true, overTargetSinceNs := nowNs)
        else if nowNs - old(catchup).overTargetSinceNs >= CatchupHoldMsFor(excessMs) * MS_TO_NS then
          old(catchup).(running := true, eligibleSinceNs := -1)
        else old(catchup)
    {
      if !catchup.running {
        if depth > targetMs + cfg.slackMs {
          if !catchup.overTargetSeen {
            catchup := catchup.(overTargetSeen := true, overTargetSinceNs := nowNs);
          } else if nowNs - catchup.overTargetSinceNs >= CatchupHoldMsFor(excessMs) * MS_TO_NS {
            catchup := catchup.(running := true, eligibleSinceNs := -1);
          }
        } else {
          catchup := catchup.(overTargetSeen := false);
        }
      }
    }

    /** The queue has been over the slack since at least the hold for the present excess. */
    predicate MayStart(c: Catchup, nowNs: int, depth: int, excessMs: int)
      reads this`targetMs
      requires CfgOk(cfg)
    {
      c.overTargetSeen && depth > targetMs + cfg.slackMs &&
      nowNs - c.overTargetSinceNs >= CatchupHoldMsFor(excessMs) * MS_TO_NS
    }

    /** Whether catch-up may take a frame out now. */
    method CatchupDue(nowNs: int) returns (due: bool)
      requires CfgOk(cfg) && 0 <= targetMs && sampleRate > 0
      modifies this`catchup
      ensures due <==>
        && cfg.catchupEnabled && DepthMs() > targetMs
        && nowNs - old(catchup).lastDropNs >= CatchupGapMsFor(DepthMs() - targetMs) * MS_TO_NS
        && (old(catchup).running || MayStart(old(catchup), nowNs, DepthMs(), DepthMs() - targetMs))
      ensures catchup.lastDropNs == old(catchup).lastDropNs && catchup.periodHasDrop == old(catchup).periodHasDrop
      ensures catchup.running <==>
        && cfg.catchupEnabled && DepthMs() > targetMs
        && (old(catchup).running || MayStart(old(catchup), nowNs, DepthMs(), DepthMs() - targetMs))
      ensures due ==>
        catchup.eligibleSinceNs ==
          if old(catchup).running && old(catchup).eligibleSinceNs >= 0 then old(catchup).eligibleSinceNs else nowNs
      ensures !cfg.catchupEnabled ==> !catchup.overTargetSeen
      ensures cfg.catchupEnabled && !old(catchup).running ==>
        && catchup.overTargetSeen == (DepthMs() > targetMs + cfg.slackMs)
        && catchup.overTargetSinceNs == (if catchup.overTargetSeen && !old(catchup).overTargetSeen then nowNs
                                         else old(catchup).overTargetSinceNs)
    {
      if !cfg.catchupEnabled {
        catchup := catchup.(overTargetSeen := false, running := false);
        return false;
      }
      var depth := DepthMs();
      var excessMs := if depth - targetMs > 0 then depth - targetMs else 0;
      WatchDepth(nowNs, depth, excessMs);
      if !catchup.running {
        return false;
      }
      if depth <= targetMs {
        catchup := catchup.(running := false);
        return false;
      }
      if nowNs - catchup.lastDropNs < CatchupGapMsFor(excessMs) * MS_TO_NS {
        return false;
      }
      if catchup.eligibleSinceNs < 0 {
        catchup := catchup.(eligibleSinceNs := nowNs);
      }
      due := true;
    }

    /** When catch-up takes a frame: it runs or may start, the queue is deeper than the target, the gap for the present
        excess has passed since the last one, and there is a quiet frame or the wait for one is over. */
    ghost predicate TakesFrame(c: Catchup, nowNs: int, depth: nat, queue: seq<Pcm>)
      reads this`targetMs
      requires CfgOk(cfg) && 0 <= targetMs
    {
      && cfg.catchupEnabled && depth > targetMs
      && nowNs - c.lastDropNs >= CatchupGapMsFor(depth - targetMs) * MS_TO_NS
      && (c.running || MayStart(c, nowNs, depth, depth - targetMs))
      && var since := if c.running && c.eligibleSinceNs >= 0 then c.eligibleSinceNs else nowNs;
         (exists j :: 0 <= j < |queue| && QuieterThan(queue[j], cfg.quietRms)) ||
         (since >= 0 && nowNs - since >= cfg.quietWaitMs * MS_TO_NS)
    }

    /** Catch-up takes out one frame exactly then, and never more. */
    method RunCatchup(nowNs: int)
      requires CfgOk(cfg) && 0 <= targetMs && sampleRate > 0
      requires QueueOk(frames, headOff, totalSamples) && CountersOk(books, counters, sampleRate)
      requires BooksOk(books, totalSamples)
      modifies this`frames, this`headOff, this`totalSamples, this`counters, this`books, this`catchup
      ensures QueueOk(frames, headOff, totalSamples) && CountersOk(books, counters, sampleRate)
      ensures BooksOk(books, totalSamples) && SameButDropped(old(books), books)
      ensures totalSamples <= old(totalSamples) && |old(frames)| - 1 <= |frames| <= |old(frames)|
      ensures Thinned(old(Flat(frames, headOff)), Flat(frames, headOff))
      ensures |frames| < |old(frames)| <==> TakesFrame(old(catchup), nowNs, old(DepthMs()), old(frames))
      ensures |frames| == |old(frames)| ==> frames == old(frames) && headOff == old(headOff)
    {
      hide Thinned, MsSum, Sum, Concat, SamplesToMs, QuieterThan, CatchupGapMsFor, MayStart, BooksOk, CountersOk;
      var due := CatchupDue(nowNs);
      if !due {
        ThinnedRefl(Flat(frames, headOff));
        return;
      }
      NonEmptyWhenDeep(frames, headOff, sampleRate);
      DropOneCatchupFrame(nowNs);
    }

    /** Appends a frame. Afterwards the buffer is no deeper than the hard cap, and what it holds is what it
        held plus the new frame, less whole blocks of samples and with nothing made louder. */
    method Push(nowNs: int, pcm: Pcm)
      requires Valid()
      modifies this`frames, this`headOff, this`totalSamples, this`counters, this`books, this`catchup,
               this`targetMs, this`lastTargetUpdateNs, this`lastScaleUpdateNs, scaler
      ensures Valid()
      ensures books.pushed == old(books).pushed + |pcm|
      ensures books.popped == old(books).popped && books.cleared == old(books).cleared
      ensures books.dropped - old(books).dropped == old(totalSamples) + |pcm| - totalSamples
      ensures totalSamples * 1000 < (cfg.hardCapMs + 1) * sampleRate
      ensures Thinned(old(Samples()) + pcm, Samples())
      ensures targetMs == if old(lastTargetUpdateNs) >= 0 && nowNs - old(lastTargetUpdateNs) >= TARGET_UPDATE_NS
                          then Clamp(Trunc(80.0 + 2.0 * jitterMs), cfg.targetMinMs, cfg.targetMaxMs) else old(targetMs)
      ensures lastTargetUpdateNs ==
        if old(lastTargetUpdateNs) < 0 || nowNs - old(lastTargetUpdateNs) >= TARGET_UPDATE_NS then nowNs
        else old(lastTargetUpdateNs)
      ensures (old(totalSamples) + |pcm|) * 1000 < (cfg.hardCapMs + 1) * sampleRate ==>
        if TakesFrame(old(catchup), nowNs, SamplesToMs(old(totalSamples) + |pcm|, sampleRate), old(frames) + [pcm])
        then |frames| == |old(frames)|
        else frames == old(frames) + [pcm] && headOff == old(headOff)
      ensures !cfg.scaleEnabled ==> scaler.currentRate == old(scaler.currentRate)
      ensures cfg.scaleEnabled ==>
        var elapsedMs := if old(lastScaleUpdateNs) < 0 then 0 else (nowNs - old(lastScaleUpdateNs)) / MS_TO_NS;
        var step := scaler.stepPerMs * (if elapsedMs > 0 then elapsedMs else 0) as real;
        var target := scaler.TargetRateFor(if DepthMs() > targetMs then DepthMs() - targetMs else 0);
        scaler.currentRate == Towards(old(scaler.currentRate), target, step)
    {
      hide Thinned, MsSum, Sum, Concat, SamplesToMs, TakesFrame, PlayoutScaler.TargetRateFor, HeadOk, Trunc, Clamp;
      Append(pcm);
      CutBack(nowNs);
      AdjustRate(nowNs);
    }

    /** What follows the append: the hard cap, the target, and catch-up. */
    method CutBack(nowNs: int)
      requires CfgOk(cfg) && 0 <= targetMs && sampleRate > 0
      requires QueueOk(frames, headOff, totalSamples) && CountersOk(books, counters, sampleRate)
      requires BooksOk(books, totalSamples)
      modifies this`frames, this`headOff, this`totalSamples, this`counters, this`books, this`catchup,
               this`targetMs, this`lastTargetUpdateNs
      ensures QueueOk(frames, headOff, totalSamples) && CountersOk(books, counters, sampleRate) && 0 <= targetMs
      ensures BooksOk(books, totalSamples) && SameButDropped(old(books), books)
      ensures totalSamples * 1000 < (cfg.hardCapMs + 1) * sampleRate
      ensures Thinned(old(Flat(frames, headOff)), Flat(frames, headOff))
      ensures targetMs == if old(lastTargetUpdateNs) >= 0 && nowNs - old(lastTargetUpdateNs) >= TARGET_UPDATE_NS
                          then Clamp(Trunc(80.0 + 2.0 * jitterMs), cfg.targetMinMs, cfg.targetMaxMs) else old(targetMs)
      ensures lastTargetUpdateNs ==
        if old(lastTargetUpdateNs) < 0 || nowNs - old(lastTargetUpdateNs) >= TARGET_UPDATE_NS then nowNs
        else old(lastTargetUpdateNs)
      ensures old(totalSamples) * 1000 < (cfg.hardCapMs + 1) * sampleRate ==>
        if TakesFrame(old(catchup), nowNs, SamplesToMs(old(totalSamples), sampleRate), old(frames))
        then |frames| == |old(frames)| - 1
        else frames == old(frames) && headOff == old(headOff)
    {
      hide Thinned, MsSum, Sum, Concat, SamplesToMs, QuieterThan, TakesFrame, BooksOk, CountersOk, Trunc, Clamp;
      ghost var s0 := Flat(frames, headOff);
      EnforceHardCap();
      ghost var s1 := Flat(frames, headOff);
      MaybeUpdateTarget(nowNs);
      ghost var total1 := totalSamples;
      RunCatchup(nowNs);
      ThinnedTrans(s0, s1, Flat(frames, headOff));
      MulOrder(totalSamples, total1, 1000);
    }

    method AdjustRate(nowNs: int)
      requires scaler.Valid() && sampleRate > 0
      modifies this`lastScaleUpdateNs, scaler
      ensures scaler.Valid()
      ensures !cfg.scaleEnabled ==>
        scaler.currentRate == old(scaler.currentRate) && lastScaleUpdateNs == old(lastScaleUpdateNs)
      ensures cfg.scaleEnabled ==> lastScaleUpdateNs == nowNs
      ensures cfg.scaleEnabled ==>
        var elapsedMs := if old(lastScaleUpdateNs) < 0 then 0 else (nowNs - old(lastScaleUpdateNs)) / MS_TO_NS;
        var step := scaler.stepPerMs * (if elapsedMs > 0 then elapsedMs else 0) as real;
        var target := scaler.TargetRateFor(if DepthMs() > targetMs then DepthMs() - targetMs else 0);
        scaler.currentRate == Towards(old(scaler.currentRate), target, step)
    {
      if cfg.scaleEnabled {
        var depth := DepthMs();
        var excessMs := if depth - targetMs > 0 then depth - targetMs else 0;
        var elapsedMs := if lastScaleUpdateNs < 0 then 0 else (nowNs - lastScaleUpdateNs) / MS_TO_NS;
        scaler.Update(excessMs, elapsedMs);
        lastScaleUpdateNs := nowNs;
      }
    }

    method Append(pcm: Pcm)
      requires QueueOk(frames, headOff, totalSamples) && BooksOk(books, totalSamples)
      modifies this`frames, this`totalSamples, this`books
      ensures QueueOk(frames, headOff, totalSamples) && Flat(frames, headOff) == old(Flat(frames, headOff)) + pcm
      ensures frames == old(frames) + [pcm] && totalSamples == old(totalSamples) + |pcm|
      ensures BooksOk(books, totalSamples) && books == old(books).(pushed := old(books).pushed + |pcm|)
    {
      AppendFrame(frames, headOff, totalSamples, pcm);
      frames := frames + [pcm];
      totalSamples := totalSamples + |pcm|;
      books := books.(pushed := books.pushed + |pcm|);
    }

    /** Drops up to `count` samples from the front. */
    method AdvanceFront(count: nat)
      requires QueueOk(frames, headOff, totalSamples)
      modifies this`frames, this`headOff, this`totalSamples, this`books
      ensures QueueOk(frames, headOff, totalSamples)
      ensures Flat(frames, headOff) == old(Flat(frames, headOff))[Min(count, old(totalSamples))..]
      ensures totalSamples == old(totalSamples) - Min(count, old(totalSamples))
      ensures books == old(books).(popped := old(books).popped + Min(count, old(totalSamples)))
    {
      var left := count;
      ghost var s0 := Flat(frames, headOff);
      ghost var gone: nat := 0;
      while left > 0 && frames != []
        invariant QueueOk(frames, headOff, totalSamples)
        invariant left >= 0 && gone + left == count && gone <= |s0| && Flat(frames, headOff) == s0[gone..]
        invariant totalSamples == |s0| - gone
        invariant books == old(books).(popped := old(books).popped + gone)
        decreases |frames|, left
      {
        var avail := |frames[0]| - headOff;
        var take := if left < avail then left else avail;
        PlayFront(frames, headOff, take);
        headOff := headOff + take;
        totalSamples := totalSamples - take;
        books := books.(popped := books.popped + take);
        left := left - take;
        gone := gone + take;
        if headOff >= |frames[0]| {
          frames := frames[1..];
          headOff := 0;
        }
      }
      HeadInConcat(frames, headOff);
      assert gone == Min(count, |s0|) by {
        if left > 0 { assert frames == [] && totalSamples == 0; }
      }
    }

    /** The sample `offset` places after the front, silence beyond the end. */
    method SampleAt(offset: nat) returns (s: real)
      requires QueueOk(frames, headOff, totalSamples)
      ensures s == if offset < totalSamples then Flat(frames, headOff)[offset] else 0.0
    {
      var remaining := offset;
      var fi := 0;
      HeadInConcat(frames, headOff);
      while fi < |frames|
        invariant 0 <= fi <= |frames| && remaining >= 0
        invariant fi == 0 ==> remaining == offset
        invariant fi > 0 ==> (offset < totalSamples <==> remaining < |Concat(frames[fi..])|)
        invariant fi > 0 && offset < totalSamples ==> Flat(frames, headOff)[offset] == Concat(frames[fi..])[remaining]
      {
        var start := if fi == 0 then headOff else 0;
        var avail := |frames[fi]| - start;
        assert frames[fi..][1..] == frames[fi + 1..];
        if remaining < avail {
          s := frames[fi][start + remaining];
          return;
        }
        remaining := remaining - avail;
        fi := fi + 1;
      }
      assert frames[|frames|..] == [];
      s := 0.0;
    }

    /** Plays up to `n` samples into `out`. At rate 1 they are the front of the queue, and exactly they are
        removed. Above rate 1 each is read at a position one rate step further, and `consumed`, the number of
        whole samples passed, exceeds the number removed by less than one rate step. */
    method Pop(out: array<real>, n: nat) returns (got: nat, consumed: Option<nat>)
      requires Valid() && n <= out.Length
      modifies this`frames, this`headOff, this`totalSamples, this`books, this`cursor, this`prefilling, out
      ensures Valid() && targetMs == old(targetMs) && scaler.currentRate == old(scaler.currentRate)
      ensures totalSamples <= old(totalSamples)
      ensures books == old(books).(popped := old(books).popped + (old(totalSamples) - totalSamples))
      ensures forall i | got <= i < out.Length :: out[i] == old(out[i])
      ensures consumed.None? <==> old(prefilling) && old(totalSamples) * 1000 < targetMs * sampleRate
      ensures consumed.None? ==>
              got == 0 && Flat(frames, headOff) == old(Flat(frames, headOff)) && prefilling && cursor == old(cursor)
      ensures consumed.Some? ==> got <= n && prefilling == (got < n)
      ensures consumed.Some? && (!cfg.scaleEnabled || scaler.currentRate <= 1.0) ==>
        && got == Min(n, old(totalSamples)) && consumed == Some(got)
        && out[..got] == old(Flat(frames, headOff))[..got] && Flat(frames, headOff) == old(Flat(frames, headOff))[got..]
        && cursor == old(cursor)
      ensures consumed.Some? && cfg.scaleEnabled && scaler.currentRate > 1.0 ==>
        && ReadsAlong(old(Flat(frames, headOff)), old(cursor), scaler.currentRate, n, out[..got])
        && consumed == Some(CursorAt(old(cursor), scaler.currentRate, got).Floor)
        && cursor == CursorAt(old(cursor), scaler.currentRate, got) - consumed.value as real
        && Flat(frames, headOff) == old(Flat(frames, headOff))[Min(consumed.value, old(totalSamples))..]
        && (consumed.value - (old(totalSamples) - totalSamples)) as real < scaler.currentRate
    {
      hide SamplesToMs, Concat, MsSum, Sum, CursorAt, ReadsAlong;
      MsBelowIff(totalSamples, sampleRate, targetMs);
      if prefilling {
        if DepthMs() < targetMs {
          return 0, None;
        }
        prefilling := false;
      }
      var count: nat;
      if !cfg.scaleEnabled || scaler.currentRate <= 1.0 {
        got := PopFront(out, n);
        count := got;
      } else {
        got, count := PopScaled(out, n);
      }
      consumed := Some(count);
      if got < n {
        prefilling := true;
      }
    }

    method PopFront(out: array<real>, n: nat) returns (got: nat)
      requires QueueOk(frames, headOff, totalSamples) && n <= out.Length
      modifies this`frames, this`headOff, this`totalSamples, this`books, out
      ensures QueueOk(frames, headOff, totalSamples) && got == Min(n, old(totalSamples))
      ensures out[..got] == old(Flat(frames, headOff))[..got] &&
              Flat(frames, headOff) == old(Flat(frames, headOff))[got..]
      ensures forall i | got <= i < out.Length :: out[i] == old(out[i])
      ensures totalSamples == old(totalSamples) - got
      ensures books == old(books).(popped := old(books).popped + got)
    {
      got := 0;
      ghost var s0 := Flat(frames, headOff);
      while got < n && frames != []
        invariant QueueOk(frames, headOff, totalSamples) && got <= n && got <= |s0|
        invariant Flat(frames, headOff) == s0[got..] && out[..got] == s0[..got]
        invariant totalSamples == |s0| - got
        invariant forall i | got <= i < out.Length :: out[i] == old(out[i])
        invariant books == old(books).(popped := old(books).popped + got)
        decreases |frames|, n - got
      {
        var take := PopChunk(out, got, n);
        assert s0[..got + take] == s0[..got] + s0[got..][..take];
        got := got + take;
      }
      HeadInConcat(frames, headOff);
      assert got == Min(n, |s0|) by {
        if got < n { assert |s0[got..]| == 0; }
      }
    }

    /** Copies what is wanted of the first frame behind the `got` samples already there. */
    method PopChunk(out: array<real>, got: nat, n: nat) returns (take: nat)
      requires QueueOk(frames, headOff, totalSamples) && got < n <= out.Length && frames != []
      modifies this`frames, this`headOff, this`totalSamples, this`books, out
      ensures QueueOk(frames, headOff, totalSamples) && got + take <= n
      ensures take <= old(totalSamples) && totalSamples == old(totalSamples) - take
      ensures Flat(frames, headOff) == old(Flat(frames, headOff))[take..]
      ensures out[..got + take] == old(out[..got]) + old(Flat(frames, headOff))[..take]
      ensures forall i | got + take <= i < out.Length :: out[i] == old(out[i])
      ensures books == old(books).(popped := old(books).popped + take)
      ensures |frames| < |old(frames)| || (|frames| == |old(frames)| && got + take == n)
    {
      var front := frames[0];
      var avail := |front| - headOff;
      take := if n - got < avail then n - got else avail;
      PlayFront(frames, headOff, take);
      CopySamples(front[headOff..headOff + take], out, got);
      headOff := headOff + take;
      totalSamples := totalSamples - take;
      books := books.(popped := books.popped + take);
      if headOff >= |front| {
        frames := frames[1..];
        headOff := 0;
      }
    }

    static method CopySamples(from: Pcm, out: array<real>, at: nat)
      requires at + |from| <= out.Length
      modifies out
      ensures out[..at + |from|] == old(out[..at]) + from
      ensures forall i | at + |from| <= i < out.Length :: out[i] == old(out[i])
    {
      for i := 0 to |from|
        invariant out[..at + i] == old(out[..at]) + from[..i]
        invariant forall j | at + i <= j < out.Length :: out[j] == old(out[j])
      {
        out[at + i] := from[i];
      }
    }

    method ReadBetween(c: real) returns (s: real)
      requires QueueOk(frames, headOff, totalSamples) && 0.0 <= c && c.Floor < totalSamples
      ensures s == Interpolate(Flat(frames, headOff), c)
    {
      hide Between;
      var i0 := c.Floor;
      var s0 := SampleAt(i0);
      var i1 := i0 + 1;
      var s1 := s0;
      if i1 < totalSamples {
        s1 := SampleAt(i1);
      }
      var frac := c - i0 as real;
      s := Between(s0, s1, frac);
    }

    /** Reads along the queue from the cursor; the position after the last read is `c`. */
    method ReadScaled(out: array<real>, n: nat) returns (got: nat, c: real)
      requires QueueOk(frames, headOff, totalSamples) && n <= out.Length && scaler.currentRate > 1.0 &&
               0.0 <= cursor < 1.0
      modifies out
      ensures got <= n && c >= 0.0 && c == CursorAt(cursor, scaler.currentRate, got)
      ensures ReadsAlong(Flat(frames, headOff), cursor, scaler.currentRate, n, out[..got])
      ensures forall i | got <= i < out.Length :: out[i] == old(out[i])
      ensures c < totalSamples as real + scaler.currentRate
    {
      var rate := scaler.currentRate;
      c := cursor;
      got := 0;
      while got < n
        invariant 0 <= got <= n && c == CursorAt(cursor, rate, got) && c >= 0.0
        invariant forall k: nat | k < got :: ReadOk(Flat(frames, headOff), cursor, rate, k, out[k])
        invariant forall i | got <= i < out.Length :: out[i] == old(out[i])
        invariant c < totalSamples as real + rate
      {
        if c.Floor >= totalSamples {
          break;
        }
        out[got] := ReadBetween(c);
        CursorStep(cursor, rate, got);
        got := got + 1;
        c := c + rate;
      }
    }

    method PopScaled(out: array<real>, n: nat) returns (got: nat, consumed: nat)
      requires QueueOk(frames, headOff, totalSamples) && n <= out.Length && scaler.currentRate > 1.0 &&
               0.0 <= cursor < 1.0
      modifies this`frames, this`headOff, this`totalSamples, this`books, this`cursor, out
      ensures QueueOk(frames, headOff, totalSamples) && got <= n && 0.0 <= cursor < 1.0
      ensures totalSamples <= old(totalSamples)
      ensures books == old(books).(popped := old(books).popped + (old(totalSamples) - totalSamples))
      ensures ReadsAlong(old(Flat(frames, headOff)), old(cursor), scaler.currentRate, n, out[..got])
      ensures forall i | got <= i < out.Length :: out[i] == old(out[i])
      ensures consumed == CursorAt(old(cursor), scaler.currentRate, got).Floor
      ensures cursor == CursorAt(old(cursor), scaler.currentRate, got) - consumed as real
      ensures Flat(frames, headOff) == old(Flat(frames, headOff))[Min(consumed, old(totalSamples))..]
      ensures (consumed - (old(totalSamples) - totalSamples)) as real < scaler.currentRate
    {
      var c;
      got, c := ReadScaled(out, n);
      consumed := c.Floor;
      c := c - consumed as real;
      AdvanceFront(consumed);
      cursor := c;
    }

    method SetJitterMs(j: real)
      requires Valid()
      modifies this`jitterMs
      ensures Valid() && jitterMs == j
    {
      jitterMs := j;
    }

    method Clear()
      requires Valid()
      modifies this`frames, this`headOff, this`totalSamples, this`books, this`prefilling, this`catchup, this`cursor
      ensures Valid() && Samples() == [] && prefilling && cursor == 0.0
      ensures catchup == old(catchup).(running := false, overTargetSeen := false, eligibleSinceNs := -1)
      ensures books == old(books).(cleared := old(books).cleared + old(totalSamples))
    {
      books := books.(cleared := books.cleared + totalSamples);
      frames, headOff, totalSamples, prefilling := [], 0, 0, true;
      catchup := catchup.(running := false, overTargetSeen := false, eligibleSinceNs := -1);
      cursor := 0.0;
    }

    /** Answers the drop counters and resets them. They never claim more than was dropped. */
    method TakeCounters() returns (c: JbCounters)
      requires Valid()
      modifies this`counters, this`catchup, this`books
      ensures Valid() && counters == JbCounters(0, 0, 0, 0) &&
              books.droppedBefore == books.dropped == old(books).dropped
      ensures c == old(counters) && catchup == old(catchup).(periodHasDrop := false)
      ensures (c.dropCatchupMs + c.dropOverflowMs) * sampleRate <= (books.dropped - old(books).droppedBefore) * 1000
      ensures (books.dropped - old(books).droppedBefore) * 1000 <=
              (c.dropCatchupMs + c.dropOverflowMs + |old(books).counted|) * sampleRate
    {
      c := counters;
      counters := JbCounters(0, 0, 0, 0);
      catchup := catchup.(periodHasDrop := false);
      CountersAreHonest(books.counted, sampleRate);
      books := books.(counted := [], droppedBefore := books.dropped);
    }
  }

  /** Dropping a frame takes its unplayed samples off the count and only thins what stays. */
  lemma DropKeepsQueue(frames: seq<Pcm>, headOff: nat, total: nat, k: nat, fade: nat)
    requires QueueOk(frames, headOff, total) && k < |frames|
    ensures var frames', headOff' := DropFrame(frames, k, fade), HeadAfterDrop(headOff, k);
            var n := FrameRest(frames, headOff, k);
      && n <= total && QueueOk(frames', headOff', total - n)
      && |frames'| == |frames| - 1
      && Thinned(Flat(frames, headOff), Flat(frames', headOff'))
  {
    var a, d, b, a', b' := DropIsCut(frames, headOff, k, fade);
    CutIsThinned(a, d, b, a', b', fade);
    assert |a + d + b| == |a| + |d| + |b| && |a' + b'| == |a| + |b|;
  }

  lemma AppendFrame(frames: seq<Pcm>, headOff: nat, total: nat, pcm: Pcm)
    requires QueueOk(frames, headOff, total)
    ensures QueueOk(frames + [pcm], headOff, total + |pcm|)
    ensures Flat(frames + [pcm], headOff) == Flat(frames, headOff) + pcm
  {
    ConcatAppend(frames, [pcm]);
    ConcatOne(pcm);
  }

  lemma EmptyIsShallow(frames: seq<Pcm>, headOff: nat, rate: nat)
    requires headOff <= |Concat(frames)| && rate > 0 && frames == []
    ensures SamplesToMs(|Concat(frames)| - headOff, rate) == 0
  {
  }

  lemma NonEmptyWhenDeep(frames: seq<Pcm>, headOff: nat, rate: nat)
    requires headOff <= |Concat(frames)| && rate > 0 && SamplesToMs(|Concat(frames)| - headOff, rate) > 0
    ensures frames != []
  {
  }
}
