/** The sample sequence a jitter buffer stands for, and what dropping a frame does to it. Samples, gains
    and rates are reals. */
module JitterModel {

  type Pcm = seq<real>

  function Concat(frames: seq<Pcm>): Pcm
  {
    if frames == [] then [] else frames[0] + Concat(frames[1..])
  }

  /** What is left to play: every frame's samples, less the part of the first one already played. */
  function Flat(frames: seq<Pcm>, headOff: nat): Pcm
    requires headOff <= |Concat(frames)|
  {
    Concat(frames)[headOff..]
  }

  /** The head offset lies inside the first frame. */
  predicate HeadOk(frames: seq<Pcm>, headOff: nat) {
    if frames == [] then headOff == 0 else headOff <= |frames[0]| && (headOff == |frames[0]| ==> headOff == 0)
  }

  /** The counter of held samples agrees with the frames. */
  predicate QueueOk(frames: seq<Pcm>, headOff: nat, total: nat) {
    HeadOk(frames, headOff) && headOff <= |Concat(frames)| && total == |Concat(frames)| - headOff
  }

  lemma {:induction false} ConcatAppend(a: seq<Pcm>, b: seq<Pcm>)
    ensures Concat(a + b) == Concat(a) + Concat(b)
  {
    if a == [] {
      assert a + b == b;
    } else {
      ConcatAppend(a[1..], b);
      assert (a + b)[1..] == a[1..] + b;
      assert Concat(a + b) == a[0] + (Concat(a[1..]) + Concat(b));
      assert a[0] + (Concat(a[1..]) + Concat(b)) == (a[0] + Concat(a[1..])) + Concat(b);
    }
  }

  lemma ConcatOne(f: Pcm)
    ensures Concat([f]) == f
  {
    assert [f][1..] == [];
    assert f + [] == f;
  }

  lemma HeadInConcat(frames: seq<Pcm>, headOff: nat)
    requires HeadOk(frames, headOff)
    ensures headOff <= |Concat(frames)|
    ensures frames != [] ==> Flat(frames, headOff) == frames[0][headOff..] + Concat(frames[1..])
    ensures frames == [] ==> Flat(frames, headOff) == []
  {
  }

  /** The queue once `headOff` has moved on: a frame played to its end is removed. */
  function PlayedTo(frames: seq<Pcm>, off: nat): (seq<Pcm>, nat)
    requires frames != []
  {
    if off >= |frames[0]| then (frames[1..], 0) else (frames, off)
  }

  /** Playing part of the first frame takes exactly those samples off the front. */
  lemma PlayFront(frames: seq<Pcm>, headOff: nat, take: nat)
    requires HeadOk(frames, headOff) && frames != [] && take <= |frames[0]| - headOff
    ensures var (frames', off') := PlayedTo(frames, headOff + take);
      && HeadOk(frames', off') && off' <= |Concat(frames')| && headOff <= |Concat(frames)|
      && take <= |Flat(frames, headOff)|
      && Flat(frames, headOff)[..take] == frames[0][headOff..headOff + take]
      && Flat(frames', off') == Flat(frames, headOff)[take..]
      && |Concat(frames')| - off' == |Concat(frames)| - headOff - take
      && (take == |frames[0]| - headOff ==> |frames'| < |frames|)
  {
    HeadInConcat(frames, headOff);
    var flat := Flat(frames, headOff);
    if headOff + take >= |frames[0]| {
      assert flat[take..] == Concat(frames[1..]);
    } else {
      assert flat[take..] == frames[0][headOff + take..] + Concat(frames[1..]);
    }
  }

  // ---------- fades ----------

  function Abs(x: real): real { if x < 0.0 then -x else x }

  function Min(a: nat, b: nat): nat { if a < b then a else b }

  /** A part of a whole. */
  function Fraction(x: nat, y: nat): (f: real)
    requires x <= y && y > 0
    ensures 0.0 <= f <= 1.0 && (x > 0 ==> f > 0.0)
  {
    var a, b := x as real, y as real;
    QuotientBounds(a, b);
    a / b
  }

  lemma QuotientBounds(a: real, b: real)
    requires 0.0 <= a <= b && b > 0.0
    ensures 0.0 <= a / b <= 1.0 && (a > 0.0 ==> a / b > 0.0)
  {
    var q := a / b;
    assert q * b == a;
    if q < 0.0 { NegativeTimes(q, b); }
    if q > 1.0 { NegativeTimes(1.0 - q, b); assert (1.0 - q) * b == b - a; }
  }

  lemma NegativeTimes(x: real, y: real)
    requires x < 0.0 && y > 0.0
    ensures x * y < 0.0
  {
  }

  function FadeOutGain(i: nat, len: nat): (g: real)
    requires i < len
    ensures 0.0 <= g < 1.0
  {
    1.0 - Fraction(i + 1, len)
  }

  function FadeInGain(i: nat, len: nat): (g: real)
    requires i < len
    ensures 0.0 < g <= 1.0
  {
    Fraction(i + 1, len)
  }

  /** The last `fade` samples ramp down to silence. */
  function FadeOut(pcm: Pcm, fade: nat): (r: Pcm)
    ensures |r| == |pcm|
  {
    var len := Min(fade, |pcm|);
    seq(|pcm|, i requires 0 <= i < |pcm| =>
      if i < |pcm| - len then pcm[i] else pcm[i] * FadeOutGain(i - (|pcm| - len), len))
  }

  /** The first `fade` samples ramp up from silence. */
  function FadeIn(pcm: Pcm, fade: nat): (r: Pcm)
    ensures |r| == |pcm|
  {
    var len := Min(fade, |pcm|);
    seq(|pcm|, i requires 0 <= i < |pcm| => if i < len then pcm[i] * FadeInGain(i, len) else pcm[i])
  }

  lemma GainAttenuates(x: real, g: real)
    requires 0.0 <= g <= 1.0
    ensures Abs(x * g) <= Abs(x)
  {
    var y := x * g;
    if x >= 0.0 { assert 0.0 <= y <= x; } else { assert x <= y <= 0.0; }
  }

  /** The ramps are straight: over `len` samples the gain falls to nothing or rises to one in equal steps. */
  lemma FadesAreRamps(pcm: Pcm, fade: nat, i: nat)
    requires i < |pcm|
    ensures var len := Min(fade, |pcm|);
            && (if i < |pcm| - len then FadeOut(pcm, fade)[i] == pcm[i]
                else FadeOut(pcm, fade)[i] * len as real == pcm[i] * (|pcm| - 1 - i) as real)
            && (if i >= len then FadeIn(pcm, fade)[i] == pcm[i]
                else FadeIn(pcm, fade)[i] * len as real == pcm[i] * (i + 1) as real)
  {
    hide FadeOutGain, FadeInGain;
    var len := Min(fade, |pcm|);
    if i >= |pcm| - len {
      GainIsStep(i - (|pcm| - len), len);
      Rescale(pcm[i], FadeOutGain(i - (|pcm| - len), len), len as real, (|pcm| - 1 - i) as real);
    }
    if i < len {
      GainIsStep(i, len);
      Rescale(pcm[i], FadeInGain(i, len), len as real, (i + 1) as real);
    }
  }

  lemma GainIsStep(i: nat, len: nat)
    requires i < len
    ensures FadeOutGain(i, len) * len as real == (len - (i + 1)) as real
    ensures FadeInGain(i, len) * len as real == (i + 1) as real
  {
    var a, b := (i + 1) as real, len as real;
    assert (a / b) * b == a;
    assert (1.0 - a / b) * b == b - a;
  }

  lemma Rescale(x: real, g: real, len: real, step: real)
    requires g * len == step
    ensures (x * g) * len == x * step
  {
    assert (x * g) * len == x * (g * len);
  }

  /** Same samples, quieter or equal, and equal outside the last `fade` of them. */
  ghost predicate FadedTail(a: Pcm, a': Pcm, fade: nat) {
    |a'| == |a| && forall i | 0 <= i < |a| :: Abs(a'[i]) <= Abs(a[i]) && (i + fade < |a| ==> a'[i] == a[i])
  }

  ghost predicate FadedHead(b: Pcm, b': Pcm, fade: nat) {
    |b'| == |b| && forall i | 0 <= i < |b| :: Abs(b'[i]) <= Abs(b[i]) && (fade <= i ==> b'[i] == b[i])
  }

  lemma FadesNeverAmplify(pcm: Pcm, fade: nat)
    ensures FadedTail(pcm, FadeOut(pcm, fade), fade)
    ensures FadedHead(pcm, FadeIn(pcm, fade), fade)
  {
    var len := Min(fade, |pcm|);
    forall i | 0 <= i < |pcm|
      ensures Abs(FadeOut(pcm, fade)[i]) <= Abs(pcm[i]) && Abs(FadeIn(pcm, fade)[i]) <= Abs(pcm[i])
    {
      if i >= |pcm| - len { GainAttenuates(pcm[i], FadeOutGain(i - (|pcm| - len), len)); }
      if i < len { GainAttenuates(pcm[i], FadeInGain(i, len)); }
    }
  }

  // ---------- dropping a frame ----------

  function SumSq(pcm: Pcm): (s: real)
    ensures s >= 0.0
  {
    if pcm == [] then 0.0 else SumSq(pcm[..|pcm| - 1]) + pcm[|pcm| - 1] * pcm[|pcm| - 1]
  }

  /** The sum of squares of a frame is that of its parts; of one sample, its square. */
  lemma {:induction false} SumSqAdds(a: Pcm, b: Pcm)
    ensures SumSq(a + b) == SumSq(a) + SumSq(b) && SumSq([]) == 0.0
    ensures forall x: real :: SumSq([x]) == x * x
  {
    forall x: real ensures SumSq([x]) == x * x { assert [x][..0] == []; }
    if b == [] {
      assert a + b == a;
    } else {
      var front := b[..|b| - 1];
      SumSqAdds(a, front);
      assert (a + b)[..|a + b| - 1] == a + front;
    }
  }

  /** A frame is quiet when the mean of its squares lies below the square of the level; an empty one counts as
      silence, and no frame is quieter than nothing. */
  lemma QuietIff(pcm: Pcm, level: real)
    ensures QuieterThan(pcm, level) <==>
            level > 0.0 && (pcm != [] ==> SumSq(pcm) / |pcm| as real < level * level)
  {
    if pcm != [] && level > 0.0 {
      var s, n := SumSq(pcm), |pcm| as real;
      var mean := s / n;
      assert mean * n == s;
      if mean < level * level { TimesPositive(mean, level * level, n); }
      if mean > level * level { TimesPositive(level * level, mean, n); }
    }
  }

  lemma TimesPositive(x: real, y: real, n: real)
    requires x < y && n > 0.0
    ensures x * n < y * n
  {
    assert (y - x) * n > 0.0;
  }

  /** Root mean square below `level`, with the square root multiplied out; an empty frame has level 0. */
  predicate QuieterThan(pcm: Pcm, level: real) {
    level > 0.0 && (pcm == [] || SumSq(pcm) < level * level * (|pcm| as real))
  }

  /** Frames after frame `k` is taken out: its neighbours are faded towards the gap. */
  function DropFrame(frames: seq<Pcm>, k: nat, fade: nat): seq<Pcm>
    requires k < |frames|
  {
    var before := if k == 0 then [] else frames[..k - 1] + [FadeOut(frames[k - 1], fade)];
    var after := if k + 1 == |frames| then [] else [FadeIn(frames[k + 1], fade)] + frames[k + 2..];
    before + after
  }

  /** Frame by frame: only the neighbours of the one taken out are touched. */
  lemma DropFrameIs(frames: seq<Pcm>, k: nat, fade: nat)
    requires k < |frames|
    ensures var frames' := DropFrame(frames, k, fade);
      && |frames'| == |frames| - 1
      && (forall j | 0 <= j < k - 1 :: frames'[j] == frames[j])
      && (k > 0 ==> frames'[k - 1] == FadeOut(frames[k - 1], fade))
      && (k < |frames'| ==> frames'[k] == FadeIn(frames[k + 1], fade))
      && (forall j | k < j < |frames'| :: frames'[j] == frames[j + 1])
  {
  }

  /** How many unplayed samples frame `k` holds. */
  function FrameRest(frames: seq<Pcm>, headOff: nat, k: nat): nat
    requires k < |frames| && HeadOk(frames, headOff)
  {
    if k == 0 then |frames[0]| - headOff else |frames[k]|
  }

  function HeadAfterDrop(headOff: nat, k: nat): nat { if k == 0 then 0 else headOff }

  /** Only the head of a sequence of frames is faded in. */
  lemma FadeInFirst(rest: seq<Pcm>, fade: nat)
    requires rest != []
    ensures FadedHead(Concat(rest), Concat([FadeIn(rest[0], fade)] + rest[1..]), fade)
  {
    FadesNeverAmplify(rest[0], fade);
    assert ([FadeIn(rest[0], fade)] + rest[1..])[1..] == rest[1..];
  }

  /** Only the tail of a sequence of frames is faded out, played part included. */
  lemma FadeOutLast(front: seq<Pcm>, last: Pcm, headOff: nat, fade: nat)
    requires HeadOk(front + [last], headOff)
    ensures headOff <= |Concat(front + [last])| == |Concat(front + [FadeOut(last, fade)])|
    ensures FadedTail(Flat(front + [last], headOff), Flat(front + [FadeOut(last, fade)], headOff), fade)
  {
    HeadInConcat(front + [last], headOff);
    FadesNeverAmplify(last, fade);
    ConcatAppend(front, [last]);
    ConcatAppend(front, [FadeOut(last, fade)]);
    ConcatOne(last);
    ConcatOne(FadeOut(last, fade));
    var x, y := Concat(front) + last, Concat(front) + FadeOut(last, fade);
    forall i | 0 <= i < |x| ensures Abs(y[i]) <= Abs(x[i]) && (i + fade < |x| ==> y[i] == x[i]) {
      if i >= |Concat(front)| { assert x[i] == last[i - |Concat(front)|]; }
    }
  }

  /** Taking a frame out of the buffer takes one block of samples out of the sequence; what stays keeps its
      order and is only faded, downwards, next to the gap. */
  lemma DropIsCut(frames: seq<Pcm>, headOff: nat, k: nat, fade: nat) returns (a: Pcm, d: Pcm, b: Pcm, a': Pcm, b': Pcm)
    requires HeadOk(frames, headOff) && k < |frames|
    ensures var frames', headOff' := DropFrame(frames, k, fade), HeadAfterDrop(headOff, k);
      && HeadOk(frames', headOff')
      && headOff <= |Concat(frames)| && headOff' <= |Concat(frames')|
      && Flat(frames, headOff) == a + d + b
      && Flat(frames', headOff') == a' + b'
      && |d| == FrameRest(frames, headOff, k)
      && FadedTail(a, a', fade) && FadedHead(b, b', fade)
  {
    HeadInConcat(frames, headOff);
    var rest := frames[k + 1..];
    b := Concat(rest);
    var after := if rest == [] then [] else [FadeIn(rest[0], fade)] + rest[1..];
    b' := Concat(after);
    if rest != [] { FadeInFirst(rest, fade); assert rest[1..] == frames[k + 2..]; }
    if k == 0 {
      a, a', d := [], [], frames[0][headOff..];
      assert DropFrame(frames, k, fade) == after;
      assert Flat(frames, headOff) == a + d + b;
      assert Flat(after, 0) == a' + b';
    } else {
      a, d, a' := DropLaterFrame(frames, headOff, k, fade, rest, after);
    }
  }

  lemma FlatAppend(a: seq<Pcm>, b: seq<Pcm>, headOff: nat)
    requires headOff <= |Concat(a)|
    ensures headOff <= |Concat(a + b)| && Flat(a + b, headOff) == Flat(a, headOff) + Concat(b)
  {
    ConcatAppend(a, b);
  }

  lemma DropFrameParts(frames: seq<Pcm>, k: nat, fade: nat)
    requires 0 < k < |frames|
    ensures frames == (frames[..k - 1] + [frames[k - 1]]) + ([frames[k]] + frames[k + 1..])
    ensures DropFrame(frames, k, fade) ==
      (frames[..k - 1] + [FadeOut(frames[k - 1], fade)]) +
      (if k + 1 == |frames| then [] else [FadeIn(frames[k + 1..][0], fade)] + frames[k + 1..][1..])
  {
  }

  lemma DropLaterFrame(frames: seq<Pcm>, headOff: nat, k: nat, fade: nat, rest: seq<Pcm>, after: seq<Pcm>)
    returns (a: Pcm, d: Pcm, a': Pcm)
    requires HeadOk(frames, headOff) && 0 < k < |frames| && rest == frames[k + 1..]
    requires after == if rest == [] then [] else [FadeIn(rest[0], fade)] + rest[1..]
    ensures var frames' := DropFrame(frames, k, fade);
      && HeadOk(frames', headOff)
      && headOff <= |Concat(frames)| && headOff <= |Concat(frames')|
      && Flat(frames, headOff) == a + d + Concat(rest)
      && Flat(frames', headOff) == a' + Concat(after)
      && d == frames[k]
      && FadedTail(a, a', fade)
  {
    DropFrameParts(frames, k, fade);
    var front, last := frames[..k - 1], frames[k - 1];
    var upTo, before := front + [last], front + [FadeOut(last, fade)];
    assert upTo[0] == frames[0];
    FadeOutLast(front, last, headOff, fade);
    d := frames[k];
    a := Flat(upTo, headOff);
    a' := Flat(before, headOff);
    FlatAppend(upTo, [d] + rest, headOff);
    FlatAppend(before, after, headOff);
    assert Concat([d] + rest) == d + Concat(rest) by { assert ([d] + rest)[1..] == rest; }
    assert a + (d + Concat(rest)) == a + d + Concat(rest);
  }

  // ---------- what survives ----------

  /** `t` is what is left of `s` when samples are removed and the others made no louder: `at` says which. */
  ghost predicate ThinnedBy(s: Pcm, t: Pcm, at: seq<nat>) {
    && |at| == |t|
    && (forall i {:trigger at[i]} | 0 <= i < |at| :: at[i] < |s| && Abs(t[i]) <= Abs(s[at[i]]))
    && (forall i, j | 0 <= i < j < |at| :: at[i] < at[j])
  }

  ghost predicate Thinned(s: Pcm, t: Pcm) { exists at: seq<nat> :: ThinnedBy(s, t, at) }

  lemma ThinnedRefl(s: Pcm)
    ensures Thinned(s, s)
  {
    assert ThinnedBy(s, s, seq(|s|, i => i));
  }

  lemma ThinnedTrans(s: Pcm, t: Pcm, u: Pcm)
    requires Thinned(s, t) && Thinned(t, u)
    ensures Thinned(s, u)
  {
    var p: seq<nat> :| ThinnedBy(s, t, p);
    var q: seq<nat> :| ThinnedBy(t, u, q);
    assert ThinnedBy(s, u, seq(|q|, i requires 0 <= i < |q| => p[q[i]]));
  }

  lemma CutIsThinned(a: Pcm, d: Pcm, b: Pcm, a': Pcm, b': Pcm, fade: nat)
    requires FadedTail(a, a', fade) && FadedHead(b, b', fade)
    ensures Thinned(a + d + b, a' + b')
  {
    var at := seq(|a| + |b|, i requires 0 <= i < |a| + |b| => if i < |a| then i else i + |d|);
    assert ThinnedBy(a + d + b, a' + b', at);
  }

  // ---------- time ----------

  /** Whole milliseconds in `samples`. */
  function SamplesToMs(samples: nat, rate: nat): nat
    requires rate > 0
  {
    samples * 1000 / rate
  }

  /** The milliseconds are complete, and one more is not. */
  lemma MsBracket(samples: nat, rate: nat)
    requires rate > 0
    ensures var ms := SamplesToMs(samples, rate); ms * rate <= samples * 1000 < (ms + 1) * rate
  {
    var ms := SamplesToMs(samples, rate);
    assert samples * 1000 == ms * rate + samples * 1000 % rate;
    assert (ms + 1) * rate == ms * rate + rate;
  }

  /** Comparing milliseconds is comparing samples. */
  lemma MsBelowIff(samples: nat, rate: nat, ms: int)
    requires rate > 0
    ensures SamplesToMs(samples, rate) < ms <==> samples * 1000 < ms * rate
  {
    MsBracket(samples, rate);
    var x := SamplesToMs(samples, rate);
    if x < ms { MulOrder(x + 1, ms, rate); } else { MulOrder(ms, x, rate); }
  }

  lemma MulOrder(x: int, y: int, rate: int)
    requires x <= y && rate > 0
    ensures x * rate <= y * rate
  {
    assert (y - x) * rate >= 0;
  }

  /** Milliseconds counted drop by drop, each rounded down. */
  function MsSum(sizes: seq<nat>, rate: nat): nat
    requires rate > 0
  {
    if sizes == [] then 0 else MsSum(sizes[..|sizes| - 1], rate) + SamplesToMs(sizes[|sizes| - 1], rate)
  }

  function Sum(sizes: seq<nat>): nat {
    if sizes == [] then 0 else Sum(sizes[..|sizes| - 1]) + sizes[|sizes| - 1]
  }

  lemma SumsAppend(sizes: seq<nat>, n: nat, rate: nat)
    requires rate > 0
    ensures MsSum(sizes + [n], rate) == MsSum(sizes, rate) + SamplesToMs(n, rate)
    ensures Sum(sizes + [n]) == Sum(sizes) + n
  {
    assert (sizes + [n])[..|sizes|] == sizes;
  }

  /** The drop counters never claim more than was dropped, and less than a millisecond too little for each drop. */
  lemma {:induction false} CountersAreHonest(sizes: seq<nat>, rate: nat)
    requires rate > 0
    ensures MsSum(sizes, rate) * rate <= Sum(sizes) * 1000
    ensures Sum(sizes) * 1000 <= (MsSum(sizes, rate) + |sizes|) * rate
    ensures sizes != [] ==> Sum(sizes) * 1000 < (MsSum(sizes, rate) + |sizes|) * rate
  {
    hide SamplesToMs;
    if sizes != [] {
      var front, last := sizes[..|sizes| - 1], sizes[|sizes| - 1];
      CountersAreHonest(front, rate);
      var ms := SamplesToMs(last, rate);
      MsBracket(last, rate);
      CountOne(MsSum(front, rate), |front|, Sum(front), ms, last, rate);
    }
  }

  lemma CountOne(total: nat, count: nat, sum: nat, ms: nat, n: nat, rate: nat)
    requires total * rate <= sum * 1000 <= (total + count) * rate
    requires ms * rate <= n * 1000 < (ms + 1) * rate
    ensures (total + ms) * rate <= (sum + n) * 1000 < (total + ms + (count + 1)) * rate
  {
    assert (total + ms) * rate == total * rate + ms * rate;
    assert (total + ms + (count + 1)) * rate == (total + count) * rate + (ms + 1) * rate;
  }
}
