/** Checking a destroy proof: three wrong proofs, then an hour without comparing any. */
module AttemptLimiter {
  import opened Bytes

  const ATTEMPT_LIMIT := 3
  const COOLOFF := 3600

  datatype Guard = Guard(isSet: bool, sibling: Bytes, verifier: Bytes)

  datatype Attempts = Attempts(failures: nat, blockedUntil: int, unseen: nat, lastAt: int)

  datatype Outcome = Dropped | Wrong | Right

  /** A check, with the clock reading it was made with and the time it held the lock; and a drain of the notices. */
  datatype Event = Check(now: int, lockedAt: int, proof: Bytes, sender: Bytes) | Drain

  /** The guard's own peer asks: anything else is dropped without a trace. */
  predicate Answers(g: Guard, sender: Bytes) { g.isSet && sender == g.sibling }

  predicate Matches(g: Guard, hash: Bytes -> Bytes, proof: Bytes) { proof != [] && hash(proof) == g.verifier }

  predicate Blocked(a: Attempts, now: int) { a.blockedUntil > now }

  /** The proof is looked at. */
  predicate Compares(g: Guard, a: Attempts, ev: Event) { ev.Check? && Answers(g, ev.sender) && !Blocked(a, ev.now) }

  function Refused(a: Attempts, now: int): Attempts { a.(unseen := a.unseen + 1, lastAt := now) }

  /** A wrong proof counts, and the third starts the cool-off. */
  function Counted(a: Attempts, now: int): Attempts {
    if a.failures + 1 >= ATTEMPT_LIMIT then Refused(a, now).(failures := 0, blockedUntil := now + COOLOFF)
    else Refused(a, now).(failures := a.failures + 1)
  }

  function Checked(g: Guard, hash: Bytes -> Bytes, a: Attempts, now: int, proof: Bytes, sender: Bytes)
    : (Attempts, Outcome)
  {
    if !Answers(g, sender) then (a, Dropped)
    else if Blocked(a, now) then (Refused(a, now), Wrong)
    else if !Matches(g, hash, proof) then
      (Counted(a, now), Wrong)
    else (a.(failures := 0, blockedUntil := 0), Right)
  }

  /** Who is answered and how: only the guard's own peer is, a proof is right when it hashes to the verifier and no
      cool-off runs, and a right one clears the slate. */
  lemma CheckedIs(g: Guard, hash: Bytes -> Bytes, a: Attempts, now: int, proof: Bytes, sender: Bytes)
    ensures var (a', outcome) := Checked(g, hash, a, now, proof, sender);
            && (outcome == Dropped <==> !g.isSet || sender != g.sibling)
            && (outcome == Right <==> g.isSet && sender == g.sibling && a.blockedUntil <= now &&
                                      proof != [] && hash(proof) == g.verifier)
            && (outcome == Dropped ==> a' == a)
            && (outcome == Right ==> a' == Attempts(0, 0, a.unseen, a.lastAt))
            && (outcome == Wrong && a.blockedUntil > now ==> a' == a.(unseen := a.unseen + 1, lastAt := now))
            && (outcome == Wrong && a.blockedUntil <= now ==>
                  a' == if a.failures < 2
                        then Attempts(a.failures + 1, a.blockedUntil, a.unseen + 1, now)
                        else Attempts(0, now + 3600, a.unseen + 1, now))
  {
  }

  function Drained(a: Attempts): Attempts { if a.unseen == 0 then a else a.(unseen := 0, lastAt := 0) }

  function After(g: Guard, hash: Bytes -> Bytes, a: Attempts, ev: Event): Attempts {
    match ev
    case Check(now, _, proof, sender) => Checked(g, hash, a, now, proof, sender).0
    case Drain => Drained(a)
  }

  // ---------- runs ----------

  function Final(g: Guard, hash: Bytes -> Bytes, a: Attempts, evs: seq<Event>): Attempts {
    if evs == [] then a else After(g, hash, Final(g, hash, a, evs[..|evs| - 1]), evs[|evs| - 1])
  }

  /** The checks whose proofs were compared and found wrong. */
  function WrongOnes(g: Guard, hash: Bytes -> Bytes, a: Attempts, evs: seq<Event>): (es: seq<Event>)
    ensures forall e | e in es :: e.Check?
  {
    if evs == [] then []
    else
      var front, ev := evs[..|evs| - 1], evs[|evs| - 1];
      WrongOnes(g, hash, a, front) +
      if Compares(g, Final(g, hash, a, front), ev) && !Matches(g, hash, ev.proof) then [ev] else []
  }

  /** How many checks were refused, and how many notices were drained. */
  function Refusals(g: Guard, hash: Bytes -> Bytes, a: Attempts, evs: seq<Event>): nat {
    if evs == [] then 0
    else
      var front, ev := evs[..|evs| - 1], evs[|evs| - 1];
      Refusals(g, hash, a, front) +
      if ev.Check? && Checked(g, hash, Final(g, hash, a, front), ev.now, ev.proof, ev.sender).1 == Wrong then 1 else 0
  }

  function DrainedCount(g: Guard, hash: Bytes -> Bytes, a: Attempts, evs: seq<Event>): nat {
    if evs == [] then 0
    else
      var front, ev := evs[..|evs| - 1], evs[|evs| - 1];
      DrainedCount(g, hash, a, front) + if ev.Drain? then Final(g, hash, a, front).unseen else 0
  }

  /** Locks are held one after the other, and no clock reading is older than slack when its lock is held. */
  ghost predicate ClockOk(evs: seq<Event>, slack: nat) {
    && (forall e | e in evs && e.Check? :: e.now <= e.lockedAt <= e.now + slack)
    && (forall i, j | 0 <= i < j < |evs| && evs[i].Check? && evs[j].Check? :: evs[i].lockedAt <= evs[j].lockedAt)
  }

  /** No right proof comes from the guard's own peer. */
  predicate NoneRight(g: Guard, hash: Bytes -> Bytes, evs: seq<Event>) {
    forall ev | ev in evs && ev.Check? && Answers(g, ev.sender) :: !Matches(g, hash, ev.proof)
  }

  predicate AttemptsOk(a: Attempts) { a.failures < ATTEMPT_LIMIT }

  // ---------- what the limiter promises ----------

  /** While it cools off the answer does not depend on the proof: blocked attempts are never compared. */
  lemma BlockedIsBlind(g: Guard, hash: Bytes -> Bytes, hash': Bytes -> Bytes, a: Attempts, now: int, proof: Bytes,
                       proof': Bytes, sender: Bytes)
    requires Blocked(a, now)
    ensures Checked(g, hash, a, now, proof, sender) == Checked(g, hash', a, now, proof', sender)
    ensures Checked(g, hash, a, now, proof, sender).1 != Right
    ensures Checked(g, hash, a, now, proof, sender).0 == a.(unseen := Checked(g, hash, a, now, proof, sender).0.unseen,
                                                            lastAt := Checked(g, hash, a, now, proof, sender).0.lastAt)
  {
  }

  /** How far the count has come: with f failures to begin with, n wrong proofs leave (f + n) mod 3. From the proof
      that completes the first round on, each full round adds an hour to the readings. */
  predicate Paced(f: nat, es: seq<Event>, a: Attempts)
    requires f < ATTEMPT_LIMIT && forall e | e in es :: e.Check?
  {
    var n := f + |es|;
    && a.failures == n % 3
    && (n >= 3 ==> PacedTo(es[2 - f].now, n / 3, a.blockedUntil))
    && (n >= 4 ==> PacedTo(es[2 - f].now, (n - 1) / 3, es[|es| - 1].now))
  }

  predicate PacedTo(first: int, rounds: nat, t: int) { first + COOLOFF * rounds <= t }

  lemma Thirds(n: nat)
    ensures (n + 1) % 3 == if n % 3 == 2 then 0 else n % 3 + 1
    ensures (n + 1) / 3 == n / 3 + if n % 3 == 2 then 1 else 0
    ensures n >= 3 ==> n / 3 >= 1
    ensures n < 3 ==> n % 3 == n
  {
  }

  lemma PacedStep(f: nat, es: seq<Event>, a: Attempts, ev: Event)
    requires f < ATTEMPT_LIMIT && ev.Check? && forall e | e in es :: e.Check?
    requires Paced(f, es, a) && !Blocked(a, ev.now)
    ensures Paced(f, es + [ev], Counted(a, ev.now))
  {
    var n, es' := f + |es|, es + [ev];
    Thirds(n);
    assert es'[|es'| - 1] == ev && f + |es'| == n + 1;
    if n >= 3 { assert es'[2 - f] == es[2 - f]; }
  }

  /** One more event: a wrong proof is counted, and everything else leaves the pace as it is. */
  lemma EventPaced(g: Guard, hash: Bytes -> Bytes, f: nat, es: seq<Event>, a: Attempts, ev: Event)
    requires f < ATTEMPT_LIMIT && (forall e | e in es :: e.Check?) && Paced(f, es, a)
    requires ev.Check? && Answers(g, ev.sender) ==> !Matches(g, hash, ev.proof)
    ensures Paced(f, if Compares(g, a, ev) then es + [ev] else es, After(g, hash, a, ev))
  {
    if Compares(g, a, ev) { PacedStep(f, es, a, ev); }
  }

  lemma OneMoreEvent(g: Guard, hash: Bytes -> Bytes, a: Attempts, front: seq<Event>, ev: Event)
    requires ev.Check? && Answers(g, ev.sender) ==> !Matches(g, hash, ev.proof)
    ensures Final(g, hash, a, front + [ev]) == After(g, hash, Final(g, hash, a, front), ev)
    ensures WrongOnes(g, hash, a, front + [ev]) ==
            if Compares(g, Final(g, hash, a, front), ev) then WrongOnes(g, hash, a, front) + [ev]
            else WrongOnes(g, hash, a, front)
  {
    hide After, Matches;
    assert (front + [ev])[..|front|] == front;
  }

  lemma FrontRight(g: Guard, hash: Bytes -> Bytes, front: seq<Event>, ev: Event)
    requires NoneRight(g, hash, front + [ev])
    ensures NoneRight(g, hash, front) && (ev.Check? && Answers(g, ev.sender) ==> !Matches(g, hash, ev.proof))
  {
    hide Answers, Matches;
    assert ev in front + [ev];
    assert forall e | e in front :: e in front + [ev];
  }

  lemma {:induction false} RunIsPaced(g: Guard, hash: Bytes -> Bytes, a: Attempts, evs: seq<Event>)
    requires AttemptsOk(a) && NoneRight(g, hash, evs)
    ensures Paced(a.failures, WrongOnes(g, hash, a, evs), Final(g, hash, a, evs))
  {
    if evs != [] {
      hide Paced, After, Matches, Answers, WrongOnes, Final, Compares, NoneRight;
      var front, ev := evs[..|evs| - 1], evs[|evs| - 1];
      assert evs == front + [ev];
      FrontRight(g, hash, front, ev);
      RunIsPaced(g, hash, a, front);
      OneMoreEvent(g, hash, a, front, ev);
      EventPaced(g, hash, a.failures, WrongOnes(g, hash, a, front), Final(g, hash, a, front), ev);
    }
  }

  /** Whatever the clocks do and however checks interleave: n proofs compared and found wrong, the first round
      complete with the one of index j, put the last reading an hour for each later full round after that of j. */
  lemma RoundsTakeTime(g: Guard, hash: Bytes -> Bytes, a: Attempts, evs: seq<Event>)
    requires AttemptsOk(a) && NoneRight(g, hash, evs) && a.failures + |WrongOnes(g, hash, a, evs)| >= 4
    ensures var es := WrongOnes(g, hash, a, evs); var j := 2 - a.failures;
            es[|es| - 1].now - es[j].now >= COOLOFF * ((a.failures + |es| - 1) / 3)
  {
    hide WrongOnes, Final, NoneRight;
    RunIsPaced(g, hash, a, evs);
  }

  /** What is compared comes in lock order, with readings as fresh as all are. */
  lemma {:induction false} WrongClock(g: Guard, hash: Bytes -> Bytes, a: Attempts, evs: seq<Event>, slack: nat)
    requires ClockOk(evs, slack)
    ensures ClockOk(WrongOnes(g, hash, a, evs), slack) && forall e | e in WrongOnes(g, hash, a, evs) :: e in evs
  {
    if evs != [] {
      hide Final, Matches, Compares;
      var front, ev := evs[..|evs| - 1], evs[|evs| - 1];
      assert evs == front + [ev];
      FrontClock(front, ev, slack);
      WrongClock(g, hash, a, front, slack);
      var es := WrongOnes(g, hash, a, front);
      if ev.Check? { ClockOn(es, ev, slack); }
      CompareIsCheck(g, Final(g, hash, a, front), ev);
    }
  }

  lemma FrontClock(front: seq<Event>, ev: Event, slack: nat)
    requires ClockOk(front + [ev], slack)
    ensures ClockOk(front, slack)
    ensures ev.Check? ==>
            ev.now <= ev.lockedAt <= ev.now + slack && forall e | e in front && e.Check? :: e.lockedAt <= ev.lockedAt
  {
    var evs := front + [ev];
    assert ev in evs && forall e | e in front :: e in evs;
    assert forall i | 0 <= i < |front| :: front[i] == evs[i];
    assert evs[|front|] == ev;
  }

  lemma ClockOn(es: seq<Event>, ev: Event, slack: nat)
    requires ClockOk(es, slack) && ev.Check? && ev.now <= ev.lockedAt <= ev.now + slack
    requires forall e | e in es && e.Check? :: e.lockedAt <= ev.lockedAt
    ensures ClockOk(es + [ev], slack)
  {
    var es' := es + [ev];
    forall i, j | 0 <= i < j < |es'| && es'[i].Check? && es'[j].Check? ensures es'[i].lockedAt <= es'[j].lockedAt {
      assert es'[i] == es[i] && es[i] in es;
    }
  }

  lemma CompareIsCheck(g: Guard, a: Attempts, ev: Event)
    ensures Compares(g, a, ev) ==> ev.Check?
  {
  }

  lemma ReadingsNear(es: seq<Event>, slack: nat, i: nat, j: nat)
    requires ClockOk(es, slack) && i <= j < |es| && es[i].Check? && es[j].Check?
    ensures es[j].now >= es[i].now - slack
  {
    assert es[i] in es && es[j] in es;
  }

  /** However checks, blocked checks, strangers and drains are mixed, n proofs compared and found wrong take at least
      an hour for each three before the last, less what a clock reading can age before its lock is held. */
  lemma WrongProofsTakeTime(g: Guard, hash: Bytes -> Bytes, a: Attempts, evs: seq<Event>, slack: nat)
    requires AttemptsOk(a) && NoneRight(g, hash, evs) && ClockOk(evs, slack) && WrongOnes(g, hash, a, evs) != []
    ensures var es := WrongOnes(g, hash, a, evs);
            es[|es| - 1].now - es[0].now >= COOLOFF * ((|es| - 1) / 3) - slack
  {
    hide ClockOk, NoneRight, WrongOnes, Final;
    var es, f := WrongOnes(g, hash, a, evs), a.failures;
    WrongClock(g, hash, a, evs, slack);
    assert es[0] in es && es[|es| - 1] in es;
    if f + |es| >= 4 {
      RoundsTakeTime(g, hash, a, evs);
      assert es[2 - f] in es;
      ReadingsNear(es, slack, 0, 2 - f);
      MoreRounds(f, |es| - 1);
    } else {
      ReadingsNear(es, slack, 0, |es| - 1);
    }
  }

  lemma MoreRounds(f: nat, n: nat)
    ensures n / 3 <= (f + n) / 3
  {
  }

  /** The allowance is needed in full: a reading made before another check's lock starts the cool-off that much
      early. */
  lemma StaleReadingShortensCooloff(g: Guard, hash: Bytes -> Bytes, proof: Bytes, slack: nat)
    requires g.isSet && !Matches(g, hash, proof) && slack < COOLOFF
    ensures var evs := StaleRun(g, proof, slack);
            var es := WrongOnes(g, hash, Attempts(0, 0, 0, 0), evs);
            ClockOk(evs, slack) && NoneRight(g, hash, evs) && es == evs &&
            es[3].now - es[0].now == COOLOFF - slack
  {
    hide Matches, WrongOnes, Final;
    var evs := StaleRun(g, proof, slack);
    var a0 := Attempts(0, 0, 0, 0);
    var a1 := Counted(a0, evs[0].now);
    var a2 := Counted(a1, evs[1].now);
    var a3 := Counted(a2, evs[2].now);
    assert evs[..0] == [] && evs[..1] == evs[..0] + [evs[0]] && evs[..2] == evs[..1] + [evs[1]];
    assert evs[..3] == evs[..2] + [evs[2]] && evs == evs[..3] + [evs[3]];
    Nothing(g, hash, a0);
    OneWrong(g, hash, a0, evs[..0], a0, evs[0]);
    OneWrong(g, hash, a0, evs[..1], a1, evs[1]);
    OneWrong(g, hash, a0, evs[..2], a2, evs[2]);
    OneWrong(g, hash, a0, evs[..3], a3, evs[3]);
  }

  lemma Nothing(g: Guard, hash: Bytes -> Bytes, a: Attempts)
    ensures Final(g, hash, a, []) == a && WrongOnes(g, hash, a, []) == []
  {
  }

  /** One more proof that is compared and wrong. */
  lemma OneWrong(g: Guard, hash: Bytes -> Bytes, a: Attempts, front: seq<Event>, mid: Attempts, ev: Event)
    requires Final(g, hash, a, front) == mid && WrongOnes(g, hash, a, front) == front
    requires ev.Check? && Answers(g, ev.sender) && !Matches(g, hash, ev.proof) && !Blocked(mid, ev.now)
    ensures Final(g, hash, a, front + [ev]) == Counted(mid, ev.now) &&
            WrongOnes(g, hash, a, front + [ev]) == front + [ev]
  {
    hide Matches, WrongOnes, Final;
    OneMoreEvent(g, hash, a, front, ev);
  }

  function StaleRun(g: Guard, proof: Bytes, slack: nat): seq<Event> {
    var late := Check(COOLOFF + slack, COOLOFF + slack, proof, g.sibling);
    var stale := Check(COOLOFF, COOLOFF + slack, proof, g.sibling);
    [late, stale, stale, Check(2 * COOLOFF, 2 * COOLOFF, proof, g.sibling)]
  }

  /** Each refusal is noticed once: the notices drained and those still waiting are the refusals. */
  lemma {:induction false} EveryRefusalNoticed(g: Guard, hash: Bytes -> Bytes, a: Attempts, evs: seq<Event>)
    ensures DrainedCount(g, hash, a, evs) + Final(g, hash, a, evs).unseen == a.unseen + Refusals(g, hash, a, evs)
  {
    if evs != [] { EveryRefusalNoticed(g, hash, a, evs[..|evs| - 1]); }
  }

  // ---------- the store's side ----------

  class AttemptStore {
    const hash: Bytes -> Bytes
    var guard: Guard
    var att: Attempts

    constructor (hash: Bytes -> Bytes, guard: Guard)
      ensures this.hash == hash && this.guard == guard && att == Attempts(0, 0, 0, 0)
    {
      this.hash, this.guard, att := hash, guard, Attempts(0, 0, 0, 0);
    }

    /** One check, inside the store's lock. */
    method CheckDestroyProof(now: int, proof: Bytes, sender: Bytes) returns (outcome: Outcome, refused: bool)
      modifies this`att
      ensures (att, outcome) == Checked(guard, hash, old(att), now, proof, sender)
      ensures outcome == Dropped <==> !guard.isSet || sender != guard.sibling
      ensures outcome == Right <==>
        && guard.isSet && sender == guard.sibling && old(att).blockedUntil <= now
        && proof != [] && hash(proof) == guard.verifier
      ensures refused == (outcome == Wrong)
    {
      if !guard.isSet {
        return Dropped, false;
      }
      if sender != guard.sibling {
        return Dropped, false;
      }
      if att.blockedUntil > now {
        att := att.(unseen := att.unseen + 1);
        att := att.(lastAt := now);
        return Wrong, true;
      }
      var ok := false;
      if |proof| > 0 {
        ok := hash(proof) == guard.verifier;
      }
      if !ok {
        att := att.(failures := att.failures + 1);
        att := att.(unseen := att.unseen + 1);
        att := att.(lastAt := now);
        if att.failures >= ATTEMPT_LIMIT {
          att := att.(failures := 0);
          att := att.(blockedUntil := now + COOLOFF);
        }
        return Wrong, true;
      }
      if att.failures != 0 || att.blockedUntil != 0 {
        att := Attempts(0, 0, att.unseen, att.lastAt);
      }
      return Right, false;
    }

    method DrainNotices() returns (count: nat, lastAt: int)
      modifies this`att
      ensures att == Drained(old(att)) && count == old(att).unseen
      ensures att == if count == 0 then old(att) else old(att).(unseen := 0, lastAt := 0)
      ensures lastAt == if count == 0 then 0 else old(att).lastAt
    {
      if att.unseen == 0 {
        return 0, 0;
      }
      count, lastAt := att.unseen, att.lastAt;
      att := att.(unseen := 0, lastAt := 0);
    }
  }
}
