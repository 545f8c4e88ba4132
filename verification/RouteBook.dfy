/** Automatic circuit renewal: what the route book keeps for each peer and how its lock regions change it. */
module RouteModel {
  import opened Bytes

  type PeerId = Bytes
  type Host = Bytes

  // Times and durations are whole seconds; the zero time is None.
  const RENEW_WINDOW := 180
  const RENEW_JITTER := 90
  const RENEW_DELAY := 30
  const WARM_FOR := 600
  const INBOUND_PROOF := 600

  /** A request's tag names its peer, the run of the daemon and the peer's generation when it was made. */
  datatype Tag = Tag(peer: PeerId, boot: Bytes, gen: nat)

  datatype RouteState = RouteState(
    gen: nat,
    answeredAt: map<Tag, int>,
    inboundAt: Option<int>,
    firstAnsweredAt: map<Tag, int>,
    nextRenewAt: Option<int>,
    decidedAt: Option<int>,
    deciding: bool,
    failures: nat,
    renewals: nat)

  const NEW_STATE := RouteState(0, map[], None, map[], None, None, false, 0, 0)

  datatype Why =
    | Renewed | NoPeer | NotPeerAddress | OldTag | AnsweredMeantime | CallActive | InWindow | Busy | OwnSideRed
    | Stopped | MovedOn | Pass

  predicate HasAddress(addrs: seq<Host>, a: Host) { a != [] && a in addrs }

  predicate AnsweredSince(s: RouteState, tag: Tag, started: int) {
    tag in s.answeredAt && s.answeredAt[tag] > started
  }

  function FailedWhy(s: RouteState, current: bool, tag: Tag, started: int): Why {
    if !current then OldTag else if AnsweredSince(s, tag, started) then AnsweredMeantime else Pass
  }

  function BeginWhy(s: RouteState, now: int): Why {
    if s.deciding then Busy
    else if s.nextRenewAt.Some? && now < s.nextRenewAt.value then InWindow
    else Pass
  }

  predicate InboundSince(s: RouteState, since: int) { s.inboundAt.Some? && s.inboundAt.value > since }

  function Answered(s: RouteState, tag: Tag, at: int): RouteState {
    s.(answeredAt := s.answeredAt[tag := at],
       firstAnsweredAt := if tag in s.firstAnsweredAt then s.firstAnsweredAt else s.firstAnsweredAt[tag := at],
       failures := 0, renewals := 0)
  }

  function Begun(s: RouteState, now: int): RouteState { s.(deciding := true, decidedAt := Some(now)) }

  function Released(s: RouteState): RouteState { s.(deciding := false) }

  function RenewedState(s: RouteState, now: int, jitter: nat): RouteState {
    s.(deciding := false, gen := s.gen + 1, renewals := s.renewals + 1,
       nextRenewAt := Some(now + RENEW_WINDOW + jitter), answeredAt := map[], firstAnsweredAt := map[])
  }

  /** A renewal by hand only ever moves the window later. */
  function Armed(s: RouteState, now: int, jitter: nat): RouteState {
    var next := now + RENEW_WINDOW + jitter;
    if s.nextRenewAt.None? || next > s.nextRenewAt.value then s.(nextRenewAt := Some(next)) else s
  }

  /** Another peer's decision began less than the delay ago. */
  ghost predicate Burst(peers: map<PeerId, RouteState>, id: PeerId, now: int) {
    exists o :: OtherDecided(peers, id, o, now)
  }

  lemma BurstIff(peers: map<PeerId, RouteState>, id: PeerId, now: int)
    ensures Burst(peers, id, now) <==>
            exists o :: o in peers && o != id && peers[o].decidedAt.Some? && now < peers[o].decidedAt.value + 30
  {
    if o :| o in peers && o != id && peers[o].decidedAt.Some? && now < peers[o].decidedAt.value + 30 {
      assert OtherDecided(peers, id, o, now);
    }
  }

  predicate OtherDecided(peers: map<PeerId, RouteState>, id: PeerId, o: PeerId, now: int) {
    o in peers && o != id && peers[o].decidedAt.Some? && now - peers[o].decidedAt.value < RENEW_DELAY
  }
}

module RouteBook {
  import opened Bytes
  import opened RouteModel

  /** Everything the caller and the surroundings contribute to one decision: clock readings, calls, the sleep and
      the probe. */
  datatype Surroundings = Surroundings(
    known: Option<seq<Host>>,
    call: bool, beginAt: int, weighAt: int, slept: bool, proveAt: int, probeOk: bool, callAgain: bool,
    renewAt: int, jitter: nat)

  /** When a decision that nobody interrupts renews: every gate has to be open. */
  ghost predicate Renews(s: RouteState, current: bool, burst: bool, tag: Tag, host: Host, started: int, moved: bool,
                         e: Surroundings)
  {
    Decides(s, current, tag, host, started, e) && GatesOpen(s, current, burst, tag, started, moved, e)
  }

  /** The gates before the mark is taken. */
  predicate Decides(s: RouteState, current: bool, tag: Tag, host: Host, started: int, e: Surroundings) {
    && e.known.Some? && HasAddress(e.known.value, host)
    && current && !AnsweredSince(s, tag, started)
    && !e.call && BeginWhy(s, e.beginAt) == Pass
  }

  predicate GatesOpen(s: RouteState, current: bool, burst: bool, tag: Tag, started: int, moved: bool, e: Surroundings) {
    && (!moved ==> !burst && InboundSince(s, e.weighAt - INBOUND_PROOF))
    && (burst ==> e.slept)
    && (InboundSince(s, e.proveAt - INBOUND_PROOF) || e.probeOk)
    && (moved ==> current && !AnsweredSince(s, tag, started) && !e.callAgain)
  }

  class RouteBook {
    const boot: Bytes
    var peers: map<PeerId, RouteState>
    var gone: set<PeerId>
    var manual: set<PeerId>

    constructor (boot: Bytes)
      ensures this.boot == boot && peers == map[] && gone == {} && manual == {}
    {
      this.boot, peers, gone, manual := boot, map[], {}, {};
    }

    /** A forgotten peer, like one never seen, has the initial state. */
    function StateOf(id: PeerId): (s: RouteState)
      reads this`peers, this`gone
      ensures id in gone || id !in peers ==> s == RouteState(0, map[], None, map[], None, None, false, 0, 0)
      ensures id !in gone && id in peers ==> s == peers[id]
    {
      if id in gone || id !in peers then NEW_STATE else peers[id]
    }

    predicate Current(id: PeerId, tag: Tag)
      reads this`peers, this`gone
    {
      tag == Tag(id, boot, StateOf(id).gen)
    }

    /** Writes a peer's state; for a forgotten peer the write is lost. */
    method Put(id: PeerId, s: RouteState)
      modifies this`peers
      ensures peers == if id in gone then old(peers) else old(peers)[id := s]
      ensures StateOf(id) == if id in gone then NEW_STATE else s
    {
      if id !in gone {
        peers := peers[id := s];
      }
    }

    method Tagged(id: PeerId) returns (tag: Tag)
      ensures tag == Tag(id, boot, if id in peers then peers[id].gen else 0)
      ensures id !in gone ==> Current(id, tag)
    {
      var gen := 0;
      if id in peers {
        gen := peers[id].gen;
      }
      tag := Tag(id, boot, gen);
    }

    method NoteAnswered(id: PeerId, tag: Tag, host: Host, addrs: seq<Host>, at: int)
      modifies this`peers
      ensures !HasAddress(addrs, host) || id in gone ==> peers == old(peers)
      ensures HasAddress(addrs, host) && id !in gone ==> peers == old(peers)[id := Answered(old(StateOf(id)), tag, at)]
      ensures host != [] && host in addrs && id !in gone ==>
        var s, s' := old(StateOf(id)), StateOf(id);
        && s'.answeredAt == s.answeredAt[tag := at] && s'.failures == s'.renewals == 0
        && s'.firstAnsweredAt == (if tag in s.firstAnsweredAt then s.firstAnsweredAt else s.firstAnsweredAt[tag := at])
        && s'.gen == s.gen && s'.deciding == s.deciding && s'.decidedAt == s.decidedAt
        && s'.nextRenewAt == s.nextRenewAt && s'.inboundAt == s.inboundAt
    {
      if !HasAddress(addrs, host) {
        return;
      }
      var s := StateOf(id);
      s := s.(answeredAt := s.answeredAt[tag := at]);
      if tag !in s.firstAnsweredAt {
        s := s.(firstAnsweredAt := s.firstAnsweredAt[tag := at]);
      }
      s := s.(failures := 0);
      s := s.(renewals := 0);
      Put(id, s);
    }

    method Inbound(id: PeerId, at: int)
      modifies this`peers
      ensures peers == if id in gone then old(peers) else old(peers)[id := old(StateOf(id)).(inboundAt := Some(at))]
    {
      Put(id, StateOf(id).(inboundAt := Some(at)));
    }

    method Forget(id: PeerId)
      modifies this`peers, this`gone
      ensures peers == old(peers) - {id} && gone == old(gone) + {id}
    {
      peers := peers - {id};
      gone := gone + {id};
    }

    /** A failure counts exactly when its tag is the current one and no answer under it came after the start. */
    method Failed(id: PeerId, tag: Tag, started: int) returns (failures: nat, why: Why)
      modifies this`peers
      ensures why == OldTag <==> tag != Tag(id, boot, old(StateOf(id)).gen)
      ensures why == AnsweredMeantime <==>
        && tag == Tag(id, boot, old(StateOf(id)).gen) && tag in old(StateOf(id)).answeredAt
        && old(StateOf(id)).answeredAt[tag] > started
      ensures why == Pass || why == OldTag || why == AnsweredMeantime
      ensures why == FailedWhy(old(StateOf(id)), old(Current(id, tag)), tag, started)
      ensures failures == old(StateOf(id)).failures + if why == Pass then 1 else 0
      ensures StateOf(id) == if id in gone then NEW_STATE else old(StateOf(id)).(failures := failures)
      ensures peers - {id} == old(peers) - {id} && (id in gone ==> peers == old(peers))
    {
      var s := StateOf(id);
      if !Current(id, tag) {
        Put(id, s);
        return s.failures, OldTag;
      }
      if tag in s.answeredAt && s.answeredAt[tag] > started {
        Put(id, s);
        return s.failures, AnsweredMeantime;
      }
      Put(id, s.(failures := s.failures + 1));
      return s.failures + 1, Pass;
    }

    method StillDue(id: PeerId, tag: Tag, started: int) returns (due: bool)
      ensures due <==>
        && tag == Tag(id, boot, StateOf(id).gen)
        && (tag in StateOf(id).answeredAt ==> StateOf(id).answeredAt[tag] <= started)
      ensures due == (FailedWhy(StateOf(id), Current(id, tag), tag, started) == Pass)
    {
      var s := StateOf(id);
      if !Current(id, tag) {
        return false;
      }
      due := tag !in s.answeredAt || !(s.answeredAt[tag] > started);
    }

    /** Looks for another peer whose decision began a moment ago. */
    method FindBurst(id: PeerId, now: int) returns (burst: bool)
      ensures burst == Burst(peers, id, now)
    {
      burst := false;
      var left := peers.Keys;
      while left != {}
        invariant left <= peers.Keys && !burst
        invariant forall o | o in peers.Keys - left :: !OtherDecided(peers, id, o, now)
        decreases left
      {
        var o :| o in left;
        if o != id && peers[o].decidedAt.Some? && now - peers[o].decidedAt.value < RENEW_DELAY {
          assert OtherDecided(peers, id, o, now);
          burst := true;
          break;
        }
        left := left - {o};
      }
    }

    method Begin(id: PeerId, now: int) returns (why: Why, burst: bool)
      modifies this`peers
      ensures why == BeginWhy(old(StateOf(id)), now)
      ensures why == Busy <==> old(StateOf(id)).deciding
      ensures why == Pass <==>
        && !old(StateOf(id)).deciding
        && (old(StateOf(id)).nextRenewAt.Some? ==> now >= old(StateOf(id)).nextRenewAt.value)
      ensures why == Pass || why == Busy || why == InWindow
      ensures why == Pass && id !in gone ==>
        peers == old(peers)[id := old(StateOf(id)).(deciding := true, decidedAt := Some(now))]
      ensures why != Pass ==> peers == old(peers) && !burst
      ensures why == Pass ==> burst == Burst(old(peers), id, now)
      ensures why == Pass && id !in gone ==> peers == old(peers)[id := Begun(old(StateOf(id)), now)]
      ensures id in gone ==> peers == old(peers)
    {
      var s := StateOf(id);
      if s.deciding {
        return Busy, false;
      }
      if s.nextRenewAt.Some? && now < s.nextRenewAt.value {
        return InWindow, false;
      }
      burst := FindBurst(id, now);
      s := s.(deciding := true);
      s := s.(decidedAt := Some(now));
      Put(id, s);
      why := Pass;
    }

    method CutDue(id: PeerId, tag: Tag, now: int) returns (due: bool)
      ensures due <==> tag == Tag(id, boot, StateOf(id).gen) && tag in StateOf(id).firstAnsweredAt &&
                       now - StateOf(id).firstAnsweredAt[tag] < WARM_FOR
    {
      var s := StateOf(id);
      if !Current(id, tag) {
        return false;
      }
      due := tag in s.firstAnsweredAt && now - s.firstAnsweredAt[tag] < WARM_FOR;
    }

    method Renew(id: PeerId, now: int, jitter: nat) returns (renewals: nat, gen: nat)
      modifies this`peers
      ensures peers == if id in gone then old(peers) else old(peers)[id := RenewedState(old(StateOf(id)), now, jitter)]
      ensures renewals == old(StateOf(id)).renewals + 1 && gen == old(StateOf(id)).gen + 1
      ensures id !in gone ==>
        StateOf(id) == old(StateOf(id)).(deciding := false, gen := gen, renewals := renewals, answeredAt := map[],
                                         firstAnsweredAt := map[],
                                         nextRenewAt := Some(now + RENEW_WINDOW + jitter))
    {
      var s := StateOf(id);
      s := s.(deciding := false);
      s := s.(gen := s.gen + 1);
      s := s.(renewals := s.renewals + 1);
      s := s.(nextRenewAt := Some(now + (RENEW_WINDOW + jitter)));
      s := s.(answeredAt := map[]);
      s := s.(firstAnsweredAt := map[]);
      Put(id, s);
      return s.renewals, s.gen;
    }

    method Release(id: PeerId)
      modifies this`peers
      ensures peers == if id in gone then old(peers) else old(peers)[id := Released(old(StateOf(id)))]
      ensures id !in gone ==> StateOf(id) == old(StateOf(id)).(deciding := false)
    {
      Put(id, StateOf(id).(deciding := false));
    }

    method Arm(id: PeerId, now: int, jitter: nat)
      modifies this`peers
      ensures peers == if id in gone then old(peers) else old(peers)[id := Armed(old(StateOf(id)), now, jitter)]
      ensures id !in gone ==>
        && StateOf(id) == old(StateOf(id)).(nextRenewAt := StateOf(id).nextRenewAt)
        && var before, after := old(StateOf(id)).nextRenewAt, StateOf(id).nextRenewAt;
           && after.Some? && after.value >= now + RENEW_WINDOW + jitter
           && (before.Some? ==> after.value >= before.value)
           && (after == before || after.value == now + RENEW_WINDOW + jitter)
    {
      var s := StateOf(id);
      var next := now + (RENEW_WINDOW + jitter);
      if s.nextRenewAt.None? || next > s.nextRenewAt.value {
        s := s.(nextRenewAt := Some(next));
      }
      Put(id, s);
    }

    /** One hand renewal at a time for a peer. */
    method StartManual(id: PeerId) returns (ok: bool)
      modifies this`manual
      ensures ok == (id !in old(manual)) && manual == old(manual) + {id}
    {
      if id in manual {
        return false;
      }
      manual := manual + {id};
      ok := true;
    }

    method EndManual(id: PeerId)
      modifies this`manual
      ensures manual == old(manual) - {id}
    {
      manual := manual - {id};
    }

    /** The whole decision without interruption: it renews exactly when every gate is open, it moves to its own
        goroutine exactly when there is a burst or no recent word from the peer, it never leaves the peer marked as
        deciding unless it found it so, and without a renewal the generation and the window stay. For a forgotten
        peer it decides the same way and writes nothing. */
    method Decide(id: PeerId, tag: Tag, host: Host, started: int, moved: bool, e: Surroundings) returns (why: Why)
      modifies this`peers
      ensures why == Renewed <==> Renews(old(StateOf(id)), old(Current(id, tag)), Burst(old(peers), id, e.beginAt),
                                         tag, host, started, moved, e)
      ensures StateOf(id).deciding == old(StateOf(id)).deciding
      ensures id in gone ==> peers == old(peers)
      ensures why == Renewed && id !in gone ==>
        StateOf(id).gen == tag.gen + 1 && StateOf(id).nextRenewAt == Some(e.renewAt + RENEW_WINDOW + e.jitter)
      ensures why == MovedOn <==>
        !moved && Decides(old(StateOf(id)), old(Current(id, tag)), tag, host, started, e) &&
        (Burst(old(peers), id, e.beginAt) || !InboundSince(old(StateOf(id)), e.weighAt - INBOUND_PROOF))
      ensures why != Renewed ==>
        StateOf(id).gen == old(StateOf(id)).gen && StateOf(id).nextRenewAt == old(StateOf(id)).nextRenewAt
      ensures id !in gone ==>
        StateOf(id).failures == old(StateOf(id)).failures +
          (if !moved && e.known.Some? && HasAddress(e.known.value, host) && old(Current(id, tag)) &&
              !AnsweredSince(old(StateOf(id)), tag, started) then 1 else 0)
    {
      hide Burst;
      var w, burst := Enter(id, tag, host, started, moved, e);
      if w != Pass {
        return w;
      }
      why := Deliberate(id, tag, started, moved, burst, e);
    }

    /** The part of a decision up to the mark, which it takes exactly when every gate before it is open. */
    method Enter(id: PeerId, tag: Tag, host: Host, started: int, moved: bool, e: Surroundings)
      returns (why: Why, burst: bool)
      modifies this`peers
      ensures why == Pass <==> Decides(old(StateOf(id)), old(Current(id, tag)), tag, host, started, e)
      ensures why != Renewed && why != MovedOn
      ensures why == Pass ==> burst == Burst(old(peers), id, e.beginAt)
      ensures id in gone ==> peers == old(peers)
      ensures id !in gone ==>
        && StateOf(id) == old(StateOf(id)).(failures := StateOf(id).failures, deciding := StateOf(id).deciding,
                                            decidedAt := StateOf(id).decidedAt)
        && StateOf(id).deciding == (old(StateOf(id)).deciding || why == Pass)
        && (why == Pass ==> !old(StateOf(id)).deciding)
        && StateOf(id).failures == old(StateOf(id)).failures +
           (if !moved && e.known.Some? && HasAddress(e.known.value, host) && old(Current(id, tag)) &&
               !AnsweredSince(old(StateOf(id)), tag, started) then 1 else 0)
    {
      hide Burst, InboundSince;
      if e.known.None? {
        return NoPeer, false;
      }
      if !HasAddress(e.known.value, host) {
        return NotPeerAddress, false;
      }
      if !moved {
        var n, w := Failed(id, tag, started);
        if w != Pass {
          return w, false;
        }
        SameBurst(old(peers), peers, id, e.beginAt);
      } else {
        var due := StillDue(id, tag, started);
        if !due {
          return AnsweredMeantime, false;
        }
      }
      if e.call {
        return CallActive, false;
      }
      why, burst := Begin(id, e.beginAt);
    }

    /** The part of a decision that holds the mark: it renews or takes the mark off again. */
    method Deliberate(id: PeerId, tag: Tag, started: int, moved: bool, burst: bool, e: Surroundings) returns (why: Why)
      requires id !in gone ==> StateOf(id).deciding
      modifies this`peers
      ensures why == Renewed <==> GatesOpen(old(StateOf(id)), old(Current(id, tag)), burst, tag, started, moved, e)
      ensures why == MovedOn <==> !moved && (burst || !InboundSince(old(StateOf(id)), e.weighAt - INBOUND_PROOF))
      ensures if id in gone then peers == old(peers) else
        StateOf(id) ==
          if why == Renewed then RenewedState(old(StateOf(id)), e.renewAt, e.jitter)
          else Released(old(StateOf(id)))
    {
      var inbound := InboundSince(StateOf(id), e.weighAt - INBOUND_PROOF);
      if !moved && (burst || !inbound) {
        Release(id);
        return MovedOn;
      }
      if burst {
        if !e.slept {
          Release(id);
          return Stopped;
        }
      }
      if !InboundSince(StateOf(id), e.proveAt - INBOUND_PROOF) {
        if !e.probeOk {
          Release(id);
          return OwnSideRed;
        }
      }
      if moved {
        var due := StillDue(id, tag, started);
        if !due {
          Release(id);
          return AnsweredMeantime;
        }
        if e.callAgain {
          Release(id);
          return CallActive;
        }
      }
      var renewals, gen := Renew(id, e.renewAt, e.jitter);
      return Renewed;
    }
  }

  /** An answer from an address of the peer under the current tag, and then the same request's failure: it is not due
      exactly when the answer came after the request was started. */
  method AnswerThenFailure(book: RouteBook, id: PeerId, tag: Tag, host: Host, addrs: seq<Host>, at: int, started: int)
    returns (due: bool, why: Why)
    requires host != [] && host in addrs && id !in book.gone && book.Current(id, tag)
    modifies book
    ensures due <==> at <= started
    ensures why == if at <= started then Pass else AnsweredMeantime
  {
    book.NoteAnswered(id, tag, host, addrs, at);
    due := book.StillDue(id, tag, started);
    var n;
    n, why := book.Failed(id, tag, started);
  }

  /** All that an uninterrupted decision looks at before it renews. */
  lemma RenewsIff(s: RouteState, current: bool, burst: bool, tag: Tag, host: Host, started: int, moved: bool,
                  e: Surroundings)
    ensures Renews(s, current, burst, tag, host, started, moved, e) <==>
      && e.known.Some? && host != [] && host in e.known.value
      && current && (tag in s.answeredAt ==> s.answeredAt[tag] <= started)
      && !e.call && !s.deciding && (s.nextRenewAt.Some? ==> e.beginAt >= s.nextRenewAt.value)
      && (!moved ==> !burst && s.inboundAt.Some? && s.inboundAt.value > e.weighAt - 600)
      && (burst ==> e.slept)
      && ((s.inboundAt.Some? && s.inboundAt.value > e.proveAt - 600) || e.probeOk)
      && (moved ==> !e.callAgain)
  {
  }

  lemma SameBurst(p: map<PeerId, RouteState>, q: map<PeerId, RouteState>, id: PeerId, now: int)
    requires p - {id} == q - {id}
    ensures Burst(p, id, now) <==> Burst(q, id, now)
  {
    forall o ensures OtherDecided(p, id, o, now) <==> OtherDecided(q, id, o, now) {
      assert o != id ==> ((o in p <==> o in p - {id}) && (o in q <==> o in q - {id}));
      assert o in p - {id} ==> (p - {id})[o] == p[o] && (q - {id})[o] == q[o];
    }
  }
}
