/** Decisions about one peer's circuit, running at the same time and interleaved between the route book's lock
    regions. A clock is read before the lock is taken, so other regions may run in between. */
module CircuitProtocol {
  import opened Bytes
  import opened RouteModel
  import opened RouteBook

  /** Where one decision stands. */
  datatype Pc =
    | Fresh                    // nothing looked at yet
    | Judged                   // the failure counts, or is still due
    | Clocked(now: int)        // clock read for the window
    | Holding(burst: bool)     // holds the mark
    | Sleeping
    | Weighed
    | Proven                   // own side is reachable
    | Rechecked                // moved only: still due
    | Ready
    | Stamped(now: int)        // clock read for the renewal
    | Dropping(again: bool)    // about to take the mark off
    | Over

  predicate Holds(pc: Pc) { !(pc.Fresh? || pc.Judged? || pc.Clocked? || pc.Over?) }

  datatype Decision = Decision(tag: Tag, started: int, moved: bool, pc: Pc, judgedAt: int, began: int)

  /** One renewal: the clock reading it was made with, the time of its lock region, and how it came about. */
  datatype Renewal = Renewal(at: int, lockedAt: int, moved: bool, tag: Tag, judgedAt: int, began: int)

  datatype World = World(peer: PeerId, boot: Bytes, clock: int, s: RouteState, ds: seq<Decision>, log: seq<Renewal>)

  function Current(w: World): Tag { Tag(w.peer, w.boot, w.s.gen) }

  datatype Step =
    | Tick(d: nat)
    | Spawn(tag: Tag, started: int)
    | Answer(tag: Tag, at: int)
    | Inbound(at: int)
    | Arm(now: int, jitter: nat)
    | Judge(i: nat)
    | CallCheck(i: nat, active: bool)
    | Begin(i: nat, burst: bool)
    | Weigh(i: nat, now: int)
    | Sleep(i: nat, slept: bool)
    | Prove(i: nat, now: int, probeOk: bool)
    | Recheck(i: nat)
    | CallAgain(i: nat, active: bool)
    | Stamp(i: nat)
    | Renew(i: nat, jitter: nat)
    | Drop(i: nat)

  predicate At(w: World, i: nat, moved: bool, pc: Pc) { i < |w.ds| && w.ds[i].pc == pc && w.ds[i].moved == moved }

  predicate Enabled(w: World, st: Step) {
    match st
    case Tick(_) => true
    case Spawn(_, _) => true
    case Answer(_, _) => true
    case Inbound(_) => true
    case Arm(now, jitter) => now <= w.clock && jitter < RENEW_JITTER
    case Judge(i) => i < |w.ds| && w.ds[i].pc.Fresh?
    case CallCheck(i, _) => i < |w.ds| && w.ds[i].pc.Judged?
    case Begin(i, _) => i < |w.ds| && w.ds[i].pc.Clocked?
    case Weigh(i, now) => i < |w.ds| && w.ds[i].pc.Holding? && now <= w.clock
    case Sleep(i, _) => i < |w.ds| && w.ds[i].pc.Sleeping?
    case Prove(i, now, _) => i < |w.ds| && w.ds[i].pc.Weighed? && now <= w.clock
    case Recheck(i) => i < |w.ds| && w.ds[i].pc.Proven?
    case CallAgain(i, _) => i < |w.ds| && w.ds[i].pc.Rechecked?
    case Stamp(i) => i < |w.ds| && w.ds[i].pc.Ready?
    case Renew(i, jitter) => i < |w.ds| && w.ds[i].pc.Stamped? && jitter < RENEW_JITTER
    case Drop(i) => i < |w.ds| && w.ds[i].pc.Dropping?
  }

  function Go(w: World, i: nat, pc: Pc): World
    requires i < |w.ds|
  {
    w.(ds := w.ds[i := w.ds[i].(pc := pc)])
  }

  predicate Due(w: World, d: Decision) { FailedWhy(w.s, d.tag == Current(w), d.tag, d.started) == Pass }

  function Next(w: World, st: Step): World
    requires Enabled(w, st)
  {
    match st
    case Tick(d) => w.(clock := w.clock + d)
    case Spawn(tag, started) => w.(ds := w.ds + [Decision(tag, started, false, Fresh, 0, 0)])
    case Answer(tag, at) => w.(s := Answered(w.s, tag, at))
    case Inbound(at) => w.(s := w.s.(inboundAt := Some(at)))
    case Arm(now, jitter) => w.(s := Armed(w.s, now, jitter))
    case Judge(i) =>
      var d := w.ds[i];
      if !Due(w, d) then Go(w, i, Over)
      else
        w.(ds := w.ds[i := d.(pc := Judged, judgedAt := w.clock)],
           s := if d.moved then w.s else w.s.(failures := w.s.failures + 1))
    case CallCheck(i, active) => Go(w, i, if active then Over else Clocked(w.clock))
    case Begin(i, burst) =>
      var d := w.ds[i];
      if BeginWhy(w.s, d.pc.now) != Pass then Go(w, i, Over)
      else w.(ds := w.ds[i := d.(pc := Holding(burst), began := d.pc.now)], s := Begun(w.s, d.pc.now))
    case Weigh(i, now) =>
      var d := w.ds[i];
      Go(w, i,
         if !d.moved && (d.pc.burst || !InboundSince(w.s, now - INBOUND_PROOF)) then Dropping(true)
         else if d.pc.burst then Sleeping else Weighed)
    case Sleep(i, slept) => Go(w, i, if slept then Weighed else Dropping(false))
    case Prove(i, now, probeOk) =>
      Go(w, i,
         if !InboundSince(w.s, now - INBOUND_PROOF) && !probeOk then Dropping(false)
         else if w.ds[i].moved then Proven else Ready)
    case Recheck(i) => Go(w, i, if Due(w, w.ds[i]) then Rechecked else Dropping(false))
    case CallAgain(i, active) => Go(w, i, if active then Dropping(false) else Ready)
    case Stamp(i) => Go(w, i, Stamped(w.clock))
    case Renew(i, jitter) =>
      var d := w.ds[i];
      Go(w, i, Over).(s := RenewedState(w.s, d.pc.now, jitter),
                      log := w.log + [Renewal(d.pc.now, w.clock, d.moved, d.tag, d.judgedAt, d.began)])
    case Drop(i) =>
      var d := w.ds[i];
      var w' := Go(w, i, Over).(s := Released(w.s));
      if d.pc.again then w'.(ds := w'.ds + [Decision(d.tag, d.started, true, Fresh, 0, 0)]) else w'
  }

  function Init(peer: PeerId, boot: Bytes, clock: int): World { World(peer, boot, clock, NEW_STATE, [], []) }

  ghost predicate IsRun(w: World, sts: seq<Step>)
    decreases |sts|
  {
    sts == [] || (Enabled(w, sts[0]) && IsRun(Next(w, sts[0]), sts[1..]))
  }

  ghost function After(w: World, sts: seq<Step>): World
    requires IsRun(w, sts)
    decreases |sts|
  {
    if sts == [] then w else After(Next(w, sts[0]), sts[1..])
  }

  // ---------- invariant ----------

  predicate Holder(ds: seq<Decision>, i: nat) { i < |ds| && Holds(ds[i].pc) }

  /** The mark is on exactly while one decision holds it, and never two do. */
  ghost predicate OneDecider(deciding: bool, ds: seq<Decision>) {
    && (deciding <==> exists i: nat :: Holder(ds, i))
    && (forall i: nat, j: nat | Holder(ds, i) && Holder(ds, j) :: i == j)
  }

  /** The window reaches past every renewal, and renewals are numbered by the generation they end. */
  ghost predicate WindowOk(s: RouteState, log: seq<Renewal>) {
    && s.gen == |log|
    && forall k | 0 <= k < |log| :: s.nextRenewAt.Some? && log[k].at + RENEW_WINDOW <= s.nextRenewAt.value
  }

  /** A renewal or decision whose tag is older than generation gen was judged no later than each renewal since. */
  ghost predicate JudgedBefore(log: seq<Renewal>, from: nat, judgedAt: int) {
    forall k | from <= k < |log| :: judgedAt <= log[k].lockedAt
  }

  ghost predicate WindowPassed(log: seq<Renewal>, began: int) {
    forall k | 0 <= k < |log| :: log[k].at + RENEW_WINDOW <= began
  }

  ghost predicate DecisionOk(clock: int, gen: nat, log: seq<Renewal>, d: Decision) {
    && (d.pc.Fresh? || d.pc.Over? ||
        (d.tag.gen <= gen && d.judgedAt <= clock && JudgedBefore(log, d.tag.gen, d.judgedAt)))
    && (d.pc.Clocked? ==> d.judgedAt <= d.pc.now <= clock)
    && (Holds(d.pc) ==> d.began <= clock && d.judgedAt <= d.began && WindowPassed(log, d.began))
    && (d.moved && (d.pc.Rechecked? || d.pc.Ready? || d.pc.Stamped?) ==> d.tag.gen == gen)
    && (d.pc.Stamped? ==> d.began <= d.pc.now <= clock)
  }

  /** The renewal that ended generation k, given those before it. */
  ghost predicate RenewalOk(before: seq<Renewal>, r: Renewal) {
    && (r.moved ==> r.tag.gen == |before|)
    && r.tag.gen <= |before|
    && JudgedBefore(before, r.tag.gen, r.judgedAt)
    && WindowPassed(before, r.began)
    && r.judgedAt <= r.began <= r.at <= r.lockedAt
  }

  ghost predicate Inv(w: World) {
    && OneDecider(w.s.deciding, w.ds)
    && WindowOk(w.s, w.log)
    && (forall k | 0 <= k < |w.ds| :: DecisionOk(w.clock, w.s.gen, w.log, w.ds[k]))
    && (forall k | 0 <= k < |w.log| :: RenewalOk(w.log[..k], w.log[k]) && w.log[k].lockedAt <= w.clock)
  }

  lemma InitOk(peer: PeerId, boot: Bytes, clock: int)
    ensures Inv(Init(peer, boot, clock))
  {
    assert forall i: nat :: !Holder([], i);
  }

  lemma SameHolders(deciding: bool, ds: seq<Decision>, i: nat, d': Decision)
    requires OneDecider(deciding, ds) && i < |ds| && Holds(d'.pc) == Holds(ds[i].pc)
    ensures OneDecider(deciding, ds[i := d'])
  {
    var ds' := ds[i := d'];
    assert forall j: nat :: Holder(ds', j) <==> Holder(ds, j);
    if deciding { var j: nat :| Holder(ds, j); assert Holder(ds', j); }
  }

  lemma MarkTaken(ds: seq<Decision>, i: nat, d': Decision)
    requires OneDecider(false, ds) && i < |ds| && Holds(d'.pc)
    ensures OneDecider(true, ds[i := d'])
  {
    var ds' := ds[i := d'];
    forall j: nat ensures Holder(ds', j) <==> j == i { assert !Holder(ds, j); }
    assert Holder(ds', i);
  }

  lemma MarkOff(deciding: bool, ds: seq<Decision>, i: nat, d': Decision)
    requires OneDecider(deciding, ds) && Holder(ds, i) && !Holds(d'.pc)
    ensures deciding && OneDecider(false, ds[i := d'])
    ensures forall j: nat | j < |ds| && j != i :: !Holds(ds[j].pc)
  {
    var ds' := ds[i := d'];
    forall j: nat | j < |ds| && j != i ensures !Holds(ds[j].pc) { assert Holder(ds, i); assert !Holder(ds, j); }
    assert forall j: nat :: !Holder(ds', j);
  }

  lemma WindowStays(s: RouteState, s': RouteState, log: seq<Renewal>)
    requires WindowOk(s, log) && s'.gen == s.gen
    requires s.nextRenewAt.Some? ==> s'.nextRenewAt.Some? && s.nextRenewAt.value <= s'.nextRenewAt.value
    ensures WindowOk(s', log)
  {
  }

  lemma OneMore(deciding: bool, ds: seq<Decision>, d: Decision)
    requires OneDecider(deciding, ds) && !Holds(d.pc)
    ensures OneDecider(deciding, ds + [d])
  {
    forall j: nat ensures Holder(ds + [d], j) <==> Holder(ds, j) { }
    if deciding { var j: nat :| Holder(ds, j); assert Holder(ds + [d], j); }
  }

  /** One decision moves on without entering or leaving the mark. */
  lemma MoveKeeps(w: World, i: nat, d': Decision, s': RouteState)
    requires Inv(w) && i < |w.ds| && Holds(d'.pc) == Holds(w.ds[i].pc)
    requires s'.gen == w.s.gen && s'.nextRenewAt == w.s.nextRenewAt && s'.deciding == w.s.deciding
    requires DecisionOk(w.clock, w.s.gen, w.log, d')
    ensures Inv(w.(ds := w.ds[i := d'], s := s'))
  {
    hide DecisionOk, RenewalOk, OneDecider;
    SameHolders(w.s.deciding, w.ds, i, d');
    WindowStays(w.s, s', w.log);
  }

  lemma TickKeeps(w: World, d: nat)
    requires Inv(w)
    ensures Inv(w.(clock := w.clock + d))
  {
    hide RenewalOk, OneDecider;
  }

  lemma AddKeeps(w: World, d: Decision)
    requires Inv(w) && d.pc.Fresh?
    ensures Inv(w.(ds := w.ds + [d]))
  {
    hide RenewalOk, OneDecider;
    OneMore(w.s.deciding, w.ds, d);
    assert DecisionOk(w.clock, w.s.gen, w.log, d);
  }

  /** What happens to the peer's state outside decisions only ever widens the window. */
  lemma EnvKeeps(w: World, s': RouteState)
    requires Inv(w)
    requires s'.gen == w.s.gen && s'.deciding == w.s.deciding
    requires w.s.nextRenewAt.Some? ==> s'.nextRenewAt.Some? && w.s.nextRenewAt.value <= s'.nextRenewAt.value
    ensures Inv(w.(s := s'))
  {
    hide RenewalOk, DecisionOk, OneDecider;
  }

  lemma BeginKeeps(w: World, i: nat, burst: bool)
    requires Inv(w) && Enabled(w, Begin(i, burst))
    ensures Inv(Next(w, Begin(i, burst)))
  {
    hide RenewalOk, OneDecider;
    var d := w.ds[i];
    var w' := Next(w, Begin(i, burst));
    if BeginWhy(w.s, d.pc.now) != Pass {
      MoveKeeps(w, i, d.(pc := Over), w.s);
    } else {
      assert DecisionOk(w.clock, w.s.gen, w.log, d);
      assert DecisionOk(w.clock, w.s.gen, w.log, w'.ds[i]);
      MarkTaken(w.ds, i, w'.ds[i]);
      WindowStays(w.s, w'.s, w.log);
    }
  }

  lemma DropKeeps(w: World, i: nat)
    requires Inv(w) && Enabled(w, Drop(i))
    ensures Inv(Next(w, Drop(i)))
  {
    hide RenewalOk, DecisionOk, OneDecider;
    var d := w.ds[i];
    var mid := Go(w, i, Over).(s := Released(w.s));
    MarkOff(w.s.deciding, w.ds, i, d.(pc := Over));
    WindowStays(w.s, mid.s, w.log);
    OverOk(w.clock, w.s.gen, w.log, d.(pc := Over));
    assert Inv(mid);
    if d.pc.again { AddKeeps(mid, Decision(d.tag, d.started, true, Fresh, 0, 0)); }
  }

  lemma OverOk(clock: int, gen: nat, log: seq<Renewal>, d: Decision)
    requires d.pc.Over?
    ensures DecisionOk(clock, gen, log, d)
  {
  }

  lemma RenewKeeps(w: World, i: nat, jitter: nat)
    requires Inv(w) && Enabled(w, Renew(i, jitter))
    ensures Inv(Next(w, Renew(i, jitter)))
  {
    hide RenewalOk, DecisionOk, WindowPassed, OneDecider, WindowOk;
    var d := w.ds[i];
    var w' := Next(w, Renew(i, jitter));
    var r := w'.log[|w.log|];
    MarkOff(w.s.deciding, w.ds, i, d.(pc := Over));
    assert DecisionOk(w.clock, w.s.gen, w.log, d);
    GenIsLength(w.s, w.log);
    RecordOk(w.clock, w.s.gen, w.log, d, r);
    WindowMoves(w.s, w.log, d.pc.now, jitter, r);
    forall k | 0 <= k < |w'.log| ensures RenewalOk(w'.log[..k], w'.log[k]) && w'.log[k].lockedAt <= w'.clock {
      assert w'.log[..k] == w.log[..k];
      if k == |w.log| { assert w.log[..k] == w.log; }
    }
    forall j | 0 <= j < |w'.ds| ensures DecisionOk(w'.clock, w'.s.gen, w'.log, w'.ds[j]) {
      if j == i {
        OverOk(w'.clock, w'.s.gen, w'.log, w'.ds[j]);
      } else {
        OtherOk(w.clock, w.s.gen, w.log, w.ds[j], r);
      }
    }
  }

  lemma GenIsLength(s: RouteState, log: seq<Renewal>)
    requires WindowOk(s, log)
    ensures s.gen == |log|
  {
  }

  lemma RecordOk(clock: int, gen: nat, log: seq<Renewal>, d: Decision, r: Renewal)
    requires DecisionOk(clock, gen, log, d) && d.pc.Stamped? && gen == |log|
    requires r == Renewal(d.pc.now, clock, d.moved, d.tag, d.judgedAt, d.began)
    ensures RenewalOk(log, r) && WindowPassed(log, r.at)
  {
  }

  lemma OtherOk(clock: int, gen: nat, log: seq<Renewal>, d: Decision, r: Renewal)
    requires DecisionOk(clock, gen, log, d) && !Holds(d.pc) && r.lockedAt == clock
    ensures DecisionOk(clock, gen + 1, log + [r], d)
  {
  }

  lemma WindowMoves(s: RouteState, log: seq<Renewal>, now: int, jitter: nat, r: Renewal)
    requires WindowOk(s, log) && WindowPassed(log, now) && r.at == now
    ensures WindowOk(RenewedState(s, now, jitter), log + [r])
  {
  }

  lemma StepKeeps(w: World, st: Step)
    requires Inv(w) && Enabled(w, st)
    ensures Inv(Next(w, st))
  {
    match st
    case Tick(d) => TickKeeps(w, d);
    case Spawn(tag, started) => AddKeeps(w, Decision(tag, started, false, Fresh, 0, 0));
    case Answer(tag, at) => EnvKeeps(w, Answered(w.s, tag, at));
    case Inbound(at) => EnvKeeps(w, w.s.(inboundAt := Some(at)));
    case Arm(now, jitter) => EnvKeeps(w, Armed(w.s, now, jitter));
    case Begin(i, burst) => BeginKeeps(w, i, burst);
    case Renew(i, jitter) => RenewKeeps(w, i, jitter);
    case Drop(i) => DropKeeps(w, i);
    case _ => LocalKeeps(w, st);
  }

  predicate Local(st: Step) {
    st.Judge? || st.CallCheck? || st.Weigh? || st.Sleep? || st.Prove? || st.Recheck? || st.CallAgain? || st.Stamp?
  }

  lemma LocalKeeps(w: World, st: Step)
    requires Inv(w) && Enabled(w, st) && Local(st)
    ensures Inv(Next(w, st))
  {
    hide Inv, InboundSince;
    LocalOk(w, st);
    MoveKeeps(w, st.i, Next(w, st).ds[st.i], Next(w, st).s);
  }

  lemma LocalOk(w: World, st: Step)
    requires Inv(w) && Enabled(w, st) && Local(st)
    ensures DecisionOk(w.clock, w.s.gen, w.log, Next(w, st).ds[st.i])
  {
    hide RenewalOk, InboundSince, OneDecider;
    assert DecisionOk(w.clock, w.s.gen, w.log, w.ds[st.i]);
  }

  /** Every run keeps the invariant, and generations are never taken back. */
  lemma {:induction false} RunKeeps(w: World, sts: seq<Step>)
    requires Inv(w) && IsRun(w, sts)
    ensures Inv(After(w, sts)) && w.s.gen <= After(w, sts).s.gen && w.log <= After(w, sts).log
    decreases |sts|
  {
    if sts != [] {
      StepKeeps(w, sts[0]);
      RunKeeps(Next(w, sts[0]), sts[1..]);
    }
  }

  // ---------- what follows ----------

  ghost predicate Reachable(w: World) {
    exists peer, boot, clock, sts :: RunTo(peer, boot, clock, sts, w)
  }

  ghost predicate RunTo(peer: PeerId, boot: Bytes, clock: int, sts: seq<Step>, w: World) {
    IsRun(Init(peer, boot, clock), sts) && After(Init(peer, boot, clock), sts) == w
  }

  lemma ReachableOk(w: World)
    requires Reachable(w)
    ensures Inv(w)
  {
    var peer, boot, clock, sts :| RunTo(peer, boot, clock, sts, w);
    InitOk(peer, boot, clock);
    RunKeeps(Init(peer, boot, clock), sts);
  }

  /** At most one decision holds the mark, and the mark is never left behind: its holder has a next step. */
  lemma AtMostOneDecider(w: World)
    requires Reachable(w)
    ensures forall i: nat, j: nat | Holder(w.ds, i) && Holder(w.ds, j) :: i == j
    ensures w.s.deciding <==> exists i: nat :: Holder(w.ds, i)
    ensures w.s.deciding ==> exists st :: Enabled(w, st) && HolderMoves(w, st)
  {
    ReachableOk(w);
    if w.s.deciding {
      var i: nat :| Holder(w.ds, i);
      var st := match w.ds[i].pc
        case Holding(_) => Weigh(i, w.clock)
        case Sleeping => Sleep(i, true)
        case Weighed => Prove(i, w.clock, false)
        case Proven => Recheck(i)
        case Rechecked => CallAgain(i, false)
        case Ready => Stamp(i)
        case Stamped(_) => Renew(i, 0)
        case _ => Drop(i);
      assert Enabled(w, st) && HolderMoves(w, st);
    }
  }

  predicate HolderMoves(w: World, st: Step) {
    (st.Weigh? || st.Sleep? || st.Prove? || st.Recheck? || st.CallAgain? || st.Stamp? || st.Renew? || st.Drop?) &&
    Holder(w.ds, st.i)
  }

  /** Any two renewals of a peer are at least the window apart. */
  lemma RenewalsAreApart(w: World, j: nat, k: nat)
    requires Reachable(w) && j < k < |w.log|
    ensures w.log[j].at + RENEW_WINDOW <= w.log[k].at
  {
    ReachableOk(w);
    assert RenewalOk(w.log[..k], w.log[k]);
    assert w.log[..k][j] == w.log[j];
  }

  /** A decision that moved to its own goroutine renews only while its request's tag is the current one. */
  lemma MovedRenewsCurrentTag(w: World, k: nat)
    requires Reachable(w) && k < |w.log| && w.log[k].moved
    ensures w.log[k].tag.gen == k
  {
    ReachableOk(w);
    assert RenewalOk(w.log[..k], w.log[k]);
  }

  /** No renewal's clock reading was older than slack when its lock region ran. */
  predicate StampsFresh(log: seq<Renewal>, slack: nat) {
    forall k | 0 <= k < |log| :: log[k].lockedAt <= log[k].at + slack
  }

  /** One that did not move renews under an old tag only if, between its failure being counted and its window
      being checked, another renewal took place whose clock reading lies a whole window back. With stamps at most
      slack old that takes at least the window less slack. */
  lemma UnmovedRenewsCurrentTag(w: World, k: nat, slack: nat)
    requires Reachable(w) && k < |w.log| && !w.log[k].moved && StampsFresh(w.log, slack)
    ensures w.log[k].began + slack < w.log[k].judgedAt + RENEW_WINDOW ==> w.log[k].tag.gen == k
    ensures w.log[k].tag.gen < k ==>
      w.log[k].judgedAt <= w.log[w.log[k].tag.gen].lockedAt &&
      w.log[w.log[k].tag.gen].at + RENEW_WINDOW <= w.log[k].began
  {
    ReachableOk(w);
    var before, g := w.log[..k], w.log[k].tag.gen;
    assert RenewalOk(before, w.log[k]);
    if g < k { assert before[g] == w.log[g]; }
  }

  predicate NoRenewal(sts: seq<Step>) { forall k | 0 <= k < |sts| :: !sts[k].Renew? }

  lemma StepKeepsTag(w: World, st: Step, i: nat)
    requires Enabled(w, st) && i < |w.ds|
    ensures i < |Next(w, st).ds| && Next(w, st).ds[i].tag == w.ds[i].tag
    ensures Next(w, st).peer == w.peer && Next(w, st).boot == w.boot
    ensures Next(w, st).s.gen == w.s.gen + (if st.Renew? then 1 else 0)
  {
  }

  lemma {:induction false} RunKeepsTag(w: World, sts: seq<Step>, i: nat)
    requires IsRun(w, sts) && i < |w.ds|
    ensures var w' := After(w, sts);
            && i < |w'.ds| && w'.ds[i].tag == w.ds[i].tag && w'.peer == w.peer && w'.boot == w.boot
            && w.s.gen <= w'.s.gen && (w'.s.gen == w.s.gen <==> NoRenewal(sts))
    decreases |sts|
  {
    hide Enabled, Next;
    if sts != [] {
      StepKeepsTag(w, sts[0], i);
      RunKeepsTag(Next(w, sts[0]), sts[1..], i);
      assert NoRenewal(sts) <==> !sts[0].Renew? && NoRenewal(sts[1..]) by {
        if !sts[0].Renew? && NoRenewal(sts[1..]) {
          forall k | 0 <= k < |sts| ensures !sts[k].Renew? { if k > 0 { assert sts[k] == sts[1..][k - 1]; } }
        }
        if NoRenewal(sts) {
          forall k | 0 <= k < |sts[1..]| ensures !sts[1..][k].Renew? { assert sts[1..][k] == sts[k + 1]; }
        }
      }
    }
  }

  /** Once a failure has been found due, its tag stays the current one exactly until the next renewal, whichever
      decision renews and however the lock regions interleave. */
  lemma TagIsCurrentIff(w: World, i: nat, sts: seq<Step>)
    requires Enabled(w, Judge(i)) && Due(w, w.ds[i]) && IsRun(Next(w, Judge(i)), sts)
    ensures var w' := After(Next(w, Judge(i)), sts);
            i < |w'.ds| && (w'.ds[i].tag == Current(w') <==> NoRenewal(sts))
  {
    hide IsRun, After, NoRenewal;
    RunKeepsTag(Next(w, Judge(i)), sts, i);
  }

  // ---------- a decision that nobody interrupts ----------

  /** What a decision at this place does next, with what its surroundings give it. */
  function Turn(i: nat, pc: Pc, burst: bool, e: Surroundings): Step
    requires !pc.Over?
  {
    match pc
    case Fresh => Judge(i)
    case Judged => CallCheck(i, e.call)
    case Clocked(_) => Begin(i, burst)
    case Holding(_) => Weigh(i, e.weighAt)
    case Sleeping => Sleep(i, e.slept)
    case Weighed => Prove(i, e.proveAt, e.probeOk)
    case Proven => Recheck(i)
    case Rechecked => CallAgain(i, e.callAgain)
    case Ready => Stamp(i)
    case Stamped(_) => Renew(i, e.jitter)
    case Dropping(_) => Drop(i)
  }

  /** Clock readings are not in the future, and nothing takes time. */
  predicate AtOnce(w: World, i: nat, e: Surroundings) {
    i < |w.ds| && e.weighAt <= w.clock && e.proveAt <= w.clock && e.jitter < RENEW_JITTER
  }

  /** The world after at most `n` turns of decision `i` and nothing else. */
  function Alone(w: World, i: nat, burst: bool, e: Surroundings, n: nat): World
    requires AtOnce(w, i, e)
    decreases n
  {
    if n == 0 || w.ds[i].pc.Over? then w
    else
      var st := Turn(i, w.ds[i].pc, burst, e);
      Alone(Next(w, st), i, burst, e, n - 1)
  }

  lemma OneTurn(w: World, i: nat, burst: bool, e: Surroundings, n: nat)
    requires AtOnce(w, i, e) && n > 0 && !w.ds[i].pc.Over?
    ensures var st := Turn(i, w.ds[i].pc, burst, e);
            Enabled(w, st) && AtOnce(Next(w, st), i, e) &&
            Alone(w, i, burst, e, n) == Alone(Next(w, st), i, burst, e, n - 1)
  {
  }

  lemma NoTurn(w: World, i: nat, burst: bool, e: Surroundings, n: nat)
    requires AtOnce(w, i, e) && w.ds[i].pc.Over?
    ensures Alone(w, i, burst, e, n) == w
  {
  }

  /** The last turns: with the stamp the renewal is made. */
  lemma RenewsFromReady(w: World, i: nat, burst: bool, e: Surroundings, n: nat)
    requires AtOnce(w, i, e) && n >= 2 && w.ds[i].pc == Ready
    ensures var w' := Alone(w, i, burst, e, n); |w'.log| == |w.log| + 1 && i < |w'.ds| && w'.ds[i].pc == Over
  {
    hide Alone;
    OneTurn(w, i, burst, e, n);
    var w1 := Next(w, Stamp(i));
    OneTurn(w1, i, burst, e, n - 1);
    NoTurn(Next(w1, Renew(i, e.jitter)), i, burst, e, n - 2);
  }

  lemma DropsFromDropping(w: World, i: nat, burst: bool, e: Surroundings, n: nat)
    requires AtOnce(w, i, e) && n >= 1 && w.ds[i].pc.Dropping?
    ensures var w' := Alone(w, i, burst, e, n); w'.log == w.log && i < |w'.ds| && w'.ds[i].pc == Over
  {
    hide Alone;
    OneTurn(w, i, burst, e, n);
    NoTurn(Next(w, Drop(i)), i, burst, e, n - 1);
  }

  lemma FromWeighed(w: World, i: nat, burst: bool, e: Surroundings, n: nat)
    requires AtOnce(w, i, e) && n >= 5 && w.ds[i].pc == Weighed
    ensures var w' := Alone(w, i, burst, e, n);
            && i < |w'.ds| && w'.ds[i].pc == Over
            && |w'.log| == |w.log| + (if (InboundSince(w.s, e.proveAt - INBOUND_PROOF) || e.probeOk) &&
                                         (w.ds[i].moved ==> Due(w, w.ds[i]) && !e.callAgain) then 1 else 0)
  {
    hide Alone, InboundSince;
    OneTurn(w, i, burst, e, n);
    var w1 := Next(w, Prove(i, e.proveAt, e.probeOk));
    if w1.ds[i].pc.Dropping? {
      DropsFromDropping(w1, i, burst, e, n - 1);
    } else if w1.ds[i].pc == Ready {
      RenewsFromReady(w1, i, burst, e, n - 1);
    } else {
      OneTurn(w1, i, burst, e, n - 1);
      var w2 := Next(w1, Recheck(i));
      if w2.ds[i].pc.Dropping? {
        DropsFromDropping(w2, i, burst, e, n - 2);
      } else {
        OneTurn(w2, i, burst, e, n - 2);
        var w3 := Next(w2, CallAgain(i, e.callAgain));
        if w3.ds[i].pc.Dropping? {
          DropsFromDropping(w3, i, burst, e, n - 3);
        } else {
          RenewsFromReady(w3, i, burst, e, n - 3);
        }
      }
    }
  }

  lemma FromHolding(w: World, i: nat, burst: bool, e: Surroundings, n: nat)
    requires AtOnce(w, i, e) && n >= 7 && w.ds[i].pc == Holding(burst)
    ensures var w' := Alone(w, i, burst, e, n);
            && i < |w'.ds| && w'.ds[i].pc == Over
            && |w'.log| == |w.log| + (if GatesOpen(w.s, w.ds[i].tag == Current(w), burst, w.ds[i].tag, w.ds[i].started,
                                                   w.ds[i].moved, e) then 1 else 0)
  {
    hide Alone, InboundSince;
    OneTurn(w, i, burst, e, n);
    var w1 := Next(w, Weigh(i, e.weighAt));
    if w1.ds[i].pc.Dropping? {
      DropsFromDropping(w1, i, burst, e, n - 1);
    } else if w1.ds[i].pc == Sleeping {
      OneTurn(w1, i, burst, e, n - 1);
      var w2 := Next(w1, Sleep(i, e.slept));
      if w2.ds[i].pc.Dropping? {
        DropsFromDropping(w2, i, burst, e, n - 2);
      } else {
        FromWeighed(w2, i, burst, e, n - 2);
      }
    } else {
      FromWeighed(w1, i, burst, e, n - 1);
    }
  }

  /** Lock region by lock region, a decision that nobody interrupts comes to an end, and renews exactly as the whole
      decision does: when every gate is open. */
  lemma AloneDecidesAsWhole(w: World, i: nat, burst: bool, host: Host, e: Surroundings)
    requires AtOnce(w, i, e) && w.ds[i].pc == Fresh && e.beginAt == w.clock
    requires e.known.Some? && HasAddress(e.known.value, host)
    ensures var w' := Alone(w, i, burst, e, 10);
            var d := w.ds[i];
            && i < |w'.ds| && w'.ds[i].pc == Over
            && |w'.log| == |w.log| + (if Renews(w.s, d.tag == Current(w), burst, d.tag, host, d.started, d.moved, e)
                                      then 1 else 0)
  {
    hide Alone, InboundSince, GatesOpen;
    OneTurn(w, i, burst, e, 10);
    var w1 := Next(w, Judge(i));
    if w1.ds[i].pc.Over? {
      NoTurn(w1, i, burst, e, 9);
    } else {
      OneTurn(w1, i, burst, e, 9);
      var w2 := Next(w1, CallCheck(i, e.call));
      if w2.ds[i].pc.Over? {
        NoTurn(w2, i, burst, e, 8);
      } else {
        OneTurn(w2, i, burst, e, 8);
        var w3 := Next(w2, Begin(i, burst));
        if w3.ds[i].pc.Over? {
          NoTurn(w3, i, burst, e, 7);
        } else {
          FromHolding(w3, i, burst, e, 7);
          SameGates(w.s, w3.s, burst, w.ds[i].tag, w.ds[i].started, w.ds[i].moved, e);
        }
      }
    }
  }

  lemma SameGates(s: RouteState, s': RouteState, burst: bool, tag: Tag, started: int, moved: bool, e: Surroundings)
    requires s'.answeredAt == s.answeredAt && s'.inboundAt == s.inboundAt
    ensures forall current: bool ::
              GatesOpen(s, current, burst, tag, started, moved, e) <==>
              GatesOpen(s', current, burst, tag, started, moved, e)
  {
  }

  // ---------- a request answered meanwhile ----------

  /** The time of the last answer under the tag since the last renewal. */
  function LastAnswer(sts: seq<Step>, tag: Tag): Option<int> {
    if sts == [] then None
    else
      match sts[|sts| - 1]
      case Renew(_, _) => None
      case Answer(t, at) => if t == tag then Some(at) else LastAnswer(sts[..|sts| - 1], tag)
      case _ => LastAnswer(sts[..|sts| - 1], tag)
  }

  predicate Unanswered(sts: seq<Step>, tag: Tag, started: int) {
    LastAnswer(sts, tag).Some? ==> LastAnswer(sts, tag).value <= started
  }

  ghost predicate Never(sts: seq<Step>, x: Step) { forall j | 0 <= j < |sts| :: sts[j] != x }

  /** The step was taken, and with no answer under the tag after the start whenever it was. */
  ghost predicate Found(sts: seq<Step>, x: Step, tag: Tag, started: int) {
    && (exists j :: 0 <= j < |sts| && sts[j] == x)
    && (forall j | 0 <= j < |sts| && sts[j] == x :: Unanswered(sts[..j], tag, started))
  }

  ghost predicate DecisionHeard(sts: seq<Step>, i: nat, d: Decision) {
    JudgeHeard(sts, i, d) && RecheckHeard(sts, i, d)
  }

  ghost predicate JudgeHeard(sts: seq<Step>, i: nat, d: Decision) {
    && (d.pc.Fresh? ==> Never(sts, Judge(i)))
    && (!d.pc.Fresh? && !d.pc.Over? ==> Found(sts, Judge(i), d.tag, d.started))
  }

  ghost predicate RecheckHeard(sts: seq<Step>, i: nat, d: Decision) {
    && (!d.pc.Over? && !d.pc.Dropping? && !d.pc.Rechecked? && !d.pc.Ready? && !d.pc.Stamped? ==> Never(sts, Recheck(i)))
    && (d.moved && (d.pc.Rechecked? || d.pc.Ready? || d.pc.Stamped?) ==> Found(sts, Recheck(i), d.tag, d.started))
  }

  ghost predicate Heard(w: World, sts: seq<Step>) {
    && (forall tag :: LastAnswer(sts, tag) == if tag in w.s.answeredAt then Some(w.s.answeredAt[tag]) else None)
    && (forall i: nat | i < |w.ds| :: DecisionHeard(sts, i, w.ds[i]))
    && (forall i: nat | i >= |w.ds| :: Never(sts, Judge(i)) && Never(sts, Recheck(i)))
  }

  lemma NeverNext(sts: seq<Step>, x: Step, y: Step)
    ensures Never(sts + [y], x) <==> Never(sts, x) && y != x
  {
    if Never(sts + [y], x) {
      assert (sts + [y])[|sts|] == y;
      forall j | 0 <= j < |sts| ensures sts[j] != x { assert (sts + [y])[j] == sts[j]; }
    }
  }

  lemma FoundNext(sts: seq<Step>, x: Step, y: Step, tag: Tag, started: int)
    ensures Found(sts, x, tag, started) && y != x ==> Found(sts + [y], x, tag, started)
    ensures Never(sts, x) && y == x && Unanswered(sts, tag, started) ==> Found(sts + [y], x, tag, started)
  {
    hide Unanswered;
    var all := sts + [y];
    assert all[|sts|] == y && all[..|sts|] == sts;
    if Found(sts, x, tag, started) && y != x {
      var j :| 0 <= j < |sts| && sts[j] == x;
      assert all[j] == x;
      forall j | 0 <= j < |all| && all[j] == x ensures Unanswered(all[..j], tag, started) {
        assert all[..j] == sts[..j];
      }
    }
  }

  lemma AnswersNext(w: World, st: Step, sts: seq<Step>, tag: Tag)
    requires Enabled(w, st)
    requires LastAnswer(sts, tag) == if tag in w.s.answeredAt then Some(w.s.answeredAt[tag]) else None
    ensures var answers := Next(w, st).s.answeredAt;
            LastAnswer(sts + [st], tag) == if tag in answers then Some(answers[tag]) else None
  {
    assert (sts + [st])[..|sts|] == sts;
  }

  lemma HeardNext(w: World, st: Step, sts: seq<Step>)
    requires Heard(w, sts) && Enabled(w, st)
    ensures Heard(Next(w, st), sts + [st])
  {
    hide Enabled, Next, LastAnswer, DecisionHeard, Never;
    var w' := Next(w, st);
    forall tag
      ensures LastAnswer(sts + [st], tag) == if tag in w'.s.answeredAt then Some(w'.s.answeredAt[tag]) else None
    {
      AnswersNext(w, st, sts, tag);
    }
    forall i: nat | i < |w'.ds| ensures DecisionHeard(sts + [st], i, w'.ds[i]) { OneHeardNext(w, st, sts, i); }
    forall i: nat | i >= |w'.ds| ensures Never(sts + [st], Judge(i)) && Never(sts + [st], Recheck(i)) {
      NoneHeardNext(w, st, sts, i);
    }
  }

  lemma NoneHeardNext(w: World, st: Step, sts: seq<Step>, i: nat)
    requires Enabled(w, st) && i >= |Next(w, st).ds|
    requires i >= |w.ds| ==> Never(sts, Judge(i)) && Never(sts, Recheck(i))
    ensures Never(sts + [st], Judge(i)) && Never(sts + [st], Recheck(i))
  {
    hide Never;
    NeverNext(sts, Judge(i), st);
    NeverNext(sts, Recheck(i), st);
  }

  lemma OneHeardNext(w: World, st: Step, sts: seq<Step>, i: nat)
    requires Heard(w, sts) && Enabled(w, st) && i < |Next(w, st).ds|
    ensures DecisionHeard(sts + [st], i, Next(w, st).ds[i])
  {
    hide Enabled, Next;
    OneJudgeNext(w, st, sts, i);
    OneRecheckNext(w, st, sts, i);
  }

  lemma OneJudgeNext(w: World, st: Step, sts: seq<Step>, i: nat)
    requires Heard(w, sts) && Enabled(w, st) && i < |Next(w, st).ds|
    ensures JudgeHeard(sts + [st], i, Next(w, st).ds[i])
  {
    hide Never, Found, LastAnswer, InboundSince, BeginWhy, Answered, Armed, RenewedState;
    NeverNext(sts, Judge(i), st);
    var d := Next(w, st).ds[i];
    FoundNext(sts, Judge(i), st, d.tag, d.started);
    if i < |w.ds| { assert DecisionHeard(sts, i, w.ds[i]); }
  }

  lemma OneRecheckNext(w: World, st: Step, sts: seq<Step>, i: nat)
    requires Heard(w, sts) && Enabled(w, st) && i < |Next(w, st).ds|
    ensures RecheckHeard(sts + [st], i, Next(w, st).ds[i])
  {
    hide Never, Found, LastAnswer, InboundSince, BeginWhy, Answered, Armed, RenewedState;
    NeverNext(sts, Recheck(i), st);
    var d := Next(w, st).ds[i];
    FoundNext(sts, Recheck(i), st, d.tag, d.started);
    if i < |w.ds| { assert DecisionHeard(sts, i, w.ds[i]); }
  }

  lemma {:induction false} SplitRun(w: World, sts: seq<Step>, st: Step)
    requires IsRun(w, sts + [st])
    ensures IsRun(w, sts) && Enabled(After(w, sts), st) && After(w, sts + [st]) == Next(After(w, sts), st)
    decreases |sts|
  {
    var all := sts + [st];
    if sts == [] {
      assert all[1..] == [];
    } else {
      assert all[0] == sts[0] && all[1..] == sts[1..] + [st];
      SplitRun(Next(w, sts[0]), sts[1..], st);
    }
  }

  lemma {:induction false} RunHeard(w: World, sts: seq<Step>)
    requires IsRun(w, sts) && w.ds == [] && w.s.answeredAt == map[]
    ensures Heard(After(w, sts), sts)
    decreases |sts|
  {
    hide Enabled, Next, Heard;
    if sts == [] {
      assert Heard(w, []) by { NothingHeard(w); }
    } else {
      var front, st := sts[..|sts| - 1], sts[|sts| - 1];
      assert sts == front + [st];
      SplitRun(w, front, st);
      RunHeard(w, front);
      HeardNext(After(w, front), st, front);
    }
  }

  lemma NothingHeard(w: World)
    requires w.ds == [] && w.s.answeredAt == map[]
    ensures Heard(w, [])
  {
  }

  /** Over every run: the failure of a request is found due exactly when its tag is the current one and the last answer
      under it since the last renewal, if any, came no later than the request was started. */
  lemma DueIffUnanswered(peer: PeerId, boot: Bytes, clock: int, sts: seq<Step>, d: Decision)
    requires IsRun(Init(peer, boot, clock), sts)
    ensures var w := After(Init(peer, boot, clock), sts);
            Due(w, d) <==> d.tag == Current(w) && Unanswered(sts, d.tag, d.started)
  {
    hide IsRun, After, LastAnswer;
    RunHeard(Init(peer, boot, clock), sts);
  }

  /** Over every run: whoever renews found its failure due, and again if it had moved, with no answer under its tag
      after the start of its request. */
  lemma NoRenewalIfAnswered(peer: PeerId, boot: Bytes, clock: int, sts: seq<Step>, i: nat, jitter: nat)
    requires IsRun(Init(peer, boot, clock), sts + [Renew(i, jitter)])
    ensures IsRun(Init(peer, boot, clock), sts)
    ensures var w := After(Init(peer, boot, clock), sts);
            && i < |w.ds|
            && Found(sts, Judge(i), w.ds[i].tag, w.ds[i].started)
            && (w.ds[i].moved ==> Found(sts, Recheck(i), w.ds[i].tag, w.ds[i].started))
  {
    hide IsRun, After, Found;
    SplitRun(Init(peer, boot, clock), sts, Renew(i, jitter));
    RunHeard(Init(peer, boot, clock), sts);
    var w := After(Init(peer, boot, clock), sts);
    assert DecisionHeard(sts, i, w.ds[i]);
  }

  // ---------- the bound is needed ----------

  function DecideRun(i: nat, now: int): seq<Step> {
    [CallCheck(i, false), Begin(i, false), Weigh(i, now), Prove(i, now, false), Stamp(i), Renew(i, 0)]
  }

  /** A counted failure that nobody interrupts renews when the window is over and the peer was heard lately. */
  lemma Undisturbed(w: World, i: nat)
    requires i < |w.ds| && w.ds[i].pc.Judged? && !w.ds[i].moved
    requires BeginWhy(w.s, w.clock) == Pass && InboundSince(w.s, w.clock - INBOUND_PROOF)
    ensures IsRun(w, DecideRun(i, w.clock)) && After(w, DecideRun(i, w.clock)) == RenewedBy(w, i)
  {
    hide IsRun, After, BeginWhy, InboundSince;
    var run := DecideRun(i, w.clock);
    var w1 := Go(w, i, Clocked(w.clock));
    assert Next(w, run[0]) == w1;
    var w2 := w.(ds := w.ds[i := w.ds[i].(pc := Holding(false), began := w.clock)], s := Begun(w.s, w.clock));
    assert Next(w1, run[1]) == w2;
    assert InboundSince(w2.s, w.clock - INBOUND_PROOF) by { BegunHeard(w.s, w.clock, w.clock - INBOUND_PROOF); }
    var w3 := Go(w2, i, Weighed);
    assert Next(w2, run[2]) == w3;
    var w4 := Go(w2, i, Ready);
    assert Next(w3, run[3]) == w4;
    var w5 := Go(w2, i, Stamped(w.clock));
    assert Next(w4, run[4]) == w5;
    var w6 := RenewedBy(w, i);
    assert Next(w5, run[5]) == w6;
    FollowRun([w, w1, w2, w3, w4, w5, w6], run);
  }

  lemma BegunHeard(s: RouteState, now: int, since: int)
    requires InboundSince(s, since)
    ensures InboundSince(Begun(s, now), since)
  {
  }

  function RenewedBy(w: World, i: nat): World
    requires i < |w.ds|
  {
    var d := w.ds[i];
    w.(ds := w.ds[i := d.(pc := Over, began := w.clock)],
       s := RenewedState(Begun(w.s, w.clock), w.clock, 0),
       log := w.log + [Renewal(w.clock, w.clock, d.moved, d.tag, d.judgedAt, w.clock)])
  }

  function TwoFailures(t: Tag): seq<Step> { [Inbound(1000), Spawn(t, 900), Spawn(t, 900), Judge(0), Judge(1)] }

  function LateRun(t: Tag): seq<Step> { TwoFailures(t) + (DecideRun(0, 1000) + ([Tick(180)] + DecideRun(1, 1180))) }

  /** Two requests fail together; the second decision is held up for the whole window after its failure was
      counted. It then renews under a tag that is no longer current. */
  lemma LateDecisionRenewsOldTag(peer: PeerId, boot: Bytes)
    ensures var t := Tag(peer, boot, 0);
            IsRun(Init(peer, boot, 1000), LateRun(t)) &&
            var w := After(Init(peer, boot, 1000), LateRun(t));
            |w.log| == 2 && !w.log[1].moved && w.log[1].tag.gen == 0 && StampsFresh(w.log, 0) &&
            w.log[1].began == w.log[1].judgedAt + RENEW_WINDOW
  {
    hide IsRun, After;
    var t, w0 := Tag(peer, boot, 0), Init(peer, boot, 1000);
    var run := TwoFailures(t);
    var w1 := Next(w0, run[0]);
    var w2 := Next(w1, run[1]);
    var w3 := Next(w2, run[2]);
    var w4 := Next(w3, run[3]);
    var w5 := Next(w4, run[4]);
    FollowRun([w0, w1, w2, w3, w4, w5], run);
    Undisturbed(w5, 0);
    var w6 := RenewedBy(w5, 0);
    var w7 := Next(w6, Tick(180));
    FollowRun([w6, w7], [Tick(180)]);
    Undisturbed(w7, 1);
    JoinRuns(w6, [Tick(180)], DecideRun(1, 1180));
    JoinRuns(w5, DecideRun(0, 1000), [Tick(180)] + DecideRun(1, 1180));
    JoinRuns(w0, run, DecideRun(0, 1000) + ([Tick(180)] + DecideRun(1, 1180)));
  }

  lemma {:induction false} FollowRun(ws: seq<World>, sts: seq<Step>)
    requires |ws| == |sts| + 1
    requires forall k | 0 <= k < |sts| :: Enabled(ws[k], sts[k]) && ws[k + 1] == Next(ws[k], sts[k])
    ensures IsRun(ws[0], sts) && After(ws[0], sts) == ws[|sts|]
    decreases |sts|
  {
    if sts != [] { FollowRun(ws[1..], sts[1..]); }
  }

  lemma {:induction false} JoinRuns(w: World, xs: seq<Step>, ys: seq<Step>)
    requires IsRun(w, xs) && IsRun(After(w, xs), ys)
    ensures IsRun(w, xs + ys) && After(w, xs + ys) == After(After(w, xs), ys)
    decreases |xs|
  {
    if xs == [] {
      assert xs + ys == ys;
    } else {
      assert (xs + ys)[0] == xs[0] && (xs + ys)[1..] == xs[1..] + ys;
      JoinRuns(Next(w, xs[0]), xs[1..], ys);
    }
  }
}
