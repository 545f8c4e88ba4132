/** A sender's outbox and its peer's inbox, with a network that loses, repeats and reorders requests and
    loses responses, for text envelopes. The peer may crash at any time, between storing and announcing as well. */
module Delivery {
  import opened Bytes
  import opened Xport
  import opened OutboxKeys
  import opened OutboxModel
  import opened OutboxProtocol
  import opened Inbox

  /** `requests` holds every envelope posted to the peer so far, `answers` every envelope the peer acknowledged
      with 200, `used` every envelope ever enqueued. */
  datatype Net = Net(out: World, box: Box, requests: set<Envelope>, answers: set<Envelope>, used: set<Envelope>)

  datatype NetStep =
    | Local(s: Step)
    | Post
    | Store(entry: Entry)
    | Announce(entry: Entry)
    | CrashPeer
    | Remove(slot: Slot)

  predicate Acknowledged(o: Outcome) { o.EmptyAck? || o.NoVerifier? || o.BadAck? || o.GoodAck? }

  /** `peer` is the destination under study. An acknowledgement can only be processed if the peer gave it;
      a failure may be reported at any time. Envelope ids are never reused for another envelope. An inbox entry
      is removed by one Delete at a time, so the entry its scan found is still there. */
  ghost predicate NetEnabled(peer: Dest, n: Net, x: NetStep) {
    match x
    case Local(s) =>
      && Enabled(n.out, s)
      && (s.Enqueue? ==> forall e | e in n.used :: e.id == s.env.id ==> e == s.env)
      && (s.MigrateEntry? ==> forall e | e in n.used :: e.id == s.entry.envelope.id ==> e == s.entry.envelope)
      && (s.Process? && s.dest == peer && Acknowledged(s.outcome) ==> n.out.passes[peer].queue[0].envelope in n.answers)
    case Post => IsWorking(n.out, peer)
    case Store(e) => e.envelope in n.requests
    case Announce(e) => e in n.box.pending
    case CrashPeer => true
    case Remove(slot) => slot in n.box.entries || forall s: Slot | s in n.box.entries :: s.id != slot.id
  }

  /** The peer acknowledges a known envelope after its transaction, and a new one after its announcement. */
  function NetNext(cfg: Config, peer: Dest, n: Net, x: NetStep): Net {
    match x
    case Local(s) =>
      var used :=
        if s.Enqueue? then n.used + {s.env}
        else if s.MigrateEntry? then n.used + {s.entry.envelope}
        else n.used;
      n.(out := Next(cfg, n.out, s), used := used)
    case Post =>
      if IsWorking(n.out, peer) then n.(requests := n.requests + {n.out.passes[peer].queue[0].envelope}) else n
    case Store(e) =>
      n.(box := StoreTxn(n.box, e),
         answers := if e.envelope.id in n.box.index then n.answers + {e.envelope} else n.answers)
    case Announce(e) => n.(box := Publish(n.box, e), answers := n.answers + {e.envelope})
    case CrashPeer => n.(box := Crash(n.box))
    case Remove(slot) => n.(box := DeleteTxn(n.box, slot))
  }

  /** The inbox has stored this very envelope. */
  ghost predicate Kept(b: Box, env: Envelope) { exists e: Entry :: e in b.stored && e.envelope == env }

  /** Ids identify envelopes. */
  ghost predicate IdsUnique(used: set<Envelope>) {
    forall a, b | a in used && b in used && a.id == b.id :: a == b
  }

  ghost predicate RowsKnown(kv: KV, used: set<Envelope>) {
    forall id: Id :: Stored(kv, id).Some? ==>
      Stored(kv, id).value.envelope in used && Stored(kv, id).value.envelope.id == id
  }

  /** Nothing but posted envelopes reaches the inbox, and what it holds is on its log. */
  ghost predicate BoxKnown(b: Box, requests: set<Envelope>) {
    (forall e | e in b.stored :: e.envelope in requests) &&
    (forall s: Slot | s in b.entries :: b.entries[s] in b.stored)
  }

  /** Acknowledged means stored. */
  ghost predicate AnswersOk(b: Box, answers: set<Envelope>) { forall env | env in answers :: Kept(b, env) }

  predicate SentTo(kv: KV, peer: Dest, id: Id) {
    Stored(kv, id).Some? && Stored(kv, id).value.dest == peer && Stored(kv, id).value.state == Sent
  }

  /** Sent means acknowledged. */
  ghost predicate SentOk(kv: KV, peer: Dest, answers: set<Envelope>) {
    forall id: Id :: SentTo(kv, peer, id) ==> Stored(kv, id).value.envelope in answers
  }

  ghost predicate NetInv(peer: Dest, n: Net) {
    && Inv(n.out) && BoxOk(n.box)
    && IdsUnique(n.used) && RowsKnown(n.out.kv, n.used)
    && n.answers <= n.requests <= n.used
    && BoxKnown(n.box, n.requests) && AnswersOk(n.box, n.answers)
    && SentOk(n.out.kv, peer, n.answers)
  }

  /** Where a stored row comes from after a step: it is new, or it was there with the same destination and
      envelope, and it is sent only if it was sent before or a processed acknowledgement made it so. */
  ghost predicate RowOrigin(w: World, s: Step, id: Id, r: Row) {
    || (s.Enqueue? && r.envelope == s.env && r.state == Enqueued && r.id == s.env.id)
    || (s.MigrateEntry? && r.envelope == s.entry.envelope && r.state == Enqueued && r.id == s.entry.envelope.id)
    || (Stored(w.kv, id).Some? && Stored(w.kv, id).value.dest == r.dest &&
        Stored(w.kv, id).value.envelope == r.envelope &&
        (r.state == Sent ==>
           Stored(w.kv, id).value.state == Sent ||
           (s.Process? && IsWorking(w, s.dest) && s.dest == r.dest && Acknowledged(s.outcome) &&
            w.passes[s.dest].queue[0].envelope == r.envelope)))
  }

  lemma StepOrigin(cfg: Config, w: World, s: Step, id: Id)
    requires Inv(w) && Enabled(w, s) && Stored(Next(cfg, w, s).kv, id).Some?
    ensures RowOrigin(w, s, id, Stored(Next(cfg, w, s).kv, id).value)
  {
    match s
    case Enqueue(dest, env, now) =>
      if RowKey(env.id) !in w.kv { InsertKeeps(w.kv, FreshRow(dest, env, now)); }
    case MigrateEntry(suffix, e, now) =>
      if e.envelope.id != [] && RowKey(e.envelope.id) !in w.kv {
        InsertKeeps(w.kv, MigratedRow(e, now));
        DropLegacyKeeps(InsertTxn(w.kv, MigratedRow(e, now)), suffix);
      }
    case Process(dest, o, now) => ProcessOrigin(cfg, w, dest, o, now, id);
    case KickWrite(ids, now) => KickKeeps(w.kv, ids, now);
    case GcWrite => GcKeeps(w.kv, w.gc.value);
    case _ =>
  }

  lemma ProcessOrigin(cfg: Config, w: World, dest: Dest, o: Outcome, now: int, id: Id)
    requires Inv(w) && Enabled(w, Process(dest, o, now)) && Stored(Next(cfg, w, Process(dest, o, now)).kv, id).Some?
    ensures RowOrigin(w, Process(dest, o, now), id, Stored(Next(cfg, w, Process(dest, o, now)).kv, id).value)
  {
    hide AdvanceTxn, Consistent;
    var row := w.passes[dest].queue[0];
    assert PassOk(w.kv, dest, w.passes[dest]) && row in w.passes[dest].queue;
    ProcessKeeps(cfg, w.kv, row, o, now);
  }

  lemma LocalKeeps(cfg: Config, peer: Dest, n: Net, s: Step)
    requires NetInv(peer, n) && NetEnabled(peer, n, Local(s))
    ensures NetInv(peer, NetNext(cfg, peer, n, Local(s)))
  {
    hide Inv, Enabled, Next, Consistent, BoxOk, Kept, BoxKnown, AnswersOk;
    var n' := NetNext(cfg, peer, n, Local(s));
    StepKeepsInv(cfg, n.out, s);
    forall id: Id | Stored(n'.out.kv, id).Some?
      ensures var r := Stored(n'.out.kv, id).value;
        r.envelope in n'.used && r.envelope.id == id && (r.dest == peer && r.state == Sent ==> r.envelope in n.answers)
    {
      StepOrigin(cfg, n.out, s, id);
      RowIdIs(n'.out, id);
    }
  }

  lemma RowIdIs(w: World, id: Id)
    requires Inv(w) && Stored(w.kv, id).Some?
    ensures Stored(w.kv, id).value.id == id
  {
    assert RowKey(id) in w.kv;
  }

  /** A known envelope is on the log, since ids do not change hands, and a new one gets there. */
  lemma StoreIsKept(n: Net, e: Entry)
    requires IndexAgrees(n.box) && IdsUnique(n.used) && BoxKnown(n.box, n.requests) && n.requests <= n.used
    requires e.envelope in n.requests
    ensures Kept(StoreTxn(n.box, e), e.envelope) && BoxKnown(StoreTxn(n.box, e), n.requests)
  {
    var id := e.envelope.id;
    if id in n.box.index {
      var s: Slot :| s in n.box.entries && s.id == id;
      var known := n.box.entries[s];
      assert known in n.box.stored && known.envelope.id == id;
      assert known.envelope in n.requests && known.envelope == e.envelope;
    } else {
      assert e in StoreTxn(n.box, e).stored;
    }
  }

  lemma AnswersGrow(b: Box, b': Box, answers: set<Envelope>)
    requires AnswersOk(b, answers) && b.stored <= b'.stored
    ensures AnswersOk(b', answers)
  {
    forall env | env in answers ensures Kept(b', env) {
      var x: Entry :| x in b.stored && x.envelope == env;
      assert x in b'.stored;
    }
  }

  lemma StoreStepKeeps(cfg: Config, peer: Dest, n: Net, e: Entry)
    requires NetInv(peer, n) && NetEnabled(peer, n, Store(e))
    ensures NetInv(peer, NetNext(cfg, peer, n, Store(e)))
  {
    hide Inv, StoredOnce, Accounted, IndexAgrees, StoreTxn, BoxKnown, IdsUnique, RowsKnown, Kept;
    StoreKeeps(n.box, e);
    StoreIsKept(n, e);
    AnswersGrow(n.box, StoreTxn(n.box, e), n.answers);
  }

  lemma PendingIsKept(b: Box, e: Entry)
    requires Accounted(b) && e in b.pending
    ensures Kept(b, e.envelope) && Kept(Publish(b, e), e.envelope)
  {
    assert e in multiset(b.stored);
  }

  lemma AnnounceKeeps(cfg: Config, peer: Dest, n: Net, e: Entry)
    requires NetInv(peer, n) && NetEnabled(peer, n, Announce(e))
    ensures NetInv(peer, NetNext(cfg, peer, n, Announce(e)))
  {
    hide Inv, StoredOnce, Accounted, IndexAgrees, IdsUnique, RowsKnown, Kept;
    PublishKeeps(n.box, e);
    PendingIsKept(n.box, e);
    AnswersGrow(n.box, Publish(n.box, e), n.answers);
    PendingIsRequested(n, e);
  }

  lemma PendingIsRequested(n: Net, e: Entry)
    requires Accounted(n.box) && BoxKnown(n.box, n.requests) && e in n.box.pending
    ensures e.envelope in n.requests
  {
    assert e in multiset(n.box.stored);
  }

  lemma CrashStepKeeps(cfg: Config, peer: Dest, n: Net)
    requires NetInv(peer, n)
    ensures NetInv(peer, NetNext(cfg, peer, n, CrashPeer))
  {
    hide Inv, StoredOnce, Accounted, IndexAgrees, IdsUnique, RowsKnown, Kept;
    CrashKeeps(n.box);
    AnswersGrow(n.box, Crash(n.box), n.answers);
  }

  lemma NetStepKeeps(cfg: Config, peer: Dest, n: Net, x: NetStep)
    requires NetInv(peer, n) && NetEnabled(peer, n, x)
    ensures NetInv(peer, NetNext(cfg, peer, n, x))
  {
    match x
    case Local(s) => LocalKeeps(cfg, peer, n, s);
    case Post => PostKeeps(cfg, peer, n);
    case Store(e) => StoreStepKeeps(cfg, peer, n, e);
    case Announce(e) => AnnounceKeeps(cfg, peer, n, e);
    case CrashPeer => CrashStepKeeps(cfg, peer, n);
    case Remove(slot) => RemoveKeeps(cfg, peer, n, slot);
  }

  lemma PostKeeps(cfg: Config, peer: Dest, n: Net)
    requires NetInv(peer, n) && IsWorking(n.out, peer)
    ensures NetInv(peer, NetNext(cfg, peer, n, Post))
  {
    hide Consistent, BoxOk, Kept;
    var row := n.out.passes[peer].queue[0];
    assert PassOk(n.out.kv, peer, n.out.passes[peer]) && row in n.out.passes[peer].queue;
    assert Stored(n.out.kv, row.id) == Some(row);
  }

  lemma RemoveKeeps(cfg: Config, peer: Dest, n: Net, slot: Slot)
    requires NetInv(peer, n) && NetEnabled(peer, n, Remove(slot))
    ensures NetInv(peer, NetNext(cfg, peer, n, Remove(slot)))
  {
    hide Inv, StoredOnce, Accounted, IndexAgrees, Kept, RowsKnown, SentOk;
    DeleteKeepsIff(n.box, slot);
    DeleteCounts(n.box, slot);
    AnswersGrow(n.box, DeleteTxn(n.box, slot), n.answers);
  }

  ghost predicate IsNetRun(cfg: Config, peer: Dest, n: Net, xs: seq<NetStep>)
    decreases |xs|
  {
    xs == [] || (NetEnabled(peer, n, xs[0]) && IsNetRun(cfg, peer, NetNext(cfg, peer, n, xs[0]), xs[1..]))
  }

  function AfterNet(cfg: Config, peer: Dest, n: Net, xs: seq<NetStep>): Net
    decreases |xs|
  {
    if xs == [] then n else AfterNet(cfg, peer, NetNext(cfg, peer, n, xs[0]), xs[1..])
  }

  lemma {:induction false} NetRunKeeps(cfg: Config, peer: Dest, n: Net, xs: seq<NetStep>)
    requires NetInv(peer, n) && IsNetRun(cfg, peer, n, xs)
    ensures NetInv(peer, AfterNet(cfg, peer, n, xs))
    decreases |xs|
  {
    hide NetInv, NetEnabled, NetNext;
    if xs != [] {
      NetStepKeeps(cfg, peer, n, xs[0]);
      NetRunKeeps(cfg, peer, NetNext(cfg, peer, n, xs[0]), xs[1..]);
    }
  }

  function EmptyNet(): Net { Net(Start(map[]), EMPTY_BOX, {}, {}, {}) }

  lemma EmptyNetOk(peer: Dest)
    ensures NetInv(peer, EmptyNet())
  {
  }

  /** End to end, over every run from an empty start, crashes of the peer included: a row to the peer is sent only
      after the peer's inbox has stored that very envelope; the inbox stores an envelope once until it is deleted;
      and everything stored is announced exactly once, unless it is about to be or a crash came in between. */
  lemma SentMeansDeliveredOnce(cfg: Config, peer: Dest, xs: seq<NetStep>, id: Id)
    requires IsNetRun(cfg, peer, EmptyNet(), xs)
    ensures var n := AfterNet(cfg, peer, EmptyNet(), xs);
      && (var r := Stored(n.out.kv, id);
          r.Some? && r.value.dest == peer && r.value.state == Sent ==>
            Kept(n.box, r.value.envelope) && CountId(n.box.stored, id) >= 1)
      && CountId(n.box.stored, id) == Removals(n.box.removed, id) + (if id in n.box.index then 1 else 0)
      && multiset(n.box.stored) == multiset(n.box.announced) + n.box.pending + n.box.lost
  {
    EmptyNetOk(peer);
    NetRunKeeps(cfg, peer, EmptyNet(), xs);
    var n := AfterNet(cfg, peer, EmptyNet(), xs);
    var r := Stored(n.out.kv, id);
    if r.Some? && r.value.dest == peer && r.value.state == Sent {
      var e: Entry :| e in n.box.stored && e.envelope == r.value.envelope;
      SomeEntry(n.box.stored, e);
    }
  }

  /** Some crash of the peer finds the entry stored and not yet announced. */
  ghost predicate CrashFinds(cfg: Config, peer: Dest, n: Net, xs: seq<NetStep>, e: Entry)
    decreases |xs|
  {
    xs != [] &&
    ((xs[0].CrashPeer? && e in n.box.pending) || CrashFinds(cfg, peer, NetNext(cfg, peer, n, xs[0]), xs[1..], e))
  }

  lemma {:induction false} LostIffCrashFinds(cfg: Config, peer: Dest, n: Net, xs: seq<NetStep>, e: Entry)
    ensures e in AfterNet(cfg, peer, n, xs).box.lost <==> e in n.box.lost || CrashFinds(cfg, peer, n, xs, e)
    decreases |xs|
  {
    if xs != [] {
      LostIffCrashFinds(cfg, peer, NetNext(cfg, peer, n, xs[0]), xs[1..], e);
    }
  }

  ghost predicate CrashFindsAny(cfg: Config, peer: Dest, n: Net, xs: seq<NetStep>) {
    exists e :: CrashFinds(cfg, peer, n, xs, e)
  }

  /** An announcement is lost over a run exactly when some crash finds something to announce. */
  lemma NothingLostIff(cfg: Config, peer: Dest, n: Net, xs: seq<NetStep>)
    requires n.box.lost == multiset{}
    ensures AfterNet(cfg, peer, n, xs).box.lost == multiset{} <==> !CrashFindsAny(cfg, peer, n, xs)
  {
    hide AfterNet, CrashFinds;
    var lost := AfterNet(cfg, peer, n, xs).box.lost;
    forall e ensures e in lost <==> CrashFinds(cfg, peer, n, xs, e) { LostIffCrashFinds(cfg, peer, n, xs, e); }
    assert lost == multiset{} <==> forall e :: e !in lost;
  }

  /** Over every run, an entry has been announced as often as it was stored exactly when it is not about to be
      announced and no crash found it so. */
  lemma AnnouncedAsStoredIff(cfg: Config, peer: Dest, xs: seq<NetStep>, e: Entry)
    requires IsNetRun(cfg, peer, EmptyNet(), xs)
    ensures var b := AfterNet(cfg, peer, EmptyNet(), xs).box;
            multiset(b.announced)[e] == multiset(b.stored)[e] <==>
              e !in b.pending && !CrashFinds(cfg, peer, EmptyNet(), xs, e)
  {
    hide NetNext, NetEnabled, IsNetRun;
    EmptyNetOk(peer);
    NetRunKeeps(cfg, peer, EmptyNet(), xs);
    LostIffCrashFinds(cfg, peer, EmptyNet(), xs, e);
    var b := AfterNet(cfg, peer, EmptyNet(), xs).box;
    assert multiset(b.stored)[e] == multiset(b.announced)[e] + b.pending[e] + b.lost[e];
  }

  ghost predicate Announced(b: Box, env: Envelope) { exists e :: e in b.announced && e.envelope == env }

  /** No entry of the envelope is about to be announced, and no crash found one so. */
  ghost predicate LeftAlone(cfg: Config, peer: Dest, xs: seq<NetStep>, env: Envelope) {
    forall e: Entry | e.envelope == env ::
      e !in AfterNet(cfg, peer, EmptyNet(), xs).box.pending && !CrashFinds(cfg, peer, EmptyNet(), xs, e)
  }

  /** A sent envelope whose announcement no crash cut off has been announced; and as long as the peer has removed
      no entry of that id, only such an envelope has. */
  lemma SentMeansAnnounced(cfg: Config, peer: Dest, xs: seq<NetStep>, id: Id)
    requires IsNetRun(cfg, peer, EmptyNet(), xs) && SentTo(AfterNet(cfg, peer, EmptyNet(), xs).out.kv, peer, id)
    ensures var n := AfterNet(cfg, peer, EmptyNet(), xs);
            var env := Stored(n.out.kv, id).value.envelope;
            && (LeftAlone(cfg, peer, xs, env) ==> Announced(n.box, env))
            && (Removals(n.box.removed, id) == 0 ==> (Announced(n.box, env) <==> LeftAlone(cfg, peer, xs, env)))
  {
    hide IsNetRun, AfterNet, CrashFinds, CountId, Removals;
    SentMeansDeliveredOnce(cfg, peer, xs, id);
    var n := AfterNet(cfg, peer, EmptyNet(), xs);
    var env := Stored(n.out.kv, id).value.envelope;
    SentIdIs(cfg, peer, xs, id);
    if LeftAlone(cfg, peer, xs, env) {
      var e: Entry :| e in n.box.stored && e.envelope == env;
      AnnouncedAsStoredIff(cfg, peer, xs, e);
      assert e in multiset(n.box.stored);
      assert e in n.box.announced;
    }
    if Removals(n.box.removed, id) == 0 && Announced(n.box, env) {
      var a :| a in n.box.announced && a.envelope == env;
      forall e: Entry | e.envelope == env
        ensures e !in n.box.pending && !CrashFinds(cfg, peer, EmptyNet(), xs, e)
      {
        AnnouncedAsStoredIff(cfg, peer, xs, e);
        OneOfId(n.box.stored, n.box.announced, n.box.pending + n.box.lost, a, e);
      }
    }
  }

  lemma SentIdIs(cfg: Config, peer: Dest, xs: seq<NetStep>, id: Id)
    requires IsNetRun(cfg, peer, EmptyNet(), xs) && SentTo(AfterNet(cfg, peer, EmptyNet(), xs).out.kv, peer, id)
    ensures Stored(AfterNet(cfg, peer, EmptyNet(), xs).out.kv, id).value.envelope.id == id
  {
    hide IsNetRun, NetEnabled, NetNext;
    EmptyNetOk(peer);
    NetRunKeeps(cfg, peer, EmptyNet(), xs);
  }

  /** Where an id is stored once, an announced entry of it leaves none of that id unannounced. */
  lemma OneOfId(stored: seq<Entry>, announced: seq<Entry>, others: multiset<Entry>, a: Entry, e: Entry)
    requires multiset(stored) == multiset(announced) + others && a in announced
    requires CountId(stored, a.envelope.id) <= 1 && e.envelope.id == a.envelope.id
    ensures multiset(announced)[e] == multiset(stored)[e]
  {
    assert a in multiset(announced);
    assert multiset(stored)[a] >= 1;
    if e in others {
      if e == a { assert multiset(stored)[e] >= 2; }
      TwoOfId(stored, a, e);
    }
  }

  lemma {:induction false} TwoOfId(es: seq<Entry>, a: Entry, e: Entry)
    requires a.envelope.id == e.envelope.id && a in multiset(es) && e in multiset(es)
    requires a == e ==> multiset(es)[a] >= 2
    ensures CountId(es, a.envelope.id) >= 2
  {
    var x, rest := es[|es| - 1], es[..|es| - 1];
    assert es == rest + [x];
    assert multiset(es) == multiset(rest) + multiset{x};
    if x == a {
      SomeEntry(rest, e);
    } else if x == e {
      SomeEntry(rest, a);
    } else {
      TwoOfId(rest, a, e);
    }
  }

  lemma {:induction false} SomeEntry(es: seq<Entry>, e: Entry)
    requires e in es
    ensures CountId(es, e.envelope.id) >= 1
  {
    if es[|es| - 1] != e {
      var k :| 0 <= k < |es| && es[k] == e;
      assert e == es[..|es| - 1][k];
      SomeEntry(es[..|es| - 1], e);
    }
  }
}
