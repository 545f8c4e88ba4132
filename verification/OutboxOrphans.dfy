/** Due keys that outlive their row: how they come about, exactly when, and that they stay. */
module OutboxOrphans {
  import opened Bytes
  import opened Xport
  import opened OutboxKeys
  import opened OutboxModel
  import opened OutboxStore
  import opened OutboxProtocol

  // ---------- rows due at time zero ----------

  /** Time zero is no due time: recording an attempt at a row just enqueued keeps rows and keys in agreement exactly
      when the row was not due at time zero. */
  lemma AdvanceKeepsIff(kv: KV, row: Row, c: Change)
    requires Consistent(kv) && RowKey(row.id) !in kv && row.state == Enqueued
    requires Terminal(c.state) || (c.state == Enqueued && TimeOk(c.nextAt))
    ensures Consistent(AdvanceTxn(InsertTxn(kv, row), row, c)) <==> row.nextAt != 0
  {
    hide Consistent;
    var mid, kv' := InsertTxn(kv, row), AdvanceTxn(InsertTxn(kv, row), row, c);
    assert Stored(kv', row.id) == Some(AdvancedRow(row, c));
    if row.nextAt == 0 {
      assert DueKey(0, row.id) in kv' && !Agrees(kv', 0, row.id);
      if Consistent(kv') { DueAgrees(kv', 0, row.id); }
    } else {
      FreshAdvance(kv, row, c);
    }
  }

  predicate Agrees(kv: KV, t: int, id: Id) {
    DueKey(t, id) in kv <==>
      Stored(kv, id).Some? && Stored(kv, id).value.state == Enqueued && Stored(kv, id).value.nextAt == t
  }

  lemma DueAgrees(kv: KV, t: int, id: Id)
    requires Consistent(kv)
    ensures Agrees(kv, t, id)
  {
  }

  lemma FreshAdvance(kv: KV, row: Row, c: Change)
    requires Consistent(kv) && RowKey(row.id) !in kv && row.state == Enqueued && row.nextAt != 0
    requires Terminal(c.state) || (c.state == Enqueued && TimeOk(c.nextAt))
    ensures Consistent(AdvanceTxn(InsertTxn(kv, row), row, c))
  {
    assert Stored(kv, row.id) == None;
  }

  /** For instance a row enqueued at the epoch and sent. */
  lemma EpochRowOrphansDueKey(cfg: Config, kv: KV, dest: Dest, env: Envelope, o: Outcome, now: int)
    requires Consistent(kv) && RowKey(env.id) !in kv && OutcomeOk(o, now)
    ensures var row := FreshRow(dest, env, 0);
            var kv' := ProcessTxn(cfg, EnqueueTxn(kv, dest, env, 0), row, o, now);
            DueKey(0, env.id) in kv' && !Consistent(kv')
  {
    var row := FreshRow(dest, env, 0);
    var kv' := ProcessTxn(cfg, EnqueueTxn(kv, dest, env, 0), row, o, now);
    assert Stored(kv', env.id) == Some(ProcessedRow(cfg, row, o, now));
    assert ProcessedRow(cfg, row, o, now).state == Enqueued ==> ProcessedRow(cfg, row, o, now).nextAt != 0;
    assert DueKey(0, env.id) in kv';
  }

  // ---------- kicks behind a pass ----------

  lemma KickSingle(kv: KV, id: Id, now: int)
    ensures KickTxn(kv, [id], now) == KickOne(kv, id, now)
  {
    assert [id][..|[id]| - 1] == [];
  }

  /** A kick that moves the row a pass is about to advance to an earlier time breaks the store: the pass deletes the
      due key it remembers, and the one the kick wrote outlives the row. */
  lemma KickBehindPassOrphansDueKey(cfg: Config, w: World, dest: Dest, t: int, now: int)
    requires Inv(w) && IsWorking(w, dest) && TimeOk(t) && t < w.passes[dest].queue[0].nextAt
    ensures var id := w.passes[dest].queue[0].id;
            var kv := Next(cfg, Next(cfg, w, KickWrite([id], t)), Process(dest, GoodAck, now)).kv;
            Orphan(kv, t, id) && IdsOk(kv) && Stored(kv, id).Some? && Stored(kv, id).value.state == Sent &&
              !Consistent(kv)
  {
    var row := w.passes[dest].queue[0];
    assert PassOk(w.kv, dest, w.passes[dest]) && row in w.passes[dest].queue;
    assert Current(w.kv, row) && RowKey(row.id) in w.kv;
    KickSingle(w.kv, row.id, t);
    KickOneKeeps(w.kv, row.id, t);
    var w1 := Next(cfg, w, KickWrite([row.id], t));
    assert DueKey(t, row.id) in w1.kv && IsWorking(w1, dest);
    var kv := Next(cfg, w1, Process(dest, GoodAck, now)).kv;
    assert DueKey(t, row.id) in kv && Stored(kv, row.id).value.state == Sent;
    forall j: Id ensures Stored(kv, j).Some? ==> Stored(kv, j).value.id == j {
      if j != row.id && Stored(kv, j).Some? { assert Stored(kv, j) == Stored(w.kv, j) && RowKey(j) in w.kv; }
    }
  }

  // ---------- orphans stay ----------

  /** A due key whose row, if there is one, is due at another time or not at all. */
  predicate Orphan(kv: KV, t: int, id: Id) {
    DueKey(t, id) in kv && (Stored(kv, id).Some? ==> Stored(kv, id).value.nextAt != t)
  }

  ghost predicate IdsOk(kv: KV) { forall id: Id :: Stored(kv, id).Some? ==> Stored(kv, id).value.id == id }

  datatype Txn =
    | Insert(row: Row)
    | Move(row: Row, c: Change)
    | Kick(ids: seq<Id>, now: int)
    | Collect(victims: seq<Row>)

  function Apply(kv: KV, x: Txn): KV {
    match x
    case Insert(row) => if RowKey(row.id) in kv then kv else InsertTxn(kv, row)
    case Move(row, c) => AdvanceTxn(kv, row, c)
    case Kick(ids, now) => KickTxn(kv, ids, now)
    case Collect(victims) => GcTxn(kv, victims)
  }

  /** The row advanced is the stored one. */
  predicate TxnOk(kv: KV, x: Txn) { x.Move? ==> Stored(kv, x.row.id) == Some(x.row) }

  /** The transaction makes row id due at time t. */
  predicate Schedules(x: Txn, t: int, id: Id) {
    match x
    case Insert(row) => row.id == id && row.nextAt == t
    case Move(row, c) => row.id == id && !Terminal(c.state) && c.nextAt == t
    case Kick(ids, now) => id in ids && now == t
    case Collect(_) => false
  }

  lemma KickOneLeaves(kv: KV, j: Id, now: int, t: int, id: Id)
    requires Orphan(kv, t, id) && IdsOk(kv) && !(j == id && now == t)
    ensures Orphan(KickOne(kv, j, now), t, id) && IdsOk(KickOne(kv, j, now))
  {
    var kv' := KickOne(kv, j, now);
    if Kickable(kv, j, now) {
      var row := Stored(kv, j).value;
      assert row.id == j;
      forall i: Id
        ensures Stored(kv', i) == if i == j then Some(row.(nextAt := now, kicked := true)) else Stored(kv, i)
      {
      }
    }
  }

  lemma {:induction false} KickLeaves(kv: KV, ids: seq<Id>, now: int, t: int, id: Id)
    requires Orphan(kv, t, id) && IdsOk(kv) && !(id in ids && now == t)
    ensures Orphan(KickTxn(kv, ids, now), t, id) && IdsOk(KickTxn(kv, ids, now))
  {
    if ids != [] {
      assert ids == ids[..|ids| - 1] + [ids[|ids| - 1]];
      KickLeaves(kv, ids[..|ids| - 1], now, t, id);
      KickOneLeaves(KickTxn(kv, ids[..|ids| - 1], now), ids[|ids| - 1], now, t, id);
    }
  }

  lemma {:induction false} CollectLeaves(kv: KV, victims: seq<Row>, t: int, id: Id)
    requires Orphan(kv, t, id) && IdsOk(kv)
    ensures Orphan(GcTxn(kv, victims), t, id) && IdsOk(GcTxn(kv, victims))
  {
    if victims != [] {
      var n := |victims| - 1;
      CollectLeaves(kv, victims[..n], t, id);
      var mid, kv' := GcTxn(kv, victims[..n]), GcTxn(kv, victims);
      forall i: Id ensures Stored(kv', i) == if i == victims[n].id then None else Stored(mid, i) { }
    }
  }

  lemma InsertLeaves(kv: KV, row: Row, t: int, id: Id)
    requires Orphan(kv, t, id) && IdsOk(kv) && !(row.id == id && row.nextAt == t)
    ensures Orphan(InsertTxn(kv, row), t, id) && IdsOk(InsertTxn(kv, row))
  {
    forall i: Id ensures Stored(InsertTxn(kv, row), i) == if i == row.id then Some(row) else Stored(kv, i) { }
  }

  lemma MoveLeaves(kv: KV, row: Row, c: Change, t: int, id: Id)
    requires Orphan(kv, t, id) && IdsOk(kv) && Stored(kv, row.id) == Some(row) && t != 0
    requires !(row.id == id && !Terminal(c.state) && c.nextAt == t)
    ensures Orphan(AdvanceTxn(kv, row, c), t, id) && IdsOk(AdvanceTxn(kv, row, c))
  {
    var kv' := AdvanceTxn(kv, row, c);
    forall i: Id ensures Stored(kv', i) == if i == row.id then Some(AdvancedRow(row, c)) else Stored(kv, i) { }
  }

  ghost predicate TxnsOk(kv: KV, xs: seq<Txn>)
    decreases |xs|
  {
    xs == [] || (TxnOk(kv, xs[0]) && TxnsOk(Apply(kv, xs[0]), xs[1..]))
  }

  function ApplyAll(kv: KV, xs: seq<Txn>): KV
    decreases |xs|
  {
    if xs == [] then kv else ApplyAll(Apply(kv, xs[0]), xs[1..])
  }

  /** No transaction that works from the stored row removes an orphaned due key, be it a send of the finished row,
      a kick, a collection of the row, or the same id enqueued again, unless it makes the row due at that very time. */
  lemma {:induction false} OrphansStay(kv: KV, xs: seq<Txn>, t: int, id: Id)
    requires Orphan(kv, t, id) && IdsOk(kv) && t != 0 && TxnsOk(kv, xs) && forall x | x in xs :: !Schedules(x, t, id)
    ensures Orphan(ApplyAll(kv, xs), t, id)
    decreases |xs|
  {
    if xs != [] {
      hide Orphan, IdsOk;
      var x := xs[0];
      assert x in xs;
      match x {
        case Insert(row) => if RowKey(row.id) !in kv { InsertLeaves(kv, row, t, id); }
        case Move(row, c) => MoveLeaves(kv, row, c, t, id);
        case Kick(ids, now) => KickLeaves(kv, ids, now, t, id);
        case Collect(victims) => CollectLeaves(kv, victims, t, id);
      }
      OrphansStay(Apply(kv, x), xs[1..], t, id);
    }
  }

  // ---------- a listed id taken afresh ----------

  /** The step may happen by the clock and leads to the other world. */
  ghost predicate Goes(cfg: Config, w: World, s: Step, w': World) { KickTimed(w, s) && Next(cfg, w, s) == w' }

  lemma {:induction false} FollowTimed(cfg: Config, ws: seq<World>, steps: seq<Step>)
    requires |ws| == |steps| + 1
    requires forall k | 0 <= k < |steps| :: Goes(cfg, ws[k], steps[k], ws[k + 1])
    ensures IsTimedRun(cfg, ws[0], steps) && After(cfg, ws[0], steps) == ws[|steps|]
    decreases |steps|
  {
    if steps != [] { FollowTimed(cfg, ws[1..], steps[1..]); }
  }

  lemma {:induction false} JoinTimed(cfg: Config, w: World, xs: seq<Step>, ys: seq<Step>)
    requires IsTimedRun(cfg, w, xs) && IsTimedRun(cfg, After(cfg, w, xs), ys)
    ensures IsTimedRun(cfg, w, xs + ys) && After(cfg, w, xs + ys) == After(cfg, After(cfg, w, xs), ys)
    decreases |xs|
  {
    if xs == [] {
      assert xs + ys == ys;
    } else {
      assert (xs + ys)[0] == xs[0] && (xs + ys)[1..] == xs[1..] + ys;
      JoinTimed(cfg, Next(cfg, w, xs[0]), xs[1..], ys);
    }
  }

  const LATER := GC_SENT_AGE + 1

  /** A pass over one destination has listed the id of another destination's row, and that row is sent and collected
      before the pass loads it. */
  function ListedSteps(dest: Dest, other: Dest, env: Envelope): seq<Step> {
    [Enqueue(other, env, 1), StartPass(dest, 1, [env.id]), StartPass(other, 1, [env.id]), LoadNext(other),
     OrderRows(other),
     Process(other, GoodAck, 1), EndPass(other), GcScan(LATER, [SentRow(other, env)]), GcWrite]
  }

  function SentRow(dest: Dest, env: Envelope): Row {
    AdvancedRow(FreshRow(dest, env, 1), Change(Sent, 0, 1, 0, 0, [], 1))
  }

  /** The id is then enqueued for the listing destination, loaded, kicked to before its due time, and sent. */
  function ReusedSteps(dest: Dest, env: Envelope): seq<Step> {
    [Enqueue(dest, env, LATER + 2), LoadNext(dest), OrderRows(dest), KickWrite([env.id], LATER + 1),
     Process(dest, GoodAck, LATER + 2)]
  }

  function ListedWorld(dest: Dest, env: Envelope): World {
    World(map[], map[dest := Loading(1, [env.id], [])], None, {})
  }

  function KvOf(row: Row): KV {
    map[RowKey(row.id) := RowVal(row), DueKey(row.nextAt, row.id) := IdVal(row.id),
        StateKey(Enqueued, row.id) := EmptyVal]
  }

  function KvSent(row: Row): KV { map[RowKey(row.id) := RowVal(row), StateKey(Sent, row.id) := EmptyVal] }

  lemma EnqueueGoes(cfg: Config, w: World, dest: Dest, env: Envelope, now: int)
    requires w.kv == map[] && env.id != [] && TimeOk(now)
    ensures Goes(cfg, w, Enqueue(dest, env, now),
            w.(kv := KvOf(FreshRow(dest, env, now)), fromEnqueue := w.fromEnqueue + {env.id}))
  {
  }

  lemma StartGoes(cfg: Config, w: World, dest: Dest, row: Row)
    requires w.kv == KvOf(row) && row.state == Enqueued && dest !in w.passes
    ensures Goes(cfg, w, StartPass(dest, row.nextAt, [row.id]),
            w.(passes := w.passes[dest := Loading(row.nextAt, [row.id], [])]))
  {
    assert Stored(w.kv, row.id) == Some(row);
    assert ListsDue(w.kv, row.nextAt, [row.id]);
  }

  lemma LoadGoes(cfg: Config, w: World, dest: Dest, row: Row, now: int)
    requires w.kv == KvOf(row) && dest in w.passes && w.passes[dest] == Loading(now, [row.id], [])
    ensures Goes(cfg, w, LoadNext(dest), w.(passes := w.passes[dest := Loading(now, [], [row])]))
  {
    var p := w.passes[dest];
    assert Stored(w.kv, row.id) == Some(row) && p.toLoad[1..] == [] && p.loaded + [row] == [row];
  }

  lemma OrderGoes(cfg: Config, w: World, dest: Dest, row: Row, now: int)
    requires row.dest == dest && row.attempts == 0 && dest in w.passes && w.passes[dest] == Loading(now, [], [row])
    ensures Goes(cfg, w, OrderRows(dest), w.(passes := w.passes[dest := Working(now, [row])]))
  {
    OneRowPass(row, dest);
  }

  lemma ProcessGoes(cfg: Config, w: World, dest: Dest, row: Row, t: int, now: int)
    requires dest in w.passes && w.passes[dest] == Working(t, [row])
    ensures Goes(cfg, w, Process(dest, GoodAck, now),
                 w.(kv := ProcessTxn(cfg, w.kv, row, GoodAck, now), passes := w.passes[dest := Working(t, [])]))
  {
    hide ProcessTxn;
    assert w.passes[dest].queue[1..] == [];
  }

  lemma EndGoes(cfg: Config, w: World, dest: Dest)
    requires dest in w.passes
    ensures Goes(cfg, w, EndPass(dest), w.(passes := w.passes - {dest}))
  {
  }

  lemma CollectGoes(cfg: Config, w: World, row: Row)
    requires w.kv == KvSent(row) && row.state == Sent && row.changedAt == 1 && w.gc.None? && w.fromEnqueue == {row.id}
    ensures Goes(cfg, w, GcScan(LATER, [row]), w.(gc := Some([row])))
    ensures Goes(cfg, w.(gc := Some([row])), GcWrite, w.(kv := map[], fromEnqueue := {}))
  {
    hide GcTxn;
    OneVictim(w.kv, row.id, row);
    CollectOnly(w.kv, row);
    assert VictimIds([row]) == {row.id};
  }

  lemma KickGoes(cfg: Config, w: World, row: Row, t: int)
    requires w.kv == KvOf(row) && row.state == Enqueued && TimeOk(t) && t < row.nextAt && KickNotBehind(w, t)
    ensures Goes(cfg, w, KickWrite([row.id], t), w.(kv := KvOf(row.(nextAt := t, kicked := true))))
  {
    hide KickTxn;
    KickOnly(row, t);
  }

  lemma SendOnly(cfg: Config, dest: Dest, env: Envelope)
    ensures ProcessTxn(cfg, KvOf(FreshRow(dest, env, 1)), FreshRow(dest, env, 1), GoodAck, 1) ==
            KvSent(SentRow(dest, env))
  {
  }

  lemma ListedRun(cfg: Config, dest: Dest, other: Dest, env: Envelope)
    requires env.id != [] && dest != other
    ensures IsTimedRun(cfg, Start(map[]), ListedSteps(dest, other, env))
    ensures After(cfg, Start(map[]), ListedSteps(dest, other, env)) == ListedWorld(dest, env)
  {
    hide IsTimedRun, After, Goes, KvOf, KvSent, FreshRow, SentRow;
    var id, row, sent := env.id, FreshRow(other, env, 1), SentRow(other, env);
    FreshIs(other, env, 1);
    SentIs(other, env);
    var p: Pass := Loading(1, [id], []);
    var w0 := Start(map[]);
    var w1 := w0.(kv := KvOf(row), fromEnqueue := w0.fromEnqueue + {id});
    var w2 := w1.(passes := w1.passes[dest := p]);
    var w3 := w2.(passes := w2.passes[other := p]);
    var w4 := w3.(passes := w3.passes[other := Loading(1, [], [row])]);
    var w5 := w4.(passes := w4.passes[other := Working(1, [row])]);
    var w6 := w5.(kv := KvSent(sent), passes := w5.passes[other := Working(1, [])]);
    var w7 := w6.(passes := w6.passes - {other});
    var w8 := w7.(gc := Some([sent]));
    var w9 := w7.(kv := map[], fromEnqueue := {});
    EnqueueGoes(cfg, w0, other, env, 1);
    StartGoes(cfg, w1, dest, row);
    StartGoes(cfg, w2, other, row);
    LoadGoes(cfg, w3, other, row, 1);
    OrderGoes(cfg, w4, other, row, 1);
    SendOnly(cfg, other, env);
    ProcessGoes(cfg, w5, other, row, 1, 1);
    EndGoes(cfg, w6, other);
    assert w7.passes == map[dest := p] && w7.fromEnqueue == {id};
    CollectGoes(cfg, w7, sent);
    var steps := ListedSteps(dest, other, env);
    FollowTimed(cfg, [w0, w1, w2, w3, w4, w5, w6, w7, w8, w9], steps);
  }

  lemma FreshIs(dest: Dest, env: Envelope, now: int)
    ensures var row := FreshRow(dest, env, now);
            row.id == env.id && row.dest == dest && row.state == Enqueued && row.attempts == 0 && row.nextAt == now
  {
  }

  lemma SentIs(dest: Dest, env: Envelope)
    ensures var row := SentRow(dest, env); row.id == env.id && row.state == Sent && row.changedAt == 1
  {
  }

  lemma OneRowPass(row: Row, dest: Dest)
    requires row.dest == dest && row.attempts == 0
    ensures Ordered(RowsForDest([row], dest)) == [row]
  {
    assert [row][..0] == [];
    assert RowsForDest([row], dest) == [row];
    assert Group([row], true) == [row] && Group([row], false) == [];
  }

  lemma OneVictim(kv: KV, id: Id, row: Row)
    requires row.id == id && row.state == Sent && row.changedAt == 1
    requires kv == map[RowKey(id) := RowVal(row), StateKey(Sent, id) := EmptyVal]
    ensures forall r: Row :: r in [row] <==> Stored(kv, r.id) == Some(r) && GcVictim(r, LATER)
  {
  }

  lemma CollectOnly(kv: KV, row: Row)
    requires kv == map[RowKey(row.id) := RowVal(row), StateKey(Sent, row.id) := EmptyVal] && row.state == Sent
    ensures GcTxn(kv, [row]) == map[]
  {
    assert [row][..0] == [];
    assert kv - {RowKey(row.id), StateKey(Sent, row.id)} == map[];
  }

  lemma ReusedRun(cfg: Config, dest: Dest, env: Envelope)
    requires env.id != []
    ensures IsTimedRun(cfg, ListedWorld(dest, env), ReusedSteps(dest, env))
    ensures var kv := After(cfg, ListedWorld(dest, env), ReusedSteps(dest, env)).kv;
            Stored(kv, env.id).Some? && Stored(kv, env.id).value.state == Sent && Orphan(kv, LATER + 1, env.id)
  {
    hide IsTimedRun, After, Goes, KvOf, FreshRow, ProcessTxn, Orphan;
    var id, row, t := env.id, FreshRow(dest, env, LATER + 2), LATER + 1;
    FreshIs(dest, env, LATER + 2);
    var kicked := row.(nextAt := t, kicked := true);
    var w0 := ListedWorld(dest, env);
    var w1 := w0.(kv := KvOf(row), fromEnqueue := w0.fromEnqueue + {id});
    var w2 := w1.(passes := w1.passes[dest := Loading(1, [], [row])]);
    var w3 := w2.(passes := w2.passes[dest := Working(1, [row])]);
    var w4 := w3.(kv := KvOf(kicked));
    var w5 := w4.(kv := ProcessTxn(cfg, w4.kv, row, GoodAck, LATER + 2), passes := w4.passes[dest := Working(1, [])]);
    EnqueueGoes(cfg, w0, dest, env, LATER + 2);
    LoadGoes(cfg, w1, dest, row, 1);
    OrderGoes(cfg, w2, dest, row, 1);
    KickGoes(cfg, w3, row, t);
    ProcessGoes(cfg, w4, dest, row, 1, LATER + 2);
    SendKicked(cfg, dest, env);
    var steps := ReusedSteps(dest, env);
    FollowTimed(cfg, [w0, w1, w2, w3, w4, w5], steps);
  }

  lemma KickOnly(row: Row, t: int)
    requires row.state == Enqueued && t < row.nextAt
    ensures KickTxn(KvOf(row), [row.id], t) == KvOf(row.(nextAt := t, kicked := true))
  {
    KickSingle(KvOf(row), row.id, t);
    assert Stored(KvOf(row), row.id) == Some(row);
  }

  lemma SendKicked(cfg: Config, dest: Dest, env: Envelope)
    ensures var row := FreshRow(dest, env, LATER + 2);
            var kv := ProcessTxn(cfg, KvOf(row.(nextAt := LATER + 1, kicked := true)), row, GoodAck, LATER + 2);
            Stored(kv, env.id).Some? && Stored(kv, env.id).value.state == Sent && Orphan(kv, LATER + 1, env.id)
  {
  }

  /** From the empty store, with every kick later than every running pass: an id that a pass had listed for one
      destination is enqueued for the other before it is loaded, and a kick then orphans a due key. */
  lemma ReusedIdOrphansDueKey(cfg: Config, dest: Dest, other: Dest, env: Envelope)
    requires env.id != [] && dest != other
    ensures var steps := ListedSteps(dest, other, env) + ReusedSteps(dest, env);
            IsTimedRun(cfg, Start(map[]), steps) &&
            var kv := After(cfg, Start(map[]), steps).kv;
            Stored(kv, env.id).Some? && Stored(kv, env.id).value.state == Sent && Orphan(kv, LATER + 1, env.id) &&
              !Consistent(kv)
  {
    ListedRun(cfg, dest, other, env);
    ReusedRun(cfg, dest, env);
    JoinTimed(cfg, Start(map[]), ListedSteps(dest, other, env), ReusedSteps(dest, env));
  }
}
