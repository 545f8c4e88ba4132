/** All interleavings of the outbox's concurrent parts: enqueueing, migration, kicks, collections and one
    drain pass per destination, each working from rows it read earlier. */
module OutboxProtocol {
  import opened Bytes
  import opened Xport
  import opened OutboxKeys
  import opened OutboxModel
  import opened OutboxStore

  /** A drain pass first loads, one transaction each, the ids its scan listed, and then works through the
      loaded rows of its own destination. `now` is the time its scan used. */
  datatype Pass =
    | Loading(now: int, toLoad: seq<Id>, loaded: seq<Row>)
    | Working(now: int, queue: seq<Row>)

  /** `gc` holds the rows the running collection has read and will delete; `fromEnqueue` the ids whose stored
      row came from Enqueue rather than from the legacy queue. */
  datatype World = World(kv: KV, passes: map<Dest, Pass>, gc: Option<seq<Row>>, fromEnqueue: set<Id>)

  datatype Step =
    | Enqueue(dest: Dest, env: Envelope, now: int)
    | MigrateEntry(suffix: Bytes, entry: LegacyEntry, now: int)
    | StartPass(dest: Dest, now: int, ids: seq<Id>)
    | LoadNext(dest: Dest)
    | OrderRows(dest: Dest)
    | Process(dest: Dest, outcome: Outcome, now: int)
    | SkipRow(dest: Dest)
    | EndPass(dest: Dest)
    | KickWrite(ids: seq<Id>, now: int)
    | GcScan(now: int, victims: seq<Row>)
    | GcWrite
    | GcAbandon

  predicate IsLoading(w: World, dest: Dest) { dest in w.passes && w.passes[dest].Loading? }

  predicate IsWorking(w: World, dest: Dest) {
    dest in w.passes && w.passes[dest].Working? && w.passes[dest].queue != []
  }

  /** Some pass has already loaded this row for its own destination. */
  ghost predicate HeldBy(w: World, dest: Dest, id: Id) {
    dest in w.passes && exists row: Row ::
      row in (if w.passes[dest].Loading? then w.passes[dest].loaded else w.passes[dest].queue) &&
      row.id == id && row.dest == dest
  }

  /** The kick moves no row that a running pass has loaded. */
  ghost predicate KickHarmless(w: World, ids: seq<Id>, now: int) {
    forall d: Dest, id: Id | id in ids && Kickable(w.kv, id, now) :: !HeldBy(w, d, id)
  }

  /** When a step may happen. A kick's read phase needs no step of its own: its write phase is allowed for any
      list of ids. One worker runs per destination and one collection at a time; a collection whose write fails, or
      that is cut off before it, is abandoned. */
  ghost predicate Enabled(w: World, s: Step) {
    match s
    case Enqueue(dest, env, now) => TimeOk(now) && env.id != []
    case MigrateEntry(_, e, now) => TimeOk(now)
    case StartPass(dest, now, ids) => dest !in w.passes && ListsDue(w.kv, now, ids)
    case LoadNext(dest) => IsLoading(w, dest) && w.passes[dest].toLoad != []
    case OrderRows(dest) => IsLoading(w, dest) && w.passes[dest].toLoad == []
    case Process(dest, o, now) => IsWorking(w, dest) && OutcomeOk(o, now)
    case SkipRow(dest) => IsWorking(w, dest)
    case EndPass(dest) => dest in w.passes
    case KickWrite(ids, now) => TimeOk(now) && KickHarmless(w, ids, now)
    case GcScan(now, victims) => w.gc.None? &&
      forall row: Row :: row in victims <==> Stored(w.kv, row.id) == Some(row) && GcVictim(row, now)
    case GcWrite => w.gc.Some?
    case GcAbandon => w.gc.Some?
  }

  function VictimIds(victims: seq<Row>): set<Id> { set v | v in victims :: v.id }

  function Next(cfg: Config, w: World, s: Step): World {
    match s
    case Enqueue(dest, env, now) =>
      if RowKey(env.id) in w.kv then w
      else w.(kv := EnqueueTxn(w.kv, dest, env, now), fromEnqueue := w.fromEnqueue + {env.id})
    case MigrateEntry(suffix, e, now) => w.(kv := MigrateTxn(w.kv, suffix, e, now))
    case StartPass(dest, now, ids) => w.(passes := w.passes[dest := Loading(now, ids, [])])
    case LoadNext(dest) =>
      if !IsLoading(w, dest) || w.passes[dest].toLoad == [] then w
      else
        var p := w.passes[dest];
        var r := Stored(w.kv, p.toLoad[0]);
        var loaded := if r.Some? then p.loaded + [r.value] else p.loaded;
        w.(passes := w.passes[dest := Loading(p.now, p.toLoad[1..], loaded)])
    case OrderRows(dest) =>
      if !IsLoading(w, dest) then w
      else
        var p := w.passes[dest];
        w.(passes := w.passes[dest := Working(p.now, Ordered(RowsForDest(p.loaded, dest)))])
    case Process(dest, o, now) =>
      if !IsWorking(w, dest) then w
      else
        var p := w.passes[dest];
        w.(kv := ProcessTxn(cfg, w.kv, p.queue[0], o, now), passes := w.passes[dest := Working(p.now, p.queue[1..])])
    case SkipRow(dest) =>
      if !IsWorking(w, dest) then w
      else w.(passes := w.passes[dest := Working(w.passes[dest].now, w.passes[dest].queue[1..])])
    case EndPass(dest) => w.(passes := w.passes - {dest})
    case KickWrite(ids, now) => w.(kv := KickTxn(w.kv, ids, now))
    case GcScan(_, victims) => w.(gc := Some(victims))
    case GcWrite =>
      if w.gc.None? then w
      else w.(kv := GcTxn(w.kv, w.gc.value), gc := None, fromEnqueue := w.fromEnqueue - VictimIds(w.gc.value))
    case GcAbandon => w.(gc := None)
  }

  // ---------- the invariant ----------

  /** The row a pass holds is the row the store holds, still enqueued. */
  predicate Current(kv: KV, row: Row) { Stored(kv, row.id) == Some(row) && row.state == Enqueued }

  predicate ListedOk(kv: KV, dest: Dest, id: Id) {
    var r := Stored(kv, id);
    r.Some? && r.value.dest == dest ==> r.value.state == Enqueued
  }

  predicate DistinctIds(rows: seq<Row>) { forall i, j | 0 <= i < j < |rows| :: rows[i].id != rows[j].id }

  ghost predicate PassOk(kv: KV, dest: Dest, p: Pass) {
    match p
    case Loading(_, toLoad, loaded) =>
      && (forall id | id in toLoad :: ListedOk(kv, dest, id))
      && (forall row | row in loaded && row.dest == dest :: Current(kv, row))
      && DistinctIds(loaded)
      && (forall i, j | 0 <= i < j < |toLoad| :: toLoad[i] != toLoad[j])
      && (forall row | row in loaded :: row.id !in toLoad)
    case Working(_, queue) =>
      && (forall row | row in queue :: row.dest == dest && Current(kv, row))
      && DistinctIds(queue)
  }

  ghost predicate Inv(w: World) {
    && Consistent(w.kv)
    && (forall d: Dest | d in w.passes :: PassOk(w.kv, d, w.passes[d]))
    && (w.gc.Some? ==> forall v | v in w.gc.value :: VictimCurrent(w.kv, v))
  }

  // ---------- every step keeps it ----------

  /** A pass survives any change of the store that leaves the rows it depends on alone. */
  lemma PassFrame(kv: KV, kv': KV, dest: Dest, p: Pass)
    requires PassOk(kv, dest, p)
    requires forall row: Row | row.dest == dest && Current(kv, row) :: Stored(kv', row.id) == Some(row)
    requires p.Loading? ==> forall id | id in p.toLoad :: ListedOk(kv', dest, id)
    ensures PassOk(kv', dest, p)
  {
  }

  /** Rows a pass depends on stay; so does every id it has listed, unless a new row takes it. */
  ghost predicate KeepsDue(kv: KV, kv': KV, dest: Dest) {
    && (forall row: Row | row.dest == dest && Current(kv, row) :: Stored(kv', row.id) == Some(row))
    && (forall id: Id | ListedOk(kv, dest, id) :: ListedOk(kv', dest, id))
  }

  lemma PassesFrame(w: World, kv': KV)
    requires Inv(w)
    requires forall d: Dest | d in w.passes :: KeepsDue(w.kv, kv', d)
    ensures forall d: Dest | d in w.passes :: PassOk(kv', d, w.passes[d])
  {
    forall d: Dest | d in w.passes ensures PassOk(kv', d, w.passes[d]) {
      assert KeepsDue(w.kv, kv', d);
      PassFrame(w.kv, kv', d, w.passes[d]);
    }
  }

  lemma InsertStep(w: World, row: Row, kv': KV)
    requires Inv(w) && RowKey(row.id) !in w.kv
    requires row.state == Enqueued && Consistent(kv')
    requires Stored(kv', row.id) == Some(row) && OnlyRowChanged(w.kv, kv', row.id)
    ensures forall d: Dest | d in w.passes :: PassOk(kv', d, w.passes[d])
    ensures w.gc.Some? ==> forall v | v in w.gc.value :: VictimCurrent(kv', v)
  {
    assert Stored(w.kv, row.id) == None;
    forall d: Dest | d in w.passes ensures PassOk(kv', d, w.passes[d]) {
      assert PassOk(w.kv, d, w.passes[d]);
      PassFrame(w.kv, kv', d, w.passes[d]);
    }
  }

  lemma EnqueueStep(cfg: Config, w: World, s: Step)
    requires Inv(w) && Enabled(w, s) && (s.Enqueue? || s.MigrateEntry?)
    ensures Inv(Next(cfg, w, s))
  {
    var id := if s.Enqueue? then s.env.id else s.entry.envelope.id;
    if id != [] && RowKey(id) !in w.kv {
      var row := if s.Enqueue? then FreshRow(s.dest, s.env, s.now) else MigratedRow(s.entry, s.now);
      InsertKeeps(w.kv, row);
      if s.MigrateEntry? { DropLegacyKeeps(InsertTxn(w.kv, row), s.suffix); }
      InsertStep(w, row, Next(cfg, w, s).kv);
    }
  }

  lemma StartStep(cfg: Config, w: World, s: Step)
    requires Inv(w) && Enabled(w, s) && s.StartPass?
    ensures Inv(Next(cfg, w, s))
  {
    forall id | id in s.ids ensures ListedOk(w.kv, s.dest, id) { assert Due(w.kv, id, s.now); }
    forall i, j | 0 <= i < j < |s.ids| ensures s.ids[i] != s.ids[j] {
      if s.ids[i] == s.ids[j] { LexIrreflexive(Stored(w.kv, s.ids[i]).value.id); }
    }
  }

  lemma LoadStep(cfg: Config, w: World, s: Step)
    requires Inv(w) && Enabled(w, s) && s.LoadNext?
    ensures Inv(Next(cfg, w, s))
  {
    var p := w.passes[s.dest];
    var id := p.toLoad[0];
    assert id in p.toLoad && ListedOk(w.kv, s.dest, id);
    var r := Stored(w.kv, id);
    if r.Some? { assert RowKey(id) in w.kv && r.value.id == id; }
    var p' := Next(cfg, w, s).passes[s.dest];
    forall i | 0 <= i < |p'.toLoad| ensures p'.toLoad[i] == p.toLoad[i + 1] {}
    assert id !in p'.toLoad;
    assert PassOk(w.kv, s.dest, p');
  }

  lemma {:induction false} GroupSubset(rows: seq<Row>, untried: bool)
    requires DistinctIds(rows)
    ensures DistinctIds(Group(rows, untried))
    ensures forall row :: row in Group(rows, untried) ==> row in rows && (row.attempts == 0) == untried
  {
    if rows != [] { GroupSubset(rows[..|rows| - 1], untried); }
  }

  lemma {:induction false} DestSubset(rows: seq<Row>, dest: Dest)
    requires DistinctIds(rows)
    ensures DistinctIds(RowsForDest(rows, dest))
    ensures forall row :: row in RowsForDest(rows, dest) ==> row in rows && row.dest == dest
  {
    if rows != [] { DestSubset(rows[..|rows| - 1], dest); }
  }

  lemma SameIdSameRow(rows: seq<Row>, a: Row, b: Row)
    requires DistinctIds(rows) && a in rows && b in rows && a.id == b.id
    ensures a == b
  {
    var i :| 0 <= i < |rows| && rows[i] == a;
    var j :| 0 <= j < |rows| && rows[j] == b;
  }

  lemma OrderStep(cfg: Config, w: World, s: Step)
    requires Inv(w) && Enabled(w, s) && s.OrderRows?
    ensures Inv(Next(cfg, w, s))
  {
    var p := w.passes[s.dest];
    assert PassOk(w.kv, s.dest, p);
    DestSubset(p.loaded, s.dest);
    var mine := RowsForDest(p.loaded, s.dest);
    GroupSubset(mine, true);
    GroupSubset(mine, false);
    var a, b := Group(mine, true), Group(mine, false);
    var q := Ordered(mine);
    forall i, j | 0 <= i < j < |q| ensures q[i].id != q[j].id {
      if i < |a| <= j {
        assert q[i] in a && q[j] in b;
        if q[i].id == q[j].id { SameIdSameRow(mine, q[i], q[j]); }
      }
    }
    assert PassOk(w.kv, s.dest, Working(p.now, q));
  }

  lemma ProcessStep(cfg: Config, w: World, s: Step)
    requires Inv(w) && Enabled(w, s) && s.Process?
    ensures Inv(Next(cfg, w, s))
    ensures Stored(w.kv, w.passes[s.dest].queue[0].id) == Some(w.passes[s.dest].queue[0])
  {
    var p := w.passes[s.dest];
    var row := p.queue[0];
    assert PassOk(w.kv, s.dest, p) && row in p.queue && Current(w.kv, row);
    ProcessKeeps(cfg, w.kv, row, s.outcome, s.now);
    var w' := Next(cfg, w, s);
    forall d: Dest | d in w'.passes ensures PassOk(w'.kv, d, w'.passes[d]) {
      if d != s.dest {
        assert PassOk(w.kv, d, w.passes[d]);
        PassFrame(w.kv, w'.kv, d, w.passes[d]);
      }
    }
  }

  lemma KickStep(cfg: Config, w: World, s: Step)
    requires Inv(w) && Enabled(w, s) && s.KickWrite?
    ensures Inv(Next(cfg, w, s))
  {
    KickKeeps(w.kv, s.ids, s.now);
    HarmlessKick(w, s.ids, s.now);
  }

  /** A kick leaves each row a pass has loaded, and the others enqueued. */
  lemma HarmlessKick(w: World, ids: seq<Id>, now: int)
    requires Inv(w) && TimeOk(now) && KickHarmless(w, ids, now)
    ensures forall d: Dest | d in w.passes :: PassOk(KickTxn(w.kv, ids, now), d, w.passes[d])
  {
    KickKeeps(w.kv, ids, now);
    var kv' := KickTxn(w.kv, ids, now);
    forall d: Dest | d in w.passes ensures PassOk(kv', d, w.passes[d]) {
      assert PassOk(w.kv, d, w.passes[d]);
      var p := w.passes[d];
      forall row | row in (if p.Loading? then p.loaded else p.queue) && row.dest == d ensures Current(kv', row) {
        assert HeldBy(w, d, row.id);
      }
    }
  }

  lemma GcStep(cfg: Config, w: World, s: Step)
    requires Inv(w) && Enabled(w, s) && s.GcWrite?
    ensures Inv(Next(cfg, w, s))
  {
    GcKeeps(w.kv, w.gc.value);
    var kv' := GcTxn(w.kv, w.gc.value);
    forall row: Row | Stored(w.kv, row.id) == Some(row) && row.state == Enqueued
      ensures Stored(kv', row.id) == Some(row)
    {
      forall v | v in w.gc.value ensures v.id != row.id { assert VictimCurrent(w.kv, v); }
    }
    PassesFrame(w, kv');
  }

  lemma StepKeepsInv(cfg: Config, w: World, s: Step)
    requires Inv(w) && Enabled(w, s)
    ensures Inv(Next(cfg, w, s))
  {
    match s
    case Enqueue(_, _, _) => EnqueueStep(cfg, w, s);
    case MigrateEntry(_, _, _) => EnqueueStep(cfg, w, s);
    case StartPass(_, _, _) => StartStep(cfg, w, s);
    case LoadNext(_) => LoadStep(cfg, w, s);
    case OrderRows(_) => OrderStep(cfg, w, s);
    case Process(_, _, _) => ProcessStep(cfg, w, s);
    case SkipRow(dest) => assert PassOk(w.kv, dest, w.passes[dest]);
    case EndPass(_) =>
    case KickWrite(_, _) => KickStep(cfg, w, s);
    case GcScan(_, _) =>
    case GcWrite => GcStep(cfg, w, s);
    case GcAbandon =>
  }

  // ---------- whole runs ----------

  ghost predicate IsRun(cfg: Config, w: World, steps: seq<Step>)
    decreases |steps|
  {
    steps == [] || (Enabled(w, steps[0]) && IsRun(cfg, Next(cfg, w, steps[0]), steps[1..]))
  }

  function After(cfg: Config, w: World, steps: seq<Step>): World
    decreases |steps|
  {
    if steps == [] then w else After(cfg, Next(cfg, w, steps[0]), steps[1..])
  }

  /** Safety over every run whose kicks move no loaded row: rows and index keys agree, and whatever row a pass is
      about to advance is exactly the row stored, so no update made by anybody else is ever overwritten. */
  lemma {:induction false} RunKeepsInv(cfg: Config, w: World, steps: seq<Step>)
    requires Inv(w) && IsRun(cfg, w, steps)
    ensures Inv(After(cfg, w, steps))
    decreases |steps|
  {
    if steps != [] {
      StepKeepsInv(cfg, w, steps[0]);
      RunKeepsInv(cfg, Next(cfg, w, steps[0]), steps[1..]);
    }
  }

  lemma NoLostUpdate(cfg: Config, w: World, steps: seq<Step>, dest: Dest)
    requires Inv(w) && IsRun(cfg, w, steps) && IsWorking(After(cfg, w, steps), dest)
    ensures var w' := After(cfg, w, steps); var row := w'.passes[dest].queue[0];
            Stored(w'.kv, row.id) == Some(row) && StateKey(Enqueued, row.id) in w'.kv &&
              DueKey(row.nextAt, row.id) in w'.kv
  {
    RunKeepsInv(cfg, w, steps);
    var w' := After(cfg, w, steps);
    assert PassOk(w'.kv, dest, w'.passes[dest]) && w'.passes[dest].queue[0] in w'.passes[dest].queue;
  }

  function Start(kv: KV): World { World(kv, map[], None, {}) }

  lemma StartsInInv(cfg: Config, kv: KV)
    requires Consistent(kv)
    ensures Inv(Start(kv)) && LifeOk(cfg, Start(kv)) && Timed(Start(kv))
  {
  }

  /** What every run over a store whose rows and keys agree, the empty one for instance, comes to. */
  lemma RunsFromStart(cfg: Config, kv: KV, steps: seq<Step>)
    requires Consistent(kv) && ConfigOk(cfg) && IsRun(cfg, Start(kv), steps)
    ensures var w := After(cfg, Start(kv), steps); Consistent(w.kv) && Inv(w) && LifeOk(cfg, w)
  {
    StartsInInv(cfg, kv);
    RunKeepsInv(cfg, Start(kv), steps);
    RunKeepsLife(cfg, Start(kv), steps);
  }

  // ---------- kicks and the clock ----------

  /** A kick's write is safe exactly when it moves no row that a running pass has loaded. */
  lemma KickSafeIff(cfg: Config, w: World, ids: seq<Id>, now: int)
    requires Inv(w) && TimeOk(now)
    ensures Inv(Next(cfg, w, KickWrite(ids, now))) <==> KickHarmless(w, ids, now)
  {
    KickKeeps(w.kv, ids, now);
    var w' := Next(cfg, w, KickWrite(ids, now));
    if KickHarmless(w, ids, now) { HarmlessKick(w, ids, now); }
    if Inv(w') {
      forall d: Dest, id: Id | id in ids && Kickable(w.kv, id, now) ensures !HeldBy(w, d, id) {
        if d in w.passes {
          assert PassOk(w.kv, d, w.passes[d]);
          assert PassOk(w'.kv, d, w'.passes[d]);
        }
      }
    }
  }

  /** A kick must not be older than a pass that is still running. */
  ghost predicate KickNotBehind(w: World, now: int) {
    forall d: Dest | d in w.passes :: w.passes[d].now <= now
  }

  /** A new row does not take, for the same destination and at a later time, an id that a running pass has listed
      and not loaded. */
  predicate IdNotListed(w: World, dest: Dest, id: Id, now: int) {
    IsLoading(w, dest) && id in w.passes[dest].toLoad ==> now <= w.passes[dest].now
  }

  /** Kicks go by the clock instead of by what passes have loaded. */
  ghost predicate KickTimed(w: World, s: Step) {
    if s.KickWrite? then TimeOk(s.now) && KickNotBehind(w, s.now) else Enabled(w, s)
  }

  predicate FreshId(w: World, s: Step) {
    match s
    case Enqueue(dest, env, now) => IdNotListed(w, dest, env.id, now)
    case MigrateEntry(_, e, now) => IdNotListed(w, e.dest, e.envelope.id, now)
    case _ => true
  }

  /** Everything a pass has listed or loaded for its destination was due by its own clock. */
  ghost predicate PassTimed(kv: KV, dest: Dest, p: Pass) {
    && (p.Loading? ==> forall id | id in p.toLoad :: ListedByNow(kv, dest, id, p.now))
    && (forall row | row in (if p.Loading? then p.loaded else p.queue) && row.dest == dest :: row.nextAt <= p.now)
  }

  predicate ListedByNow(kv: KV, dest: Dest, id: Id, now: int) {
    var r := Stored(kv, id);
    r.Some? && r.value.dest == dest ==> r.value.nextAt <= now
  }

  ghost predicate Timed(w: World) { forall d: Dest | d in w.passes :: PassTimed(w.kv, d, w.passes[d]) }

  /** A kick that is not older than any running pass moves no loaded row. */
  lemma ClockMakesKicksHarmless(w: World, s: Step)
    requires Inv(w) && Timed(w) && KickTimed(w, s)
    ensures Enabled(w, s)
  {
    if s.KickWrite? {
      forall d: Dest, id: Id | id in s.ids && Kickable(w.kv, id, s.now) ensures !HeldBy(w, d, id) {
        if d in w.passes { assert PassOk(w.kv, d, w.passes[d]) && PassTimed(w.kv, d, w.passes[d]); }
      }
    }
  }

  lemma TimedFrame(kv: KV, kv': KV, dest: Dest, p: Pass)
    requires PassTimed(kv, dest, p)
    requires p.Loading? ==>
             forall id | id in p.toLoad && ListedByNow(kv, dest, id, p.now) :: ListedByNow(kv', dest, id, p.now)
    ensures PassTimed(kv', dest, p)
  {
  }

  lemma InsertTimed(cfg: Config, w: World, s: Step)
    requires Inv(w) && Timed(w) && Enabled(w, s) && FreshId(w, s) && (s.Enqueue? || s.MigrateEntry?)
    ensures Timed(Next(cfg, w, s))
  {
    var id := if s.Enqueue? then s.env.id else s.entry.envelope.id;
    if id != [] && RowKey(id) !in w.kv {
      var row := if s.Enqueue? then FreshRow(s.dest, s.env, s.now) else MigratedRow(s.entry, s.now);
      InsertKeeps(w.kv, row);
      if s.MigrateEntry? { DropLegacyKeeps(InsertTxn(w.kv, row), s.suffix); }
      forall d: Dest | d in w.passes ensures PassTimed(Next(cfg, w, s).kv, d, w.passes[d]) {
        assert PassTimed(w.kv, d, w.passes[d]);
        TimedFrame(w.kv, Next(cfg, w, s).kv, d, w.passes[d]);
      }
    }
  }

  /** A new row leaves everything listed due by the clock exactly when it does not take a listed id at a later time. */
  lemma InsertTimedIff(cfg: Config, w: World, dest: Dest, env: Envelope, now: int)
    requires Inv(w) && Timed(w) && Enabled(w, Enqueue(dest, env, now)) && RowKey(env.id) !in w.kv
    ensures Timed(Next(cfg, w, Enqueue(dest, env, now))) <==> IdNotListed(w, dest, env.id, now)
  {
    var s := Enqueue(dest, env, now);
    var w' := Next(cfg, w, s);
    if IdNotListed(w, dest, env.id, now) {
      InsertTimed(cfg, w, s);
    } else {
      InsertKeeps(w.kv, FreshRow(dest, env, now));
      assert !ListedByNow(w'.kv, dest, env.id, w'.passes[dest].now);
      assert !PassTimed(w'.kv, dest, w'.passes[dest]);
    }
  }

  lemma PassStepTimed(cfg: Config, w: World, s: Step)
    requires Inv(w) && Timed(w) && Enabled(w, s) &&
             (s.StartPass? || s.LoadNext? || s.OrderRows? || s.SkipRow? || s.EndPass?)
    ensures Timed(Next(cfg, w, s))
  {
    var w' := Next(cfg, w, s);
    assert s.dest in w.passes ==> PassTimed(w.kv, s.dest, w.passes[s.dest]) && PassOk(w.kv, s.dest, w.passes[s.dest]);
    if s.StartPass? {
      forall id | id in s.ids ensures ListedByNow(w.kv, s.dest, id, s.now) { assert Due(w.kv, id, s.now); }
    } else if s.LoadNext? {
      var p := w.passes[s.dest];
      assert p.toLoad[0] in p.toLoad && ListedByNow(w.kv, s.dest, p.toLoad[0], p.now);
    } else if s.OrderRows? {
      DestSubset(w.passes[s.dest].loaded, s.dest);
      var mine := RowsForDest(w.passes[s.dest].loaded, s.dest);
      GroupSubset(mine, true);
      GroupSubset(mine, false);
    }
    assert s.dest in w'.passes ==> PassTimed(w'.kv, s.dest, w'.passes[s.dest]);
  }

  lemma ProcessTimed(cfg: Config, w: World, s: Step)
    requires Inv(w) && Timed(w) && Enabled(w, s) && s.Process?
    ensures Timed(Next(cfg, w, s))
  {
    var p := w.passes[s.dest];
    var row := p.queue[0];
    assert PassOk(w.kv, s.dest, p) && row in p.queue && Current(w.kv, row) && PassTimed(w.kv, s.dest, p);
    ProcessKeeps(cfg, w.kv, row, s.outcome, s.now);
    var w' := Next(cfg, w, s);
    forall d: Dest | d in w'.passes ensures PassTimed(w'.kv, d, w'.passes[d]) {
      assert PassTimed(w.kv, d, w.passes[d]);
      if d != s.dest { TimedFrame(w.kv, w'.kv, d, w.passes[d]); }
    }
  }

  lemma KickTimedKeeps(cfg: Config, w: World, s: Step)
    requires Inv(w) && Timed(w) && KickTimed(w, s) && s.KickWrite?
    ensures Timed(Next(cfg, w, s))
  {
    KickKeeps(w.kv, s.ids, s.now);
    var w' := Next(cfg, w, s);
    forall d: Dest | d in w'.passes ensures PassTimed(w'.kv, d, w'.passes[d]) {
      assert PassTimed(w.kv, d, w.passes[d]);
      TimedFrame(w.kv, w'.kv, d, w.passes[d]);
    }
  }

  lemma GcTimed(cfg: Config, w: World, s: Step)
    requires Inv(w) && Timed(w) && Enabled(w, s) && s.GcWrite?
    ensures Timed(Next(cfg, w, s))
  {
    GcKeeps(w.kv, w.gc.value);
    var w' := Next(cfg, w, s);
    forall d: Dest | d in w'.passes ensures PassTimed(w'.kv, d, w'.passes[d]) {
      assert PassTimed(w.kv, d, w.passes[d]);
      TimedFrame(w.kv, w'.kv, d, w.passes[d]);
    }
  }

  lemma StepKeepsTimed(cfg: Config, w: World, s: Step)
    requires Inv(w) && Timed(w) && KickTimed(w, s) && FreshId(w, s)
    ensures Timed(Next(cfg, w, s))
  {
    match s
    case Enqueue(_, _, _) => InsertTimed(cfg, w, s);
    case MigrateEntry(_, _, _) => InsertTimed(cfg, w, s);
    case Process(_, _, _) => ProcessTimed(cfg, w, s);
    case KickWrite(_, _) => KickTimedKeeps(cfg, w, s);
    case GcScan(_, _) =>
    case GcWrite => GcTimed(cfg, w, s);
    case GcAbandon =>
    case _ => PassStepTimed(cfg, w, s);
  }

  ghost predicate IsTimedRun(cfg: Config, w: World, steps: seq<Step>)
    decreases |steps|
  {
    steps == [] || (KickTimed(w, steps[0]) && IsTimedRun(cfg, Next(cfg, w, steps[0]), steps[1..]))
  }

  ghost predicate FreshIdsThroughout(cfg: Config, w: World, steps: seq<Step>)
    decreases |steps|
  {
    steps == [] || (FreshId(w, steps[0]) && FreshIdsThroughout(cfg, Next(cfg, w, steps[0]), steps[1..]))
  }

  /** It is enough that kicks are not older than running passes and that listed ids are not taken afresh: then all
      of the above holds of the run. */
  lemma {:induction false} TimedRunIsRun(cfg: Config, w: World, steps: seq<Step>)
    requires Inv(w) && Timed(w) && IsTimedRun(cfg, w, steps) && FreshIdsThroughout(cfg, w, steps)
    ensures IsRun(cfg, w, steps) && Inv(After(cfg, w, steps)) && Timed(After(cfg, w, steps))
    decreases |steps|
  {
    if steps != [] {
      var w' := Next(cfg, w, steps[0]);
      ClockMakesKicksHarmless(w, steps[0]);
      StepKeepsInv(cfg, w, steps[0]);
      StepKeepsTimed(cfg, w, steps[0]);
      TimedRunIsRun(cfg, w', steps[1..]);
    }
  }

  // ---------- the life of one row ----------

  /** Bookkeeping of a row that Enqueue inserted. */
  predicate CountsOk(cfg: Config, row: Row) {
    && 0 <= row.kickedAttempts <= row.attempts
    && 0 <= row.ackFailures
    && (row.state == Enqueued ==>
          row.CountedAttempts() <= cfg.maxAttempts - 1 + row.ackFailures && row.ackFailures < cfg.ackVerifyMaxTries)
  }

  ghost predicate LifeOk(cfg: Config, w: World) {
    forall id: Id | id in w.fromEnqueue :: Stored(w.kv, id).Some? && CountsOk(cfg, Stored(w.kv, id).value)
  }

  /** A failed attempt that was kicked leaves the counted attempts alone; any other raises them by one. */
  lemma CountedAfter(cfg: Config, row: Row, o: Outcome, now: int)
    ensures var r := ProcessedRow(cfg, row, o, now);
            && r.attempts == row.attempts + 1
            && (r.state == Enqueued || r.state == Failed ==>
                  r.CountedAttempts() == row.CountedAttempts() + (if row.kicked then 0 else 1))
            && (r.state == Enqueued ==> !o.GoodAck? && r.firstAt == row.firstAt && r.dest == row.dest)
            && (CountsOk(cfg, row) && ConfigOk(cfg) && row.state == Enqueued ==> CountsOk(cfg, r))
  {
  }

  lemma StepKeepsLife(cfg: Config, w: World, s: Step)
    requires Inv(w) && LifeOk(cfg, w) && ConfigOk(cfg) && Enabled(w, s)
    ensures LifeOk(cfg, Next(cfg, w, s))
  {
    match s
    case Enqueue(dest, env, now) =>
      if RowKey(env.id) !in w.kv { InsertKeeps(w.kv, FreshRow(dest, env, now)); }
    case MigrateEntry(suffix, e, now) =>
      if e.envelope.id != [] && RowKey(e.envelope.id) !in w.kv {
        InsertKeeps(w.kv, MigratedRow(e, now));
        DropLegacyKeeps(InsertTxn(w.kv, MigratedRow(e, now)), suffix);
      }
    case Process(dest, o, now) =>
      ProcessStep(cfg, w, s);
      var row := w.passes[dest].queue[0];
      assert PassOk(w.kv, dest, w.passes[dest]) && row in w.passes[dest].queue;
      ProcessKeeps(cfg, w.kv, row, o, now);
      CountedAfter(cfg, row, o, now);
    case KickWrite(ids, now) => KickKeeps(w.kv, ids, now);
    case GcWrite =>
      GcKeeps(w.kv, w.gc.value);
      forall id: Id | id in Next(cfg, w, s).fromEnqueue
        ensures Stored(Next(cfg, w, s).kv, id) == Stored(w.kv, id)
      {
        forall v | v in w.gc.value ensures v.id != id { assert v.id in VictimIds(w.gc.value); }
      }
    case _ =>
  }

  lemma {:induction false} RunKeepsLife(cfg: Config, w: World, steps: seq<Step>)
    requires Inv(w) && LifeOk(cfg, w) && ConfigOk(cfg) && IsRun(cfg, w, steps)
    ensures LifeOk(cfg, After(cfg, w, steps))
    decreases |steps|
  {
    if steps != [] {
      StepKeepsInv(cfg, w, steps[0]);
      StepKeepsLife(cfg, w, steps[0]);
      RunKeepsLife(cfg, Next(cfg, w, steps[0]), steps[1..]);
    }
  }

  /** A finished row is changed by nothing; only a collection removes it. */
  lemma FinishedRowsStay(cfg: Config, w: World, s: Step, id: Id)
    requires Inv(w) && Enabled(w, s)
    requires Stored(w.kv, id).Some? && Terminal(Stored(w.kv, id).value.state)
    ensures Stored(Next(cfg, w, s).kv, id) == Stored(w.kv, id) ||
            (s.GcWrite? && Stored(Next(cfg, w, s).kv, id) == None && Stored(w.kv, id).value in w.gc.value)
  {
    match s
    case Enqueue(dest, env, now) =>
      if RowKey(env.id) !in w.kv { InsertKeeps(w.kv, FreshRow(dest, env, now)); }
    case MigrateEntry(suffix, e, now) =>
      if e.envelope.id != [] && RowKey(e.envelope.id) !in w.kv {
        InsertKeeps(w.kv, MigratedRow(e, now));
        DropLegacyKeeps(InsertTxn(w.kv, MigratedRow(e, now)), suffix);
      }
    case Process(dest, o, now) =>
      var row := w.passes[dest].queue[0];
      assert PassOk(w.kv, dest, w.passes[dest]) && row in w.passes[dest].queue && Current(w.kv, row);
      ProcessKeeps(cfg, w.kv, row, o, now);
    case KickWrite(ids, now) => KickKeeps(w.kv, ids, now);
    case GcWrite =>
      GcKeeps(w.kv, w.gc.value);
      if v :| v in w.gc.value && v.id == id { assert VictimCurrent(w.kv, v); }
    case _ =>
  }

  /** The step is an attempt to send row `id` that nobody kicked. */
  predicate UnkickedAttempt(w: World, s: Step, id: Id) {
    s.Process? && IsWorking(w, s.dest) && w.passes[s.dest].queue[0].id == id && !w.passes[s.dest].queue[0].kicked
  }

  function UnkickedAttempts(cfg: Config, w: World, steps: seq<Step>, id: Id): nat
    decreases |steps|
  {
    if steps == [] then 0
    else
      (if UnkickedAttempt(w, steps[0], id) then 1 else 0) +
      UnkickedAttempts(cfg, Next(cfg, w, steps[0]), steps[1..], id)
  }

  predicate StillEnqueued(w: World, id: Id) { Stored(w.kv, id).Some? && Stored(w.kv, id).value.state == Enqueued }

  ghost predicate EnqueuedThroughout(cfg: Config, w: World, steps: seq<Step>, id: Id)
    decreases |steps|
  {
    StillEnqueued(w, id) && (steps == [] || EnqueuedThroughout(cfg, Next(cfg, w, steps[0]), steps[1..], id))
  }

  lemma CountedStep(cfg: Config, w: World, s: Step, id: Id)
    requires Inv(w) && Enabled(w, s) && StillEnqueued(w, id) && StillEnqueued(Next(cfg, w, s), id)
    ensures Stored(Next(cfg, w, s).kv, id).value.CountedAttempts() ==
            Stored(w.kv, id).value.CountedAttempts() + (if UnkickedAttempt(w, s, id) then 1 else 0)
    ensures id in w.fromEnqueue ==> id in Next(cfg, w, s).fromEnqueue
  {
    match s
    case Enqueue(dest, env, now) =>
      if RowKey(env.id) !in w.kv { InsertKeeps(w.kv, FreshRow(dest, env, now)); }
    case MigrateEntry(suffix, e, now) =>
      if e.envelope.id != [] && RowKey(e.envelope.id) !in w.kv {
        InsertKeeps(w.kv, MigratedRow(e, now));
        DropLegacyKeeps(InsertTxn(w.kv, MigratedRow(e, now)), suffix);
      }
    case Process(dest, o, now) =>
      var row := w.passes[dest].queue[0];
      assert PassOk(w.kv, dest, w.passes[dest]) && row in w.passes[dest].queue && Current(w.kv, row);
      ProcessKeeps(cfg, w.kv, row, o, now);
      CountedAfter(cfg, row, o, now);
    case KickWrite(ids, now) => KickKeeps(w.kv, ids, now);
    case GcWrite =>
      GcKeeps(w.kv, w.gc.value);
      forall v | v in w.gc.value ensures v.id != id { assert VictimCurrent(w.kv, v); }
    case _ =>
  }

  lemma {:induction false} CountedIsUnkicked(cfg: Config, w: World, steps: seq<Step>, id: Id)
    requires Inv(w) && IsRun(cfg, w, steps) && EnqueuedThroughout(cfg, w, steps, id)
    ensures StillEnqueued(After(cfg, w, steps), id)
    ensures Stored(After(cfg, w, steps).kv, id).value.CountedAttempts() ==
            Stored(w.kv, id).value.CountedAttempts() + UnkickedAttempts(cfg, w, steps, id)
    ensures id in w.fromEnqueue ==> id in After(cfg, w, steps).fromEnqueue
    decreases |steps|
  {
    if steps != [] {
      var w' := Next(cfg, w, steps[0]);
      StepKeepsInv(cfg, w, steps[0]);
      assert EnqueuedThroughout(cfg, w', steps[1..], id);
      CountedStep(cfg, w, steps[0], id);
      CountedIsUnkicked(cfg, w', steps[1..], id);
    }
  }

  /** However the parts interleave, a row that Enqueue inserted cannot stay enqueued through more unkicked
      attempts than the two limits allow: the next one finishes it. */
  lemma FinitelyManyAttempts(cfg: Config, w: World, steps: seq<Step>, id: Id)
    requires Inv(w) && LifeOk(cfg, w) && ConfigOk(cfg) && IsRun(cfg, w, steps)
    requires id in w.fromEnqueue
    requires EnqueuedThroughout(cfg, w, steps, id)
    ensures UnkickedAttempts(cfg, w, steps, id) + Stored(w.kv, id).value.CountedAttempts() <=
            cfg.maxAttempts + cfg.ackVerifyMaxTries - 2
  {
    RunKeepsLife(cfg, w, steps);
    CountedIsUnkicked(cfg, w, steps, id);
  }

  // ---------- no row is finished too early ----------

  /** If the step is an attempt to send row `id`, the send fails and the row is younger than the age limit. */
  predicate YoungFailure(cfg: Config, w: World, s: Step, id: Id) {
    s.Process? && IsWorking(w, s.dest) && w.passes[s.dest].queue[0].id == id ==>
      s.outcome.SendFailed? && s.now - w.passes[s.dest].queue[0].firstAt < cfg.deadLetterAge
  }

  ghost predicate YoungFailures(cfg: Config, w: World, steps: seq<Step>, id: Id)
    decreases |steps|
  {
    steps == [] || (YoungFailure(cfg, w, steps[0], id) && YoungFailures(cfg, Next(cfg, w, steps[0]), steps[1..], id))
  }

  lemma YoungStep(cfg: Config, w: World, s: Step, id: Id)
    requires Inv(w) && Enabled(w, s) && StillEnqueued(w, id) && YoungFailure(cfg, w, s, id)
    requires Stored(w.kv, id).value.CountedAttempts() < cfg.maxAttempts
    ensures StillEnqueued(Next(cfg, w, s), id) <==>
            Stored(w.kv, id).value.CountedAttempts() + (if UnkickedAttempt(w, s, id) then 1 else 0) < cfg.maxAttempts
  {
    match s
    case Enqueue(dest, env, now) =>
      if RowKey(env.id) !in w.kv { InsertKeeps(w.kv, FreshRow(dest, env, now)); }
    case MigrateEntry(suffix, e, now) =>
      if e.envelope.id != [] && RowKey(e.envelope.id) !in w.kv {
        InsertKeeps(w.kv, MigratedRow(e, now));
        DropLegacyKeeps(InsertTxn(w.kv, MigratedRow(e, now)), suffix);
      }
    case Process(dest, o, now) =>
      var row := w.passes[dest].queue[0];
      assert PassOk(w.kv, dest, w.passes[dest]) && row in w.passes[dest].queue && Current(w.kv, row);
      ProcessKeeps(cfg, w.kv, row, o, now);
      if row.id == id { SendErrIff(cfg, row, o, now); }
    case KickWrite(ids, now) => KickKeeps(w.kv, ids, now);
    case GcWrite =>
      GcKeeps(w.kv, w.gc.value);
      forall v | v in w.gc.value ensures v.id != id { assert VictimCurrent(w.kv, v); }
    case _ =>
  }

  /** However the parts interleave, a row whose attempts all fail while it is young stays enqueued throughout exactly
      as long as its unkicked attempts are fewer than allowed: kicked ones cost nothing, and the last one allowed
      finishes it. */
  lemma {:induction false} StaysEnqueuedIff(cfg: Config, w: World, steps: seq<Step>, id: Id)
    requires Inv(w) && IsRun(cfg, w, steps) && StillEnqueued(w, id) && YoungFailures(cfg, w, steps, id)
    requires Stored(w.kv, id).value.CountedAttempts() < cfg.maxAttempts
    ensures EnqueuedThroughout(cfg, w, steps, id) <==>
            Stored(w.kv, id).value.CountedAttempts() + UnkickedAttempts(cfg, w, steps, id) < cfg.maxAttempts
    decreases |steps|
  {
    hide Inv, Enabled, Next, YoungFailure, UnkickedAttempt;
    if steps != [] {
      var w' := Next(cfg, w, steps[0]);
      StepKeepsInv(cfg, w, steps[0]);
      YoungStep(cfg, w, steps[0], id);
      if StillEnqueued(w', id) {
        CountedStep(cfg, w, steps[0], id);
        StaysEnqueuedIff(cfg, w', steps[1..], id);
      }
    }
  }
}
