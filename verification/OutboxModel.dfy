/** The outbox's transactions as functions on the key-value store, and the agreement between rows and
    their due and state index keys that each of them keeps. */
module OutboxModel {
  import opened Bytes
  import opened Xport
  import opened OutboxKeys

  datatype Row = Row(
    id: Id,
    dest: Dest,
    envelope: Envelope,
    state: State,
    attempts: int,
    ackFailures: int,
    kicked: bool,
    kickedAttempts: int,
    firstAt: int,
    nextAt: int,
    changedAt: int,
    lastError: Bytes,
    gaveUp: bool)
  {
    function CountedAttempts(): int { attempts - kickedAttempts }
  }

  /** A queue entry of the format that preceded the outbox; its time is in seconds. */
  datatype LegacyEntry = LegacyEntry(dest: Dest, envelope: Envelope, attempts: int, firstAt: int)

  datatype Val = RowVal(row: Row) | IdVal(id: Id) | EmptyVal | LegacyVal(entry: LegacyEntry)

  type KV = map<Key, Val>

  const NANOS_PER_SECOND := 1_000_000_000
  const GC_SENT_AGE := 7 * 24 * 3600 * NANOS_PER_SECOND
  const GC_FAILED_AGE := 30 * 24 * 3600 * NANOS_PER_SECOND

  predicate Terminal(st: State) { st == Sent || st == Failed }

  /** The row stored under an envelope id. */
  function Stored(kv: KV, id: Id): Option<Row> {
    if RowKey(id) in kv && kv[RowKey(id)].RowVal? then Some(kv[RowKey(id)].row) else None
  }

  // ---------- transactions ----------

  function FreshRow(dest: Dest, env: Envelope, now: int): Row {
    Row(env.id, dest, env, Enqueued, 0, 0, false, 0, now, now, now, [], false)
  }

  function MigratedRow(e: LegacyEntry, now: int): Row {
    FreshRow(e.dest, e.envelope, now).(attempts := e.attempts, firstAt := e.firstAt * NANOS_PER_SECOND)
  }

  /** Writes a new row with its due and state keys. */
  function InsertTxn(kv: KV, row: Row): KV {
    kv[RowKey(row.id) := RowVal(row)]
      [DueKey(row.nextAt, row.id) := IdVal(row.id)]
      [StateKey(Enqueued, row.id) := EmptyVal]
  }

  function EnqueueTxn(kv: KV, dest: Dest, env: Envelope, now: int): KV {
    if RowKey(env.id) in kv then kv else InsertTxn(kv, FreshRow(dest, env, now))
  }

  /** One entry of the legacy queue: an entry whose envelope already has a row keeps its legacy key. */
  function MigrateTxn(kv: KV, suffix: Bytes, e: LegacyEntry, now: int): KV {
    if e.envelope.id == [] || RowKey(e.envelope.id) in kv then kv
    else InsertTxn(kv, MigratedRow(e, now)) - {LegacyKey(suffix)}
  }

  datatype Change = Change(state: State, nextAt: int, attempts: int, kickedAttempts: int,
                           ackFailures: int, lastError: Bytes, now: int)

  function AdvancedRow(row: Row, c: Change): Row {
    row.(state := c.state, attempts := c.attempts, kickedAttempts := c.kickedAttempts, kicked := false,
         ackFailures := c.ackFailures, lastError := c.lastError, changedAt := c.now,
         nextAt := if Terminal(c.state) then 0 else c.nextAt)
  }

  /** Replaces `row`, a snapshot read earlier, by its successor; index keys are computed from the snapshot. */
  function AdvanceTxn(kv: KV, row: Row, c: Change): KV {
    var kv1 := if row.nextAt != 0 then kv - {DueKey(row.nextAt, row.id)} else kv;
    var kv2 := kv1 - {StateKey(row.state, row.id)};
    var kv3 := kv2[RowKey(row.id) := RowVal(AdvancedRow(row, c))][StateKey(c.state, row.id) := EmptyVal];
    if Terminal(c.state) then kv3 else kv3[DueKey(c.nextAt, row.id) := IdVal(row.id)]
  }

  predicate Kickable(kv: KV, id: Id, now: int) {
    var r := Stored(kv, id);
    r.Some? && r.value.state == Enqueued && r.value.nextAt > now
  }

  function KickOne(kv: KV, id: Id, now: int): KV {
    if Kickable(kv, id, now) then
      var row := Stored(kv, id).value;
      (kv - {DueKey(row.nextAt, row.id)})
        [RowKey(row.id) := RowVal(row.(nextAt := now, kicked := true))]
        [DueKey(now, row.id) := IdVal(row.id)]
    else kv
  }

  /** The write phase of a kick: every row is read again before it is moved. */
  function KickTxn(kv: KV, ids: seq<Id>, now: int): KV {
    if ids == [] then kv else KickOne(KickTxn(kv, ids[..|ids| - 1], now), ids[|ids| - 1], now)
  }

  predicate GcVictim(row: Row, now: int) {
    (row.state == Sent && now - row.changedAt >= GC_SENT_AGE) ||
    (row.state == Failed && now - row.changedAt >= GC_FAILED_AGE)
  }

  /** The write phase of a collection works from the rows its read phase saw. */
  function GcTxn(kv: KV, victims: seq<Row>): KV {
    if victims == [] then kv
    else
      var v := victims[|victims| - 1];
      GcTxn(kv, victims[..|victims| - 1]) - {RowKey(v.id), StateKey(v.state, v.id)}
  }

  // ---------- rows and index keys agree ----------

  predicate TimeOk(t: int) { 0 < t < TWO_TO_63 }

  predicate RowOk(id: Id, row: Row) {
    && row.id == id
    && (row.state == Enqueued || Terminal(row.state))
    && (row.state == Enqueued ==> TimeOk(row.nextAt))
    && (Terminal(row.state) ==> row.nextAt == 0)
  }

  /** Every row has exactly one state key, its own; an enqueued row has exactly one due key, at its next
      attempt; a terminal row has none; and no index key stands without its row. */
  ghost predicate Consistent(kv: KV) {
    && (forall id: Id :: RowKey(id) in kv ==> Stored(kv, id).Some? && RowOk(id, Stored(kv, id).value))
    && (forall st: State, id: Id ::
          StateKey(st, id) in kv <==> Stored(kv, id).Some? && Stored(kv, id).value.state == st)
    && (forall t: int, id: Id :: DueKey(t, id) in kv <==>
          Stored(kv, id).Some? && Stored(kv, id).value.state == Enqueued && Stored(kv, id).value.nextAt == t)
    && (forall t: int, id: Id :: DueKey(t, id) in kv ==> kv[DueKey(t, id)] == IdVal(id))
  }

  /** No row but `id`'s differs between two stores. */
  ghost predicate OnlyRowChanged(kv: KV, kv': KV, id: Id) {
    forall other: Id :: other != id ==> Stored(kv', other) == Stored(kv, other)
  }

  lemma InsertKeeps(kv: KV, row: Row)
    requires Consistent(kv) && RowKey(row.id) !in kv && row.state == Enqueued && TimeOk(row.nextAt)
    ensures Consistent(InsertTxn(kv, row))
    ensures Stored(InsertTxn(kv, row), row.id) == Some(row) && OnlyRowChanged(kv, InsertTxn(kv, row), row.id)
  {
    assert Stored(kv, row.id) == None;
  }

  /** An envelope whose id is known is left alone; a new one becomes a row due now, with no attempts made. */
  lemma EnqueueIs(kv: KV, dest: Dest, env: Envelope, now: int)
    requires Consistent(kv) && TimeOk(now)
    ensures var kv' := EnqueueTxn(kv, dest, env, now);
            if Stored(kv, env.id).Some? then kv' == kv
            else
              && Consistent(kv') && OnlyRowChanged(kv, kv', env.id)
              && Stored(kv', env.id) == Some(Row(env.id, dest, env, Enqueued, 0, 0, false, 0, now, now, now, [], false))
  {
    if RowKey(env.id) !in kv { InsertKeeps(kv, FreshRow(dest, env, now)); }
  }

  /** The same for an entry of the legacy queue, which brings its attempts and its time, in seconds. */
  lemma MigrateIs(kv: KV, suffix: Bytes, e: LegacyEntry, now: int)
    requires Consistent(kv) && TimeOk(now)
    ensures var kv' := MigrateTxn(kv, suffix, e, now);
            var id := e.envelope.id;
            if id == [] || Stored(kv, id).Some? then kv' == kv
            else
              && Consistent(kv') && OnlyRowChanged(kv, kv', id) && LegacyKey(suffix) !in kv'
              && Stored(kv', id) == Some(Row(id, e.dest, e.envelope, Enqueued, e.attempts, 0, false, 0,
                                             e.firstAt * 1_000_000_000, now, now, [], false))
  {
    if e.envelope.id != [] && RowKey(e.envelope.id) !in kv {
      InsertKeeps(kv, MigratedRow(e, now));
      DropLegacyKeeps(InsertTxn(kv, MigratedRow(e, now)), suffix);
    }
  }

  /** A row is collected a week after it was sent, and thirty days after it failed. */
  lemma VictimIff(row: Row, now: int)
    ensures GcVictim(row, now) <==>
      var age := now - row.changedAt;
      (row.state == Sent && age >= 604_800_000_000_000) || (row.state == Failed && age >= 2_592_000_000_000_000)
  {
  }

  lemma DropLegacyKeeps(kv: KV, suffix: Bytes)
    requires Consistent(kv)
    ensures Consistent(kv - {LegacyKey(suffix)})
    ensures forall id: Id :: Stored(kv - {LegacyKey(suffix)}, id) == Stored(kv, id)
  {
  }

  lemma AdvanceKeeps(kv: KV, row: Row, c: Change)
    requires Consistent(kv) && Stored(kv, row.id) == Some(row)
    requires row.state == Enqueued
    requires c.state == Enqueued || Terminal(c.state)
    requires c.state == Enqueued ==> TimeOk(c.nextAt)
    ensures Consistent(AdvanceTxn(kv, row, c))
    ensures Stored(AdvanceTxn(kv, row, c), row.id) == Some(AdvancedRow(row, c))
    ensures OnlyRowChanged(kv, AdvanceTxn(kv, row, c), row.id)
  {
    assert RowKey(row.id) in kv;
  }

  lemma KickOneKeeps(kv: KV, id: Id, now: int)
    requires Consistent(kv) && TimeOk(now)
    ensures Consistent(KickOne(kv, id, now))
    ensures OnlyRowChanged(kv, KickOne(kv, id, now), id)
    ensures Stored(KickOne(kv, id, now), id) ==
            if Kickable(kv, id, now) then Some(Stored(kv, id).value.(nextAt := now, kicked := true)) else Stored(kv, id)
  {
    if Kickable(kv, id, now) { assert RowKey(id) in kv; }
  }

  /** What a kick does to each row, however often its id is listed: due rows and finished rows stay, rows
      still waiting move to `now`. */
  lemma {:induction false} KickKeeps(kv: KV, ids: seq<Id>, now: int)
    requires Consistent(kv) && TimeOk(now)
    ensures Consistent(KickTxn(kv, ids, now))
    ensures forall id: Id :: Stored(KickTxn(kv, ids, now), id) ==
              if id in ids && Stored(kv, id).Some? && Stored(kv, id).value.state == Enqueued &&
                 Stored(kv, id).value.nextAt > now
              then Some(Stored(kv, id).value.(nextAt := now, kicked := true)) else Stored(kv, id)
  {
    if ids != [] {
      var front, last := ids[..|ids| - 1], ids[|ids| - 1];
      KickKeeps(kv, front, now);
      KickOneKeeps(KickTxn(kv, front, now), last, now);
      assert ids == front + [last];
    }
  }

  ghost predicate VictimCurrent(kv: KV, v: Row) { Stored(kv, v.id) == Some(v) && Terminal(v.state) }

  lemma GcOneKeeps(kv: KV, v: Row)
    requires Consistent(kv)
    requires VictimCurrent(kv, v) || Stored(kv, v.id) == None
    ensures var kv' := kv - {RowKey(v.id), StateKey(v.state, v.id)};
            Consistent(kv') && Stored(kv', v.id) == None && OnlyRowChanged(kv, kv', v.id)
  {
  }

  lemma {:induction false} GcKeeps(kv: KV, victims: seq<Row>)
    requires Consistent(kv)
    requires forall v | v in victims :: VictimCurrent(kv, v)
    ensures Consistent(GcTxn(kv, victims))
    ensures forall id: Id :: Stored(GcTxn(kv, victims), id) ==
              if (exists v :: v in victims && v.id == id) then None else Stored(kv, id)
  {
    if victims != [] {
      var front, last := victims[..|victims| - 1], victims[|victims| - 1];
      assert victims == front + [last];
      GcKeeps(kv, front);
      var kv1 := GcTxn(kv, front);
      assert VictimCurrent(kv, last);
      GcOneKeeps(kv1, last);
      forall id: Id
        ensures Stored(GcTxn(kv, victims), id) ==
                if (exists v :: v in victims && v.id == id) then None else Stored(kv, id)
      {
        if id != last.id {
          assert (exists v :: v in victims && v.id == id) <==> (exists v :: v in front && v.id == id);
        } else {
          assert last in victims;
        }
      }
    }
  }

  // ---------- what one processed row turns into ----------

  datatype Config = Config(maxAttempts: int, deadLetterAge: int, ackVerifyMaxTries: int)

  predicate ConfigOk(cfg: Config) { cfg.maxAttempts >= 1 && cfg.ackVerifyMaxTries >= 1 }

  /** How an attempt to send a row ended. `backoff` is the delay the backoff function answered. */
  datatype Outcome =
    | Unauthorized(err: Bytes)
    | SendFailed(err: Bytes, backoff: int)
    | EmptyAck
    | NoVerifier
    | BadAck(err: Bytes, backoff: int)
    | GoodAck

  function KickedAfter(row: Row): int { if row.kicked then row.kickedAttempts + 1 else row.kickedAttempts }

  predicate GivesUp(cfg: Config, row: Row, now: int) {
    row.attempts + 1 - KickedAfter(row) >= cfg.maxAttempts || now - row.firstAt >= cfg.deadLetterAge
  }

  /** The snapshot `Advance` is called with: giving up marks it. */
  function SnapshotFor(cfg: Config, row: Row, o: Outcome, now: int): Row {
    if o.SendFailed? && GivesUp(cfg, row, now) then row.(gaveUp := true) else row
  }

  function ChangeFor(cfg: Config, row: Row, o: Outcome, now: int): Change {
    match o
    case Unauthorized(err) =>
      Change(Failed, 0, row.attempts + 1, KickedAfter(row), row.ackFailures, err, now)
    case SendFailed(err, backoff) =>
      if GivesUp(cfg, row, now)
      then Change(Failed, 0, row.attempts + 1, KickedAfter(row), row.ackFailures, err, now)
      else Change(Enqueued, now + backoff, row.attempts + 1, KickedAfter(row), row.ackFailures, err, now)
    case BadAck(err, backoff) =>
      if row.ackFailures + 1 >= cfg.ackVerifyMaxTries
      then Change(Failed, 0, row.attempts + 1, KickedAfter(row), row.ackFailures + 1, err, now)
      else Change(Enqueued, now + backoff, row.attempts + 1, KickedAfter(row), row.ackFailures + 1, err, now)
    case EmptyAck => Change(Sent, 0, row.attempts + 1, row.kickedAttempts, 0, [], now)
    case NoVerifier => Change(Sent, 0, row.attempts + 1, row.kickedAttempts, 0, [], now)
    case GoodAck => Change(Sent, 0, row.attempts + 1, row.kickedAttempts, 0, [], now)
  }

  function ProcessTxn(cfg: Config, kv: KV, row: Row, o: Outcome, now: int): KV {
    AdvanceTxn(kv, SnapshotFor(cfg, row, o, now), ChangeFor(cfg, row, o, now))
  }

  function ProcessedRow(cfg: Config, row: Row, o: Outcome, now: int): Row {
    AdvancedRow(SnapshotFor(cfg, row, o, now), ChangeFor(cfg, row, o, now))
  }

  /** A failed send puts the row back for a later attempt exactly while the attempts that were not kicked, this one
      included, are fewer than allowed and the row is younger than the age limit; otherwise it is given up for
      good. A refused one is final at once, and is not given up. */
  lemma SendErrIff(cfg: Config, row: Row, o: Outcome, now: int)
    requires o.Unauthorized? || o.SendFailed?
    ensures var r := ProcessedRow(cfg, row, o, now);
            var counted := row.attempts + 1 - row.kickedAttempts - (if row.kicked then 1 else 0);
            && r.id == row.id && r.dest == row.dest && r.envelope == row.envelope && r.firstAt == row.firstAt
            && r.attempts == row.attempts + 1 && r.attempts - r.kickedAttempts == counted
            && !r.kicked && r.ackFailures == row.ackFailures && r.lastError == o.err && r.changedAt == now
            && (r.state == Enqueued <==>
                  o.SendFailed? && counted < cfg.maxAttempts && now - row.firstAt < cfg.deadLetterAge)
            && (r.state == Enqueued ==> r.nextAt == now + o.backoff && r.gaveUp == row.gaveUp)
            && (r.state != Enqueued ==> r.state == Failed && r.nextAt == 0 && r.gaveUp == (row.gaveUp || o.SendFailed?))
  {
  }

  /** An answered send is final unless the answer's signature does not verify: then it is put back while such
      answers, this one included, are fewer than allowed. */
  lemma SendOkIff(cfg: Config, row: Row, o: Outcome, now: int)
    requires !o.Unauthorized? && !o.SendFailed?
    ensures var r := ProcessedRow(cfg, row, o, now);
            && r.id == row.id && r.dest == row.dest && r.envelope == row.envelope && r.firstAt == row.firstAt
            && r.attempts == row.attempts + 1 && !r.kicked && r.changedAt == now && r.gaveUp == row.gaveUp
            && (r.state == Sent <==> !o.BadAck?)
            && (r.state == Sent ==>
                  r.nextAt == 0 && r.kickedAttempts == row.kickedAttempts && r.ackFailures == 0 && r.lastError == [])
            && (o.BadAck? ==>
                  && r.kickedAttempts == row.kickedAttempts + (if row.kicked then 1 else 0)
                  && r.ackFailures == row.ackFailures + 1 && r.lastError == o.err
                  && (r.state == Enqueued <==> row.ackFailures + 1 < cfg.ackVerifyMaxTries)
                  && (r.state == Enqueued ==> r.nextAt == now + o.backoff)
                  && (r.state != Enqueued ==> r.state == Failed && r.nextAt == 0))
  {
  }

  predicate OutcomeOk(o: Outcome, now: int) {
    (o.SendFailed? || o.BadAck?) ==> TimeOk(now + o.backoff)
  }

  lemma ProcessKeeps(cfg: Config, kv: KV, row: Row, o: Outcome, now: int)
    requires Consistent(kv) && Stored(kv, row.id) == Some(row) && row.state == Enqueued && OutcomeOk(o, now)
    ensures Consistent(ProcessTxn(cfg, kv, row, o, now))
    ensures Stored(ProcessTxn(cfg, kv, row, o, now), row.id) == Some(ProcessedRow(cfg, row, o, now))
    ensures OnlyRowChanged(kv, ProcessTxn(cfg, kv, row, o, now), row.id)
  {
    var c := ChangeFor(cfg, row, o, now);
    AdvanceKeeps(kv, row, c);
    // The mark on the snapshot reaches the row value only: both calls name the same index keys.
    var s := SnapshotFor(cfg, row, o, now);
    assert AdvanceTxn(kv, s, c) == AdvanceTxn(kv, row, c)[RowKey(row.id) := RowVal(AdvancedRow(s, c))];
  }
}
