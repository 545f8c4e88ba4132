/** The outbox store and the per-row part of its worker. Every method is one transaction or one phase of a
    two-phase operation; how phases of different operations interleave is the subject of OutboxProtocol. */
module OutboxStore {
  import opened Bytes
  import opened Xport
  import opened OutboxKeys
  import opened OutboxModel

  datatype EnqueueResult = Queued(row: Row) | MissingId | Duplicate

  /** What an iterator over a key prefix yields: the store's keys with that prefix, in byte order. */
  ghost predicate IsScan(kv: KV, prefix: Bytes, scan: seq<Key>) {
    && (forall k: Key :: k in scan <==> k in kv && prefix <= KeyBytes(k))
    && (forall i, j | 0 <= i < j < |scan| :: LexLess(KeyBytes(scan[i]), KeyBytes(scan[j])))
  }

  ghost predicate Due(kv: KV, id: Id, now: int) {
    Stored(kv, id).Some? && Stored(kv, id).value.state == Enqueued && Stored(kv, id).value.nextAt <= now
  }

  predicate DueBefore(a: Row, b: Row) { a.nextAt < b.nextAt || (a.nextAt == b.nextAt && LexLess(a.id, b.id)) }

  /** `ids` lists exactly the enqueued rows whose next attempt is due, each once, in due order. */
  ghost predicate ListsDue(kv: KV, now: int, ids: seq<Id>) {
    && (forall id: Id :: id in ids <==> Due(kv, id, now))
    && (forall i, j | 0 <= i < j < |ids| ::
          ids[i] in ids && ids[j] in ids && DueBefore(Stored(kv, ids[i]).value, Stored(kv, ids[j]).value))
  }

  /** A scan of the due keys, read as times and ids instead of bytes. */
  ghost predicate IsDueScan(kv: KV, scan: seq<Key>) {
    && (forall k | k in scan :: k.DueKey? && k in kv && kv[k] == IdVal(k.id))
    && (forall t: int, id: Id :: DueKey(t, id) in kv ==> DueKey(t, id) in scan)
    && (forall i, j | 0 <= i < j < |scan| :: scan[i] in scan && scan[j] in scan &&
          (scan[i].at < scan[j].at || (scan[i].at == scan[j].at && LexLess(scan[i].id, scan[j].id))))
  }

  /** In byte order the due keys are in time order, so nothing due follows the first key beyond `now`. */
  lemma ScanIsDueOrder(kv: KV, scan: seq<Key>)
    requires Consistent(kv) && IsScan(kv, DuePrefix(), scan)
    ensures IsDueScan(kv, scan)
  {
    hide LexLess, KeyBytes, DuePrefix;
    forall k | k in scan ensures k.DueKey? && k in kv && kv[k] == IdVal(k.id) {
      ScanSeesOneFamily(k);
      assert DueKey(k.at, k.id) in kv;
    }
    forall t: int, id: Id | DueKey(t, id) in kv ensures DueKey(t, id) in scan {
      ScanSeesOneFamily(DueKey(t, id));
    }
    forall i, j | 0 <= i < j < |scan|
      ensures scan[i] in scan && scan[j] in scan
      ensures scan[i].at < scan[j].at || (scan[i].at == scan[j].at && LexLess(scan[i].id, scan[j].id))
    {
      var a, b := scan[i], scan[j];
      assert a in scan && b in scan;
      assert DueKey(a.at, a.id) in kv && DueKey(b.at, b.id) in kv;
      assert RowKey(a.id) in kv && RowKey(b.id) in kv;
      DueKeyOrder(a.at, a.id, b.at, b.id);
    }
  }

  lemma StateScanMembers(kv: KV, scan: seq<Key>)
    requires IsScan(kv, StateScanPrefix(Enqueued), scan)
    ensures forall k | k in scan :: k in kv && k.StateKey? && k.state == Enqueued
    ensures forall id: Id :: StateKey(Enqueued, id) in kv ==> StateKey(Enqueued, id) in scan
  {
    forall k | k in scan ensures k in kv && k.StateKey? && k.state == Enqueued { ScanSeesOneFamily(k); }
    forall id: Id | StateKey(Enqueued, id) in kv ensures StateKey(Enqueued, id) in scan {
      ScanSeesOneFamily(StateKey(Enqueued, id));
    }
  }

  lemma RowScanMembers(kv: KV, scan: seq<Key>)
    requires IsScan(kv, RowPrefix(), scan)
    ensures forall k | k in scan :: k in kv && k.RowKey?
    ensures forall id: Id :: RowKey(id) in kv ==> RowKey(id) in scan
  {
    forall k | k in scan ensures k in kv && k.RowKey? { ScanSeesOneFamily(k); }
    forall id: Id | RowKey(id) in kv ensures RowKey(id) in scan { ScanSeesOneFamily(RowKey(id)); }
  }

  lemma LoadedAreDue(kv: KV, now: int, ids: seq<Id>, rows: seq<Row>)
    requires ListsDue(kv, now, ids) && |rows| == |ids|
    requires forall k | 0 <= k < |ids| :: Stored(kv, ids[k]) == Some(rows[k]) && rows[k].id == ids[k]
    ensures forall row: Row :: row in rows <==> Stored(kv, row.id) == Some(row) && Due(kv, row.id, now)
    ensures forall i, j | 0 <= i < j < |rows| :: DueBefore(rows[i], rows[j])
  {
    forall row: Row ensures row in rows <==> Stored(kv, row.id) == Some(row) && Due(kv, row.id, now) {
      if row in rows {
        var k :| 0 <= k < |rows| && rows[k] == row;
        assert ids[k] in ids;
      }
      if Stored(kv, row.id) == Some(row) && Due(kv, row.id, now) {
        var k :| 0 <= k < |ids| && ids[k] == row.id;
        assert rows[k] == row;
      }
    }
  }

  /** The ids of the scan's keys up to the first later one are the due ones. */
  lemma CollectedAreDue(kv: KV, scan: seq<Key>, now: int, ids: seq<Id>)
    requires Consistent(kv) && IsDueScan(kv, scan) && |ids| <= |scan|
    requires forall k | 0 <= k < |ids| :: scan[k] in scan && ids[k] == scan[k].id && scan[k].at <= now
    requires |ids| < |scan| ==> scan[|ids|].at > now
    ensures ListsDue(kv, now, ids)
  {
    hide LexLess;
    forall id: Id ensures id in ids <==> Due(kv, id, now) {
      if id in ids {
        var k :| 0 <= k < |ids| && ids[k] == id;
        assert DueKey(scan[k].at, id) in kv;
      }
      if Due(kv, id, now) {
        var key := DueKey(Stored(kv, id).value.nextAt, id);
        assert key in kv && key in scan;
        var k :| 0 <= k < |scan| && scan[k] == key;
        assert ids[k] == id;
      }
    }
    forall a, b | 0 <= a < b < |ids|
      ensures ids[a] in ids && ids[b] in ids && DueBefore(Stored(kv, ids[a]).value, Stored(kv, ids[b]).value)
    {
      assert DueKey(scan[a].at, scan[a].id) in kv && DueKey(scan[b].at, scan[b].id) in kv;
    }
  }

  /** A listed row is moved once: after that it is due. */
  lemma AlreadyKicked(kv: KV, ids: seq<Id>, id: Id, now: int)
    requires Consistent(kv) && TimeOk(now)
    ensures var kv' := KickTxn(kv, ids, now);
            && (Kickable(kv', id, now) <==> Kickable(kv, id, now) && id !in ids)
            && (id !in ids ==> Stored(kv', id) == Stored(kv, id))
    ensures Stored(kv, id).Some? ==> Stored(kv, id).value.id == id
  {
    hide Consistent;
    KickKeeps(kv, ids, now);
    RowIds(kv, id);
  }

  lemma RowIds(kv: KV, id: Id)
    requires Consistent(kv)
    ensures Stored(kv, id).Some? ==> Stored(kv, id).value.id == id
  {
    if Stored(kv, id).Some? { assert RowKey(id) in kv; }
  }

  class Store {
    var kv: KV

    ghost predicate Valid()
      reads this
    {
      Consistent(kv)
    }

    constructor ()
      ensures Valid() && kv == map[]
    {
      kv := map[];
    }

    method Enqueue(dest: Dest, env: Envelope, now: int) returns (r: EnqueueResult)
      requires Valid() && TimeOk(now)
      modifies this
      ensures Valid()
      ensures r.MissingId? <==> env.id == []
      ensures r.Duplicate? <==> env.id != [] && old(Stored(kv, env.id)).Some?
      ensures r.Queued? ==>
        && r.row == Row(env.id, dest, env, Enqueued, 0, 0, false, 0, now, now, now, [], false)
        && Stored(kv, env.id) == Some(r.row)
      ensures !r.Queued? ==> kv == old(kv)
      ensures kv == if env.id == [] then old(kv) else EnqueueTxn(old(kv), dest, env, now)
    {
      if env.id == [] {
        return MissingId;
      }
      if RowKey(env.id) in kv {
        return Duplicate;
      }
      var row := Row(env.id, dest, env, Enqueued, 0, 0, false, 0, now, now, now, [], false);
      InsertKeeps(kv, row);
      kv := kv[RowKey(env.id) := RowVal(row)];
      kv := kv[DueKey(now, env.id) := IdVal(env.id)];
      kv := kv[StateKey(Enqueued, env.id) := EmptyVal];
      r := Queued(row);
    }

    method Load(id: Id) returns (r: Option<Row>)
      requires Valid()
      ensures r == Stored(kv, id)
    {
      if RowKey(id) in kv { r := Some(kv[RowKey(id)].row); } else { r := None; }
    }

    /** Writes the successor of the snapshot `row`; the store need not hold that snapshot any more. */
    method Advance(row: Row, c: Change)
      modifies this
      ensures kv == AdvanceTxn(old(kv), row, c)
    {
      var terminal := c.state == Sent || c.state == Failed;
      var updated := row.(state := c.state, attempts := c.attempts, kickedAttempts := c.kickedAttempts,
                          kicked := false, ackFailures := c.ackFailures, lastError := c.lastError, changedAt := c.now);
      if terminal {
        updated := updated.(nextAt := 0);
      } else {
        updated := updated.(nextAt := c.nextAt);
      }
      if row.nextAt != 0 {
        kv := kv - {DueKey(row.nextAt, row.id)};
      }
      kv := kv - {StateKey(row.state, row.id)};
      kv := kv[RowKey(row.id) := RowVal(updated)];
      kv := kv[StateKey(c.state, row.id) := EmptyVal];
      if !terminal {
        kv := kv[DueKey(c.nextAt, row.id) := IdVal(row.id)];
      }
    }

    /** The read phase of ListDue. */
    method ScanDue(scan: seq<Key>, now: int) returns (ids: seq<Id>)
      requires Valid() && IsScan(kv, DuePrefix(), scan)
      ensures ListsDue(kv, now, ids)
    {
      ScanIsDueOrder(kv, scan);
      ids := CollectDue(scan, now);
    }

    /** Stops at the first key beyond `now`. */
    method CollectDue(scan: seq<Key>, now: int) returns (ids: seq<Id>)
      requires Valid() && IsDueScan(kv, scan)
      ensures ListsDue(kv, now, ids)
    {
      hide Consistent;
      ids := [];
      var i := 0;
      while i < |scan|
        invariant 0 <= i <= |scan| && |ids| == i
        invariant forall k | 0 <= k < i :: scan[k] in scan && ids[k] == scan[k].id && scan[k].at <= now
      {
        assert scan[i] in scan;
        if scan[i].at > now {
          break;
        }
        ids := ids + [kv[scan[i]].id];
        i := i + 1;
      }
      CollectedAreDue(kv, scan, now, ids);
    }

    /** The read phase's ids, loaded one by one; an id without a row is skipped. */
    method LoadAll(ids: seq<Id>) returns (rows: seq<Row>)
      requires Valid() && forall id | id in ids :: Stored(kv, id).Some?
      ensures |rows| == |ids|
      ensures forall k | 0 <= k < |ids| :: Stored(kv, ids[k]) == Some(rows[k]) && rows[k].id == ids[k]
    {
      rows := [];
      for i := 0 to |ids|
        invariant |rows| == i
        invariant forall k | 0 <= k < i :: Stored(kv, ids[k]) == Some(rows[k]) && rows[k].id == ids[k]
      {
        var row := Load(ids[i]);
        if row.Some? {
          assert RowKey(ids[i]) in kv;
          rows := rows + [row.value];
        }
      }
    }

    /** ListDue with nothing in between its scan and its loads. */
    method ListDue(scan: seq<Key>, now: int) returns (rows: seq<Row>)
      requires Valid() && IsScan(kv, DuePrefix(), scan)
      ensures forall row: Row :: row in rows <==>
        Stored(kv, row.id) == Some(row) && row.state == Enqueued && row.nextAt <= now
      ensures forall i, j | 0 <= i < j < |rows| ::
        rows[i].nextAt < rows[j].nextAt || (rows[i].nextAt == rows[j].nextAt && LexLess(rows[i].id, rows[j].id))
      ensures forall row: Row :: row in rows <==> Stored(kv, row.id) == Some(row) && Due(kv, row.id, now)
      ensures forall i, j | 0 <= i < j < |rows| :: DueBefore(rows[i], rows[j])
    {
      var ids := ScanDue(scan, now);
      rows := LoadAll(ids);
      LoadedAreDue(kv, now, ids, rows);
    }

    /** The read phase of a kick: the waiting rows of the matched destinations, by id. */
    method KickScan(scan: seq<Key>, match_: Dest -> bool, now: int) returns (ids: seq<Id>)
      requires Valid() && IsScan(kv, StateScanPrefix(Enqueued), scan)
      ensures forall id: Id :: id in ids <==>
        && Stored(kv, id).Some? && Stored(kv, id).value.state == Enqueued && Stored(kv, id).value.nextAt > now
        && match_(Stored(kv, id).value.dest)
    {
      StateScanMembers(kv, scan);
      ids := CollectKickable(scan, match_, now);
    }

    method CollectKickable(scan: seq<Key>, match_: Dest -> bool, now: int) returns (ids: seq<Id>)
      requires Valid()
      requires forall k | k in scan :: k in kv && k.StateKey? && k.state == Enqueued
      requires forall id: Id :: StateKey(Enqueued, id) in kv ==> StateKey(Enqueued, id) in scan
      ensures forall id: Id :: id in ids <==> Kickable(kv, id, now) && match_(Stored(kv, id).value.dest)
    {
      ids := [];
      for i := 0 to |scan|
        invariant forall id: Id :: id in ids <==>
          StateKey(Enqueued, id) in scan[..i] && Kickable(kv, id, now) && match_(Stored(kv, id).value.dest)
      {
        var k := scan[i];
        assert k in scan && StateKey(Enqueued, k.id) in kv;
        var row := Load(k.id);
        if row.Some? && match_(row.value.dest) && row.value.nextAt > now {
          ids := ids + [k.id];
        }
        assert scan[..i + 1] == scan[..i] + [k];
      }
      assert scan[..|scan|] == scan;
    }

    /** The write phase of a kick; answers the rows it moved, as they were. */
    method KickWrite(ids: seq<Id>, now: int) returns (moved: seq<Row>)
      requires Valid() && TimeOk(now)
      modifies this
      ensures Valid() && kv == KickTxn(old(kv), ids, now)
      ensures forall row: Row :: row in moved <==>
        row.id in ids && old(Stored(kv, row.id)) == Some(row) && row.state == Enqueued && row.nextAt > now
    {
      hide Consistent, Stored;
      moved := [];
      ghost var kv0 := kv;
      for i := 0 to |ids|
        invariant Consistent(kv) && kv == KickTxn(kv0, ids[..i], now)
        invariant forall row: Row :: row in moved <==>
          row.id in ids[..i] && Stored(kv0, row.id) == Some(row) && Kickable(kv0, row.id, now)
      {
        KickKeeps(kv0, ids[..i], now);
        AlreadyKicked(kv0, ids[..i], ids[i], now);
        assert ids[..i + 1][..i] == ids[..i] && ids[..i + 1][i] == ids[i];
        var row := KickRow(ids[i], now);
        if row.Some? {
          moved := moved + [row.value];
        }
      }
      assert ids[..|ids|] == ids;
    }

    /** Reads one row again and moves it if it still waits. */
    method KickRow(id: Id, now: int) returns (row: Option<Row>)
      requires Valid() && TimeOk(now)
      modifies this
      ensures Valid() && kv == KickOne(old(kv), id, now)
      ensures row == if old(Kickable(kv, id, now)) then old(Stored(kv, id)) else None
      ensures row.Some? ==> row.value.id == id
    {
      KickOneKeeps(kv, id, now);
      row := Load(id);
      if row.Some? && row.value.state == Enqueued && row.value.nextAt > now {
        assert RowKey(id) in kv;
        kv := kv - {DueKey(row.value.nextAt, row.value.id)};
        kv := kv[RowKey(row.value.id) := RowVal(row.value.(nextAt := now, kicked := true))];
        kv := kv[DueKey(now, row.value.id) := IdVal(row.value.id)];
      } else {
        row := None;
      }
    }

    /** The read phase of a collection. */
    method GcScan(scan: seq<Key>, now: int) returns (victims: seq<Row>)
      requires Valid() && IsScan(kv, RowPrefix(), scan)
      ensures forall row: Row :: row in victims <==>
        && Stored(kv, row.id) == Some(row)
        && ((row.state == Sent && now - row.changedAt >= GC_SENT_AGE) ||
            (row.state == Failed && now - row.changedAt >= GC_FAILED_AGE))
    {
      RowScanMembers(kv, scan);
      victims := CollectVictims(scan, now);
    }

    method CollectVictims(scan: seq<Key>, now: int) returns (victims: seq<Row>)
      requires Valid()
      requires forall k | k in scan :: k in kv && k.RowKey?
      requires forall id: Id :: RowKey(id) in kv ==> RowKey(id) in scan
      ensures forall row: Row :: row in victims <==> Stored(kv, row.id) == Some(row) && GcVictim(row, now)
    {
      victims := [];
      for i := 0 to |scan|
        invariant forall row: Row :: row in victims <==>
          RowKey(row.id) in scan[..i] && Stored(kv, row.id) == Some(row) && GcVictim(row, now)
      {
        var k := scan[i];
        assert k in scan && RowKey(k.id) in kv;
        var row := kv[k].row;
        if GcVictim(row, now) {
          victims := victims + [row];
        }
        assert scan[..i + 1] == scan[..i] + [k];
      }
      assert scan[..|scan|] == scan;
    }

    /** The write phase of a collection deletes row and state keys, never due keys. */
    method GcWrite(victims: seq<Row>)
      modifies this
      ensures kv == GcTxn(old(kv), victims)
    {
      ghost var kv0 := kv;
      for i := 0 to |victims|
        invariant kv == GcTxn(kv0, victims[..i])
      {
        assert victims[..i + 1][..i] == victims[..i] && victims[..i + 1][i] == victims[i];
        kv := kv - {RowKey(victims[i].id)};
        kv := kv - {StateKey(victims[i].state, victims[i].id)};
      }
      assert victims[..|victims|] == victims;
    }

    /** Moves the legacy queue into the outbox, one transaction per entry; counts the entries that had an id,
        those already in the outbox included. */
    method Migrate(pending: seq<(Bytes, LegacyEntry)>, now: int) returns (migrated: nat)
      requires Valid() && TimeOk(now)
      modifies this
      ensures Valid() && kv == MigrateAll(old(kv), pending, now)
      ensures migrated == CountWithId(pending)
    {
      migrated := 0;
      ghost var kv0 := kv;
      for i := 0 to |pending|
        invariant Valid() && kv == MigrateAll(kv0, pending[..i], now) && migrated == CountWithId(pending[..i])
      {
        var (suffix, e) := pending[i];
        assert pending[..i + 1][..i] == pending[..i];
        if e.envelope.id != [] {
          MigrateEntry(suffix, e, now);
          migrated := migrated + 1;
        }
      }
      assert pending[..|pending|] == pending;
    }

    method MigrateEntry(suffix: Bytes, e: LegacyEntry, now: int)
      requires Valid() && TimeOk(now) && e.envelope.id != []
      modifies this
      ensures Valid() && kv == MigrateTxn(old(kv), suffix, e, now)
      ensures Stored(kv, e.envelope.id) ==
        if old(Stored(kv, e.envelope.id)).Some? then old(Stored(kv, e.envelope.id)) else Some(MigratedRow(e, now))
      ensures OnlyRowChanged(old(kv), kv, e.envelope.id)
    {
      if RowKey(e.envelope.id) in kv {
        return;
      }
      var row := Row(e.envelope.id, e.dest, e.envelope, Enqueued, e.attempts, 0, false, 0,
                     e.firstAt * NANOS_PER_SECOND, now, now, [], false);
      InsertKeeps(kv, row);
      DropLegacyKeeps(InsertTxn(kv, row), suffix);
      kv := kv[RowKey(row.id) := RowVal(row)];
      kv := kv[DueKey(now, row.id) := IdVal(row.id)];
      kv := kv[StateKey(Enqueued, row.id) := EmptyVal];
      kv := kv - {LegacyKey(suffix)};
    }

    /** A send that failed: finished for good on 401, given up after enough counted attempts or enough time,
        otherwise put back. A kicked attempt does not count. */
    method HandleSendErr(cfg: Config, row: Row, o: Outcome, now: int)
      requires o.Unauthorized? || o.SendFailed?
      modifies this
      ensures kv == ProcessTxn(cfg, old(kv), row, o, now)
      ensures var counted := row.attempts + 1 - row.kickedAttempts - (if row.kicked then 1 else 0);
              var tried := row.(attempts := row.attempts + 1, kickedAttempts := row.attempts + 1 - counted,
                                kicked := false, lastError := o.err, changedAt := now);
              Stored(kv, row.id) == Some(
                if o.Unauthorized? then tried.(state := Failed, nextAt := 0)
                else if counted < cfg.maxAttempts && now - row.firstAt < cfg.deadLetterAge
                then tried.(state := Enqueued, nextAt := now + o.backoff)
                else tried.(state := Failed, nextAt := 0, gaveUp := true))
    {
      var newAttempts := row.attempts + 1;
      var newKicked := row.kickedAttempts;
      if row.kicked { newKicked := newKicked + 1; }
      var counted := newAttempts - newKicked;
      if o.Unauthorized? {
        Advance(row, Change(Failed, 0, newAttempts, newKicked, row.ackFailures, o.err, now));
        return;
      }
      if counted >= cfg.maxAttempts || now - row.firstAt >= cfg.deadLetterAge {
        var gaveUp := row.(gaveUp := true);
        Advance(gaveUp, Change(Failed, 0, newAttempts, newKicked, row.ackFailures, o.err, now));
        return;
      }
      var nextAt := now + o.backoff;
      Advance(row, Change(Enqueued, nextAt, newAttempts, newKicked, row.ackFailures, o.err, now));
    }

    /** A send the peer answered: sent, unless the answer's signature does not verify. */
    method HandleSendOk(cfg: Config, row: Row, o: Outcome, now: int)
      requires !o.Unauthorized? && !o.SendFailed?
      modifies this
      ensures kv == ProcessTxn(cfg, old(kv), row, o, now)
      ensures var tried := row.(attempts := row.attempts + 1, kicked := false, changedAt := now);
              var bad := tried.(kickedAttempts := row.kickedAttempts + (if row.kicked then 1 else 0),
                                ackFailures := row.ackFailures + 1, lastError := if o.BadAck? then o.err else []);
              Stored(kv, row.id) == Some(
                if !o.BadAck? then tried.(state := Sent, nextAt := 0, ackFailures := 0, lastError := [])
                else if row.ackFailures + 1 < cfg.ackVerifyMaxTries
                then bad.(state := Enqueued, nextAt := now + o.backoff)
                else bad.(state := Failed, nextAt := 0))
    {
      if !o.BadAck? {
        Advance(row, Change(Sent, 0, row.attempts + 1, row.kickedAttempts, 0, [], now));
        return;
      }
      var newAttempts := row.attempts + 1;
      var newKicked := row.kickedAttempts;
      if row.kicked { newKicked := newKicked + 1; }
      var newAckFails := row.ackFailures + 1;
      if newAckFails >= cfg.ackVerifyMaxTries {
        Advance(row, Change(Failed, 0, newAttempts, newKicked, newAckFails, o.err, now));
      } else {
        Advance(row, Change(Enqueued, now + o.backoff, newAttempts, newKicked, newAckFails, o.err, now));
      }
    }
  }

  // ---------- migration ----------

  function MigrateAll(kv: KV, pending: seq<(Bytes, LegacyEntry)>, now: int): KV {
    if pending == [] then kv
    else
      var p := pending[|pending| - 1];
      MigrateTxn(MigrateAll(kv, pending[..|pending| - 1], now), p.0, p.1, now)
  }

  function CountWithId(pending: seq<(Bytes, LegacyEntry)>): nat {
    if pending == [] then 0
    else CountWithId(pending[..|pending| - 1]) + (if pending[|pending| - 1].1.envelope.id != [] then 1 else 0)
  }

  /** One more entry counts exactly when it has an id. */
  lemma CountNext(pending: seq<(Bytes, LegacyEntry)>, p: (Bytes, LegacyEntry))
    ensures CountWithId(pending + [p]) == CountWithId(pending) + (if p.1.envelope.id == [] then 0 else 1)
    ensures CountWithId([]) == 0
  {
    assert (pending + [p])[..|pending|] == pending;
  }

  /** Migration loses nothing and overwrites nothing: every entry with an id ends up in the outbox, a row that
      was there stays as it was, and a new row comes from an entry of the queue. */
  lemma {:induction false} MigrationKeepsEntries(kv: KV, pending: seq<(Bytes, LegacyEntry)>, now: int)
    requires Consistent(kv) && TimeOk(now)
    ensures var kv' := MigrateAll(kv, pending, now);
            Consistent(kv') &&
            (forall p | p in pending && p.1.envelope.id != [] :: Stored(kv', p.1.envelope.id).Some?) &&
            (forall id: Id :: Stored(kv, id).Some? ==> Stored(kv', id) == Stored(kv, id)) &&
            (forall id: Id :: Stored(kv', id).Some? && Stored(kv, id).None? ==>
               exists p :: p in pending && p.1.envelope.id == id && Stored(kv', id) == Some(MigratedRow(p.1, now)))
  {
    if pending != [] {
      var front, p := pending[..|pending| - 1], pending[|pending| - 1];
      assert pending == front + [p];
      MigrationKeepsEntries(kv, front, now);
      var kv1 := MigrateAll(kv, front, now);
      var id := p.1.envelope.id;
      if id != [] && RowKey(id) !in kv1 {
        var row := MigratedRow(p.1, now);
        InsertKeeps(kv1, row);
        DropLegacyKeeps(InsertTxn(kv1, row), p.0);
        assert p in pending && Stored(MigrateAll(kv, pending, now), id) == Some(row);
      }
    }
  }

  // ---------- the order of one drain pass ----------

  function RowsForDest(rows: seq<Row>, dest: Dest): seq<Row> {
    if rows == [] then []
    else
      var front := RowsForDest(rows[..|rows| - 1], dest);
      if rows[|rows| - 1].dest == dest then front + [rows[|rows| - 1]] else front
  }

  function Group(rows: seq<Row>, untried: bool): seq<Row> {
    if rows == [] then []
    else
      var front := Group(rows[..|rows| - 1], untried);
      if (rows[|rows| - 1].attempts == 0) == untried then front + [rows[|rows| - 1]] else front
  }

  function Ordered(rows: seq<Row>): seq<Row> { Group(rows, true) + Group(rows, false) }

  method FilterDest(rows: seq<Row>, dest: Dest) returns (mine: seq<Row>)
    ensures mine == RowsForDest(rows, dest)
  {
    mine := [];
    for i := 0 to |rows|
      invariant mine == RowsForDest(rows[..i], dest)
    {
      assert rows[..i + 1][..i] == rows[..i];
      if rows[i].dest == dest { mine := mine + [rows[i]]; }
    }
    assert rows[..|rows|] == rows;
  }

  method OrderPass(rows: seq<Row>) returns (ordered: seq<Row>)
    ensures ordered == Ordered(rows)
  {
    ordered := [];
    for i := 0 to |rows|
      invariant ordered == Group(rows[..i], true)
    {
      assert rows[..i + 1][..i] == rows[..i];
      if rows[i].attempts == 0 { ordered := ordered + [rows[i]]; }
    }
    assert rows[..|rows|] == rows;
    for i := 0 to |rows|
      invariant ordered == Group(rows, true) + Group(rows[..i], false)
    {
      assert rows[..i + 1][..i] == rows[..i];
      if rows[i].attempts != 0 { ordered := ordered + [rows[i]]; }
    }
    assert rows[..|rows|] == rows;
  }

  /** `picked` is `rows` cut down to the positions `at`, in the same order. */
  ghost predicate Picks(rows: seq<Row>, picked: seq<Row>, at: seq<nat>) {
    && |at| == |picked|
    && (forall i | 0 <= i < |at| :: at[i] < |rows| && rows[at[i]] == picked[i])
    && (forall i, j | 0 <= i < j < |at| :: at[i] < at[j])
  }

  lemma {:induction false} DestPositions(rows: seq<Row>, dest: Dest) returns (at: seq<nat>)
    ensures Picks(rows, RowsForDest(rows, dest), at)
    ensures forall row: Row ::
            multiset(RowsForDest(rows, dest))[row] == if row.dest == dest then multiset(rows)[row] else 0
  {
    if rows == [] {
      at := [];
    } else {
      var n := |rows| - 1;
      assert rows == rows[..n] + [rows[n]];
      at := DestPositions(rows[..n], dest);
      if rows[n].dest == dest { at := at + [n]; }
    }
  }

  lemma {:induction false} GroupPositions(rows: seq<Row>, untried: bool) returns (at: seq<nat>)
    ensures Picks(rows, Group(rows, untried), at)
    ensures forall i | 0 <= i < |Group(rows, untried)| :: (Group(rows, untried)[i].attempts == 0) == untried
  {
    if rows == [] {
      at := [];
    } else {
      var n := |rows| - 1;
      at := GroupPositions(rows[..n], untried);
      if (rows[n].attempts == 0) == untried { at := at + [n]; }
    }
  }

  lemma {:induction false} GroupCounts(rows: seq<Row>, untried: bool)
    ensures forall row: Row ::
              multiset(Group(rows, untried))[row] == (if (row.attempts == 0) == untried then multiset(rows)[row] else 0)
  {
    if rows != [] {
      var n := |rows| - 1;
      assert rows == rows[..n] + [rows[n]];
      GroupCounts(rows[..n], untried);
    }
  }

  lemma PicksCompose(rows: seq<Row>, mid: seq<Row>, picked: seq<Row>, m: seq<nat>, p: seq<nat>) returns (at: seq<nat>)
    requires Picks(rows, mid, m) && Picks(mid, picked, p)
    ensures Picks(rows, picked, at)
  {
    at := seq(|p|, i requires 0 <= i < |p| => m[p[i]]);
  }

  /** A drain pass takes each due row of its destination exactly once: first the rows never tried, then the
      others, and each of the two groups in due order (positions `a` and `b` of the due list). */
  lemma PassIsStablePermutation(rows: seq<Row>, dest: Dest) returns (a: seq<nat>, b: seq<nat>)
    ensures var q := Ordered(RowsForDest(rows, dest));
      && (forall row: Row :: multiset(q)[row] == if row.dest == dest then multiset(rows)[row] else 0)
      && |q| == |a| + |b|
      && Picks(rows, q[..|a|], a) && Picks(rows, q[|a|..], b)
      && (forall i | 0 <= i < |q| :: i < |a| <==> q[i].attempts == 0)
  {
    var mine := RowsForDest(rows, dest);
    var m := DestPositions(rows, dest);
    var ga := GroupPositions(mine, true);
    var gb := GroupPositions(mine, false);
    GroupCounts(mine, true);
    GroupCounts(mine, false);
    a := PicksCompose(rows, mine, Group(mine, true), m, ga);
    b := PicksCompose(rows, mine, Group(mine, false), m, gb);
    var q := Ordered(mine);
    assert q[..|a|] == Group(mine, true) && q[|a|..] == Group(mine, false);
  }

  // ---------- retry delay ----------

  const BACKOFF_BASE := 30
  const BACKOFF_CAP := 3600

  lemma {:induction false} Pow2Monotone(m: nat, n: nat)
    requires m <= n
    ensures 1 <= Pow2(m) <= Pow2(n)
    decreases n
  {
    if m < n { Pow2Monotone(m, n - 1); } else if m > 0 { Pow2Monotone(m - 1, n - 1); }
  }

  /** Seconds before jitter: 30 s doubled for each attempt after the first, at most an hour. */
  method DoublingBackoff(attempts: int) returns (base: int)
    ensures attempts <= 1 ==> base == BACKOFF_BASE
    ensures attempts > 1 ==>
      var d := BACKOFF_BASE * Pow2(attempts - 1);
      base == if d < BACKOFF_CAP then d else BACKOFF_CAP
  {
    base := BACKOFF_BASE;
    var i := 1;
    while i < attempts
      invariant 1 <= i && (attempts >= 1 ==> i <= attempts)
      invariant attempts <= 1 ==> i == 1
      invariant base == BACKOFF_BASE * Pow2(i - 1) < BACKOFF_CAP
    {
      base := base * 2;
      if base >= BACKOFF_CAP {
        base := BACKOFF_CAP;
        Pow2Monotone(i, attempts - 1);
        break;
      }
      i := i + 1;
    }
  }

  /** Jitter moves a delay by at most a fifth, whatever random number `r` in [0, 1] was drawn. */
  function Jitter(d: real, r: real): (j: real)
    requires 0.0 <= r <= 1.0 && d >= 0.0
    ensures 0.8 * d <= j <= 1.2 * d
    ensures j == (1.0 - r) * (0.8 * d) + r * (1.2 * d)
  {
    d * (1.0 + 0.2 * (2.0 * r - 1.0))
  }
}
