/** The fetch worker: each file operation and each row write is one effect, and the disk after every effect is
    recorded, so that what holds of all recorded disks also holds after a crash at any point. */
module FetchWorker {
  import opened Bytes
  import opened FetchModel

  ghost predicate TrailOk(h: Bytes -> Bytes, trail: seq<Disk>) { forall k | 0 <= k < |trail| :: DiskOk(h, trail[k]) }

  ghost predicate Safe(h: Bytes -> Bytes, d: Disk, trail: seq<Disk>, row: Fetch) {
    DiskOk(h, d) && InHand(d, row) && TrailOk(h, trail)
  }

  class Worker {
    const h: Bytes -> Bytes
    var disk: Disk
    ghost var trail: seq<Disk>

    constructor (h: Bytes -> Bytes, d: Disk)
      ensures this.h == h && disk == d && trail == [d]
    {
      this.h, disk, trail := h, d, [d];
    }

    // ---------- effects ----------

    method UpdateFetch(row: Fetch, ok: bool)
      modifies this`disk, this`trail
      ensures disk == Persisted(old(disk), row, ok) && trail == old(trail) + [disk]
    {
      if ok {
        disk := disk.(rows := disk.rows[row.token := row]);
      }
      trail := trail + [disk];
    }

    /** Empties a part file. One that is not there counts as emptied. */
    method TruncatePart(id: Name, ok: bool) returns (done: bool)
      modifies this`disk, this`trail
      ensures disk == Truncated(old(disk), id, ok) && trail == old(trail) + [disk]
      ensures done == (ok || PartName(id) !in old(disk).files)
    {
      done := ok || PartName(id) !in disk.files;
      if ok && PartName(id) in disk.files {
        disk := disk.(files := disk.files[PartName(id) := []]);
      }
      trail := trail + [disk];
    }

    /** Opens a part file for appending, creating it when it is not there. */
    method OpenPart(id: Name, ok: bool)
      modifies this`disk, this`trail
      ensures disk == (if ok then Appended(old(disk), id, []) else old(disk)) && trail == old(trail) + [disk]
    {
      if ok {
        assert PartOf(disk.files, id) + [] == PartOf(disk.files, id);
        if PartName(id) !in disk.files {
          disk := disk.(files := disk.files[PartName(id) := []]);
        } else {
          assert disk.files[PartName(id) := disk.files[PartName(id)]] == disk.files;
        }
      }
      trail := trail + [disk];
    }

    method WritePart(id: Name, data: Bytes)
      requires PartName(id) in disk.files
      modifies this`disk, this`trail
      ensures disk == Appended(old(disk), id, data) && trail == old(trail) + [disk]
    {
      disk := disk.(files := disk.files[PartName(id) := disk.files[PartName(id)] + data]);
      trail := trail + [disk];
    }

    method RenamePart(id: Name)
      requires PartName(id) in disk.files
      modifies this`disk, this`trail
      ensures disk == Finished(old(disk), id) && trail == old(trail) + [disk]
    {
      disk := disk.(files := (disk.files - {PartName(id)})[id := disk.files[PartName(id)]]);
      trail := trail + [disk];
    }

    method Remove(n: Name)
      modifies this`disk, this`trail
      ensures disk == old(disk).(files := old(disk).files - {n}) && trail == old(trail) + [disk]
    {
      disk := disk.(files := disk.files - {n});
      trail := trail + [disk];
    }

    // ---------- one request ----------

    /** The copy loop: every byte read goes to the part file and into the running hash. */
    method CopyBody(row: Fetch, body: seq<Chunk>, seed: Bytes) returns (updated: Fetch, end: BodyEnd, hashed: Bytes)
      requires PartName(row.msg) in disk.files
      modifies this`disk, this`trail
      ensures var (data, e) := Body(row.expectedSize, row.received, body);
              disk == Appended(old(disk), row.msg, data) && end == e && hashed == seed + data &&
              updated == row.(received := row.received + |data|)
      ensures old(Safe(h, disk, trail, row)) ==> Safe(h, disk, trail, updated)
    {
      hide Safe, Body, Rest, Appended, Turn;
      updated, hashed := row, seed;
      ghost var data: Bytes := [];
      BodyNone(old(disk), row);
      RestStarts(row.expectedSize, row.received, body);
      for i := 0 to |body|
        invariant PartName(row.msg) in disk.files && disk == Appended(old(disk), row.msg, data)
        invariant hashed == seed + data && updated == row.(received := row.received + |data|)
        invariant Rest(row.expectedSize, row.received, body, i, data)
        invariant old(Safe(h, disk, trail, row)) ==> Safe(h, disk, trail, updated)
      {
        RestStep(row.expectedSize, row.received, body, i, data);
        ghost var taken := Turn(row.expectedSize, updated.received, body[i]).0;
        AppendTwice(old(disk), row.msg, data, taken);
        assert seed + data + taken == seed + (data + taken);
        var stop: Option<BodyEnd>;
        updated, hashed, stop := TakeChunk(updated, body[i], hashed);
        data := data + taken;
        if stop.Some? {
          return updated, stop.value, hashed;
        }
      }
      end := Broken;
      RestEnds(row.expectedSize, row.received, body, data);
    }

    /** One turn of the copy loop. */
    method TakeChunk(row: Fetch, c: Chunk, hashed: Bytes)
      returns (updated: Fetch, hashed': Bytes, stop: Option<BodyEnd>)
      requires PartName(row.msg) in disk.files
      modifies this`disk, this`trail
      ensures PartName(row.msg) in disk.files
      ensures var (data, s) := Turn(row.expectedSize, row.received, c);
              disk == Appended(old(disk), row.msg, data) && hashed' == hashed + data && stop == s &&
              updated == row.(received := row.received + |data|)
      ensures old(Safe(h, disk, trail, row)) ==> Safe(h, disk, trail, updated)
    {
      hide Safe;
      updated, hashed' := row, hashed;
      BodyNone(disk, row);
      if c.expired {
        return updated, hashed', Some(Broken);
      }
      if |c.data| > 0 {
        if !c.writeOk {
          return updated, hashed', Some(Broken);
        }
        updated, hashed' := WriteChunk(row, c.data, hashed);
        if updated.expectedSize > 0 && updated.received > updated.expectedSize {
          return updated, hashed', Some(Oversized);
        }
      }
      if c.end == Eof {
        return updated, hashed', Some(Whole);
      }
      if c.end == Failed {
        return updated, hashed', Some(Broken);
      }
      stop := None;
    }

    /** One write goes to the part file and the hash, and is counted. */
    method WriteChunk(row: Fetch, data: Bytes, hashed: Bytes) returns (updated: Fetch, hashed': Bytes)
      requires PartName(row.msg) in disk.files
      modifies this`disk, this`trail
      ensures disk == Appended(old(disk), row.msg, data) && PartName(row.msg) in disk.files
      ensures updated == row.(received := row.received + |data|) && hashed' == hashed + data
      ensures old(Safe(h, disk, trail, row)) ==> Safe(h, disk, trail, updated)
    {
      hide Safe;
      ghost var was, wasTrail := disk, trail;
      WritePart(row.msg, data);
      updated := row.(received := row.received + |data|);
      hashed' := hashed + data;
      AppendSafe(h, was, wasTrail, row, data, updated);
    }

    /** From opening the part file to the rename. */
    method ReceiveBody(row: Fetch, r: Reply) returns (updated: Fetch, res: Result)
      requires r.Reply?
      modifies this`disk, this`trail
      ensures (disk, updated, res) == Receive(h, old(disk), row, r)
      ensures old(Safe(h, disk, trail, row)) ==> Safe(h, disk, trail, updated)
    {
      hide Safe, Body, Settle;
      updated := row;
      ghost var d0, t0 := disk, trail;
      OpenPart(row.msg, r.openOk);
      AppendSafe(h, d0, t0, row, [], row);
      IdleSafe(h, d0, t0, row);
      if !r.openOk {
        return updated, Retry(false);
      }
      var hashed: Bytes := [];
      var part := disk.files[PartName(row.msg)];
      assert part == PartOf(d0.files, row.msg);
      if updated.received > 0 {
        if !r.seedOk || |part| < updated.received {
          return updated, Retry(false);
        }
        hashed := part[..updated.received];
      }
      assert part + [] == part;
      assert hashed == part[..row.received];
      var end: BodyEnd;
      updated, end, hashed := CopyBody(updated, r.body, hashed);
      ghost var data := Body(row.expectedSize, row.received, r.body).0;
      AppendTwice(d0, row.msg, [], data);
      assert [] + data == data;
      res := SettleBody(updated, r, end, hashed);
    }

    /** What follows the last byte: flush, record, compare size and hash, rename. */
    method SettleBody(updated: Fetch, r: Reply, end: BodyEnd, hashed: Bytes) returns (res: Result)
      requires r.Reply? && PartName(updated.msg) in disk.files
      modifies this`disk, this`trail
      ensures (disk, updated, res) == Settle(h, old(disk), updated, r, end, h(hashed))
      ensures old(Safe(h, disk, trail, updated)) ==> Safe(h, disk, trail, updated)
    {
      hide Safe;
      if end == Oversized {
        return Fatal(Integrity);
      }
      if end == Broken || !r.syncOk {
        return Retry(false);
      }
      ghost var d1, t1 := disk, trail;
      UpdateFetch(updated, r.persistOk);
      PersistSafe(h, d1, t1, updated, r.persistOk);
      if updated.expectedSize > 0 && updated.received != updated.expectedSize {
        return Fatal(Integrity);
      }
      if updated.expectedSha != [] && h(hashed) != updated.expectedSha {
        return Fatal(Integrity);
      }
      if !r.renameOk {
        return Retry(false);
      }
      ghost var d2, t2 := disk, trail;
      RenamePart(updated.msg);
      FinishSafe(h, d2, t2, updated);
      res := Complete;
    }

    method StreamOne(row: Fetch, r: Reply) returns (updated: Fetch, res: Result)
      modifies this`disk, this`trail
      ensures (disk, updated, res) == Stream(h, old(disk), row, r)
      ensures old(Safe(h, disk, trail, row)) ==> Safe(h, disk, trail, updated)
    {
      hide Safe, Receive;
      updated := row;
      if r.NoReply? {
        return updated, Retry(r.renewed);
      }
      ghost var d0, t0 := disk, trail;
      match r.status {
      case 200 =>
        if updated.received != 0 {
          var done := TruncatePart(updated.msg, r.truncOk);
          TruncateSafe(h, d0, t0, row, r.truncOk, row.(received := 0));
          TruncateSafe(h, d0, t0, row, r.truncOk, row);
          if !done {
            return updated, Retry(false);
          }
          updated := updated.(received := 0);
        }
      case 206 =>
      case 404 => return updated, Fatal(BlobGone);
      case 410 => return updated, Fatal(BlobGone);
      case 416 =>
        var done := TruncatePart(updated.msg, r.truncOk);
        updated := updated.(received := 0);
        TruncateSafe(h, d0, t0, row, r.truncOk, updated);
        return updated, Retry(false);
      case _ => return updated, Retry(false);
      }
      updated, res := ReceiveBody(updated, r);
    }

    // ---------- one run ----------

    method TransitionTransient(row: Fetch, ok: bool)
      modifies this`disk, this`trail
      ensures disk == Persisted(old(disk), TransientRow(row), ok) && trail == old(trail) + [disk]
    {
      var row' := row.(state := FailedTransient);
      var kicked := row'.kicked;
      row' := row'.(kicked := false);
      if !kicked && row'.attempts < MAX_ATTEMPTS {
        row' := row'.(attempts := row'.attempts + 1);
      }
      UpdateFetch(row', ok);
    }

    /** Removes a message's files; a failed removal of the first leaves the second alone. */
    method DeleteStaging(id: Name, finalOk: bool, partOk: bool)
      modifies this`disk, this`trail
      ensures disk == old(disk).(files := Swept(old(disk).files, id, finalOk, partOk))
      ensures old(trail) <= trail
      ensures forall k | |old(trail)| <= k < |trail| ::
                trail[k].rows == old(disk).rows && OnlyRemoved(old(disk).files, trail[k].files, id)
    {
      if finalOk {
        Remove(id);
      } else if id in disk.files {
        return;
      }
      assert !finalOk ==> disk.files - {id} == disk.files;
      if partOk {
        Remove(PartName(id));
      }
    }

    method TransitionPermanent(row: Fetch, reason: FailReason, e: RunEnv)
      modifies this`disk, this`trail
      ensures disk == Ended(old(disk), row, Fatal(reason), e)
      ensures old(Safe(h, disk, trail, row)) ==> DiskOk(h, disk) && TrailOk(h, trail)
    {
      hide DiskOk, InHand, OnlyRemoved;
      ghost var d0, t0 := disk, trail;
      UpdateFetch(PermanentRow(row, reason), e.endOk);
      ghost var d1, t1 := disk, trail;
      DeleteStaging(row.msg, e.removeFinalOk, e.removePartOk);
      if Safe(h, d0, t0, row) {
        PersistKeeps(h, d0, row, e.endOk, PermanentRow(row, reason));
        EndedKeeps(h, d0, row, Fatal(reason), e);
        forall k | 0 <= k < |trail| ensures DiskOk(h, trail[k]) {
          if k >= |t1| { RemovedKeeps(h, d0, row, e.endOk, PermanentRow(row, reason), trail[k]); }
        }
      }
    }

    /** Makes a full part file the final one if it matches the offer, and empties it otherwise. */
    method FinishFromPart(row: Fetch, e: FinishEnv) returns (updated: Fetch, done: bool)
      modifies this`disk, this`trail
      ensures (disk, updated, done) == FromPart(h, old(disk), row, e)
      ensures old(Safe(h, disk, trail, row)) && Counted(old(disk).files, row) &&
              row.received == row.expectedSize > 0 ==>
              DiskOk(h, disk) && TrailOk(h, trail) && (!done ==> Safe(h, disk, trail, updated))
    {
      hide DiskOk, InHand;
      updated := row;
      ghost var d0, t0 := disk, trail;
      if Safe(h, d0, t0, row) && Counted(d0.files, row) && row.received == row.expectedSize > 0 {
        FromPartKeeps(h, d0, row, e);
      }
      if PartName(row.msg) in disk.files && e.readOk && |disk.files[PartName(row.msg)]| == row.expectedSize &&
         h(disk.files[PartName(row.msg)]) == row.expectedSha
      {
        if e.renameOk {
          RenamePart(row.msg);
          FinishSafe(h, d0, t0, row);
          updated := updated.(state := Ready);
          UpdateFetch(updated, e.persistOk);
          return updated, true;
        }
      }
      var emptied := TruncatePart(row.msg, e.truncOk);
      updated := updated.(received := 0);
      TruncateSafe(h, d0, t0, row, e.truncOk, updated);
      done := false;
    }

    /** Asks the addresses in order; a request cut by a circuit renewal is asked again once on the new circuit. */
    method AskAll(row0: Fetch, tries: seq<Try>) returns (row: Fetch, res: Result)
      modifies this`disk, this`trail
      ensures (disk, row, res) == Attempts(h, old(disk), row0, tries)
      ensures old(Safe(h, disk, trail, row0)) ==> Safe(h, disk, trail, row)
    {
      hide Safe, Stream;
      row, res := row0, Retry(false);
      for i := 0 to |tries|
        invariant Attempts(h, old(disk), row0, tries) == Attempts(h, disk, row, tries[i..])
        invariant old(Safe(h, disk, trail, row0)) ==> Safe(h, disk, trail, row)
        invariant res == Retry(false)
      {
        var t := tries[i];
        assert tries[i..][0] == t && tries[i..][1..] == tries[i + 1..];
        var result: Result;
        row, result := StreamOne(row, t.first);
        if result == Retry(true) && t.clientAgain {
          row, result := StreamOne(row, t.second);
        }
        if !result.Retry? {
          return row, result;
        }
      }
    }

    method Run(token: Token, e: RunEnv)
      modifies this`disk, this`trail
      ensures disk == RunOne(h, old(disk), token, e)
      ensures DiskOk(h, old(disk)) && TrailOk(h, old(trail)) && Sound(e) ==> DiskOk(h, disk) && TrailOk(h, trail)
    {
      hide DiskOk, InHand, Attempts, Counted, FromPart;
      ghost var d0, t0 := disk, trail;
      ghost var sound := DiskOk(h, d0) && TrailOk(h, t0) && Sound(e);
      if sound { RunKeeps(h, d0, token, e); }
      if token !in disk.rows {
        return;
      }
      var row := disk.rows[token];
      if row.state == Ready || row.state == FailedPermanent {
        return;
      }
      if !ValidId(row.msg) || !e.statOk {
        TransitionTransient(row, e.endOk);
        return;
      }
      if sound { BeginKeeps(h, d0, token, e.beginOk); }
      row := row.(received := |PartOf(disk.files, row.msg)|, state := Downloading);
      UpdateFetch(row, e.beginOk);
      if row.expectedSize > 0 && row.received == row.expectedSize {
        ghost var d1 := disk;
        if sound { FromPartKeeps(h, d1, row, e.finish); }
        var done: bool;
        row, done := FinishFromPart(row, e.finish);
        if done {
          return;
        }
      }
      Fetch(row, e);
    }

    /** The run once the row is begun: resolve, ask, and record how it ended. */
    method Fetch(row0: Fetch, e: RunEnv)
      modifies this`disk, this`trail
      ensures disk == Ask(h, old(disk), row0, e)
      ensures old(Safe(h, disk, trail, row0)) && Counted(old(disk).files, row0) && Sound(e) ==>
              DiskOk(h, disk) && TrailOk(h, trail)
    {
      hide DiskOk, InHand, Attempts, Counted;
      ghost var d0 := disk;
      ghost var sound := Safe(h, disk, trail, row0) && Counted(disk.files, row0) && Sound(e);
      if sound { AskKeeps(h, d0, row0, e); }
      if !e.resolveOk || |e.tries| == 0 || !e.clientOk {
        TransitionTransient(row0, e.endOk);
        return;
      }
      var row, res := AskAll(row0, e.tries);
      match res
      case Complete =>
        row := row.(state := Ready);
        UpdateFetch(row, e.endOk);
      case Fatal(reason) =>
        TransitionPermanent(row, reason, e);
      case Retry(_) =>
        TransitionTransient(row, e.endOk);
    }
  }

  // ---------- the copy loop, turn by turn ----------

  /** After i turns that gave data, the whole body is data and what the remaining turns give. */
  predicate Rest(expected: int, received: nat, body: seq<Chunk>, i: nat, data: Bytes) {
    i <= |body| &&
    var (more, end) := Body(expected, received + |data|, body[i..]);
    Body(expected, received, body) == (data + more, end)
  }

  lemma RestStarts(expected: int, received: nat, body: seq<Chunk>)
    ensures Rest(expected, received, body, 0, [])
  {
    hide Body;
    assert body[0..] == body && [] + Body(expected, received, body).0 == Body(expected, received, body).0;
  }

  lemma RestEnds(expected: int, received: nat, body: seq<Chunk>, data: Bytes)
    requires Rest(expected, received, body, |body|, data)
    ensures Body(expected, received, body) == (data, Broken)
  {
    assert data + [] == data;
  }

  lemma RestStep(expected: int, received: nat, body: seq<Chunk>, i: nat, data: Bytes)
    requires Rest(expected, received, body, i, data) && i < |body|
    ensures var (taken, stop) := Turn(expected, received + |data|, body[i]);
            if stop.Some? then Body(expected, received, body) == (data + taken, stop.value)
            else Rest(expected, received, body, i + 1, data + taken)
  {
    hide Turn;
    var (taken, stop) := Turn(expected, received + |data|, body[i]);
    var rest := body[i..];
    assert rest[0] == body[i] && rest[1..] == body[i + 1..];
    assert received + |data + taken| == received + |data| + |taken|;
    var more := Body(expected, received + |data| + |taken|, body[i + 1..]).0;
    assert data + (taken + more) == (data + taken) + more;
  }

  // ---------- effects keep the trail ----------

  ghost predicate OnlyRemoved(files: map<Name, Bytes>, files': map<Name, Bytes>, id: Name) {
    && (forall n | n != id && n != PartName(id) :: n in files' <==> n in files)
    && (forall n | n != id && n != PartName(id) && n in files' :: n in files && files'[n] == files[n])
  }

  lemma BodyNone(d: Disk, row: Fetch)
    requires PartName(row.msg) in d.files
    ensures Appended(d, row.msg, []) == d
  {
    assert d.files[PartName(row.msg)] + [] == d.files[PartName(row.msg)];
    assert d.files[PartName(row.msg) := d.files[PartName(row.msg)]] == d.files;
  }

  lemma AppendTwice(d: Disk, id: Name, a: Bytes, b: Bytes)
    ensures Appended(Appended(d, id, a), id, b) == Appended(d, id, a + b)
  {
    assert (PartOf(d.files, id) + a) + b == PartOf(d.files, id) + (a + b);
    assert d.files[PartName(id) := PartOf(d.files, id) + a][PartName(id) := PartOf(d.files, id) + a + b] ==
           d.files[PartName(id) := PartOf(d.files, id) + a + b];
  }

  lemma EffectSafe(h: Bytes -> Bytes, d: Disk, trail: seq<Disk>, row: Fetch, d': Disk, row': Fetch)
    requires Safe(h, d, trail, row) && DiskOk(h, d') && InHand(d', row')
    ensures Safe(h, d', trail + [d'], row')
  {
    hide DiskOk, InHand;
  }

  predicate SameRow(row: Fetch, row': Fetch) { row' == row.(received := row'.received) }

  lemma IdleSafe(h: Bytes -> Bytes, d: Disk, trail: seq<Disk>, row: Fetch)
    ensures Safe(h, d, trail, row) ==> Safe(h, d, trail + [d], row)
  {
    if Safe(h, d, trail, row) { EffectSafe(h, d, trail, row, d, row); }
  }

  lemma AppendSafe(h: Bytes -> Bytes, d: Disk, trail: seq<Disk>, row: Fetch, data: Bytes, row': Fetch)
    requires SameRow(row, row')
    ensures Safe(h, d, trail, row) ==> Safe(h, Appended(d, row.msg, data), trail + [Appended(d, row.msg, data)], row')
  {
    hide DiskOk;
    if Safe(h, d, trail, row) {
      FilesKeep(h, d, row, Appended(d, row.msg, data).files);
      EffectSafe(h, d, trail, row, Appended(d, row.msg, data), row');
    }
  }

  lemma TruncateSafe(h: Bytes -> Bytes, d: Disk, trail: seq<Disk>, row: Fetch, ok: bool, row': Fetch)
    requires SameRow(row, row')
    ensures Safe(h, d, trail, row) ==> Safe(h, Truncated(d, row.msg, ok), trail + [Truncated(d, row.msg, ok)], row')
  {
    hide DiskOk;
    if Safe(h, d, trail, row) {
      FilesKeep(h, d, row, Truncated(d, row.msg, ok).files);
      EffectSafe(h, d, trail, row, Truncated(d, row.msg, ok), row');
    }
  }

  lemma PersistSafe(h: Bytes -> Bytes, d: Disk, trail: seq<Disk>, row: Fetch, ok: bool)
    ensures Safe(h, d, trail, row) ==> Safe(h, Persisted(d, row, ok), trail + [Persisted(d, row, ok)], row)
  {
    hide DiskOk;
    if Safe(h, d, trail, row) {
      PersistKeeps(h, d, row, ok, row);
      EffectSafe(h, d, trail, row, Persisted(d, row, ok), row);
    }
  }

  lemma FinishSafe(h: Bytes -> Bytes, d: Disk, trail: seq<Disk>, row: Fetch)
    ensures Safe(h, d, trail, row) ==> Safe(h, Finished(d, row.msg), trail + [Finished(d, row.msg)], row)
  {
    hide DiskOk;
    if Safe(h, d, trail, row) {
      FilesKeep(h, d, row, Finished(d, row.msg).files);
      EffectSafe(h, d, trail, row, Finished(d, row.msg), row);
    }
  }

  lemma RemovedKeeps(h: Bytes -> Bytes, d: Disk, row: Fetch, ok: bool, row': Fetch, d': Disk)
    requires DiskOk(h, d) && InHand(d, row) && row'.token == row.token && row'.msg == row.msg &&
             row'.state == FailedPermanent
    requires d'.rows == Persisted(d, row', ok).rows && OnlyRemoved(d.files, d'.files, row.msg)
    ensures DiskOk(h, d')
  {
    hide DiskOk;
    var d1 := d.(files := d'.files);
    FilesKeep(h, d, row, d'.files);
    PersistKeeps(h, d1, row, ok, row');
    assert d' == Persisted(d1, row', ok);
  }
}
