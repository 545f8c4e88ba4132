/** Fetching a file: the fetch rows, the staging files, and what one run of the worker does to them. */
module FetchModel {
  import opened Bytes

  type Name = string
  type Token = string

  datatype State = Pending | Downloading | Ready | FailedTransient | FailedPermanent

  datatype FailReason = NoReason | BlobGone | Integrity | Limit

  datatype Fetch = Fetch(
    token: Token,
    msg: Name,
    expectedSize: int,
    expectedSha: Bytes,
    received: nat,
    state: State,
    attempts: nat,
    kicked: bool,
    reason: FailReason)

  /** What outlives the process: the staging directory and the stored rows. */
  datatype Disk = Disk(files: map<Name, Bytes>, rows: map<Token, Fetch>)

  const PART_SUFFIX := ".part"
  const MAX_ATTEMPTS := 65535

  predicate IsPart(n: Name) { |n| >= 5 && n[|n| - 5..] == PART_SUFFIX }

  function PartName(id: Name): Name { id + PART_SUFFIX }

  /** The id a part file belongs to. */
  function Stem(n: Name): Name
    requires IsPart(n)
  {
    n[..|n| - 5]
  }

  predicate ValidId(id: Name) { id != "" && !IsPart(id) }

  function PartOf(files: map<Name, Bytes>, id: Name): Bytes {
    if PartName(id) in files then files[PartName(id)] else []
  }

  // ---------- what the worker promises ----------

  /** The file is there, of the offered size and with the offered hash where the offer names them. */
  predicate GoodFinal(h: Bytes -> Bytes, files: map<Name, Bytes>, row: Fetch) {
    && row.msg in files
    && |files[row.msg]| == row.received
    && (row.expectedSize > 0 ==> |files[row.msg]| == row.expectedSize)
    && (row.expectedSha != [] ==> h(files[row.msg]) == row.expectedSha)
  }

  predicate Counted(files: map<Name, Bytes>, row: Fetch) { row.received == |PartOf(files, row.msg)| }

  /** Every row names its own message, and a ready row has its file. */
  ghost predicate DiskOk(h: Bytes -> Bytes, d: Disk) {
    && (forall t | t in d.rows :: RowOk(h, d.files, t, d.rows[t]))
    && (forall t, u | t in d.rows && u in d.rows && d.rows[t].msg == d.rows[u].msg :: t == u)
  }

  predicate RowOk(h: Bytes -> Bytes, files: map<Name, Bytes>, t: Token, row: Fetch) {
    row.token == t && ValidId(row.msg) && (row.state == Ready ==> GoodFinal(h, files, row))
  }

  /** The row in hand is a later version of the stored one, which is not finished. */
  ghost predicate InHand(d: Disk, row: Fetch) {
    && row.token in d.rows && d.rows[row.token].msg == row.msg
    && d.rows[row.token].state != Ready && row.state == Downloading
  }

  // ---------- single effects ----------

  function Persisted(d: Disk, row: Fetch, ok: bool): Disk {
    if ok then d.(rows := d.rows[row.token := row]) else d
  }

  function Truncated(d: Disk, id: Name, ok: bool): Disk {
    if ok && PartName(id) in d.files then d.(files := d.files[PartName(id) := []]) else d
  }

  function Appended(d: Disk, id: Name, data: Bytes): Disk {
    d.(files := d.files[PartName(id) := PartOf(d.files, id) + data])
  }

  function Finished(d: Disk, id: Name): Disk {
    d.(files := (d.files - {PartName(id)})[id := PartOf(d.files, id)])
  }

  // ---------- one request ----------

  datatype End = More | Eof | Failed

  /** One turn of the copy loop: whether the deadline had passed, what the body gave, whether it was written. */
  datatype Chunk = Chunk(expired: bool, data: Bytes, writeOk: bool, end: End)

  datatype BodyEnd = Whole | Broken | Oversized

  datatype Reply =
    | NoReply(renewed: bool)
    | Reply(status: int, truncOk: bool, openOk: bool, seedOk: bool, body: seq<Chunk>, syncOk: bool, persistOk: bool,
            renameOk: bool)

  datatype Result = Complete | Retry(renewed: bool) | Fatal(reason: FailReason)

  /** What one turn adds to the part file, and whether the body ends with it. */
  function Turn(expected: int, received: nat, c: Chunk): (Bytes, Option<BodyEnd>) {
    if c.expired || (c.data != [] && !c.writeOk) then ([], Some(Broken))
    else if c.data != [] && expected > 0 && received + |c.data| > expected then (c.data, Some(Oversized))
    else (c.data, match c.end case Eof => Some(Whole) case Failed => Some(Broken) case More => None)
  }

  /** What a body adds to the part file, and how it ends. */
  function Body(expected: int, received: nat, body: seq<Chunk>): (Bytes, BodyEnd)
    decreases |body|
  {
    if body == [] then ([], Broken)
    else
      var (data, stop) := Turn(expected, received, body[0]);
      if stop.Some? then (data, stop.value)
      else
        var (more, end) := Body(expected, received + |data|, body[1..]);
        (data + more, end)
  }

  predicate SizeFits(row: Fetch) { row.expectedSize > 0 ==> row.received == row.expectedSize }

  predicate HashFits(row: Fetch, sum: Bytes) { row.expectedSha != [] ==> sum == row.expectedSha }

  function Receive(h: Bytes -> Bytes, d: Disk, row: Fetch, r: Reply): (Disk, Fetch, Result)
    requires r.Reply?
  {
    if !r.openOk then (d, row, Retry(false))
    else
      var d1 := Appended(d, row.msg, []);
      var part := PartOf(d.files, row.msg);
      if row.received > 0 && (!r.seedOk || |part| < row.received) then (d1, row, Retry(false))
      else
        var (data, end) := Body(row.expectedSize, row.received, r.body);
        Settle(h, Appended(d, row.msg, data), row.(received := row.received + |data|), r, end,
               h(part[..row.received] + data))
  }

  /** What follows the last byte. */
  function Settle(h: Bytes -> Bytes, d: Disk, row: Fetch, r: Reply, end: BodyEnd, sum: Bytes): (Disk, Fetch, Result)
    requires r.Reply?
  {
    if end == Oversized then (d, row, Fatal(Integrity))
    else if end == Broken || !r.syncOk then (d, row, Retry(false))
    else
      var d1 := Persisted(d, row, r.persistOk);
      if !SizeFits(row) || !HashFits(row, sum) then (d1, row, Fatal(Integrity))
      else if !r.renameOk then (d1, row, Retry(false))
      else (Finished(d1, row.msg), row, Complete)
  }

  function Stream(h: Bytes -> Bytes, d: Disk, row: Fetch, r: Reply): (Disk, Fetch, Result) {
    if r.NoReply? then (d, row, Retry(r.renewed))
    else if r.status == 200 then
      if row.received != 0 && !r.truncOk && PartName(row.msg) in d.files then (d, row, Retry(false))
      else if row.received != 0 then Receive(h, Truncated(d, row.msg, true), row.(received := 0), r)
      else Receive(h, d, row, r)
    else if r.status == 206 then Receive(h, d, row, r)
    else if r.status == 404 || r.status == 410 then (d, row, Fatal(BlobGone))
    else if r.status == 416 then (Truncated(d, row.msg, r.truncOk), row.(received := 0), Retry(false))
    else (d, row, Retry(false))
  }

  // ---------- one run ----------

  /** One address: a reply, and a second one on a new circuit if the first ended in a renewal. */
  datatype Try = Try(first: Reply, clientAgain: bool, second: Reply)

  datatype FinishEnv = FinishEnv(readOk: bool, renameOk: bool, truncOk: bool, persistOk: bool)

  datatype RunEnv = RunEnv(
    statOk: bool,
    beginOk: bool,
    finish: FinishEnv,
    resolveOk: bool,
    clientOk: bool,
    tries: seq<Try>,
    endOk: bool,
    removeFinalOk: bool,
    removePartOk: bool)

  function OneTry(h: Bytes -> Bytes, d: Disk, row: Fetch, t: Try): (Disk, Fetch, Result) {
    var (d1, row1, res1) := Stream(h, d, row, t.first);
    if res1 == Retry(true) && t.clientAgain then Stream(h, d1, row1, t.second) else (d1, row1, res1)
  }

  /** The addresses in order, until one gives the file or rules it out. */
  function Attempts(h: Bytes -> Bytes, d: Disk, row: Fetch, tries: seq<Try>): (Disk, Fetch, Result)
    decreases |tries|
  {
    if tries == [] then (d, row, Retry(false))
    else
      var (d1, row1, res) := OneTry(h, d, row, tries[0]);
      if res.Retry? then Attempts(h, d1, row1, tries[1..]) else (d1, row1, res)
  }

  function TransientRow(row: Fetch): Fetch {
    row.(state := FailedTransient, kicked := false,
         attempts := if !row.kicked && row.attempts < MAX_ATTEMPTS then row.attempts + 1 else row.attempts)
  }

  function Swept(files: map<Name, Bytes>, id: Name, finalOk: bool, partOk: bool): map<Name, Bytes> {
    var files1 := if finalOk then files - {id} else files;
    if (finalOk || id !in files) && partOk then files1 - {PartName(id)} else files1
  }

  function PermanentRow(row: Fetch, reason: FailReason): Fetch { row.(state := FailedPermanent, reason := reason) }

  function Ended(d: Disk, row: Fetch, res: Result, e: RunEnv): Disk {
    match res
    case Complete => Persisted(d, row.(state := Ready), e.endOk)
    case Fatal(reason) =>
      var d1 := Persisted(d, PermanentRow(row, reason), e.endOk);
      d1.(files := Swept(d1.files, row.msg, e.removeFinalOk, e.removePartOk))
    case Retry(_) => Persisted(d, TransientRow(row), e.endOk)
  }

  /** A part file that already has every byte either becomes the file or is started again. */
  function FromPart(h: Bytes -> Bytes, d: Disk, row: Fetch, e: FinishEnv): (Disk, Fetch, bool) {
    var part := PartOf(d.files, row.msg);
    if PartName(row.msg) in d.files && e.readOk && |part| == row.expectedSize && h(part) == row.expectedSha &&
       e.renameOk
    then
      (Persisted(Finished(d, row.msg), row.(state := Ready), e.persistOk), row.(state := Ready), true)
    else
      (Truncated(d, row.msg, e.truncOk), row.(received := 0), false)
  }

  function Ask(h: Bytes -> Bytes, d: Disk, row: Fetch, e: RunEnv): Disk {
    if !e.resolveOk || e.tries == [] || !e.clientOk then Ended(d, row, Retry(false), e)
    else
      var (d1, row1, res) := Attempts(h, d, row, e.tries);
      Ended(d1, row1, res, e)
  }

  predicate Runs(d: Disk, token: Token) {
    token in d.rows && d.rows[token].state != Ready && d.rows[token].state != FailedPermanent
  }

  function Begun(d: Disk, row: Fetch): Fetch {
    row.(received := |PartOf(d.files, row.msg)|, state := Downloading)
  }

  function RunOne(h: Bytes -> Bytes, d: Disk, token: Token, e: RunEnv): Disk {
    if !Runs(d, token) then d
    else
      var row := d.rows[token];
      if !ValidId(row.msg) || !e.statOk then Ended(d, row, Retry(false), e)
      else
        var row1 := Begun(d, row);
        var d1 := Persisted(d, row1, e.beginOk);
        if row1.expectedSize > 0 && row1.received == row1.expectedSize then
          var (d2, row2, done) := FromPart(h, d1, row1, e.finish);
          if done then d2 else Ask(h, d2, row2, e)
        else
          Ask(h, d1, row1, e)
  }

  // ---------- truncations whose failure the worker ignores ----------

  predicate ReplySound(r: Reply) { r.Reply? && r.status == 416 ==> r.truncOk }

  predicate TriesSound(tries: seq<Try>) { forall t | t in tries :: ReplySound(t.first) && ReplySound(t.second) }

  predicate Sound(e: RunEnv) { e.finish.truncOk && TriesSound(e.tries) }

  // ---------- single effects keep the promises ----------

  lemma NamesApart(a: Name, b: Name)
    requires ValidId(a)
    ensures a != PartName(b) && (a == b <==> PartName(a) == PartName(b)) && IsPart(PartName(b)) &&
            Stem(PartName(b)) == b
  {
    assert PartName(b)[|b|..] == PART_SUFFIX;
    if PartName(a) == PartName(b) {
      assert |a| == |b|;
      assert a == PartName(a)[..|a|] == PartName(b)[..|b|] == b;
    }
  }

  /** Changing this message's files cannot hurt another message's ready row. */
  lemma FilesKeep(h: Bytes -> Bytes, d: Disk, row: Fetch, files: map<Name, Bytes>)
    requires DiskOk(h, d) && InHand(d, row)
    requires forall n | n != row.msg && n != PartName(row.msg) :: n in files <==> n in d.files
    requires forall n | n != row.msg && n != PartName(row.msg) && n in files :: files[n] == d.files[n]
    ensures DiskOk(h, d.(files := files)) && InHand(d.(files := files), row)
  {
    forall t | t in d.rows ensures RowOk(h, files, t, d.rows[t]) {
      assert RowOk(h, d.files, t, d.rows[t]);
      NamesApart(d.rows[t].msg, row.msg);
    }
  }

  lemma PersistKeeps(h: Bytes -> Bytes, d: Disk, row: Fetch, ok: bool, row': Fetch)
    requires DiskOk(h, d) && InHand(d, row) && row'.token == row.token && row'.msg == row.msg
    requires row'.state == Ready ==> GoodFinal(h, d.files, row')
    ensures DiskOk(h, Persisted(d, row', ok))
    ensures row'.state == Downloading ==> InHand(Persisted(d, row', ok), row')
  {
    assert RowOk(h, d.files, row.token, d.rows[row.token]);
    assert RowOk(h, d.files, row.token, row');
  }

  lemma InHandIsValid(h: Bytes -> Bytes, d: Disk, row: Fetch)
    requires DiskOk(h, d) && InHand(d, row)
    ensures ValidId(row.msg)
  {
    assert RowOk(h, d.files, row.token, d.rows[row.token]);
  }

  /** After the rename the whole part file is the final one. */
  lemma FinishedIs(d: Disk, id: Name)
    requires ValidId(id)
    ensures id in Finished(d, id).files && Finished(d, id).files[id] == PartOf(d.files, id)
    ensures PartName(id) !in Finished(d, id).files
  {
    NamesApart(id, id);
  }

  lemma SettleKeeps(h: Bytes -> Bytes, d: Disk, row: Fetch, r: Reply, end: BodyEnd, sum: Bytes)
    requires r.Reply? && DiskOk(h, d) && InHand(d, row)
    requires Counted(d.files, row) ==> sum == h(PartOf(d.files, row.msg))
    ensures var (d', row', res) := Settle(h, d, row, r, end, sum);
            && DiskOk(h, d') && InHand(d', row') && row' == row
            && (res != Complete ==> d'.files == d.files)
            && (res == Complete ==>
                  (GoodFinal(h, d'.files, row') <==> Counted(d.files, row)) && PartName(row.msg) !in d'.files)
  {
    hide DiskOk;
    PersistKeeps(h, d, row, r.persistOk, row);
    var d1 := Persisted(d, row, r.persistOk);
    InHandIsValid(h, d, row);
    FinishedIs(d1, row.msg);
    FilesKeep(h, d1, row, Finished(d1, row.msg).files);
  }

  lemma ReceiveKeeps(h: Bytes -> Bytes, d: Disk, row: Fetch, r: Reply)
    requires r.Reply? && DiskOk(h, d) && InHand(d, row)
    ensures var (d', row', res) := Receive(h, d, row, r);
            && DiskOk(h, d') && InHand(d', row') && row' == row.(received := row'.received)
            && (res != Complete && Counted(d.files, row) ==> Counted(d'.files, row'))
            && (res == Complete ==>
                  (GoodFinal(h, d'.files, row') <==> Counted(d.files, row)) && PartName(row.msg) !in d'.files)
  {
    hide DiskOk, Settle, Body, GoodFinal;
    var part := PartOf(d.files, row.msg);
    var (data, end) := Body(row.expectedSize, row.received, r.body);
    FilesKeep(h, d, row, Appended(d, row.msg, []).files);
    FilesKeep(h, d, row, Appended(d, row.msg, data).files);
    assert part + [] == part && (Counted(d.files, row) ==> part[..row.received] == part);
    var d2, row2 := Appended(d, row.msg, data), row.(received := row.received + |data|);
    assert PartOf(d2.files, row.msg) == part + data;
    if row.received <= |part| { SettleKeeps(h, d2, row2, r, end, h(part[..row.received] + data)); }
  }

  /** One request keeps the promises. The byte count in hand stays the part file's length exactly unless the part
      file could not be emptied after a 416, and a completed request leaves the offered file. */
  lemma StreamKeepsIff(h: Bytes -> Bytes, d: Disk, row: Fetch, r: Reply)
    requires DiskOk(h, d) && InHand(d, row) && Counted(d.files, row)
    ensures var (d', row', res) := Stream(h, d, row, r);
            && DiskOk(h, d') && InHand(d', row') && row' == row.(received := row'.received)
            && (res != Complete ==> (Counted(d'.files, row') <==> ReplySound(r) || row.received == 0))
            && (res == Complete ==> GoodFinal(h, d'.files, row') && PartName(row.msg) !in d'.files)
  {
    hide DiskOk, Receive;
    FilesKeep(h, d, row, Truncated(d, row.msg, true).files);
    if r.Reply? {
      if r.status == 200 && row.received != 0 {
        ReceiveKeeps(h, Truncated(d, row.msg, true), row.(received := 0), r);
      } else if r.status == 200 || r.status == 206 {
        ReceiveKeeps(h, d, row, r);
      }
    }
  }

  /** What makes a request that completes leave a good file: the count in hand is the part file's length, or a 200
      has the part file emptied first. */
  predicate GoodStart(d: Disk, row: Fetch, r: Reply) {
    Counted(d.files, row) || (r.Reply? && r.status == 200 && row.received != 0)
  }

  /** Whatever count is in hand, a request keeps the stored promises; one that completes leaves the offered file,
      of the size the row says, exactly from a good start. */
  lemma CompleteIsGoodIff(h: Bytes -> Bytes, d: Disk, row: Fetch, r: Reply)
    requires DiskOk(h, d) && InHand(d, row)
    ensures var (d', row', res) := Stream(h, d, row, r);
            && DiskOk(h, d') && InHand(d', row') && row' == row.(received := row'.received)
            && (res == Complete ==> (GoodFinal(h, d'.files, row') <==> GoodStart(d, row, r)))
  {
    hide DiskOk, Receive, GoodFinal;
    FilesKeep(h, d, row, Truncated(d, row.msg, true).files);
    if r.Reply? {
      if r.status == 200 && row.received != 0 {
        ReceiveKeeps(h, Truncated(d, row.msg, true), row.(received := 0), r);
      } else if r.status == 200 || r.status == 206 {
        ReceiveKeeps(h, d, row, r);
      }
    }
  }

  /** The last request made: the disk and the row before it, and its reply. */
  function LastAsk(h: Bytes -> Bytes, d: Disk, row: Fetch, tries: seq<Try>): (Disk, Fetch, Reply)
    requires tries != []
    decreases |tries|
  {
    var t := tries[0];
    var (d1, row1, res1) := Stream(h, d, row, t.first);
    var (d2, row2, res2) := OneTry(h, d, row, t);
    if res2.Retry? && |tries| > 1 then LastAsk(h, d2, row2, tries[1..])
    else if res1 == Retry(true) && t.clientAgain then (d1, row1, t.second)
    else (d, row, t.first)
  }

  /** The address list, with requests repeated on new circuits, leaves a good file exactly when the request that
      completed had a good start. */
  lemma {:induction false} AttemptsGoodIff(h: Bytes -> Bytes, d: Disk, row: Fetch, tries: seq<Try>)
    requires DiskOk(h, d) && InHand(d, row) && tries != []
    ensures var (d', row', res) := Attempts(h, d, row, tries);
            var (d0, row0, r0) := LastAsk(h, d, row, tries);
            && DiskOk(h, d') && InHand(d', row') && row' == row.(received := row'.received)
            && (res == Complete ==> (GoodFinal(h, d'.files, row') <==> GoodStart(d0, row0, r0)))
    decreases |tries|
  {
    hide DiskOk, Stream, InHand, GoodStart, GoodFinal;
    var t := tries[0];
    CompleteIsGoodIff(h, d, row, t.first);
    var (d1, row1, res1) := Stream(h, d, row, t.first);
    if res1 == Retry(true) && t.clientAgain { CompleteIsGoodIff(h, d1, row1, t.second); }
    var (d2, row2, res2) := OneTry(h, d, row, t);
    if res2.Retry? && |tries| > 1 {
      AttemptsGoodIff(h, d2, row2, tries[1..]);
    } else if res2.Retry? {
      assert Attempts(h, d2, row2, tries[1..]) == (d2, row2, Retry(false));
    }
  }

  lemma {:induction false} AttemptsKeep(h: Bytes -> Bytes, d: Disk, row: Fetch, tries: seq<Try>)
    requires DiskOk(h, d) && InHand(d, row) && Counted(d.files, row) && TriesSound(tries)
    ensures var (d', row', res) := Attempts(h, d, row, tries);
            && DiskOk(h, d') && InHand(d', row') && row' == row.(received := row'.received)
            && (res != Complete ==> Counted(d'.files, row'))
            && (res == Complete ==> GoodFinal(h, d'.files, row'))
    decreases |tries|
  {
    hide DiskOk, Stream, InHand, Counted, GoodFinal;
    if tries != [] {
      var t := tries[0];
      assert ReplySound(t.first) && ReplySound(t.second);
      StreamKeepsIff(h, d, row, t.first);
      var (d1, row1, res1) := Stream(h, d, row, t.first);
      if res1 == Retry(true) && t.clientAgain {
        StreamKeepsIff(h, d1, row1, t.second);
      }
      var (d2, row2, res2) := OneTry(h, d, row, t);
      if res2.Retry? { AttemptsKeep(h, d2, row2, tries[1..]); }
    }
  }

  lemma EndedKeeps(h: Bytes -> Bytes, d: Disk, row: Fetch, res: Result, e: RunEnv)
    requires DiskOk(h, d) && InHand(d, row) && (res == Complete ==> GoodFinal(h, d.files, row))
    ensures DiskOk(h, Ended(d, row, res, e))
    ensures res == Complete && e.endOk ==> Ended(d, row, res, e).rows[row.token].state == Ready
    ensures Ended(d, row, res, e).rows[row.token].state == Ready ==> res == Complete
  {
    hide DiskOk;
    match res {
      case Complete => PersistKeeps(h, d, row, e.endOk, row.(state := Ready));
      case Retry(_) => PersistKeeps(h, d, row, e.endOk, TransientRow(row));
      case Fatal(reason) =>
        FilesKeep(h, d, row, Swept(d.files, row.msg, e.removeFinalOk, e.removePartOk));
        PersistKeeps(h, d.(files := Swept(d.files, row.msg, e.removeFinalOk, e.removePartOk)), row, e.endOk,
                     PermanentRow(row, reason));
    }
  }

  lemma FromPartKeeps(h: Bytes -> Bytes, d: Disk, row: Fetch, e: FinishEnv)
    requires DiskOk(h, d) && InHand(d, row) && Counted(d.files, row) && row.received == row.expectedSize > 0
    ensures var (d', row', done) := FromPart(h, d, row, e);
            && DiskOk(h, d')
            && (done ==> GoodFinal(h, d'.files, row'))
            && (!done ==> InHand(d', row') && (Counted(d'.files, row') <==> e.truncOk))
  {
    hide DiskOk;
    InHandIsValid(h, d, row);
    FinishedIs(d, row.msg);
    FilesKeep(h, d, row, Finished(d, row.msg).files);
    if h(PartOf(d.files, row.msg)) == row.expectedSha {
      PersistKeeps(h, Finished(d, row.msg), row, e.persistOk, row.(state := Ready));
    }
    FilesKeep(h, d, row, Truncated(d, row.msg, e.truncOk).files);
  }

  lemma AskKeeps(h: Bytes -> Bytes, d: Disk, row: Fetch, e: RunEnv)
    requires DiskOk(h, d) && InHand(d, row) && Counted(d.files, row) && TriesSound(e.tries)
    ensures DiskOk(h, Ask(h, d, row, e))
  {
    hide DiskOk, Ended, Attempts, InHand, Counted, GoodFinal;
    EndedKeeps(h, d, row, Retry(false), e);
    AttemptsKeep(h, d, row, e.tries);
    var (d1, row1, res) := Attempts(h, d, row, e.tries);
    EndedKeeps(h, d1, row1, res, e);
  }

  lemma BeginKeeps(h: Bytes -> Bytes, d: Disk, token: Token, ok: bool)
    requires DiskOk(h, d) && Runs(d, token)
    ensures var row := d.rows[token]; var row1 := Begun(d, row); var d1 := Persisted(d, row1, ok);
            DiskOk(h, d1) && InHand(d1, row1) && Counted(d1.files, row1) && ValidId(row.msg)
  {
    var row := d.rows[token];
    assert RowOk(h, d.files, token, row);
    assert RowOk(h, d.files, token, Begun(d, row));
  }

  /** A run that meets any mix of replies, errors and dropped connections keeps every promise, provided no
      ignored truncation fails: above all, a row is ready only with its file. */
  lemma RunKeeps(h: Bytes -> Bytes, d: Disk, token: Token, e: RunEnv)
    requires DiskOk(h, d) && Sound(e)
    ensures DiskOk(h, RunOne(h, d, token, e))
  {
    hide DiskOk, Ask, FromPart, InHand, Counted;
    if Runs(d, token) {
      var row := d.rows[token];
      BeginKeeps(h, d, token, e.beginOk);
      if !e.statOk {
        StatFailedKeeps(h, d, token, e);
      } else {
        var row1 := Begun(d, row);
        var d1 := Persisted(d, row1, e.beginOk);
        if row1.expectedSize > 0 && row1.received == row1.expectedSize {
          FromPartKeeps(h, d1, row1, e.finish);
          var (d2, row2, done) := FromPart(h, d1, row1, e.finish);
          if !done { AskKeeps(h, d2, row2, e); }
        } else {
          AskKeeps(h, d1, row1, e);
        }
      }
    }
  }

  /** A request completes from a bad start and the ready row is written. */
  predicate AskSpoils(h: Bytes -> Bytes, d: Disk, row: Fetch, e: RunEnv) {
    && e.resolveOk && e.clientOk && e.endOk && e.tries != []
    && Attempts(h, d, row, e.tries).2 == Complete
    && var (d0, row0, r0) := LastAsk(h, d, row, e.tries);
       !GoodStart(d0, row0, r0)
  }

  /** So a run spoils a promise: it asks, after a look at a full part file where there is one, and that does. */
  predicate Spoils(h: Bytes -> Bytes, d: Disk, token: Token, e: RunEnv) {
    && Runs(d, token) && e.statOk
    && var row := Begun(d, d.rows[token]);
       var d1 := Persisted(d, row, e.beginOk);
       if row.expectedSize > 0 && row.received == row.expectedSize then
         var (d2, row2, done) := FromPart(h, d1, row, e.finish);
         !done && AskSpoils(h, d2, row2, e)
       else
         AskSpoils(h, d1, row, e)
  }

  lemma EndedCompleteIff(h: Bytes -> Bytes, d: Disk, row: Fetch, e: RunEnv)
    requires DiskOk(h, d) && InHand(d, row)
    ensures DiskOk(h, Ended(d, row, Complete, e)) <==> !e.endOk || GoodFinal(h, d.files, row)
  {
    hide DiskOk;
    var ready := row.(state := Ready);
    if GoodFinal(h, d.files, row) {
      PersistKeeps(h, d, row, e.endOk, ready);
    } else if e.endOk {
      ReadyNeedsFile(h, Persisted(d, ready, true), row.token);
    }
  }

  lemma ReadyNeedsFile(h: Bytes -> Bytes, d: Disk, token: Token)
    requires token in d.rows && d.rows[token].state == Ready && !GoodFinal(h, d.files, d.rows[token])
    ensures !DiskOk(h, d)
  {
    assert !RowOk(h, d.files, token, d.rows[token]);
  }

  lemma AskKeepsIff(h: Bytes -> Bytes, d: Disk, row: Fetch, e: RunEnv)
    requires DiskOk(h, d) && InHand(d, row)
    ensures DiskOk(h, Ask(h, d, row, e)) <==> !AskSpoils(h, d, row, e)
  {
    hide DiskOk, Ended, Attempts, InHand, GoodFinal, GoodStart, LastAsk;
    EndedKeeps(h, d, row, Retry(false), e);
    if e.resolveOk && e.tries != [] && e.clientOk {
      AttemptsGoodIff(h, d, row, e.tries);
      var (d1, row1, res) := Attempts(h, d, row, e.tries);
      if res == Complete { EndedCompleteIff(h, d1, row1, e); } else { EndedKeeps(h, d1, row1, res, e); }
    }
  }

  /** Over every run and every mix of failures, ignored truncations included: every ready row keeps its file exactly
      unless the request that completed the run had a bad start. */
  lemma RunKeepsIff(h: Bytes -> Bytes, d: Disk, token: Token, e: RunEnv)
    requires DiskOk(h, d)
    ensures DiskOk(h, RunOne(h, d, token, e)) <==> !Spoils(h, d, token, e)
  {
    hide DiskOk, Ask, FromPart, InHand, Counted, AskSpoils;
    if Runs(d, token) {
      var row := d.rows[token];
      BeginKeeps(h, d, token, e.beginOk);
      if !e.statOk {
        StatFailedKeeps(h, d, token, e);
      } else {
        var row1 := Begun(d, row);
        var d1 := Persisted(d, row1, e.beginOk);
        if row1.expectedSize > 0 && row1.received == row1.expectedSize {
          FromPartKeeps(h, d1, row1, e.finish);
          var (d2, row2, done) := FromPart(h, d1, row1, e.finish);
          if !done { AskKeepsIff(h, d2, row2, e); }
        } else {
          AskKeepsIff(h, d1, row1, e);
        }
      }
    }
  }

  lemma StatFailedKeeps(h: Bytes -> Bytes, d: Disk, token: Token, e: RunEnv)
    requires DiskOk(h, d) && Runs(d, token)
    ensures DiskOk(h, Ended(d, d.rows[token], Retry(false), e))
  {
    var row := d.rows[token];
    assert RowOk(h, d.files, token, row);
    assert RowOk(h, d.files, token, TransientRow(row));
  }

  // ---------- what gets finished ----------

  /** The data of the chunks, in order. */
  function Joined(body: seq<Chunk>): Bytes {
    if body == [] then [] else body[0].data + Joined(body[1..])
  }

  /** The body ends with chunk `n`, in time and with every write succeeding. */
  ghost predicate EndsAt(body: seq<Chunk>, n: nat) {
    && n < |body| && body[n].end == Eof && (forall k | 0 <= k < n :: body[k].end == More)
    && forall k | 0 <= k <= n :: !body[k].expired && (body[k].data == [] || body[k].writeOk)
  }

  lemma EndsAtNext(body: seq<Chunk>, n: nat)
    requires body != []
    ensures EndsAt(body, n + 1) <==>
              EndsAt(body[1..], n) && body[0].end == More && !body[0].expired && (body[0].data == [] || body[0].writeOk)
    ensures n + 1 < |body| ==> Joined(body[..n + 2]) == body[0].data + Joined(body[1..][..n + 1])
  {
    if EndsAt(body, n + 1) {
      forall k | 0 <= k < n ensures body[1..][k].end == More { assert body[1..][k] == body[k + 1]; }
      assert EndsAt(body[1..], n);
    }
    if EndsAt(body[1..], n) && body[0].end == More && !body[0].expired && (body[0].data == [] || body[0].writeOk) {
      forall k | 0 < k <= n + 1 ensures body[k] == body[1..][k - 1] {}
      assert EndsAt(body, n + 1);
    }
    if n + 1 < |body| { assert body[..n + 2][1..] == body[1..][..n + 1]; }
  }

  lemma EndsAtFirst(body: seq<Chunk>)
    requires body != []
    ensures EndsAt(body, 0) <==> body[0].end == Eof && !body[0].expired && (body[0].data == [] || body[0].writeOk)
    ensures Joined(body[..1]) == body[0].data
  {
    assert body[..1][1..] == [] && body[0].data + [] == body[0].data;
  }

  /** A body that ends and is not too long is taken whole. */
  lemma {:induction false} BodyTaken(expected: int, received: nat, body: seq<Chunk>, n: nat)
    requires EndsAt(body, n)
    requires expected > 0 ==> received + |Joined(body[..n + 1])| <= expected
    ensures Body(expected, received, body) == (Joined(body[..n + 1]), Whole)
    decreases n
  {
    if n == 0 {
      EndsAtFirst(body);
    } else {
      EndsAtNext(body, n - 1);
      BodyTaken(expected, received + |body[0].data|, body[1..], n - 1);
    }
  }

  /** And only such a body is. */
  lemma {:induction false} TakenBodyEnds(expected: int, received: nat, body: seq<Chunk>) returns (n: nat)
    requires Body(expected, received, body).1 == Whole
    ensures EndsAt(body, n) && Body(expected, received, body).0 == Joined(body[..n + 1])
    decreases |body|
  {
    var (data, stop) := Turn(expected, received, body[0]);
    if stop.Some? {
      EndsAtFirst(body);
      n := 0;
    } else {
      var m := TakenBodyEnds(expected, received + |data|, body[1..]);
      EndsAtNext(body, m);
      n := m + 1;
    }
  }

  lemma JoinedNext(body: seq<Chunk>, k: nat)
    requires k < |body|
    ensures k > 0 ==> Joined(body[..k]) == body[0].data + Joined(body[1..][..k - 1])
    ensures Joined(body[..k + 1]) == body[0].data + Joined(body[1..][..k])
  {
    assert body[..k + 1][1..] == body[1..][..k];
    if k > 0 { assert body[..k][1..] == body[1..][..k - 1]; }
  }

  /** The first chunk that takes the file past the offered size ends the body, written as it is. */
  lemma {:induction false} BodyTooLong(expected: int, received: nat, body: seq<Chunk>, k: nat)
    requires k < |body| && body[k].data != [] && (forall j | 0 <= j < k :: body[j].end == More)
    requires forall j | 0 <= j <= k :: !body[j].expired && (body[j].data == [] || body[j].writeOk)
    requires received + |Joined(body[..k])| <= expected < received + |Joined(body[..k + 1])| && expected > 0
    ensures Body(expected, received, body) == (Joined(body[..k + 1]), Oversized)
    decreases k
  {
    JoinedNext(body, k);
    if k > 0 {
      forall j | 0 <= j < k ensures body[1..][j] == body[j + 1] {}
      BodyTooLong(expected, received + |body[0].data|, body[1..], k - 1);
    } else {
      assert Joined(body[..1]) == body[0].data by { EndsAtFirst(body); }
    }
  }

  /** A body that ends is taken whole, or is too long. */
  lemma {:induction false} BodyEnds(expected: int, received: nat, body: seq<Chunk>, n: nat)
    requires EndsAt(body, n)
    ensures var (data, end) := Body(expected, received, body);
            (end == Whole && data == Joined(body[..n + 1])) ||
            (end == Oversized && expected > 0 && received + |Joined(body[..n + 1])| > expected)
    decreases n
  {
    if n == 0 {
      EndsAtFirst(body);
    } else {
      EndsAtNext(body, n - 1);
      BodyEnds(expected, received + |body[0].data|, body[1..], n - 1);
    }
  }

  /** What is kept of the part file: all of it before more of the file, nothing before the whole file. */
  function Kept(files: map<Name, Bytes>, row: Fetch, status: int): Bytes {
    if status == 206 then PartOf(files, row.msg) else []
  }

  /** The bytes are the offered ones. */
  predicate IsOffered(h: Bytes -> Bytes, row: Fetch, whole: Bytes) {
    (row.expectedSize > 0 ==> |whole| == row.expectedSize) && (row.expectedSha != [] ==> h(whole) == row.expectedSha)
  }

  /** Nothing on this side fails. */
  predicate EffectsOk(r: Reply) { r.Reply? && r.truncOk && r.openOk && r.seedOk && r.syncOk && r.renameOk }

  /** With the count right and nothing failing here, a reply completes exactly when it is 200 with the offered file or
      206 with what is missing of it: then these very bytes are the final file. */
  lemma StreamCompletesIff(h: Bytes -> Bytes, d: Disk, row: Fetch, r: Reply)
    requires Counted(d.files, row) && ValidId(row.msg) && EffectsOk(r)
    ensures var (d', row', res) := Stream(h, d, row, r);
            && (res == Complete <==>
                  && (r.status == 200 || r.status == 206)
                  && exists n: nat :: EndsAt(r.body, n) &&
                       IsOffered(h, row, Kept(d.files, row, r.status) + Joined(r.body[..n + 1])))
            && (forall n: nat | EndsAt(r.body, n) && res == Complete ::
                  var whole := Kept(d.files, row, r.status) + Joined(r.body[..n + 1]);
                  row.msg in d'.files && d'.files[row.msg] == whole && PartName(row.msg) !in d'.files &&
                  row' == row.(received := |whole|))
  {
    var (d', row', res) := Stream(h, d, row, r);
    if r.status == 200 || r.status == 206 {
      var d0 := if r.status == 200 && row.received != 0 then Truncated(d, row.msg, true) else d;
      var row0 := if r.status == 200 then row.(received := 0) else row;
      assert PartOf(d0.files, row.msg) == Kept(d.files, row, r.status) && Counted(d0.files, row0);
      assert Stream(h, d, row, r) == Receive(h, d0, row0, r);
      ReceiveCompletesIff(h, d0, row0, r);
    }
  }

  lemma ReceiveCompletesIff(h: Bytes -> Bytes, d: Disk, row: Fetch, r: Reply)
    requires Counted(d.files, row) && ValidId(row.msg) && EffectsOk(r)
    ensures var (d', row', res) := Receive(h, d, row, r);
            var part := PartOf(d.files, row.msg);
            && (res == Complete <==>
                  exists n: nat :: EndsAt(r.body, n) && IsOffered(h, row, part + Joined(r.body[..n + 1])))
            && (forall n: nat | EndsAt(r.body, n) && res == Complete ::
                  var whole := part + Joined(r.body[..n + 1]);
                  row.msg in d'.files && d'.files[row.msg] == whole && PartName(row.msg) !in d'.files &&
                  row' == row.(received := |whole|))
  {
    hide Body, Joined;
    var part := PartOf(d.files, row.msg);
    var (data, end) := Body(row.expectedSize, row.received, r.body);
    assert part[..row.received] == part && part + [] == part;
    var d1 := Appended(d, row.msg, data);
    assert PartOf(d1.files, row.msg) == part + data;
    FinishedIs(Persisted(d1, row.(received := |part + data|), r.persistOk), row.msg);
    if end == Whole {
      var n := TakenBodyEnds(row.expectedSize, row.received, r.body);
      forall m: nat | EndsAt(r.body, m) ensures m == n { EndsOnce(r.body, m, n); }
    } else {
      forall n: nat | EndsAt(r.body, n) && IsOffered(h, row, part + Joined(r.body[..n + 1]))
        ensures false
      {
        BodyTaken(row.expectedSize, row.received, r.body, n);
      }
    }
  }

  /** Every way a reply with a body can go, failures on this side included: it completes exactly when nothing fails and
      the bytes are the offered ones; too many or wrong bytes rule the file out; and any failure leaves what was
      written for another try, with the count right. */
  lemma ReceiveIs(h: Bytes -> Bytes, d: Disk, row: Fetch, r: Reply)
    requires Counted(d.files, row) && ValidId(row.msg) && r.Reply?
    ensures var (d', row', res) := Receive(h, d, row, r);
            var part := PartOf(d.files, row.msg);
            var (data, end) := Body(row.expectedSize, row.received, r.body);
            var readable := r.openOk && (row.received > 0 ==> r.seedOk);
            var offered := IsOffered(h, row, part + data);
            && (res == Complete <==> readable && end == Whole && r.syncOk && offered && r.renameOk)
            && (res == Fatal(Integrity) <==> readable && (end == Oversized || (end == Whole && r.syncOk && !offered)))
            && (res != Complete && res != Fatal(Integrity) ==> res == Retry(false))
            && row' == row.(received := if readable then |part + data| else |part|)
            && (res != Complete ==> PartOf(d'.files, row.msg) == if readable then part + data else part)
            && d'.rows ==
               if readable && end == Whole && r.syncOk && r.persistOk then d.rows[row.token := row'] else d.rows
  {
    hide Body;
    var part := PartOf(d.files, row.msg);
    assert part[..row.received] == part && part + [] == part;
    NamesApart(row.msg, row.msg);
  }

  /** With a 200 after some bytes the part file is emptied first, and without that nothing is read. */
  lemma StreamIs(h: Bytes -> Bytes, d: Disk, row: Fetch, r: Reply)
    requires r.Reply? && (r.status == 200 || r.status == 206)
    ensures Stream(h, d, row, r) ==
      if r.status == 206 || row.received == 0 then Receive(h, d, row, r)
      else if PartName(row.msg) !in d.files then Receive(h, d, row.(received := 0), r)
      else if r.truncOk then
        Receive(h, Disk(d.files[PartName(row.msg) := []], d.rows), row.(received := 0), r)
      else (d, row, Retry(false))
  {
    hide Receive;
  }

  /** A body that ends and does not make up the offered file rules it out for good. */
  lemma StreamRefuses(h: Bytes -> Bytes, d: Disk, row: Fetch, r: Reply, n: nat)
    requires Counted(d.files, row) && EffectsOk(r) && (r.status == 200 || r.status == 206) && EndsAt(r.body, n)
    requires !IsOffered(h, row, Kept(d.files, row, r.status) + Joined(r.body[..n + 1]))
    ensures Stream(h, d, row, r).2 == Fatal(Integrity)
  {
    hide Body, Joined;
    var part := PartOf(d.files, row.msg);
    assert part[..row.received] == part;
    BodyEnds(row.expectedSize, |Kept(d.files, row, r.status)|, r.body, n);
  }

  lemma EndsOnce(body: seq<Chunk>, m: nat, n: nat)
    requires EndsAt(body, m) && EndsAt(body, n)
    ensures m == n
  {
  }

  /** What the other replies do: 404 and 410 rule the file out, 416 has the next request start from nothing, and
      anything else leaves all as it was for another try. */
  lemma StreamElse(h: Bytes -> Bytes, d: Disk, row: Fetch, r: Reply)
    requires r.Reply? ==> r.status != 200 && r.status != 206
    ensures var (d', row', res) := Stream(h, d, row, r);
            && d'.rows == d.rows && row' == row.(received := row'.received)
            && (res == Fatal(BlobGone) <==> r.Reply? && (r.status == 404 || r.status == 410))
            && (res.Retry? || res == Fatal(BlobGone))
            && (res == Retry(true) <==> r.NoReply? && r.renewed)
            && (if r.Reply? && r.status == 416
                then row'.received == 0 && (r.truncOk ==> PartOf(d'.files, row.msg) == []) &&
                     d'.files.Keys == d.files.Keys &&
                     (forall f | f in d.files && f != PartName(row.msg) :: d'.files[f] == d.files[f])
                else d' == d && row' == row)
  {
  }

  /** A body that breaks off leaves what came of it in the part file. */
  lemma StreamBreaksOff(h: Bytes -> Bytes, d: Disk, row: Fetch, r: Reply)
    requires Counted(d.files, row) && EffectsOk(r) && (r.status == 200 || r.status == 206)
    requires Body(row.expectedSize, |Kept(d.files, row, r.status)|, r.body).1 == Broken
    ensures var (d', row', res) := Stream(h, d, row, r);
            var came := Body(row.expectedSize, |Kept(d.files, row, r.status)|, r.body).0;
            && res == Retry(false) && d'.rows == d.rows
            && Counted(d'.files, row') && row' == row.(received := row'.received)
            && PartOf(d'.files, row.msg) == Kept(d.files, row, r.status) + came
  {
    hide Body;
    assert PartOf(d.files, row.msg)[..row.received] == PartOf(d.files, row.msg);
  }

  /** A full part file becomes the file exactly when it can be read, is the offered bytes, and can be renamed. */
  lemma FromPartIff(h: Bytes -> Bytes, d: Disk, row: Fetch, e: FinishEnv)
    requires ValidId(row.msg)
    ensures var (d', row', done) := FromPart(h, d, row, e);
            var part := PartOf(d.files, row.msg);
            && (done <==> PartName(row.msg) in d.files && e.readOk && |part| == row.expectedSize &&
                          h(part) == row.expectedSha && e.renameOk)
            && (done ==> row.msg in d'.files && d'.files[row.msg] == part && PartName(row.msg) !in d'.files &&
                         row' == row.(state := Ready) &&
                         d'.rows == if e.persistOk then d.rows[row.token := row'] else d.rows)
            && (!done ==> row' == row.(received := 0) && d'.rows == d.rows &&
                          (e.truncOk ==> PartOf(d'.files, row.msg) == []))
  {
    NamesApart(row.msg, row.msg);
  }

  /** A try is its first request, or the second one when the first ended with the circuit renewed. */
  lemma OneTryIs(h: Bytes -> Bytes, d: Disk, row: Fetch, t: Try)
    ensures t.first == NoReply(true) && t.clientAgain ==> OneTry(h, d, row, t) == Stream(h, d, row, t.second)
    ensures t.first != NoReply(true) || !t.clientAgain ==> OneTry(h, d, row, t) == Stream(h, d, row, t.first)
  {
  }

  /** The disk and the row after the first `k` tries. */
  function Tried(h: Bytes -> Bytes, d: Disk, row: Fetch, tries: seq<Try>, k: nat): (Disk, Fetch)
    requires k <= |tries|
  {
    if k == 0 then (d, row)
    else
      var (d1, row1) := Tried(h, d, row, tries, k - 1);
      var (d2, row2, res) := OneTry(h, d1, row1, tries[k - 1]);
      (d2, row2)
  }

  /** Try `k` gave nothing and ruled nothing out. */
  predicate GoesOn(h: Bytes -> Bytes, d: Disk, row: Fetch, tries: seq<Try>, k: nat)
    requires k < |tries|
  {
    var (d1, row1) := Tried(h, d, row, tries, k);
    OneTry(h, d1, row1, tries[k]).2.Retry?
  }

  lemma {:induction false} TriedNext(h: Bytes -> Bytes, d: Disk, row: Fetch, tries: seq<Try>, k: nat)
    requires k < |tries|
    ensures var (d1, row1, res) := OneTry(h, d, row, tries[0]);
            Tried(h, d, row, tries, k + 1) == Tried(h, d1, row1, tries[1..], k)
  {
    hide OneTry;
    if k == 0 {
      assert Tried(h, d, row, tries, 0) == (d, row);
    } else {
      TriedNext(h, d, row, tries, k - 1);
      assert tries[1..][k - 1] == tries[k];
    }
  }

  /** The addresses are tried in order up to the first one that gives the file or rules it out, and all of them when
      none does. */
  lemma {:induction false} AttemptsAre(h: Bytes -> Bytes, d: Disk, row: Fetch, tries: seq<Try>, m: nat)
    requires m <= |tries| && (forall k | 0 <= k < m :: GoesOn(h, d, row, tries, k))
    requires m < |tries| ==> !GoesOn(h, d, row, tries, m)
    ensures var (d1, row1) := Tried(h, d, row, tries, m);
            Attempts(h, d, row, tries) ==
              if m < |tries| then OneTry(h, d1, row1, tries[m]) else (d1, row1, Retry(false))
    decreases m
  {
    hide OneTry, Tried;
    assert Tried(h, d, row, tries, 0) == (d, row) by { TriedNone(h, d, row, tries); }
    if m > 0 {
      assert GoesOn(h, d, row, tries, 0);
      var (d1, row1, res) := OneTry(h, d, row, tries[0]);
      forall k | 0 <= k < |tries| - 1
        ensures GoesOn(h, d1, row1, tries[1..], k) == GoesOn(h, d, row, tries, k + 1)
      {
        TriedNext(h, d, row, tries, k);
        assert tries[1..][k] == tries[k + 1];
      }
      AttemptsAre(h, d1, row1, tries[1..], m - 1);
      TriedNext(h, d, row, tries, m - 1);
    }
  }

  lemma TriedNone(h: Bytes -> Bytes, d: Disk, row: Fetch, tries: seq<Try>)
    ensures Tried(h, d, row, tries, 0) == (d, row)
  {
  }

  /** How a run is recorded. A kicked try costs no attempt, and the count stops at its greatest value; a ruled-out file
      leaves nothing behind. */
  lemma EndedIs(d: Disk, row: Fetch, res: Result, e: RunEnv)
    requires e.endOk && ValidId(row.msg)
    ensures var d' := Ended(d, row, res, e);
            && d'.rows.Keys == d.rows.Keys + {row.token}
            && (forall t | t in d.rows && t != row.token :: d'.rows[t] == d.rows[t])
            && var r := d'.rows[row.token];
               match res
               case Complete => r == row.(state := Ready) && d'.files == d.files
               case Retry(_) =>
                 && r.state == FailedTransient && !r.kicked && d'.files == d.files && r.received == row.received
                 && r.reason == row.reason
                 && r.attempts == row.attempts + (if row.kicked || row.attempts >= 65535 then 0 else 1)
               case Fatal(reason) =>
                 && r == row.(state := FailedPermanent, reason := reason)
                 && (e.removeFinalOk && e.removePartOk ==>
                       d'.files == d.files - {row.msg, PartName(row.msg)})
                 && (!e.removeFinalOk && row.msg in d.files ==> d'.files == d.files)
  {
    if res.Fatal? && e.removeFinalOk && e.removePartOk {
      assert d.files - {row.msg} - {PartName(row.msg)} == d.files - {row.msg, PartName(row.msg)};
    }
  }

  /** The run asks: the part file is not full yet, and nothing on the way to the first request fails. */
  predicate Asks(d: Disk, token: Token, e: RunEnv) {
    && Runs(d, token) && ValidId(d.rows[token].msg) && e.statOk && e.beginOk && e.resolveOk && e.clientOk
    && e.tries != [] && e.endOk
    && var row := d.rows[token];
       row.expectedSize > 0 ==> |PartOf(d.files, row.msg)| != row.expectedSize
  }

  lemma AsksFirst(h: Bytes -> Bytes, d: Disk, token: Token, e: RunEnv)
    requires Asks(d, token, e)
    ensures var row := Begun(d, d.rows[token]);
            var d1 := Persisted(d, row, true);
            var (d2, row2, res) := Attempts(h, d1, row, e.tries);
            Counted(d1.files, row) && RunOne(h, d, token, e) == Ended(d2, row2, res, e)
  {
    hide Attempts, Ended;
  }

  /** A run whose first reply is the offered file, or what is missing of it, ends with the row ready and these very
      bytes as its file. */
  lemma RunFinishes(h: Bytes -> Bytes, d: Disk, token: Token, e: RunEnv, n: nat)
    requires Asks(d, token, e) && d.rows[token].token == token && EffectsOk(e.tries[0].first)
    requires var r := e.tries[0].first; (r.status == 200 || r.status == 206) && EndsAt(r.body, n)
    requires var r, row := e.tries[0].first, d.rows[token];
             IsOffered(h, row, Kept(d.files, row, r.status) + Joined(r.body[..n + 1]))
    ensures var d' := RunOne(h, d, token, e);
            var r, row := e.tries[0].first, d.rows[token];
            var whole := Kept(d.files, row, r.status) + Joined(r.body[..n + 1]);
            && token in d'.rows && d'.rows[token] == row.(received := |whole|, state := Ready)
            && row.msg in d'.files && d'.files[row.msg] == whole && PartName(row.msg) !in d'.files
  {
    hide Stream, EndsAt, Joined, RunOne, Asks, Ended;
    AsksMeans(d, token, e);
    AsksFirst(h, d, token, e);
    var row := Begun(d, d.rows[token]);
    var d1 := Persisted(d, row, true);
    StreamCompletesIff(h, d1, row, e.tries[0].first);
    var (d2, row2, res) := Attempts(h, d1, row, e.tries);
    EndedIs(d2, row2, res, e);
  }

  lemma AsksMeans(d: Disk, token: Token, e: RunEnv)
    requires Asks(d, token, e)
    ensures token in d.rows && ValidId(d.rows[token].msg) && e.endOk && e.tries != []
  {
  }

  /** A run on a finished or unknown fetch does nothing. */
  lemma RunIsIdle(h: Bytes -> Bytes, d: Disk, token: Token, e: RunEnv)
    requires token !in d.rows || d.rows[token].state == Ready || d.rows[token].state == FailedPermanent
    ensures RunOne(h, d, token, e) == d
  {
  }

  /** A run that does not get as far as asking is put off with its files as they were. */
  lemma RunStopsShort(h: Bytes -> Bytes, d: Disk, token: Token, e: RunEnv)
    requires token in d.rows && d.rows[token].state != Ready && d.rows[token].state != FailedPermanent
    requires d.rows[token].token == token && ValidId(d.rows[token].msg) && e.endOk
    requires var row := d.rows[token];
             !e.statOk || ((!e.resolveOk || !e.clientOk || e.tries == []) &&
                           (row.expectedSize > 0 ==> |PartOf(d.files, row.msg)| != row.expectedSize))
    ensures var d' := RunOne(h, d, token, e);
            && d'.files == d.files && token in d'.rows && d'.rows[token].state == FailedTransient
  {
  }

  /** A run whose first reply is 404 or 410 rules the file out and removes both its files. */
  lemma RunRulesOut(h: Bytes -> Bytes, d: Disk, token: Token, e: RunEnv)
    requires Asks(d, token, e) && d.rows[token].token == token && e.removeFinalOk && e.removePartOk
    requires var r := e.tries[0].first; r.Reply? && (r.status == 404 || r.status == 410)
    ensures var d' := RunOne(h, d, token, e);
            var row := d.rows[token];
            && token in d'.rows && d'.rows[token].state == FailedPermanent && d'.rows[token].reason == BlobGone
            && d'.files == d.files - {row.msg, PartName(row.msg)}
  {
    hide Stream, RunOne, Asks, Ended;
    AsksMeans(d, token, e);
    AsksFirst(h, d, token, e);
    var row := Begun(d, d.rows[token]);
    var d1 := Persisted(d, row, true);
    StreamElse(h, d1, row, e.tries[0].first);
    var (d2, row2, res) := Attempts(h, d1, row, e.tries);
    EndedIs(d2, row2, res, e);
  }

  /** An interrupted download is picked up where it broke off: the first run leaves what came in the part file, and a
      later run that is given the rest completes the file. */
  lemma InterruptedIsFinished(h: Bytes -> Bytes, d: Disk, token: Token, e: RunEnv, e': RunEnv, n: nat)
    requires Asks(d, token, e) && d.rows[token].token == token && |e.tries| == 1 && EffectsOk(e.tries[0].first)
    requires var r, row := e.tries[0].first, d.rows[token];
             && (r.status == 200 || r.status == 206)
             && Body(row.expectedSize, |Kept(d.files, row, r.status)|, r.body).1 == Broken
    requires e'.statOk && e'.beginOk && e'.resolveOk && e'.clientOk && e'.endOk && e'.tries != []
    requires var r' := e'.tries[0].first; EffectsOk(r') && r'.status == 206 && EndsAt(r'.body, n)
    requires var r, r', row := e.tries[0].first, e'.tries[0].first, d.rows[token];
             var came := Body(row.expectedSize, |Kept(d.files, row, r.status)|, r.body).0;
             var soFar := Kept(d.files, row, r.status) + came;
             && (row.expectedSize > 0 ==> |soFar| != row.expectedSize)
             && IsOffered(h, row, soFar + Joined(r'.body[..n + 1]))
    ensures var d1 := RunOne(h, d, token, e);
            var d2 := RunOne(h, d1, token, e');
            var r, r', row := e.tries[0].first, e'.tries[0].first, d.rows[token];
            var came := Body(row.expectedSize, |Kept(d.files, row, r.status)|, r.body).0;
            && token in d1.rows && d1.rows[token].state == FailedTransient
            && token in d2.rows && d2.rows[token].state == Ready && row.msg in d2.files
            && d2.files[row.msg] == Kept(d.files, row, r.status) + came + Joined(r'.body[..n + 1])
  {
    hide Stream, EndsAt, Joined, RunOne, Ended, Body, EffectsOk;
    var d1 := FirstRun(h, d, token, e);
    RunFinishes(h, d1, token, e', n);
  }

  lemma FirstRun(h: Bytes -> Bytes, d: Disk, token: Token, e: RunEnv) returns (d1: Disk)
    requires Asks(d, token, e) && d.rows[token].token == token && |e.tries| == 1 && EffectsOk(e.tries[0].first)
    requires var r, row := e.tries[0].first, d.rows[token];
             && (r.status == 200 || r.status == 206)
             && Body(row.expectedSize, |Kept(d.files, row, r.status)|, r.body).1 == Broken
    ensures d1 == RunOne(h, d, token, e) && token in d1.rows
    ensures var r, row := e.tries[0].first, d.rows[token];
            var came := Body(row.expectedSize, |Kept(d.files, row, r.status)|, r.body).0;
            && PartOf(d1.files, row.msg) == Kept(d.files, row, r.status) + came
            && d1.rows[token].state == FailedTransient && d1.rows[token].token == token
            && d1.rows[token].msg == row.msg && d1.rows[token].expectedSize == row.expectedSize
            && d1.rows[token].expectedSha == row.expectedSha
  {
    hide Stream, RunOne, Asks, Body, EffectsOk;
    AsksMeans(d, token, e);
    AsksFirst(h, d, token, e);
    var row := Begun(d, d.rows[token]);
    StreamBreaksOff(h, Persisted(d, row, true), row, e.tries[0].first);
    assert e.tries[1..] == [];
    d1 := RunOne(h, d, token, e);
  }

  // ---------- a failed truncation ----------

  function Offered(token: Token, msg: Name, size: int, sha: Bytes): Fetch {
    Fetch(token, msg, size, sha, 0, Pending, 0, false, NoReason)
  }

  /** A 416 whose truncation fails, and then the whole file from another address. */
  function SpoiledEnv(data: Bytes): RunEnv {
    var refused := Reply(416, false, true, true, [], true, true, true);
    var whole := Reply(200, true, true, true, [Chunk(false, data, true, Eof)], true, true, true);
    RunEnv(true, true, FinishEnv(true, true, true, true), true, true,
           [Try(refused, false, NoReply(false)), Try(whole, false, NoReply(false))], true, true, true)
  }

  /** The proviso is needed: the leftover stays in front of the whole file, the count and the hash see only the
      file, and the row is recorded as ready with a final file of the wrong content. */
  lemma FailedTruncationSpoilsFile(h: Bytes -> Bytes, left: Bytes, data: Bytes)
    requires left != [] && data != [] && |left| != |data|
    ensures var row := Offered("t", "m", |data|, h(data));
            var d := Disk(map["m.part" := left], map["t" := row]);
            var d' := RunOne(h, d, "t", SpoiledEnv(data));
            && DiskOk(h, d) && "t" in d'.rows && "m" in d'.files
            && d'.rows["t"].state == Ready && d'.files["m"] == left + data && !DiskOk(h, d')
  {
    var row := Offered("t", "m", |data|, h(data));
    var d := Disk(map["m.part" := left], map["t" := row]);
    var e := SpoiledEnv(data);
    assert PartName("m") == "m.part" && !IsPart("m");
    var row1 := Begun(d, row);
    var d1 := Persisted(d, row1, true);
    assert Stream(h, d1, row1, e.tries[0].first) == (d1, row1.(received := 0), Retry(false));
    SpoiledStream(h, d1, row1.(received := 0), left, data, e.tries[1].first);
    var row2 := row1.(received := |data|);
    var d2 := Finished(Persisted(Appended(d1, "m", data), row2, true), "m");
    assert e.tries[1..][1..] == [];
    assert Attempts(h, d1, row1, e.tries) == (d2, row2, Complete);
    var d' := Persisted(d2, row2.(state := Ready), true);
    assert RunOne(h, d, "t", e) == d';
    assert d'.files["m"] == left + data;
    assert !RowOk(h, d'.files, "t", d'.rows["t"]);
  }

  lemma SpoiledStream(h: Bytes -> Bytes, d: Disk, row: Fetch, left: Bytes, data: Bytes, r: Reply)
    requires row.received == 0 && row.expectedSize == |data| > 0 && row.expectedSha == h(data)
    requires PartOf(d.files, row.msg) == left
    requires r == Reply(200, true, true, true, [Chunk(false, data, true, Eof)], true, true, true)
    ensures var row2 := row.(received := |data|);
            Stream(h, d, row, r) ==
              (Finished(Persisted(Appended(d, row.msg, data), row2, true), row.msg), row2, Complete)
  {
    assert Body(row.expectedSize, 0, r.body) == (data, Whole);
    assert left[..0] + data == data;
  }
}
