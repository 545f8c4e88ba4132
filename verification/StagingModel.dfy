/** What the start-up scan makes of the staging directory, name by name. */
module StagingModel {
  import opened Bytes
  import opened FetchModel

  /** What the rows say of one message; of several ready rows the last listed counts. */
  datatype MsgState = MsgState(any: bool, ready: bool, resumable: bool, readyRow: Option<Fetch>)

  predicate Resumable(s: State) { s == Pending || s == Downloading || s == FailedTransient }

  function WithRow(s: MsgState, f: Fetch): MsgState {
    MsgState(true, s.ready || f.state == Ready, s.resumable || Resumable(f.state),
             if f.state == Ready then Some(f) else s.readyRow)
  }

  function StateOf(rows: seq<Fetch>, id: Name): MsgState {
    if rows == [] then MsgState(false, false, false, None)
    else
      var s, f := StateOf(rows[..|rows| - 1], id), rows[|rows| - 1];
      if f.msg == id then WithRow(s, f) else s
  }

  predicate IsWhole(h: Bytes -> Bytes, content: Bytes, row: Fetch) {
    row.expectedSize > 0 && row.expectedSha != [] && |content| == row.expectedSize && h(content) == row.expectedSha
  }

  function At(files: map<Name, Bytes>, n: Name): Option<Bytes> { if n in files then Some(files[n]) else None }

  predicate ValidRows(rows: seq<Fetch>) { forall f | f in rows :: ValidId(f.msg) }

  /** The first loop drops this final file: its message can neither be resumed nor is it ready. */
  predicate Drops(rows: seq<Fetch>, id: Name) {
    StateOf(rows, id).any && !StateOf(rows, id).ready && !StateOf(rows, id).resumable
  }

  /** The first loop turns this final file back into a part file. */
  predicate Moves(files: map<Name, Bytes>, rows: seq<Fetch>, id: Name) {
    id in files && !IsPart(id) && !StateOf(rows, id).ready && StateOf(rows, id).resumable && PartName(id) !in files
  }

  /** A name after the first loop. */
  function Phase1(files: map<Name, Bytes>, rows: seq<Fetch>, n: Name): Option<Bytes> {
    if !IsPart(n) then (if Drops(rows, n) || Moves(files, rows, n) then None else At(files, n))
    else if Moves(files, rows, Stem(n)) then At(files, Stem(n))
    else At(files, n)
  }

  predicate Restores(h: Bytes -> Bytes, files: map<Name, Bytes>, rows: seq<Fetch>, id: Name) {
    var s := StateOf(rows, id);
    && s.ready && !s.resumable && s.readyRow.Some? && id !in files && PartName(id) in files
    && IsWhole(h, files[PartName(id)], s.readyRow.value)
  }

  /** A name after the scan. */
  function Reconciled(h: Bytes -> Bytes, files: map<Name, Bytes>, rows: seq<Fetch>, n: Name): Option<Bytes> {
    if IsPart(n) && !StateOf(rows, Stem(n)).resumable then None
    else if !IsPart(n) && Restores(h, files, rows, n) then Some(files[PartName(n)])
    else Phase1(files, rows, n)
  }

  ghost predicate IsReconciled(h: Bytes -> Bytes, files: map<Name, Bytes>, rows: seq<Fetch>, files': map<Name, Bytes>) {
    forall n :: At(files', n) == Reconciled(h, files, rows, n)
  }

  // ---------- the states ----------

  lemma {:induction false} StateIs(rows: seq<Fetch>, id: Name)
    ensures var s := StateOf(rows, id);
            && (s.any <==> exists f :: f in rows && f.msg == id)
            && (s.ready <==> exists f :: f in rows && f.msg == id && f.state == Ready)
            && (s.resumable <==> exists f :: f in rows && f.msg == id && Resumable(f.state))
            && (s.ready <==> s.readyRow.Some?)
            && (s.readyRow.Some? ==>
                  s.readyRow.value in rows && s.readyRow.value.msg == id && s.readyRow.value.state == Ready)
  {
    if rows != [] {
      var front, f := rows[..|rows| - 1], rows[|rows| - 1];
      StateIs(front, id);
      assert rows == front + [f];
      assert forall g :: g in rows <==> g in front || g == f;
    }
  }

  lemma NoRowsForParts(rows: seq<Fetch>, id: Name)
    requires ValidRows(rows) && (IsPart(id) || id == "")
    ensures StateOf(rows, id) == MsgState(false, false, false, None)
  {
    StateIs(rows, id);
  }

  lemma StemBack(n: Name)
    requires IsPart(n)
    ensures PartName(Stem(n)) == n
  {
  }

  lemma PartBack(id: Name)
    ensures IsPart(PartName(id)) && Stem(PartName(id)) == id
  {
    assert PartName(id)[|id|..] == PART_SUFFIX;
  }

  // ---------- what the scan promises ----------

  /** The scan never removes a file of a message that can be resumed: each part stays, and a final file stays or
      becomes the part. */
  lemma ResumableFilesStay(h: Bytes -> Bytes, files: map<Name, Bytes>, rows: seq<Fetch>, files': map<Name, Bytes>,
                           id: Name)
    requires ValidRows(rows) && IsReconciled(h, files, rows, files') && StateOf(rows, id).resumable
    ensures PartName(id) in files ==>
            At(files', PartName(id)) == At(files, PartName(id)) && At(files', id) == At(files, id)
    ensures PartName(id) !in files && id in files ==>
            At(files', if StateOf(rows, id).ready then id else PartName(id)) == At(files, id)
  {
    PartBack(id);
    if IsPart(id) { NoRowsForParts(rows, id); }
    assert At(files', PartName(id)) == Reconciled(h, files, rows, PartName(id));
    assert At(files', id) == Reconciled(h, files, rows, id);
  }

  /** The whole scan, for one message and in terms of its rows: what becomes of its final file and of its part file. */
  lemma ScanIs(h: Bytes -> Bytes, files: map<Name, Bytes>, rows: seq<Fetch>, files': map<Name, Bytes>, id: Name)
    requires ValidRows(rows) && IsReconciled(h, files, rows, files') && ValidId(id)
    ensures var known := exists f :: f in rows && f.msg == id;
            var ready := exists f :: f in rows && f.msg == id && f.state == Ready;
            var resumable := exists f :: f in rows && f.msg == id && f.state in {Pending, Downloading, FailedTransient};
            var final, part := At(files, id), At(files, PartName(id));
            var final', part' := At(files', id), At(files', PartName(id));
            && (!known ==> final' == final && part' == None)
            && (ready && final.Some? ==> final' == final)
            && (ready && final.None? && resumable ==> final' == None)
            && (ready && final.None? && !resumable ==>
                  var row := StateOf(rows, id).readyRow;
                  final' == if row.Some? && part.Some? && row.value.expectedSize > 0 && row.value.expectedSha != [] &&
                               |part.value| == row.value.expectedSize && h(part.value) == row.value.expectedSha
                            then part else None)
            && (known && !ready && !resumable ==> final' == None)
            && (!ready && resumable ==> final' == if part.None? then None else final)
            && (!resumable ==> part' == None)
            && (resumable ==> part' == if part.None? && !ready then final else part)
  {
    StateIs(rows, id);
    PartBack(id);
    var s := StateOf(rows, id);
    assert At(files', id) == Reconciled(h, files, rows, id);
    assert At(files', PartName(id)) == Reconciled(h, files, rows, PartName(id));
  }

  /** Of several ready rows of a message the last listed one decides. */
  lemma LastReadyDecides(rows: seq<Fetch>, f: Fetch)
    ensures f.state == Ready ==> StateOf(rows + [f], f.msg).readyRow == Some(f)
    ensures forall id | f.state != Ready || f.msg != id ::
              StateOf(rows + [f], id).readyRow == StateOf(rows, id).readyRow
  {
    assert (rows + [f])[..|rows|] == rows;
  }

  /** A ready message keeps its final file; a final file that comes back matches the size and hash of a ready row;
      every part file left belongs to a message that can be resumed. */
  lemma ReadyFilesStay(h: Bytes -> Bytes, files: map<Name, Bytes>, rows: seq<Fetch>, files': map<Name, Bytes>, n: Name)
    requires ValidRows(rows) && IsReconciled(h, files, rows, files')
    ensures StateOf(rows, n).ready && n in files ==> At(files', n) == At(files, n)
    ensures !IsPart(n) && n in files' && n !in files ==>
            exists f :: f in rows && f.msg == n && f.state == Ready && IsWhole(h, files'[n], f)
    ensures IsPart(n) && n in files' ==> StateOf(rows, Stem(n)).resumable
    ensures !StateOf(rows, n).any && !IsPart(n) ==> At(files', n) == At(files, n)
  {
    StateIs(rows, n);
    if IsPart(n) { NoRowsForParts(rows, n); }
    assert At(files', n) == Reconciled(h, files, rows, n);
  }

  /** Scanning again changes nothing. */
  lemma ScanIsIdempotent(h: Bytes -> Bytes, files: map<Name, Bytes>, rows: seq<Fetch>, files': map<Name, Bytes>)
    requires ValidRows(rows) && IsReconciled(h, files, rows, files')
    ensures IsReconciled(h, files', rows, files')
  {
    forall n ensures At(files', n) == Reconciled(h, files', rows, n) {
      SettledName(h, files, rows, files', n);
    }
  }

  lemma SettledName(h: Bytes -> Bytes, files: map<Name, Bytes>, rows: seq<Fetch>, files': map<Name, Bytes>, n: Name)
    requires ValidRows(rows) && IsReconciled(h, files, rows, files')
    ensures At(files', n) == Reconciled(h, files', rows, n)
  {
    hide StateOf;
    assert At(files', n) == Reconciled(h, files, rows, n);
    if IsPart(n) {
      var id := Stem(n);
      StemBack(n);
      if IsPart(id) { NoRowsForParts(rows, id); }
      assert At(files', id) == Reconciled(h, files, rows, id);
    } else {
      PartBack(n);
      assert At(files', PartName(n)) == Reconciled(h, files, rows, PartName(n));
    }
  }

  /** The result is one and the same, whatever the order of the scan. */
  lemma ScanIsDetermined(h: Bytes -> Bytes, files: map<Name, Bytes>, rows: seq<Fetch>, a: map<Name, Bytes>,
                         b: map<Name, Bytes>)
    requires IsReconciled(h, files, rows, a) && IsReconciled(h, files, rows, b)
    ensures a == b
  {
    forall n ensures At(a, n) == At(b, n) {
      assert At(a, n) == Reconciled(h, files, rows, n) == At(b, n);
    }
    assert a.Keys == b.Keys by {
      forall n ensures n in a <==> n in b { assert At(a, n) == At(b, n); }
    }
    forall n | n in a ensures a[n] == b[n] { assert At(a, n) == At(b, n); }
  }

  // ---------- a scan cut short ----------

  /** Every name is as before or as after the scan, and the two names of a message that can be resumed, or of a
      restored file, change together. */
  ghost predicate Between(h: Bytes -> Bytes, files: map<Name, Bytes>, rows: seq<Fetch>, files': map<Name, Bytes>) {
    forall n :: NameBetween(h, files, rows, files', n)
  }

  predicate NameBetween(h: Bytes -> Bytes, files: map<Name, Bytes>, rows: seq<Fetch>, files': map<Name, Bytes>,
                        n: Name)
  {
    var p := PartName(n);
    && (At(files', n) == At(files, n) || At(files', n) == Reconciled(h, files, rows, n))
    && (Moves(files, rows, n) || (!IsPart(n) && Restores(h, files, rows, n)) ==>
          (At(files', n) == At(files, n) && At(files', p) == At(files, p)) ||
          (At(files', n) == Reconciled(h, files, rows, n) && At(files', p) == Reconciled(h, files, rows, p)))
  }

  /** Rows as the store lists them. */
  ghost predicate Lists(rows: seq<Fetch>, stored: map<Token, Fetch>) {
    && (forall f | f in rows :: exists t :: t in stored && stored[t] == f)
    && (forall t | t in stored :: stored[t] in rows)
  }

  /** Even a scan cut short anywhere leaves every ready row its file, and a message that can be resumed its bytes. */
  lemma CutScanKeeps(h: Bytes -> Bytes, d: Disk, rows: seq<Fetch>, files': map<Name, Bytes>)
    requires DiskOk(h, d) && Lists(rows, d.rows) && Between(h, d.files, rows, files')
    ensures DiskOk(h, d.(files := files'))
    ensures forall t | t in d.rows && Resumable(d.rows[t].state) && d.rows[t].msg in d.files ::
              d.files[d.rows[t].msg] in files'.Values
  {
    forall t | t in d.rows ensures RowOk(h, files', t, d.rows[t]) {
      var f := d.rows[t];
      assert RowOk(h, d.files, t, f);
      StateIs(rows, f.msg);
      if f.state == Ready { assert NameBetween(h, d.files, rows, files', f.msg); }
    }
    forall t | t in d.rows && Resumable(d.rows[t].state) && d.rows[t].msg in d.files
      ensures d.files[d.rows[t].msg] in files'.Values
    {
      var f := d.rows[t];
      assert RowOk(h, d.files, t, f);
      PartBack(f.msg);
      StateIs(rows, f.msg);
      assert NameBetween(h, d.files, rows, files', f.msg);
      assert At(files', f.msg) == At(d.files, f.msg) || At(files', PartName(f.msg)) == At(d.files, f.msg);
    }
  }

  // ---------- a crash between the rename and the ready row ----------

  /** The crash left the finished file without its row. The scan makes it a part file again, and the next run
      turns that into the file without asking anybody. */
  lemma CrashAfterRenameRecovers(h: Bytes -> Bytes, d: Disk, rows: seq<Fetch>, files': map<Name, Bytes>, token: Token,
                                 e: RunEnv)
    requires DiskOk(h, d) && Lists(rows, d.rows) && token in d.rows && d.rows[token].state == Downloading
    requires var f := d.rows[token];
             f.msg in d.files && PartName(f.msg) !in d.files && IsWhole(h, d.files[f.msg], f)
    requires IsReconciled(h, d.files, rows, files')
    requires e.statOk && e.finish.readOk && e.finish.renameOk && e.finish.persistOk
    ensures var d' := RunOne(h, d.(files := files'), token, e);
            && token in d'.rows && d'.rows[token].state == Ready
            && At(d'.files, d.rows[token].msg) == At(d.files, d.rows[token].msg)
  {
    hide Ask;
    var f := d.rows[token];
    assert RowOk(h, d.files, token, f);
    PartBack(f.msg);
    StateIs(rows, f.msg);
    assert !StateOf(rows, f.msg).ready;
    assert At(files', PartName(f.msg)) == At(d.files, f.msg);
    var d1 := d.(files := files');
    var row1 := Begun(d1, f);
    var d2 := Persisted(d1, row1, e.beginOk);
    FinishedIs(d2, f.msg);
  }
}
