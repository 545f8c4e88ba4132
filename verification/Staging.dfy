/** The file manager's side of fetching: taking in a fetch, dropping one, and the scan at start-up. */
module Staging {
  import opened Bytes
  import opened FetchModel
  import opened StagingModel

  datatype PutError = Done | EmptyToken | EmptyMsg | IdInvalid | TokenInUse | AlreadyReady

  function PutOutcome(d: Disk, f: Fetch): PutError {
    if f.token == "" then EmptyToken
    else if f.msg == "" then EmptyMsg
    else if !ValidId(f.msg) then IdInvalid
    else if f.token !in d.rows then Done
    else
      match d.rows[f.token].state
      case Pending => TokenInUse
      case Downloading => TokenInUse
      case Ready => if d.rows[f.token].msg in d.files then AlreadyReady else Done
      case _ => Done
  }

  datatype DropError = Dropped | BadId | InFlight | IoError

  predicate Pulling(rows: map<Token, Fetch>, id: Name, t: Token) {
    t in rows && rows[t].msg == id && (rows[t].state == Pending || rows[t].state == Downloading)
  }

  function DropOutcome(d: Disk, id: Name, finalOk: bool, partOk: bool): DropError {
    if !ValidId(id) then BadId
    else if exists t | t in d.rows :: Pulling(d.rows, id, t) then InFlight
    else if (!finalOk && id in d.files) || (!partOk && PartName(id) in d.files) then IoError
    else Dropped
  }

  /** The names whose removal or renaming fails are where they were. */
  ghost predicate BadStay(files0: map<Name, Bytes>, files: map<Name, Bytes>, bad: set<Name>) {
    forall n | n in bad && n in files0 :: n in files && files[n] == files0[n]
  }

  class Manager {
    const h: Bytes -> Bytes
    var files: map<Name, Bytes>
    var rows: map<Token, Fetch>

    constructor (h: Bytes -> Bytes, d: Disk)
      ensures this.h == h && files == d.files && rows == d.rows
    {
      this.h, files, rows := h, d.files, d.rows;
    }

    method PutFetch(f: Fetch) returns (r: PutError)
      modifies this`rows
      ensures r == PutOutcome(Disk(files, old(rows)), f)
      ensures r == EmptyToken <==> f.token == ""
      ensures r == EmptyMsg <==> f.token != "" && f.msg == ""
      ensures r == IdInvalid <==> f.token != "" && |f.msg| >= 5 && f.msg[|f.msg| - 5..] == ".part"
      ensures r == TokenInUse ==> f.token in old(rows) && old(rows)[f.token].state in {Pending, Downloading}
      ensures r == AlreadyReady ==>
        f.token in old(rows) && old(rows)[f.token].state == Ready && old(rows)[f.token].msg in files
      ensures r == Done ==> f.token in old(rows) ==>
        && old(rows)[f.token].state !in {Pending, Downloading}
        && (old(rows)[f.token].state == Ready ==> old(rows)[f.token].msg !in files)
      ensures rows == if r == Done then old(rows)[f.token := f] else old(rows)
    {
      if f.token == "" {
        return EmptyToken;
      }
      if f.msg == "" {
        return EmptyMsg;
      }
      if !ValidId(f.msg) {
        return IdInvalid;
      }
      if f.token in rows {
        var existing := rows[f.token];
        match existing.state {
          case Pending => return TokenInUse;
          case Downloading => return TokenInUse;
          case Ready =>
            if existing.msg in files {
              return AlreadyReady;
            }
          case _ =>
        }
      }
      rows := rows[f.token := f];
      r := Done;
    }

    method FetchInFlightForMsg(id: Name) returns (found: bool)
      ensures found <==> exists t | t in rows :: Pulling(rows, id, t)
    {
      found := false;
      var left := rows.Keys;
      while left != {}
        invariant left <= rows.Keys && !found
        invariant forall t | t in rows.Keys - left :: !Pulling(rows, id, t)
        decreases left
      {
        var t :| t in left;
        if rows[t].msg == id && (rows[t].state == Pending || rows[t].state == Downloading) {
          assert Pulling(rows, id, t);
          return true;
        }
        left := left - {t};
      }
    }

    /** Drops a message's files and then its row. The row outlives a removal that fails. */
    method DropStaging(id: Name, token: Token, finalOk: bool, partOk: bool) returns (r: DropError)
      modifies this`files, this`rows
      ensures r == DropOutcome(Disk(old(files), old(rows)), id, finalOk, partOk)
      ensures r == BadId <==> id == "" || (|id| >= 5 && id[|id| - 5..] == ".part")
      ensures r == InFlight <==> r != BadId && exists t ::
        t in old(rows) && old(rows)[t].msg == id && old(rows)[t].state in {Pending, Downloading}
      ensures r == Dropped ==> (finalOk || id !in old(files)) && (partOk || PartName(id) !in old(files))
      ensures r == IoError ==> (!finalOk && id in old(files)) || (!partOk && PartName(id) in old(files))
      ensures r == BadId || r == InFlight ==> files == old(files) && rows == old(rows)
      ensures r == Dropped ==> files == old(files) - {id, PartName(id)}
      ensures r == Dropped ==> rows == if token == "" then old(rows) else old(rows) - {token}
      ensures r == IoError ==> rows == old(rows) && files == Swept(old(files), id, finalOk, partOk)
    {
      if !ValidId(id) {
        return BadId;
      }
      var inFlight := FetchInFlightForMsg(id);
      if inFlight {
        return InFlight;
      }
      NamesApart(id, id);
      if !finalOk && id in files {
        return IoError;
      }
      assert !finalOk ==> files - {id} == files;
      files := files - {id};
      if !partOk && PartName(id) in files {
        return IoError;
      }
      assert !partOk ==> files - {PartName(id)} == files;
      files := files - {PartName(id)};
      assert files == old(files) - {id, PartName(id)};
      if token != "" {
        rows := rows - {token};
      }
      r := Dropped;
    }

    /** Gathers, per message, what its rows say. */
    method Collect(listing: seq<Fetch>) returns (states: map<Name, MsgState>)
      ensures Knows(states, listing)
    {
      states := map[];
      for i := 0 to |listing|
        invariant Knows(states, listing[..i])
      {
        var f := listing[i];
        var st := Look(states, f.msg);
        st := st.(any := true);
        if f.state == Ready {
          st := st.(ready := true, readyRow := Some(f));
        } else if Resumable(f.state) {
          st := st.(resumable := true);
        }
        CollectOne(states, listing[..i], f);
        assert listing[..i + 1] == listing[..i] + [f];
        states := states[f.msg := st];
      }
      assert listing[..|listing|] == listing;
    }

    /** The first loop: final files of messages that are not ready go, or become part files again. */
    method SettleFinals(listing: seq<Fetch>, states: map<Name, MsgState>, bad: set<Name>)
      returns (names: set<Name>, ok: bool)
      requires ValidRows(listing) && Knows(states, listing)
      modifies this`files
      ensures Between(h, old(files), listing, files)
      ensures ok ==> FinalsDone(old(files), listing, {}, names, files)
      ensures bad == {} ==> ok
      ensures BadStay(old(files), files, bad) && forall n | n in bad && n in old(files) :: n in names
    {
      hide StateOf, Between, FinalsDone, Look;
      names := files.Keys;
      var left := set n | n in names && !IsPart(n);
      FinalsStart(files, listing, left);
      while left != {}
        invariant FinalsDone(old(files), listing, left, names, files)
        invariant forall id | id in left :: !IsPart(id)
        invariant BadStay(old(files), files, bad) && forall n | n in bad && n in old(files) :: n in names
        decreases left
      {
        var id :| id in left;
        FinalsBetween(h, old(files), listing, left, names, files);
        FinalsStep(old(files), listing, left, names, files, id);
        assert Look(states, id) == StateOf(listing, id);
        AnyRow(listing, id);
        left := left - {id};
        var st := Look(states, id);
        if !st.any || st.ready {
          continue;
        }
        if !st.resumable {
          if id in bad {
            return names, false;
          }
          files := files - {id};
          continue;
        }
        if PartName(id) in names {
          continue;
        }
        if id in bad {
          return names, false;
        }
        files := (files - {id})[PartName(id) := files[id]];
        names := names - {id} + {PartName(id)};
      }
      FinalsBetween(h, old(files), listing, left, names, files);
      ok := true;
    }

    /** The second loop: part files of messages that cannot be resumed become the missing file of a ready row, or go. */
    method SettleParts(ghost files0: map<Name, Bytes>, listing: seq<Fetch>, states: map<Name, MsgState>,
                       names: set<Name>, bad: set<Name>)
      returns (ok: bool)
      requires ValidRows(listing) && Knows(states, listing) && FinalsDone(files0, listing, {}, names, files)
      requires BadStay(files0, files, bad) && forall n | n in bad && n in files0 :: n in names
      modifies this`files
      ensures Between(h, files0, listing, files)
      ensures ok ==> IsReconciled(h, files0, listing, files)
      ensures bad == {} ==> ok
      ensures BadStay(files0, files, bad)
    {
      hide StateOf, Between, FinalsDone, PartsDone, IsReconciled, Look;
      var left := names;
      PartsStart(h, files0, listing, names, files);
      while left != {}
        invariant left <= names && PartsDone(h, files0, listing, left, files)
        invariant BadStay(files0, files, bad)
        decreases left
      {
        var name :| name in left;
        PartsBetween(h, files0, listing, left, files);
        PartsStep(h, files0, listing, names, left, files, name);
        left := left - {name};
        if !IsPart(name) {
          continue;
        }
        var id := Stem(name);
        assert Look(states, id) == StateOf(listing, id);
        var st := Look(states, id);
        if st.resumable {
          continue;
        }
        if name in bad {
          return false;
        }
        if st.ready && id !in names && name in files && st.readyRow.Some? &&
           IsWhole(h, files[name], st.readyRow.value)
        {
          files := (files - {name})[id := files[name]];
          continue;
        }
        files := files - {name};
      }
      PartsBetween(h, files0, listing, left, files);
      PartsEnd(h, files0, listing, files);
      ok := true;
    }

    /** The scan at start-up over the rows as listed; both loops take names in any order. A rename or removal of
        a name in bad fails and ends the scan there. */
    method ReconcileStaging(listing: seq<Fetch>, bad: set<Name>) returns (ok: bool)
      requires ValidRows(listing)
      modifies this`files
      ensures Between(h, old(files), listing, files)
      ensures ok ==> IsReconciled(h, old(files), listing, files)
      ensures bad == {} ==> ok
      ensures forall n | n in bad && n in old(files) :: n in files && files[n] == old(files)[n]
    {
      hide Between, IsReconciled, FinalsDone, Knows;
      ghost var was := files;
      var states := Collect(listing);
      var names: set<Name>;
      names, ok := SettleFinals(listing, states, bad);
      if !ok {
        return;
      }
      ok := SettleParts(was, listing, states, names, bad);
    }
  }

  // ---------- taking in and dropping ----------

  /** A new fetch keeps the disk's promises exactly when no other token fetches the same message. */
  lemma PutKeepsIff(h: Bytes -> Bytes, d: Disk, f: Fetch)
    requires DiskOk(h, d) && PutOutcome(d, f) == Done && f.state == Pending
    ensures DiskOk(h, d.(rows := d.rows[f.token := f])) <==>
            forall t | t in d.rows && t != f.token :: d.rows[t].msg != f.msg
  {
    var d' := d.(rows := d.rows[f.token := f]);
    if forall t | t in d.rows && t != f.token :: d.rows[t].msg != f.msg {
      forall t | t in d'.rows ensures RowOk(h, d'.files, t, d'.rows[t]) {
        if t != f.token { assert RowOk(h, d.files, t, d.rows[t]); }
      }
    } else {
      var t :| t in d.rows && t != f.token && d.rows[t].msg == f.msg;
      assert d'.rows[t].msg == d'.rows[f.token].msg;
    }
  }

  /** A drop keeps them exactly when the message's ready row, if it has one, is the row being dropped. */
  lemma DropKeepsIff(h: Bytes -> Bytes, d: Disk, id: Name, token: Token, finalOk: bool, partOk: bool)
    requires DiskOk(h, d) && DropOutcome(d, id, finalOk, partOk) == Dropped && token != ""
    ensures DiskOk(h, Disk(d.files - {id, PartName(id)}, d.rows - {token})) <==>
            forall t | t in d.rows && d.rows[t].msg == id && d.rows[t].state == Ready :: t == token
  {
    var d' := Disk(d.files - {id, PartName(id)}, d.rows - {token});
    if forall t | t in d.rows && d.rows[t].msg == id && d.rows[t].state == Ready :: t == token {
      forall t | t in d'.rows ensures RowOk(h, d'.files, t, d'.rows[t]) {
        assert RowOk(h, d.files, t, d.rows[t]);
        NamesApart(d.rows[t].msg, id);
      }
    } else {
      var t :| t in d.rows && d.rows[t].msg == id && d.rows[t].state == Ready && t != token;
      assert t in d'.rows && d'.rows[t] == d.rows[t];
      assert !RowOk(h, d'.files, t, d'.rows[t]);
    }
  }

  /** A drop cut short by a failed removal keeps them exactly when it had not yet removed the final file of a ready
      row: the removal of that file failed, or no row of the message is ready. */
  lemma DropCutShortKeepsIff(h: Bytes -> Bytes, d: Disk, id: Name, finalOk: bool, partOk: bool)
    requires DiskOk(h, d) && DropOutcome(d, id, finalOk, partOk) == IoError
    ensures DiskOk(h, d.(files := Swept(d.files, id, finalOk, partOk))) <==>
            (finalOk ==> forall t | t in d.rows && d.rows[t].msg == id :: d.rows[t].state != Ready)
  {
    var d' := d.(files := Swept(d.files, id, finalOk, partOk));
    if finalOk ==> forall t | t in d.rows && d.rows[t].msg == id :: d.rows[t].state != Ready {
      forall t | t in d.rows ensures RowOk(h, d'.files, t, d.rows[t]) {
        assert RowOk(h, d.files, t, d.rows[t]);
        NamesApart(d.rows[t].msg, id);
      }
    } else {
      var t :| t in d.rows && d.rows[t].msg == id && d.rows[t].state == Ready;
      assert !RowOk(h, d'.files, t, d'.rows[t]);
    }
  }

  /** The row goes last: with the final file gone and the part file's removal failing, a ready row is left without
      its file. */
  lemma DropCutShort(h: Bytes -> Bytes, content: Bytes)
    ensures var row := Fetch("t", "m", |content|, h(content), |content|, Ready, 0, false, NoReason);
            var d := Disk(map["m" := content, "m.part" := []], map["t" := row]);
            DiskOk(h, d) && DropOutcome(d, "m", true, false) == IoError &&
            !DiskOk(h, d.(files := Swept(d.files, "m", true, false)))
  {
    var row := Fetch("t", "m", |content|, h(content), |content|, Ready, 0, false, NoReason);
    var d := Disk(map["m" := content, "m.part" := []], map["t" := row]);
    assert RowOk(h, d.files, "t", row);
    assert PartName("m") == "m.part";
    forall t ensures !Pulling(d.rows, "m", t) { }
    var d' := d.(files := Swept(d.files, "m", true, false));
    assert !RowOk(h, d'.files, "t", d'.rows["t"]);
  }

  function Look(states: map<Name, MsgState>, id: Name): MsgState {
    if id in states then states[id] else MsgState(false, false, false, None)
  }

  ghost predicate Knows(states: map<Name, MsgState>, listing: seq<Fetch>) {
    forall id :: Look(states, id) == StateOf(listing, id)
  }

  lemma CollectOne(states: map<Name, MsgState>, rows: seq<Fetch>, f: Fetch)
    requires Knows(states, rows)
    ensures Knows(states[f.msg := WithRow(Look(states, f.msg), f)], rows + [f])
  {
    var states' := states[f.msg := WithRow(Look(states, f.msg), f)];
    assert (rows + [f])[..|rows|] == rows;
    forall id ensures Look(states', id) == StateOf(rows + [f], id) {
      assert Look(states, id) == StateOf(rows, id);
    }
  }

  lemma {:induction false} AnyRow(rows: seq<Fetch>, id: Name)
    ensures StateOf(rows, id).resumable || StateOf(rows, id).ready ==> StateOf(rows, id).any
  {
    if rows != [] { AnyRow(rows[..|rows| - 1], id); }
  }

  function Base(n: Name): Name { if IsPart(n) then Stem(n) else n }

  /** The first loop with the names in left still to do. */
  ghost predicate FinalsDone(files0: map<Name, Bytes>, rows: seq<Fetch>, left: set<Name>, names: set<Name>,
                             files: map<Name, Bytes>)
  {
    forall n :: FinalDone(files0, rows, left, names, files, n)
  }

  predicate FinalDone(files0: map<Name, Bytes>, rows: seq<Fetch>, left: set<Name>, names: set<Name>,
                      files: map<Name, Bytes>, n: Name)
  {
    && At(files, n) == (if Base(n) in left then At(files0, n) else Phase1(files0, rows, n))
    && (n in names <==> if Moves(files0, rows, Base(n)) && Base(n) !in left then IsPart(n) else n in files0)
    && (n in left ==> n in files0)
  }

  lemma FinalsStart(files: map<Name, Bytes>, rows: seq<Fetch>, left: set<Name>)
    requires left == set n | n in files.Keys && !IsPart(n)
    ensures FinalsDone(files, rows, left, files.Keys, files)
  {
    hide StateOf;
  }

  lemma FinalsStep(files0: map<Name, Bytes>, rows: seq<Fetch>, left: set<Name>, names: set<Name>,
                   files: map<Name, Bytes>, id: Name)
    requires FinalsDone(files0, rows, left, names, files) && id in left && !IsPart(id)
    ensures id in files && (PartName(id) in names <==> PartName(id) in files0)
    ensures Moves(files0, rows, id) ==>
      FinalsDone(files0, rows, left - {id}, names - {id} + {PartName(id)}, (files - {id})[PartName(id) := files[id]])
    ensures Drops(rows, id) ==> FinalsDone(files0, rows, left - {id}, names, files - {id})
    ensures !Moves(files0, rows, id) && !Drops(rows, id) ==> FinalsDone(files0, rows, left - {id}, names, files)
    ensures id in files0
  {
    hide StateOf, Phase1, Moves, Drops;
    assert FinalDone(files0, rows, left, names, files, id);
    PartBack(id);
    assert FinalDone(files0, rows, left, names, files, PartName(id));
    Phase1Is(files0, rows, id);
    if Moves(files0, rows, id) {
      var names', files' := names - {id} + {PartName(id)}, (files - {id})[PartName(id) := files[id]];
      forall n
        ensures FinalDone(files0, rows, left - {id}, names', files', n)
      {
        OneFinal(files0, rows, left, names, files, id, n);
      }
    } else if Drops(rows, id) {
      forall n
        ensures FinalDone(files0, rows, left - {id}, names, files - {id}, n)
      {
        OneFinal(files0, rows, left, names, files, id, n);
      }
    } else {
      forall n
        ensures FinalDone(files0, rows, left - {id}, names, files, n)
      {
        OneFinal(files0, rows, left, names, files, id, n);
      }
    }
  }

  /** What the first loop does to the two names of one message. */
  lemma Phase1Is(files0: map<Name, Bytes>, rows: seq<Fetch>, id: Name)
    requires !IsPart(id) && id in files0
    ensures Phase1(files0, rows, id) == if Moves(files0, rows, id) || Drops(rows, id) then None else At(files0, id)
    ensures Phase1(files0, rows, PartName(id)) ==
            if Moves(files0, rows, id) then At(files0, id) else At(files0, PartName(id))
    ensures Moves(files0, rows, id) ==> !Drops(rows, id) && PartName(id) !in files0
  {
    PartBack(id);
  }

  /** A name other than the two of message id does not notice that id is done. */
  lemma OneFinal(files0: map<Name, Bytes>, rows: seq<Fetch>, left: set<Name>, names: set<Name>, files: map<Name, Bytes>,
                 id: Name, n: Name)
    requires FinalDone(files0, rows, left, names, files, n) && !IsPart(id)
    ensures n != id && n != PartName(id) ==> Base(n) != id && FinalDone(files0, rows, left - {id}, names, files, n)
  {
    hide StateOf, Phase1, Moves, Drops;
    if IsPart(n) { StemBack(n); }
  }

  lemma FinalsBetween(h: Bytes -> Bytes, files0: map<Name, Bytes>, rows: seq<Fetch>, left: set<Name>, names: set<Name>,
                      files: map<Name, Bytes>)
    requires ValidRows(rows) && FinalsDone(files0, rows, left, names, files)
    ensures Between(h, files0, rows, files)
  {
    forall n ensures NameBetween(h, files0, rows, files, n) {
      PartBack(n);
      assert FinalDone(files0, rows, left, names, files, n);
      assert FinalDone(files0, rows, left, names, files, PartName(n));
      FinalBetween(h, files0, rows, left, names, files, n);
    }
  }

  lemma FinalBetween(h: Bytes -> Bytes, files0: map<Name, Bytes>, rows: seq<Fetch>, left: set<Name>, names: set<Name>,
                     files: map<Name, Bytes>, n: Name)
    requires ValidRows(rows) && FinalDone(files0, rows, left, names, files, n)
    requires FinalDone(files0, rows, left, names, files, PartName(n))
    ensures NameBetween(h, files0, rows, files, n)
  {
    hide StateOf;
    PartBack(n);
  }

  /** The second loop with the names in left still to do. */
  ghost predicate PartsDone(h: Bytes -> Bytes, files0: map<Name, Bytes>, rows: seq<Fetch>, left: set<Name>,
                            files: map<Name, Bytes>)
  {
    forall n :: PartDone(h, files0, rows, left, files, n)
  }

  predicate PartDone(h: Bytes -> Bytes, files0: map<Name, Bytes>, rows: seq<Fetch>, left: set<Name>,
                     files: map<Name, Bytes>, n: Name)
  {
    At(files, n) == if PartName(Base(n)) in left then Phase1(files0, rows, n) else Reconciled(h, files0, rows, n)
  }

  lemma PartsStart(h: Bytes -> Bytes, files0: map<Name, Bytes>, rows: seq<Fetch>, names: set<Name>,
                   files: map<Name, Bytes>)
    requires FinalsDone(files0, rows, {}, names, files)
    ensures PartsDone(h, files0, rows, names, files)
  {
    hide StateOf;
    forall n ensures PartDone(h, files0, rows, names, files, n) {
      assert FinalDone(files0, rows, {}, names, files, n);
      if IsPart(n) { StemBack(n); }
      PartBack(n);
      assert FinalDone(files0, rows, {}, names, files, PartName(n));
    }
  }

  /** One name of the second loop: what it finds, and the three ways to go on. */
  lemma PartsStep(h: Bytes -> Bytes, files0: map<Name, Bytes>, rows: seq<Fetch>, names: set<Name>, left: set<Name>,
                  files: map<Name, Bytes>, name: Name)
    requires ValidRows(rows) && PartsDone(h, files0, rows, left, files) && name in left && left <= names
    requires exists files1 :: FinalsDone(files0, rows, {}, names, files1)
    ensures !IsPart(name) || StateOf(rows, Stem(name)).resumable ==> PartsDone(h, files0, rows, left - {name}, files)
    ensures IsPart(name) && !StateOf(rows, Stem(name)).resumable ==>
      var id := Stem(name); var st := StateOf(rows, id);
      if st.ready && id !in names && name in files && st.readyRow.Some? && IsWhole(h, files[name], st.readyRow.value)
      then PartsDone(h, files0, rows, left - {name}, (files - {name})[id := files[name]])
      else PartsDone(h, files0, rows, left - {name}, files - {name})
  {
    hide StateOf, Phase1, Reconciled;
    var files1 :| FinalsDone(files0, rows, {}, names, files1);
    if IsPart(name) {
      var id := Stem(name);
      StemBack(name);
      assert PartDone(h, files0, rows, left, files, name);
      assert FinalDone(files0, rows, {}, names, files1, id);
      NameSettles(h, files0, rows, name);
      var st := StateOf(rows, id);
      if st.resumable {
        forall n
          ensures PartDone(h, files0, rows, left - {name}, files, n)
        {
          OnePart(h, files0, rows, left, files, name, n);
        }
      } else if st.ready && id !in names && name in files && st.readyRow.Some? &&
                IsWhole(h, files[name], st.readyRow.value)
      {
        var files' := (files - {name})[id := files[name]];
        forall n ensures PartDone(h, files0, rows, left - {name}, files', n) {
          OnePart(h, files0, rows, left, files, name, n);
        }
      } else {
        forall n
          ensures PartDone(h, files0, rows, left - {name}, files - {name}, n)
        {
          OnePart(h, files0, rows, left, files, name, n);
        }
      }
    } else {
      forall n
        ensures PartDone(h, files0, rows, left - {name}, files, n)
      {
        OnePart(h, files0, rows, left, files, name, n);
      }
    }
  }

  lemma OnePart(h: Bytes -> Bytes, files0: map<Name, Bytes>, rows: seq<Fetch>, left: set<Name>, files: map<Name, Bytes>,
                name: Name, n: Name)
    requires PartsDone(h, files0, rows, left, files)
    ensures PartDone(h, files0, rows, left, files, n)
    ensures PartName(Base(n)) != name ==> PartDone(h, files0, rows, left - {name}, files, n)
    ensures IsPart(name) && n != name && n != Stem(name) ==> PartName(Base(n)) != name
    ensures !IsPart(name) ==> PartName(Base(n)) != name
  {
    hide Phase1, Reconciled;
    assert PartDone(h, files0, rows, left, files, n);
    PartBack(Base(n));
    if IsPart(n) { StemBack(n); }
  }

  /** The second loop's effect on the two names of one message. */
  lemma NameSettles(h: Bytes -> Bytes, files0: map<Name, Bytes>, rows: seq<Fetch>, name: Name)
    requires ValidRows(rows) && IsPart(name)
    ensures var id := Stem(name); var st := StateOf(rows, id);
            && (st.ready || st.resumable ==> !IsPart(id))
            && (st.resumable ==> Reconciled(h, files0, rows, name) == Phase1(files0, rows, name) &&
                                 Reconciled(h, files0, rows, id) == Phase1(files0, rows, id))
            && (!st.resumable ==>
                  Reconciled(h, files0, rows, name).None? && Phase1(files0, rows, name) == At(files0, name) &&
                                  !Moves(files0, rows, id))
            && (!IsPart(id) && !st.resumable ==>
                  Reconciled(h, files0, rows, id) ==
                  if Restores(h, files0, rows, id) then At(files0, name) else Phase1(files0, rows, id))
            && Base(name) == id && PartName(id) == name
  {
    hide StateOf;
    StemBack(name);
    if IsPart(Stem(name)) { NoRowsForParts(rows, Stem(name)); }
  }

  lemma PartsBetween(h: Bytes -> Bytes, files0: map<Name, Bytes>, rows: seq<Fetch>, left: set<Name>,
                     files: map<Name, Bytes>)
    requires ValidRows(rows) && PartsDone(h, files0, rows, left, files)
    ensures Between(h, files0, rows, files)
  {
    forall n ensures NameBetween(h, files0, rows, files, n) {
      PartBack(n);
      assert PartDone(h, files0, rows, left, files, n);
      assert PartDone(h, files0, rows, left, files, PartName(n));
      PartBetween(h, files0, rows, left, files, n);
    }
  }

  lemma PartBetween(h: Bytes -> Bytes, files0: map<Name, Bytes>, rows: seq<Fetch>, left: set<Name>,
                    files: map<Name, Bytes>, n: Name)
    requires ValidRows(rows) && PartDone(h, files0, rows, left, files, n) &&
             PartDone(h, files0, rows, left, files, PartName(n))
    ensures NameBetween(h, files0, rows, files, n)
  {
    hide StateOf;
    PartBack(n);
  }

  lemma PartsEnd(h: Bytes -> Bytes, files0: map<Name, Bytes>, rows: seq<Fetch>, files: map<Name, Bytes>)
    requires PartsDone(h, files0, rows, {}, files)
    ensures IsReconciled(h, files0, rows, files)
  {
    hide StateOf;
    forall n ensures At(files, n) == Reconciled(h, files0, rows, n) { assert PartDone(h, files0, rows, {}, files, n); }
  }
}
